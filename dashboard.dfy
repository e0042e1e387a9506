/**
 * The dashboard's decision logic: the air-quality banding, the status
 * colour, the "time ago" label, and one poll step that reconciles the
 * displayed readings with what a fetch returned. Rendering is not modelled.
 */
module Dashboard {
  import opened Wrappers
  import opened DbSchema
  import opened TypeSchema
  import Actions
  import EnvinfoRoute

  // ---------------------------------------------------------------- air quality

  datatype AirQualityInfo = AirQualityInfo(status: string, category: string, color: string)

  /** The inclusive upper bound of each band but the last, in ascending order. */
  const AqiUpperBounds: seq<real> := [50.0, 100.0, 150.0, 200.0, 300.0]

  const AqiBands: seq<AirQualityInfo> := [
    AirQualityInfo("good", "Good", "bg-green-500"),
    AirQualityInfo("moderate", "Moderate", "bg-yellow-500"),
    AirQualityInfo("unhealthy-sensitive", "Unhealthy for Sensitive Groups", "bg-orange-500"),
    AirQualityInfo("unhealthy", "Unhealthy", "bg-red-500"),
    AirQualityInfo("very-unhealthy", "Very Unhealthy", "bg-purple-500"),
    AirQualityInfo("hazardous", "Hazardous", "bg-red-800")]

  ghost predicate Ascending(bounds: seq<real>) {
    forall i, j :: 0 <= i < j < |bounds| ==> bounds[i] < bounds[j]
  }

  /** How many of `bounds` the value exceeds. */
  function CountExceeded(bounds: seq<real>, aqi: real): (n: nat)
    ensures n <= |bounds|
  {
    if bounds == [] then 0
    else (if bounds[0] < aqi then 1 else 0) + CountExceeded(bounds[1..], aqi)
  }

  /** Over ascending bounds, the count of exceeded bounds is the bracket the value falls in. */
  lemma {:induction false} CountExceededBrackets(bounds: seq<real>, aqi: real)
    requires Ascending(bounds)
    ensures var k := CountExceeded(bounds, aqi);
      (k == 0 || bounds[k - 1] < aqi) && (k == |bounds| || aqi <= bounds[k])
  {
    if bounds != [] {
      var rest := bounds[1..];
      assert Ascending(rest) by {
        forall i, j | 0 <= i < j < |rest| ensures rest[i] < rest[j] {
          assert rest[i] == bounds[i + 1] && rest[j] == bounds[j + 1];
        }
      }
      CountExceededBrackets(rest, aqi);
      var k' := CountExceeded(rest, aqi);
      assert k' > 0 ==> rest[k' - 1] == bounds[k'];
    }
  }

  /** Exceeding is monotone: a larger value exceeds at least as many bounds. */
  lemma {:induction false} CountExceededMonotone(bounds: seq<real>, a: real, b: real)
    requires a <= b
    ensures CountExceeded(bounds, a) <= CountExceeded(bounds, b)
  {
    if bounds != [] {
      CountExceededMonotone(bounds[1..], a, b);
    }
  }

  /** The band index: the number of band upper bounds the value exceeds. */
  function BandIndex(aqi: real): (k: nat)
    ensures k < |AqiBands|
    ensures k == 0 || AqiUpperBounds[k - 1] < aqi
    ensures k == |AqiUpperBounds| || aqi <= AqiUpperBounds[k]
  {
    CountExceededBrackets(AqiUpperBounds, aqi);
    CountExceeded(AqiUpperBounds, aqi)
  }

  /** A higher reading never falls in a lower band. */
  lemma BandIndexMonotone(a: real, b: real)
    requires a <= b
    ensures BandIndex(a) <= BandIndex(b)
  {
    CountExceededMonotone(AqiUpperBounds, a, b);
  }

  /** Total over all readings; each band's upper bound belongs to that band. */
  function GetAirQualityStatus(aqi: real): (info: AirQualityInfo)
    ensures info == AqiBands[BandIndex(aqi)]
  {
    if aqi <= 50.0 then AirQualityInfo("good", "Good", "bg-green-500")
    else if aqi <= 100.0 then AirQualityInfo("moderate", "Moderate", "bg-yellow-500")
    else if aqi <= 150.0 then AirQualityInfo("unhealthy-sensitive", "Unhealthy for Sensitive Groups", "bg-orange-500")
    else if aqi <= 200.0 then AirQualityInfo("unhealthy", "Unhealthy", "bg-red-500")
    else if aqi <= 300.0 then AirQualityInfo("very-unhealthy", "Very Unhealthy", "bg-purple-500")
    else AirQualityInfo("hazardous", "Hazardous", "bg-red-800")
  }

  // ---------------------------------------------------------------- status colour

  const StatusColors: map<string, string> := map[
    "good" := "bg-green-500",
    "normal" := "bg-blue-500",
    "caution" := "bg-yellow-500",
    "warning" := "bg-orange-500",
    "danger" := "bg-red-500"]

  const DefaultColor := "bg-gray-500"

  /** The five known statuses get their own colours; everything else is grey. */
  function GetStatusColor(status: string): (color: string)
    ensures status in StatusColors ==> color == StatusColors[status]
    ensures color == DefaultColor <==> status !in StatusColors
  {
    match status
    case "good" => "bg-green-500"
    case "normal" => "bg-blue-500"
    case "caution" => "bg-yellow-500"
    case "warning" => "bg-orange-500"
    case "danger" => "bg-red-500"
    case _ => DefaultColor
  }

  /** No two known statuses share a colour. */
  lemma StatusColorsDistinct(s: string, t: string)
    requires s in StatusColors && t in StatusColors && s != t
    ensures GetStatusColor(s) != GetStatusColor(t)
  {
  }

  // ---------------------------------------------------------------- time ago

  const MinuteMs := 60000
  const HourMs := 60 * MinuteMs

  function DigitChar(d: nat): (c: char)
    requires d < 10
  {
    ('0' as int + d) as char
  }

  predicate AllDigits(s: string) {
    forall i :: 0 <= i < |s| ==> '0' <= s[i] <= '9'
  }

  /** How a non-negative integer is written in a template literal: no leading zero. */
  function Decimal(n: nat): (s: string)
    ensures |s| >= 1 && AllDigits(s)
    ensures s[0] == '0' ==> n == 0
  {
    if n < 10 then [DigitChar(n)] else Decimal(n / 10) + [DigitChar(n % 10)]
  }

  /** The number a string of decimal digits denotes. */
  function DigitsValue(s: string): nat
    requires AllDigits(s)
  {
    if s == [] then 0 else 10 * DigitsValue(s[..|s| - 1]) + (s[|s| - 1] as int - '0' as int)
  }

  /** Reading back the written number gives the number: the label's count identifies it. */
  lemma {:induction false} DecimalRoundTrip(n: nat)
    ensures DigitsValue(Decimal(n)) == n
  {
    if n >= 10 {
      var s := Decimal(n);
      assert s[..|s| - 1] == Decimal(n / 10);
      DecimalRoundTrip(n / 10);
    }
  }

  /** Whole minutes of whole minutes are whole hours. */
  lemma NestedFloor(d: int)
    requires d >= 0
    ensures d / MinuteMs / 60 == d / HourMs
  {
    var m := d / MinuteMs;
    var h := m / 60;
    assert m * MinuteMs <= d < m * MinuteMs + MinuteMs;
    assert h * 60 <= m < h * 60 + 60;
    assert h * HourMs <= d < h * HourMs + HourMs;
  }

  /**
   * The label for a time `date` seen at `now`, both in milliseconds: the
   * elapsed time is rounded down to whole minutes, and to whole hours from
   * one hour on. A date in the future reads "Just now".
   */
  function FormatTimeAgo(now: int, date: int): (text: string)
    ensures now - date < MinuteMs ==> text == "Just now"
    ensures MinuteMs <= now - date < 2 * MinuteMs ==> text == "1 minute ago"
    ensures 2 * MinuteMs <= now - date < HourMs ==>
      text == Decimal((now - date) / MinuteMs) + " minutes ago"
    ensures HourMs <= now - date < 2 * HourMs ==> text == "1 hour ago"
    ensures 2 * HourMs <= now - date ==>
      text == Decimal((now - date) / HourMs) + " hours ago"
  {
    var diffInMinutes := (now - date) / MinuteMs;
    if diffInMinutes < 1 then "Just now"
    else if diffInMinutes == 1 then "1 minute ago"
    else if diffInMinutes < 60 then Decimal(diffInMinutes) + " minutes ago"
    else
      NestedFloor(now - date);
      var diffInHours := diffInMinutes / 60;
      if diffInHours == 1 then "1 hour ago" else Decimal(diffInHours) + " hours ago"
  }

  /** Two "n minutes ago" labels are equal exactly when they show the same whole minutes. */
  lemma {:induction false} MinutesLabelIdentifiesElapsed(now1: int, date1: int, now2: int, date2: int)
    requires 2 * MinuteMs <= now1 - date1 < HourMs && 2 * MinuteMs <= now2 - date2 < HourMs
    ensures FormatTimeAgo(now1, date1) == FormatTimeAgo(now2, date2)
        <==> (now1 - date1) / MinuteMs == (now2 - date2) / MinuteMs
  {
    var m1, m2 := (now1 - date1) / MinuteMs, (now2 - date2) / MinuteMs;
    var suffix := " minutes ago";
    if Decimal(m1) + suffix == Decimal(m2) + suffix {
      assert Decimal(m1) == (Decimal(m1) + suffix)[..|Decimal(m1) + suffix| - |suffix|];
      assert Decimal(m2) == (Decimal(m2) + suffix)[..|Decimal(m2) + suffix| - |suffix|];
      DecimalRoundTrip(m1);
      DecimalRoundTrip(m2);
    }
  }

  // ---------------------------------------------------------------- poll step

  datatype Metric = Metric(value: real, unit: string, status: string, lastUpdated: int)

  datatype AirMetric = AirMetric(value: real, unit: string, status: string, category: string, lastUpdated: int)

  datatype SensorData = SensorData(temperature: Metric, humidity: Metric, heatIndex: Metric, airQuality: AirMetric)

  /**
   * The displayed readings after a successful poll returned `reading` at
   * `now`: each value is the reading's column, or a fixed fallback when the
   * column is null; units, statuses and the category are kept.
   */
  function Refreshed(prev: SensorData, reading: Row, now: int): (next: SensorData)
    ensures next.temperature == prev.temperature.(value := reading.temperature.GetOr(25.0), lastUpdated := now)
    ensures next.humidity == prev.humidity.(value := reading.humidity.GetOr(65.0), lastUpdated := now)
    ensures next.heatIndex == prev.heatIndex.(value := reading.heatIndex.GetOr(26.8), lastUpdated := now)
    ensures next.airQuality == prev.airQuality.(value := reading.mq_reading.GetOr(42.0), lastUpdated := now)
  {
    SensorData(
      Metric(reading.temperature.GetOr(25.0), prev.temperature.unit, prev.temperature.status, now),
      Metric(reading.humidity.GetOr(65.0), prev.humidity.unit, prev.humidity.status, now),
      Metric(reading.heatIndex.GetOr(26.8), prev.heatIndex.unit, prev.heatIndex.status, now),
      AirMetric(reading.mq_reading.GetOr(42.0), prev.airQuality.unit, prev.airQuality.status,
                prev.airQuality.category, now))
  }

  class DashboardState {
    var customEndpoint: string
    var sensorData: SensorData
    var lastRefresh: int

    /** The initial state from the server-rendered reading, at time `now`. */
    constructor (readings: Row, defaultEndpoint: string, now: int)
      ensures customEndpoint == defaultEndpoint && lastRefresh == now
      ensures var at := readings.timestamp.GetOr(now);
        sensorData == SensorData(
          Metric(readings.temperature.GetOr(26.0), "°C", "normal", at),
          Metric(readings.humidity.GetOr(65.0), "%", "normal", at),
          Metric(readings.heatIndex.GetOr(28.0), "°C", "caution", at),
          AirMetric(readings.mq_reading.GetOr(40.0), "AQI", "good", "Good", at))
    {
      var at := readings.timestamp.GetOr(now);
      customEndpoint := defaultEndpoint;
      sensorData := SensorData(
        Metric(readings.temperature.GetOr(26.0), "°C", "normal", at),
        Metric(readings.humidity.GetOr(65.0), "%", "normal", at),
        Metric(readings.heatIndex.GetOr(28.0), "°C", "caution", at),
        AirMetric(readings.mq_reading.GetOr(40.0), "AQI", "good", "Good", at));
      lastRefresh := now;
    }

    /** The endpoint input and its clear button; the empty string selects the database path. */
    method SetCustomEndpoint(endpoint: string)
      modifies this
      ensures customEndpoint == endpoint
      ensures sensorData == old(sensorData) && lastRefresh == old(lastRefresh)
    {
      customEndpoint := endpoint;
    }

    /** The refresh button: marks the display as refreshed at `now` without fetching anything. */
    method RefreshData(now: int)
      modifies this
      ensures lastRefresh == now
      ensures sensorData == old(sensorData) && customEndpoint == old(customEndpoint)
    {
      lastRefresh := now;
    }

    /**
     * One poll at time `now`. With a custom endpoint, `customFetch` is the
     * object it served (None: the request failed, was not OK, or its body
     * was not JSON). Without one, the table holds `tableRows` and
     * `queryFails` says whether the query throws. An empty result or a
     * failure leaves everything as it was.
     */
    method GetSetReadings(customFetch: Option<Row>, tableRows: seq<Row>, queryFails: bool, now: int)
      modifies this
      ensures customEndpoint == old(customEndpoint)
      ensures old(customEndpoint) != "" && customFetch.Some? ==>
        sensorData == Refreshed(old(sensorData), customFetch.value, now) && lastRefresh == now
      ensures old(customEndpoint) == "" && !queryFails && tableRows != [] ==>
        lastRefresh == now &&
        exists r :: r in tableRows && (forall x :: x in tableRows ==> AtLeastAsRecent(r, x))
                 && sensorData == Refreshed(old(sensorData), r, now)
      ensures || (old(customEndpoint) != "" && customFetch.None?)
              || (old(customEndpoint) == "" && (queryFails || tableRows == []))
        ==>
        sensorData == old(sensorData) && lastRefresh == old(lastRefresh)
    {
      var fetched: seq<Row>;
      if customEndpoint != "" {
        if customFetch.None? {
          return;
        }
        fetched := [customFetch.value];
      } else {
        fetched := Actions.GetSensorDataAction(tableRows, queryFails, 1);
        if !queryFails && tableRows != [] {
          Actions.DefaultCountYieldsMostRecent(tableRows);
        }
      }
      if |fetched| == 0 {
        return;
      }
      sensorData := Refreshed(sensorData, fetched[0], now);
      lastRefresh := now;
    }
  }

  /**
   * End to end: a device posts a valid payload stamped later than every
   * stored row, then a database-path poll runs; the dashboard then displays
   * exactly the four submitted values. Only the two handlers' contracts are used.
   */
  method IngestThenPollShowsSubmitted(
    table: EnvinfoRoute.ReadingTable, dash: DashboardState,
    raw: SensorReadingsRaw, extra: map<string, Json.Json>, id: string, stamped: int, now: int)
    requires table.Valid() && dash.customEndpoint == "" && !IdTaken(table.rows, id)
    requires forall x :: x in table.rows ==> x.timestamp.None? || x.timestamp.value < stamped
    modifies table, dash
    ensures dash.sensorData.temperature.value == raw.temperature
    ensures dash.sensorData.humidity.value == raw.humidity
    ensures dash.sensorData.heatIndex.value == raw.heat_index
    ensures dash.sensorData.airQuality.value == raw.mq8_value
  {
    ParseEncode(raw, extra);
    var posted := table.Post(Some(Encode(raw, extra)), id, stamped, false);
    var newRow := EnvinfoRoute.NewRow(id, raw, stamped);
    assert table.rows == old(table.rows) + [newRow];
    dash.GetSetReadings(None, table.rows, false, now);
    ghost var r :| r in table.rows && (forall x :: x in table.rows ==> AtLeastAsRecent(r, x))
                  && dash.sensorData == Refreshed(old(dash.sensorData), r, now);
    assert AtLeastAsRecent(r, newRow);
    assert r == newRow;
  }
}
