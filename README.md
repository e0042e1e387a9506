# Environment monitor: ingestion, retrieval and dashboard logic in Dafny

This project models the core of an IoT environment monitor. Devices POST
readings (temperature, humidity, heat index and a gas-sensor value) to the
server. The server validates them against a four-number schema and appends
them to a reading table. A server action and a GET route return the newest
readings. A second route stores a custom data endpoint in a key/value store.
A browser dashboard polls either an endpoint typed into its settings or the
table, and derives an air-quality band, status colours and "time ago" labels.

Modules, one per source file:

- `TypeSchema`: the payload validator, over a small JSON datatype (`Json`).
- `DbSchema`: the row type, its primary-key invariant, and the
  `ORDER BY timestamp DESC LIMIT n` query under SQLite's rules.
  NULL timestamps sort last in descending order. A negative LIMIT means no limit.
- `Actions`: the count clamp and the latest-N read.
- `EnvinfoRoute`: class `ReadingTable`, whose `rows` field POST extends in place, plus GET.
- `DatapointRoute`: class `KeyValueStore`, whose entries POST overwrites.
- `Dashboard`: the pure helpers and class `DashboardState`, whose poll step
  updates the displayed readings.
- `Http`, `Wrappers`: the response shape and `Option`.

Foreign calls become parameters:

- the outcome of `request.json()`: `Option<Json>`, where None means the body was not JSON;
- every database or key/value failure: a boolean;
- the generated id and the clock: values passed in;
- the custom endpoint's response: `Option<Row>`.

The primary key is modelled by the database itself. An insert whose id is
already present fails, like any other insert failure. So the unique-id
invariant holds without assuming the generator never repeats.

In two places the model keeps behaviour a redesign might change:

- An insert failure on POST is answered 400 "Invalid JSON", not as a server error.
- The latest-N read turns a failing query into `[]`.

## Model

| member | source | states |
|---|---|---|
| `Json.GetProperty` | app/api/v1/datapoint/route.ts:8 | reading a member throws exactly on `null`; it yields the member exactly when the body is an object with that key, and `undefined` otherwise (right for keys such as `data_endpoint` that no string, array or `Object.prototype` carries) |
| `TypeSchema.ParseSensorReadingsRaw` | lib/typeSchema.ts:3-8 | accepts exactly the objects whose four required members are all JSON numbers; the accepted record holds those four numbers |
| `TypeSchema.ParseEncode` | lib/typeSchema.ts:3-8 | a well-formed payload validates to its own four values, whatever extra members it carries |
| `TypeSchema.MissingMemberRejected` | lib/typeSchema.ts:4-7 | removing any one required member makes validation fail |
| `TypeSchema.NonNumberMemberRejected` | lib/typeSchema.ts:4-7 | a required member holding a non-number (a numeric string included) makes validation fail |
| `DbSchema.AppendKeepsUniqueIds` | db/schema.ts:4 | appending a row whose id is not yet taken keeps `reading_id` unique |
| `DbSchema.RecencyIsTotalPreorder` | lib/actions.ts:13 | "at least as recent" (NULL timestamps last) is total and transitive |
| `DbSchema.MostRecentIndex` | lib/actions.ts:13 | picks a row at least as recent as every row |
| `DbSchema.SortDesc` | lib/actions.ts:13 | the descending order is a permutation of the table and is sorted newest first |
| `DbSchema.TakeLatest` | lib/actions.ts:13-14 | LIMIT n returns min(n, rows) rows (all rows when n is negative), sorted newest first, drawn from the table, each at least as recent as every row left out |
| `Actions.ClampCount` | lib/actions.ts:9 | a count above 5 becomes 5; a count of 5 or less is used unchanged |
| `Actions.GetSensorDataAction` | lib/actions.ts:7-19 | a failing query gives `[]`; otherwise the result length follows the clamped count, the rows are sorted newest first, drawn from the table, and outrank every omitted row; the count defaults to 1 |
| `Actions.CountAboveFiveIsFive` | lib/actions.ts:9 | any count above 5 gives the same answer as 5 |
| `Actions.EmptyTableYieldsEmpty` | lib/actions.ts:10-16 | an empty table gives `[]` for every count |
| `Actions.DefaultCountYieldsMostRecent` | lib/actions.ts:7-14 | with the default count, a non-empty table gives one stored row that is at least as recent as all others |
| `EnvinfoRoute.ReadingTable.Post` | app/api/v1/envinfo/route.ts:9-31 | non-JSON gives 400 "Invalid JSON"; a schema failure gives 400 "Invalid Values"; an insert failure or id clash gives 400 "Invalid JSON"; all three leave the table unchanged; otherwise exactly one row is appended, with the generated id, the server time, the values copied and `heat_index`/`mq8_value` renamed, and the answer is 200 "Data received"; ids stay unique |
| `EnvinfoRoute.ReadingTable.Get` | app/api/v1/envinfo/route.ts:33-43 | a failing query gives 400 "Something Went Wrong"; otherwise 200 with at most one row, empty exactly when the table is, and that row is stored and at least as recent as every row |
| `EnvinfoRoute.MostRecentOfLatest` | app/api/v1/envinfo/route.ts:35-39 | the single row of a LIMIT 1 query is a stored row at least as recent as every other |
| `EnvinfoRoute.IngestThenRetrieve` | app/api/v1/envinfo/route.ts:17-24 | a row stamped later than all stored rows is exactly what the latest-row read returns after it is appended |
| `DatapointRoute.KeyValueStore.Post` | app/api/v1/datapoint/route.ts:3-17 | on success, key `data-endpoint` is overwritten with the body's `data_endpoint` member as read, unchecked; other keys are untouched; the answer is 200 "Data received"; a non-JSON or `null` body or a client failure gives 400 "Invalid JSON" and no write |
| `DatapointRoute.PostTwice` | app/api/v1/datapoint/route.ts:10 | the second of two writes is the one that stays, only that key changes, and writing the same body twice equals writing it once |
| `Dashboard.CountExceededBrackets` | components/IoTDashboard.tsx:164-192 | over ascending bounds, the number of bounds exceeded places the value between the bound below (exclusive) and the bound above (inclusive) |
| `Dashboard.CountExceededMonotone` | components/IoTDashboard.tsx:164-192 | a larger value exceeds at least as many bounds |
| `Dashboard.BandIndex` | components/IoTDashboard.tsx:164-192 | the band index is one of six, and the value lies above the previous band's bound and at or below its own |
| `Dashboard.BandIndexMonotone` | components/IoTDashboard.tsx:164-192 | a higher reading never lands in a lower band |
| `Dashboard.GetAirQualityStatus` | components/IoTDashboard.tsx:164-192 | total; the result is the band table's entry for the band index, so bounds 50/100/150/200/300 are inclusive and above 300 is hazardous |
| `Dashboard.GetStatusColor` | components/IoTDashboard.tsx:147-162 | the five known statuses map to their palette colours; the result is grey exactly when the status is unknown |
| `Dashboard.StatusColorsDistinct` | components/IoTDashboard.tsx:147-162 | no two known statuses share a colour |
| `Dashboard.Decimal` | components/IoTDashboard.tsx:202 | a count is written as a non-empty string of decimal digits with no leading zero (only 0 itself starts with `0`); with the round trip this fixes the string |
| `Dashboard.DecimalRoundTrip` | components/IoTDashboard.tsx:202-206 | reading the written digits back gives the count, so a label's number identifies the count |
| `Dashboard.NestedFloor` | components/IoTDashboard.tsx:196-204 | whole hours of whole minutes equal whole hours of the elapsed milliseconds |
| `Dashboard.FormatTimeAgo` | components/IoTDashboard.tsx:194-207 | under one minute (the future included) is "Just now"; then "1 minute ago", "m minutes ago" below an hour, "1 hour ago", then "h hours ago"; m and h are the elapsed time rounded down |
| `Dashboard.MinutesLabelIdentifiesElapsed` | components/IoTDashboard.tsx:196-202 | two "minutes ago" labels are equal exactly when they show the same number of whole minutes |
| `Dashboard.Refreshed` | components/IoTDashboard.tsx:112-133 | each displayed value becomes the reading's column, or 25 / 65 / 26.8 / 42 when null; units, statuses and the category are kept; every `lastUpdated` becomes now |
| `Dashboard.DashboardState.constructor` | components/IoTDashboard.tsx:55-88 | the initial display is the server reading, with fallbacks 26 / 65 / 28 / 40 and the reading's timestamp (or now) as `lastUpdated` |
| `Dashboard.DashboardState.RefreshData` | components/IoTDashboard.tsx:209-213 | the refresh button only sets `lastRefresh` to now; the readings and the endpoint are unchanged and nothing is fetched |
| `Dashboard.DashboardState.SetCustomEndpoint` | components/IoTDashboard.tsx:260-273 | the endpoint input (and its reset to the empty string) changes only the endpoint |
| `Dashboard.DashboardState.GetSetReadings` | components/IoTDashboard.tsx:92-139 | a non-empty endpoint uses the fetched object; otherwise the newest table row is read with count 1; a failure or an empty result leaves the display and `lastRefresh` unchanged; otherwise the display is refreshed from that row and `lastRefresh` becomes now |
| `Dashboard.IngestThenPollShowsSubmitted` | components/IoTDashboard.tsx:105-133 | a valid POST to the reading table stamped later than all stored rows, followed by a database-path poll, leaves the dashboard displaying exactly the four submitted values |

## Left out

- Rendering (JSX, styles, icons, `toFixed` formatting) is presentation.
- The unused mock data, the constant Bluetooth and status state, and the Web Bluetooth declarations have no behaviour.
- The interval timer, its re-subscription when the endpoint changes, and overlapping polls are timing and concurrency. One poll step is modelled, as a function of the previous state and the fetch outcome.
- Network fetches and `response.json()` are I/O. Their outcome is a parameter. A custom endpoint that serves a non-object body, such as `null`, is not modelled; the fetched body is taken to be row-shaped.
- Query execution, the key/value client, the schema library and the id generator are foreign libraries. The table is a `seq<Row>`, the store a `map`, failures are booleans, and the id is a parameter.
- How the key/value client encodes an `undefined` member when it stores it is not modelled. The model stores an explicit `Undefined` marker.
- Console logging is not modelled.
- Measurement values are reals, not IEEE-754 doubles. The JSON parser's treatment of numbers outside the double range is not modelled.
- `Actions.GetSensorDataAction`: the count is an integer. A fractional count, which the database would reject and the catch would turn into `[]`, is not modelled.
- `Dashboard.FormatTimeAgo`: the elapsed minutes are computed with exact integer floor division. Double rounding could differ only for elapsed times beyond about 10^11 minutes.
- `DbSchema.SortDesc`: rows with equal timestamps are put in one fixed order (earlier rows first). SQL leaves that order open, so every query property is stated only up to it.
- `Dashboard.DashboardState.GetSetReadings`: on the database path it promises some newest row, not which one among rows with equal timestamps, since the query leaves ties unordered.
- Server timestamps are a parameter, so the model does not assume they increase with write order.
- Server-side page glue and the connection configuration are wiring. The page passes the first row of the same count-1 read that `Actions.GetSensorDataAction` models.
- The page renders the dashboard without a default endpoint, so the endpoint state starts as `undefined`, which the poll treats as empty. The model uses `""` for that case.
- Reading the configured endpoint back from the key/value store is not modelled, because no code reads it.
