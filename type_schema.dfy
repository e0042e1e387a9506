/**
 * The raw sensor payload schema: an object with four required numeric
 * members. Validation yields the typed record with exactly those four
 * members (unknown members are dropped) or a failure; nothing is coerced.
 */
module TypeSchema {
  import opened Wrappers
  import opened Json

  datatype SensorReadingsRaw = SensorReadingsRaw(
    temperature: real,
    humidity: real,
    heat_index: real,
    mq8_value: real)

  const RequiredKeys: seq<string> := ["temperature", "humidity", "heat_index", "mq8_value"]

  /** `key` is a member of `members` holding a JSON number. */
  predicate NumberMember(members: map<string, Json>, key: string) {
    key in members && members[key].JNumber?
  }

  /** The schema's `safeParse`: None is the failed parse. */
  function ParseSensorReadingsRaw(value: Json): (r: Option<SensorReadingsRaw>)
    ensures r.Some? <==>
      && value.JObject?
      && NumberMember(value.members, "temperature") && NumberMember(value.members, "humidity")
      && NumberMember(value.members, "heat_index") && NumberMember(value.members, "mq8_value")
    ensures r.Some? ==>
      && value.members["temperature"] == JNumber(r.value.temperature)
      && value.members["humidity"] == JNumber(r.value.humidity)
      && value.members["heat_index"] == JNumber(r.value.heat_index)
      && value.members["mq8_value"] == JNumber(r.value.mq8_value)
  {
    match value
    case JObject(m) =>
      if && NumberMember(m, "temperature") && NumberMember(m, "humidity")
         && NumberMember(m, "heat_index") && NumberMember(m, "mq8_value")
      then Some(SensorReadingsRaw(m["temperature"].n, m["humidity"].n, m["heat_index"].n, m["mq8_value"].n))
      else None
    case _ => None
  }

  /** The payload a device sends for `raw`, with any further members `extra`. */
  function Encode(raw: SensorReadingsRaw, extra: map<string, Json>): (value: Json)
    ensures value.JObject? && value.members.Keys == extra.Keys + set k | k in RequiredKeys
  {
    JObject(extra[
      "temperature" := JNumber(raw.temperature)][
      "humidity" := JNumber(raw.humidity)][
      "heat_index" := JNumber(raw.heat_index)][
      "mq8_value" := JNumber(raw.mq8_value)])
  }

  /** Validating a well-formed payload gives back the four values, whatever else it carries. */
  lemma ParseEncode(raw: SensorReadingsRaw, extra: map<string, Json>)
    ensures ParseSensorReadingsRaw(Encode(raw, extra)) == Some(raw)
  {
  }

  /** Dropping one required member from an object makes validation fail. */
  lemma MissingMemberRejected(members: map<string, Json>, k: string)
    requires k in RequiredKeys
    ensures ParseSensorReadingsRaw(JObject(members - {k})).None?
  {
    assert !NumberMember(members - {k}, k);
  }

  /** A required member holding anything but a number (a numeric string, say) makes validation fail. */
  lemma NonNumberMemberRejected(members: map<string, Json>, k: string, v: Json)
    requires k in RequiredKeys && !v.JNumber?
    ensures ParseSensorReadingsRaw(JObject(members[k := v])).None?
  {
    assert !NumberMember(members[k := v], k);
  }
}
