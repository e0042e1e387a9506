/**
 * The sensor-reading endpoint. POST validates a body and appends one row to
 * the reading table; GET returns the newest row. The table is the one piece
 * of state, so it is a class whose `rows` field POST extends in place.
 */
module EnvinfoRoute {
  import opened Wrappers
  import opened Json
  import opened Http
  import opened TypeSchema
  import opened DbSchema
  import Actions

  /** The row the handler inserts: fresh id, server time, two columns renamed. */
  function NewRow(id: string, raw: SensorReadingsRaw, now: int): Row {
    Row(id, Some(raw.temperature), Some(raw.humidity), Some(raw.heat_index), Some(raw.mq8_value), Some(now))
  }

  class ReadingTable {
    var rows: seq<Row>

    ghost predicate Valid()
      reads this
    {
      UniqueIds(rows)
    }

    constructor ()
      ensures Valid() && rows == []
    {
      rows := [];
    }

    /**
     * `body` is the outcome of reading the request as JSON (None: it was not
     * JSON), `id` the generated identifier, `now` the server clock, and
     * `insertFails` whether the database rejects the insert for any reason
     * of its own. An id already in the table violates the primary key, so
     * that insert fails too. Every failure after parsing lands in the same
     * catch as a parse failure.
     */
    method Post(body: Option<Json>, id: string, now: int, insertFails: bool) returns (resp: Response)
      requires Valid()
      modifies this
      ensures Valid()
      ensures body.None? ==>
        resp == Response(BadRequest, Message(InvalidJson)) && rows == old(rows)
      ensures body.Some? && ParseSensorReadingsRaw(body.value).None? ==>
        resp == Response(BadRequest, Message(InvalidValues)) && rows == old(rows)
      ensures body.Some? && ParseSensorReadingsRaw(body.value).Some? ==>
        var raw := ParseSensorReadingsRaw(body.value).value;
        if insertFails || IdTaken(old(rows), id) then
          resp == Response(BadRequest, Message(InvalidJson)) && rows == old(rows)
        else
          && resp == Response(Ok, Message(DataReceived))
          && rows == old(rows) + [Row(id, Some(raw.temperature), Some(raw.humidity),
                                      Some(raw.heat_index), Some(raw.mq8_value), Some(now))]
    {
      if body.None? {
        return Response(BadRequest, Message(InvalidJson));
      }
      var parsed := ParseSensorReadingsRaw(body.value);
      if parsed.None? {
        return Response(BadRequest, Message(InvalidValues));
      }
      if insertFails || IdTaken(rows, id) {
        return Response(BadRequest, Message(InvalidJson));
      }
      var row := NewRow(id, parsed.value, now);
      AppendKeepsUniqueIds(rows, row);
      rows := rows + [row];
      resp := Response(Ok, Message(DataReceived));
    }

    /**
     * ORDER BY timestamp DESC LIMIT 1; `queryFails` is whether the database
     * call throws, which is answered with a 400 and never propagates.
     */
    method Get(queryFails: bool) returns (resp: Response)
      ensures queryFails ==> resp == Response(BadRequest, DataText(SomethingWentWrong))
      ensures !queryFails ==>
        && resp.status == Ok && resp.body.Rows?
        && |resp.body.data| <= 1
        && (resp.body.data == [] <==> rows == [])
        && (resp.body.data != [] ==>
              resp.body.data[0] in rows && forall x :: x in rows ==> AtLeastAsRecent(resp.body.data[0], x))
    {
      if queryFails {
        return Response(BadRequest, DataText(SomethingWentWrong));
      }
      var latest := TakeLatest(rows, 1);
      if latest != [] {
        MostRecentOfLatest(rows, latest);
      }
      resp := Response(Ok, Rows(latest));
    }
  }

  /** The single row of a LIMIT 1 query is a stored row at least as recent as every other. */
  lemma MostRecentOfLatest(rows: seq<Row>, latest: seq<Row>)
    requires latest == TakeLatest(rows, 1) && latest != []
    ensures latest[0] in rows && forall x :: x in rows ==> AtLeastAsRecent(latest[0], x)
  {
    assert latest[0] in multiset(rows);
    assert multiset(latest) == multiset{latest[0]};
  }

  /**
   * A reading stamped later than every stored row is what the latest-row
   * query returns right after it is appended: ingestion followed by
   * retrieval of one row gives back the submitted values.
   */
  lemma {:induction false} IngestThenRetrieve(rows: seq<Row>, raw: SensorReadingsRaw, id: string, now: int)
    requires forall x :: x in rows ==> x.timestamp.None? || x.timestamp.value < now
    ensures Actions.GetSensorDataAction(rows + [NewRow(id, raw, now)], false) == [NewRow(id, raw, now)]
  {
    var row := NewRow(id, raw, now);
    var all := rows + [row];
    var r := Actions.GetSensorDataAction(all, false);
    assert |r| == 1;
    var top := r[0];
    assert top in multiset(all);
    assert row in multiset(all) - multiset(r) ==> AtLeastAsRecent(top, row);
    assert multiset(r) == multiset{top};
    assert r == [row];
  }
}
