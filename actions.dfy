/**
 * The server action that reads the latest readings: the requested count is
 * clamped from above to 5, the rows come back newest first, and a failing
 * query yields the empty list instead of an error.
 */
module Actions {
  import opened DbSchema

  const MaxCount := 5

  /** The count actually sent as LIMIT: capped at 5, and otherwise (even when negative) unchanged. */
  function ClampCount(dataCount: int): (count: int)
    ensures count <= MaxCount
    ensures dataCount <= MaxCount ==> count == dataCount
    ensures dataCount > MaxCount ==> count == MaxCount
  {
    if dataCount > MaxCount then MaxCount else dataCount
  }

  /**
   * `rows` is the table's content and `queryFails` whether the database call
   * throws. The count defaults to 1.
   */
  function GetSensorDataAction(rows: seq<Row>, queryFails: bool, dataCount: int := 1): (r: seq<Row>)
    ensures queryFails ==> r == []
    ensures !queryFails ==>
      |r| == (var count := ClampCount(dataCount); if count < 0 then |rows| else Min(count, |rows|))
    ensures SortedDesc(r)
    ensures multiset(r) <= multiset(rows)
    ensures forall x, y :: x in r && y in multiset(rows) - multiset(r) ==> AtLeastAsRecent(x, y)
  {
    if queryFails then [] else TakeLatest(rows, ClampCount(dataCount))
  }

  function Min(a: int, b: int): int { if a <= b then a else b }

  /** Asking for more than five rows is the same as asking for five. */
  lemma CountAboveFiveIsFive(rows: seq<Row>, queryFails: bool, dataCount: int)
    requires dataCount > MaxCount
    ensures GetSensorDataAction(rows, queryFails, dataCount) == GetSensorDataAction(rows, queryFails, MaxCount)
  {
  }

  /** An empty table yields the empty list for every count. */
  lemma EmptyTableYieldsEmpty(queryFails: bool, dataCount: int)
    ensures GetSensorDataAction([], queryFails, dataCount) == []
  {
  }

  /**
   * With the default count, a non-empty table yields exactly one row, and
   * it is at least as recent as every stored row.
   */
  lemma DefaultCountYieldsMostRecent(rows: seq<Row>)
    requires |rows| > 0
    ensures var r := GetSensorDataAction(rows, false);
      |r| == 1 && r[0] in rows && forall x :: x in rows ==> AtLeastAsRecent(r[0], x)
  {
    var r := GetSensorDataAction(rows, false);
    assert r[0] in multiset(rows);
    forall x | x in rows
      ensures AtLeastAsRecent(r[0], x)
    {
      if x !in multiset(rows) - multiset(r) {
        // x is left out of the difference only when it is the returned row itself.
        assert multiset(r) == multiset{r[0]};
        assert x == r[0];
      }
    }
  }
}
