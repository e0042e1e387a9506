/**
 * The reading table: its row shape, its primary-key invariant, and the one
 * query shape the system runs against it, ordering by timestamp descending
 * with a row limit, under SQLite's rules (NULL sorts below every value, so
 * it comes last in descending order; a negative LIMIT means no limit).
 */
module DbSchema {
  import opened Wrappers

  /** A selected row: the id is non-null text, every other column nullable. */
  datatype Row = Row(
    reading_id: string,
    temperature: Option<real>,
    humidity: Option<real>,
    heatIndex: Option<real>,
    mq_reading: Option<real>,
    timestamp: Option<int>)

  /** `reading_id` is the primary key: no two stored rows share it. */
  ghost predicate UniqueIds(rows: seq<Row>) {
    forall i, j :: 0 <= i < j < |rows| ==> rows[i].reading_id != rows[j].reading_id
  }

  /** Some stored row already carries `id`. */
  predicate IdTaken(rows: seq<Row>, id: string) {
    exists i :: 0 <= i < |rows| && rows[i].reading_id == id
  }

  /** Appending a row whose id is not taken keeps the primary key unique. */
  lemma AppendKeepsUniqueIds(rows: seq<Row>, row: Row)
    requires UniqueIds(rows) && !IdTaken(rows, row.reading_id)
    ensures UniqueIds(rows + [row])
  {
    forall i, j | 0 <= i < j < |rows| + 1
      ensures (rows + [row])[i].reading_id != (rows + [row])[j].reading_id
    {
      if j == |rows| {
        assert rows[i].reading_id != row.reading_id;
      }
    }
  }

  /** `a` comes no later than `b` under ORDER BY timestamp DESC. */
  predicate AtLeastAsRecent(a: Row, b: Row) {
    b.timestamp.None? || (a.timestamp.Some? && a.timestamp.value >= b.timestamp.value)
  }

  /** The order is total and transitive, so a descending sort exists. */
  lemma RecencyIsTotalPreorder(a: Row, b: Row, c: Row)
    ensures AtLeastAsRecent(a, b) || AtLeastAsRecent(b, a)
    ensures AtLeastAsRecent(a, b) && AtLeastAsRecent(b, c) ==> AtLeastAsRecent(a, c)
  {
  }

  ghost predicate SortedDesc(s: seq<Row>) {
    forall i, j :: 0 <= i < j < |s| ==> AtLeastAsRecent(s[i], s[j])
  }

  /** The position of the first most recent row. */
  function MostRecentIndex(rows: seq<Row>): (k: nat)
    requires |rows| > 0
    ensures k < |rows|
    ensures forall j :: 0 <= j < |rows| ==> AtLeastAsRecent(rows[k], rows[j])
  {
    if |rows| == 1 then 0
    else
      var k := MostRecentIndex(rows[..|rows| - 1]);
      assert forall j :: 0 <= j < |rows| - 1 ==> rows[..|rows| - 1][j] == rows[j];
      if AtLeastAsRecent(rows[k], rows[|rows| - 1]) then k else |rows| - 1
  }

  /**
   * The rows in ORDER BY timestamp DESC order. SQL leaves the order of equal
   * timestamps open; this picks one such order (earlier rows first), and
   * everything stated about queries below holds for any of them.
   */
  function SortDesc(rows: seq<Row>): (s: seq<Row>)
    ensures multiset(s) == multiset(rows)
    ensures SortedDesc(s)
    decreases |rows|
  {
    if rows == [] then []
    else
      var k := MostRecentIndex(rows);
      var rest := rows[..k] + rows[k + 1..];
      var sortedRest := SortDesc(rest);
      RemoveAtMultiset(rows, k);
      assert forall x :: x in sortedRest ==> x in multiset(rows);
      PrependMostRecent(rows[k], sortedRest);
      [rows[k]] + sortedRest
  }

  lemma RemoveAtMultiset(rows: seq<Row>, k: nat)
    requires k < |rows|
    ensures multiset(rows) == multiset(rows[..k] + rows[k + 1..]) + multiset{rows[k]}
  {
    assert rows == rows[..k] + [rows[k]] + rows[k + 1..];
  }

  /** A row at least as recent as every row of a sorted sequence may go in front of it. */
  lemma PrependMostRecent(m: Row, t: seq<Row>)
    requires SortedDesc(t)
    requires forall x :: x in t ==> AtLeastAsRecent(m, x)
    ensures SortedDesc([m] + t)
  {
    forall i, j | 0 <= i < j < |t| + 1
      ensures AtLeastAsRecent(([m] + t)[i], ([m] + t)[j])
    {
      if i == 0 {
        assert ([m] + t)[j] == t[j - 1];
      } else {
        assert ([m] + t)[i] == t[i - 1] && ([m] + t)[j] == t[j - 1];
      }
    }
  }

  /** ORDER BY timestamp DESC LIMIT `limit`. */
  function TakeLatest(rows: seq<Row>, limit: int): (r: seq<Row>)
    ensures |r| == if limit < 0 || limit >= |rows| then |rows| else limit
    ensures SortedDesc(r)
    ensures multiset(r) <= multiset(rows)
    ensures forall x, y :: x in r && y in multiset(rows) - multiset(r) ==> AtLeastAsRecent(x, y)
  {
    var s := SortDesc(rows);
    var n := if limit < 0 || limit >= |s| then |s| else limit;
    PrefixOfSorted(s, n);
    s[..n]
  }

  /** A prefix of a sorted sequence is sorted, is part of it, and outranks the rest. */
  lemma PrefixOfSorted(s: seq<Row>, n: nat)
    requires SortedDesc(s) && n <= |s|
    ensures SortedDesc(s[..n])
    ensures multiset(s) - multiset(s[..n]) == multiset(s[n..])
    ensures forall x, y :: x in s[..n] && y in multiset(s[n..]) ==> AtLeastAsRecent(x, y)
  {
    assert s == s[..n] + s[n..];
    forall x, y | x in s[..n] && y in multiset(s[n..])
      ensures AtLeastAsRecent(x, y)
    {
      var i :| 0 <= i < n && s[..n][i] == x;
      var j :| 0 <= j < |s[n..]| && s[n..][j] == y;
      assert s[i] == x && s[n + j] == y;
    }
  }
}
