/** Ordering the merged table by `date`. Missing dates (NaT) sort after every
    present date, as the dataframe sort places them last. The library's default
    sort is not stable, so nothing here promises an order among equal dates: the
    contracts say only "ordered by date" and "a permutation of the input". */
module Ordering {
  import opened Telemetry

  /** `a` may come before `b`: present dates by value, missing dates last. */
  predicate DateLe(a: Option<int>, b: Option<int>) {
    match (a, b)
    case (Some(x), Some(y)) => x <= y
    case (Some(_), None) => true
    case (None, Some(_)) => false
    case (None, None) => true
  }

  /** `DateLe` is a total preorder, which is all a sort needs. */
  lemma DateLeTotalPreorder(a: Option<int>, b: Option<int>, c: Option<int>)
    ensures DateLe(a, a)
    ensures DateLe(a, b) || DateLe(b, a)
    ensures DateLe(a, b) && DateLe(b, c) ==> DateLe(a, c)
  {
  }

  predicate SortedByDate(rows: seq<Row>) {
    forall i, j :: 0 <= i < j < |rows| ==> DateLe(rows[i].date, rows[j].date)
  }

  /** A row dated strictly before every other row of an ordered table heads it. */
  lemma EarliestFirst(s: seq<Row>, r: Row)
    requires SortedByDate(s) && r in s && r.date.Some?
    requires forall q :: q in s && q != r ==> q.date.Some? && r.date.value < q.date.value
    ensures s[0] == r
  {
    var j :| 0 <= j < |s| && s[j] == r;
    if j > 0 {
      assert DateLe(s[0].date, s[j].date);
    }
  }

  /** Prepending `x` keeps a table ordered when `x` may come before all of it. */
  lemma SortedCons(x: Row, s: seq<Row>)
    requires SortedByDate(s)
    requires forall y :: y in s ==> DateLe(x.date, y.date)
    ensures SortedByDate([x] + s)
  {
    forall i, j | 0 <= i < j < |[x] + s|
      ensures DateLe(([x] + s)[i].date, ([x] + s)[j].date)
    {
      assert ([x] + s)[j] == s[j - 1];
      if i > 0 {
        assert ([x] + s)[i] == s[i - 1];
      } else {
        assert s[j - 1] in s;
      }
    }
  }

  /** A row that may come before the head of an ordered table may come before all of it. */
  lemma BelowHead(x: Row, s: seq<Row>)
    requires SortedByDate(s) && |s| > 0
    requires DateLe(x.date, s[0].date)
    ensures forall y :: y in s ==> DateLe(x.date, y.date)
  {
    forall y | y in s
      ensures DateLe(x.date, y.date)
    {
      var j :| 0 <= j < |s| && s[j] == y;
      DateLeTotalPreorder(x.date, s[0].date, y.date);
    }
  }

  /** The head of an ordered table may come before the rest of it with `x` inserted, when `x`
      may not come before the head. */
  lemma HeadBelowInsert(x: Row, s: seq<Row>, tail: seq<Row>)
    requires SortedByDate(s) && |s| > 0
    requires !DateLe(x.date, s[0].date)
    requires multiset(tail) == multiset(s[1..]) + multiset{x}
    ensures forall y :: y in tail ==> DateLe(s[0].date, y.date)
  {
    forall y | y in tail
      ensures DateLe(s[0].date, y.date)
    {
      assert y in multiset(tail);
      if y != x {
        assert y in multiset(s[1..]);
        var j :| 0 <= j < |s[1..]| && s[1..][j] == y;
        assert s[j + 1] == y;
      }
    }
  }

  /** Insert `x` into a table ordered by date. */
  function Insert(x: Row, s: seq<Row>): (r: seq<Row>)
    requires SortedByDate(s)
    ensures |r| == |s| + 1
    ensures multiset(r) == multiset(s) + multiset{x}
    ensures SortedByDate(r)
  {
    if |s| == 0 then [x]
    else if DateLe(x.date, s[0].date) then
      BelowHead(x, s);
      SortedCons(x, s);
      [x] + s
    else
      assert s == [s[0]] + s[1..];
      var tail := Insert(x, s[1..]);
      HeadBelowInsert(x, s, tail);
      SortedCons(s[0], tail);
      [s[0]] + tail
  }

  /** The table ordered by date: a permutation of the input in which dates never decrease. */
  function SortByDate(rows: seq<Row>): (r: seq<Row>)
    ensures |r| == |rows|
    ensures multiset(r) == multiset(rows)
    ensures SortedByDate(r)
  {
    if |rows| == 0 then []
    else
      assert rows == [rows[0]] + rows[1..];
      Insert(rows[0], SortByDate(rows[1..]))
  }
}
