/** The reconciliation step of `fetch_car_data`: process the responses in order,
    give up on the first exception, require tables from at least two responses,
    concatenate them, order the rows by date and forward-fill the result. */
module Merge {
  import opened Telemetry
  import opened Normalize
  import opened Ordering
  import opened Fill

  /** Number of responses that take part in the merge. */
  function CountContributing(responses: seq<Response>): (n: nat)
    ensures n <= |responses|
  {
    if |responses| == 0 then 0
    else (if Contributes(responses[0]) then 1 else 0) + CountContributing(responses[1..])
  }

  /** Some response of a non-empty list raises exactly when its first one or one of the
      rest does. */
  lemma RaisesCons(responses: seq<Response>)
    requires |responses| > 0
    ensures (exists k :: 0 <= k < |responses| && Raises(responses[k])) <==>
            Raises(responses[0]) || exists k :: 0 <= k < |responses[1..]| && Raises(responses[1..][k])
  {
    if exists k :: 0 <= k < |responses| && Raises(responses[k]) {
      var k :| 0 <= k < |responses| && Raises(responses[k]);
      if k > 0 {
        assert Raises(responses[1..][k - 1]);
      }
    }
    if exists k :: 0 <= k < |responses[1..]| && Raises(responses[1..][k]) {
      var k :| 0 <= k < |responses[1..]| && Raises(responses[1..][k]);
      assert Raises(responses[k + 1]);
    }
  }

  /** A table that comes from one of the rest of the responses comes from one of the responses. */
  lemma FromTail(responses: seq<Response>, r: Result<seq<Frame>>)
    requires |responses| > 0
    requires r.Ok? ==> forall f :: f in r.value ==>
                         exists k :: 0 <= k < |responses[1..]| && Prepare(responses[1..][k]) == Ok(Some(f))
    ensures r.Ok? ==> forall f :: f in r.value ==>
                        exists k :: 0 <= k < |responses| && Prepare(responses[k]) == Ok(Some(f))
  {
    forall f | r.Ok? && f in r.value
      ensures exists k :: 0 <= k < |responses| && Prepare(responses[k]) == Ok(Some(f))
    {
      var k :| 0 <= k < |responses[1..]| && Prepare(responses[1..][k]) == Ok(Some(f));
      assert Prepare(responses[k + 1]) == Ok(Some(f));
    }
  }

  /** A table that a response yields is not empty. */
  lemma ReadyNotEmpty(resp: Response, f: Frame)
    requires Prepare(resp) == Ok(Some(f))
    ensures !IsEmpty(f)
  {
    PrepareNormalizes(resp);
  }

  /** Whether processing a response yields a table. */
  predicate Ready(resp: Response) {
    Prepare(resp).Ok? && Prepare(resp).value.Some?
  }

  /** The table a response yields. */
  function Table(resp: Response): Frame
    requires Ready(resp)
  {
    Prepare(resp).value.value
  }

  /** The values of the present entries, in order. */
  function Somes<T>(xs: seq<Option<T>>): seq<T>
    decreases |xs|
  {
    if |xs| == 0 then []
    else (if xs[0].Some? then [xs[0].value] else []) + Somes(xs[1..])
  }

  /** What each response yields: its table, or nothing. */
  function Yields(responses: seq<Response>): (ys: seq<Option<Frame>>)
    ensures |ys| == |responses|
  {
    seq(|responses|, k requires 0 <= k < |responses| =>
      if Ready(responses[k]) then Some(Table(responses[k])) else None)
  }

  /** Reference definition of the collected tables: the table of every response that yields
      one, in response order. */
  function Tables(responses: seq<Response>): seq<Frame> {
    Somes(Yields(responses))
  }

  lemma YieldsTail(responses: seq<Response>)
    requires |responses| > 0
    ensures Yields(responses)[1..] == Yields(responses[1..])
  {
    forall k | 0 <= k < |responses| - 1
      ensures Yields(responses)[1..][k] == Yields(responses[1..])[k]
    {
      assert responses[1..][k] == responses[k + 1];
    }
  }

  /** Every present value is kept. */
  lemma {:induction false} SomesHold<T>(xs: seq<Option<T>>, k: int)
    requires 0 <= k < |xs| && xs[k].Some?
    ensures xs[k].value in Somes(xs)
    decreases |xs|
  {
    if k > 0 {
      assert xs[1..][k - 1] == xs[k];
      SomesHold(xs[1..], k - 1);
    }
  }

  /** The tables of the contributing responses, in response order, or the exception of the
      first response whose processing raises one. */
  function Collect(responses: seq<Response>): (r: Result<seq<Frame>>)
    ensures r.Err? <==> exists k :: 0 <= k < |responses| && Raises(responses[k])
    ensures r.Ok? ==> |r.value| == CountContributing(responses)
    ensures r.Ok? ==> forall f :: f in r.value ==> !IsEmpty(f)
    ensures r.Ok? ==> forall f :: f in r.value ==>
                        exists k :: 0 <= k < |responses| && Prepare(responses[k]) == Ok(Some(f))
    ensures r.Ok? ==> r.value == Tables(responses)
    decreases |responses|
  {
    if |responses| == 0 then Ok([])
    else
      var rest := Collect(responses[1..]);
      RaisesCons(responses);
      FromTail(responses, rest);
      YieldsTail(responses);
      match Prepare(responses[0])
      case Err(e) => Err(e)
      case Ok(None) => rest
      case Ok(Some(f)) =>
        ReadyNotEmpty(responses[0], f);
        if rest.Err? then rest else Ok([f] + rest.value)
  }

  /** `a` occurs in `xs` before `b`. */
  predicate Before<T(==)>(xs: seq<T>, a: T, b: T) {
    exists i1, i2 :: 0 <= i1 < i2 < |xs| && xs[i1] == a && xs[i2] == b
  }

  lemma BeforeHead<T>(a: T, rest: seq<T>, b: T)
    requires b in rest
    ensures Before([a] + rest, a, b)
  {
    var j :| 0 <= j < |rest| && rest[j] == b;
    assert ([a] + rest)[0] == a && ([a] + rest)[j + 1] == b;
  }

  lemma BeforeShift<T>(pre: seq<T>, rest: seq<T>, a: T, b: T)
    requires Before(rest, a, b)
    ensures Before(pre + rest, a, b)
  {
    var i1, i2 :| 0 <= i1 < i2 < |rest| && rest[i1] == a && rest[i2] == b;
    assert (pre + rest)[|pre| + i1] == a && (pre + rest)[|pre| + i2] == b;
  }

  /** Present values keep their order. */
  lemma {:induction false} SomesKeepOrder<T>(xs: seq<Option<T>>, k1: nat, k2: nat)
    requires k1 < k2 < |xs| && xs[k1].Some? && xs[k2].Some?
    ensures Before(Somes(xs), xs[k1].value, xs[k2].value)
    decreases |xs|
  {
    var tail := xs[1..];
    assert tail[k2 - 1] == xs[k2];
    if k1 == 0 {
      SomesHold(tail, k2 - 1);
      BeforeHead(xs[0].value, Somes(tail), xs[k2].value);
    } else {
      assert tail[k1 - 1] == xs[k1];
      SomesKeepOrder(tail, k1 - 1, k2 - 1);
      var pre := if xs[0].Some? then [xs[0].value] else [];
      BeforeShift(pre, Somes(tail), xs[k1].value, xs[k2].value);
    }
  }

  /** The collected tables keep the order of their responses: the table of an earlier response
      comes before the table of a later one. */
  lemma {:induction false} CollectKeepsOrder(responses: seq<Response>, k1: nat, k2: nat)
    requires Collect(responses).Ok?
    requires k1 < k2 < |responses| && Ready(responses[k1]) && Ready(responses[k2])
    ensures Before(Collect(responses).value, Table(responses[k1]), Table(responses[k2]))
  {
    var ys := Yields(responses);
    assert ys[k1] == Some(Table(responses[k1])) && ys[k2] == Some(Table(responses[k2]));
    SomesKeepOrder(ys, k1, k2);
  }

  /** When nothing raises, the table of every response that yields one is collected. */
  lemma {:induction false} CollectHoldsEveryTable(responses: seq<Response>)
    requires Collect(responses).Ok?
    ensures forall k :: 0 <= k < |responses| && Ready(responses[k]) ==> Table(responses[k]) in Collect(responses).value
  {
    var ys := Yields(responses);
    forall k | 0 <= k < |responses| && Ready(responses[k])
      ensures Table(responses[k]) in Collect(responses).value
    {
      assert ys[k] == Some(Table(responses[k]));
      SomesHold(ys, k);
    }
  }

  /** Total number of rows of a list of tables. */
  function TotalRows(frames: seq<Frame>): nat {
    if |frames| == 0 then 0 else |frames[0].rows| + TotalRows(frames[1..])
  }

  /** The rows of all tables, one table after the other. */
  function AllRows(frames: seq<Frame>): (rows: seq<Row>)
    ensures |rows| == TotalRows(frames)
  {
    if |frames| == 0 then [] else frames[0].rows + AllRows(frames[1..])
  }

  /** The columns of the concatenated table: those of any of the tables. */
  function AllColumns(frames: seq<Frame>): (cols: set<Column>)
    ensures forall c :: c in cols <==> exists k :: 0 <= k < |frames| && c in frames[k].columns
  {
    if |frames| == 0 then {}
    else
      assert forall k :: 1 <= k < |frames| ==> frames[k] == frames[1..][k - 1];
      frames[0].columns + AllColumns(frames[1..])
  }

  /** `out` is a forward-fill of some ordering of `rows` by date. The order among rows with
      equal dates is left open. */
  ghost predicate IsMergeOf(rows: seq<Row>, out: seq<Row>) {
    exists s :: multiset(s) == multiset(rows) && SortedByDate(s) && out == FFill(s)
  }

  /** Concatenate, order by date, forward-fill. */
  function MergeFrames(frames: seq<Frame>): (m: Frame)
    ensures |m.rows| == TotalRows(frames)
    ensures SortedByDate(m.rows)
    ensures forall c :: c in m.columns <==> exists k :: 0 <= k < |frames| && c in frames[k].columns
  {
    var s := SortByDate(AllRows(frames));
    FFillKeepsOrder(s);
    Frame(AllColumns(frames), FFill(s))
  }

  /** The merged table holds as many rows as the tables together, is ordered by date even
      after the fill, and is the fill of an ordering of their rows. */
  lemma MergeFramesSpec(frames: seq<Frame>)
    ensures |MergeFrames(frames).rows| == TotalRows(frames)
    ensures SortedByDate(MergeFrames(frames).rows)
    ensures IsMergeOf(AllRows(frames), MergeFrames(frames).rows)
    ensures MergeFrames(frames).columns == AllColumns(frames)
  {
    var s := SortByDate(AllRows(frames));
    FFillKeepsOrder(s);
  }

  /** Tables that are each non-empty merge into a non-empty table. */
  lemma MergedNotEmpty(frames: seq<Frame>)
    requires |frames| > 0
    requires forall f :: f in frames ==> !IsEmpty(f)
    ensures !IsEmpty(MergeFrames(frames))
  {
    assert frames[0] in frames;
    assert frames[0].columns <= AllColumns(frames);
    assert TotalRows(frames) >= |frames[0].rows|;
  }

  /** The result of the reconciliation step: the merged table, or the empty table when an
      exception was raised or fewer than two responses contributed. */
  function FetchCarData(responses: seq<Response>): (r: Frame)
    ensures IsEmpty(r) ==> r == EmptyFrame
    ensures !IsEmpty(r) <==> Collect(responses).Ok? && |Collect(responses).value| >= 2
    ensures (exists k :: 0 <= k < |responses| && Raises(responses[k])) ==> r == EmptyFrame
    ensures CountContributing(responses) < 2 ==> r == EmptyFrame
    ensures !IsEmpty(r) ==>
              var frames := Collect(responses).value;
              && |r.rows| == TotalRows(frames)
              && SortedByDate(r.rows)
              && IsMergeOf(AllRows(frames), r.rows)
              && r.columns == AllColumns(frames)
  {
    match Collect(responses)
    case Err(_) => EmptyFrame
    case Ok(frames) =>
      if |frames| < 2 then EmptyFrame
      else
        MergeFramesSpec(frames);
        MergedNotEmpty(frames);
        MergeFrames(frames)
  }

  /** A response that does not contribute (a failed request, an empty body) is skipped
      without any effect on the others, wherever it occurs. */
  lemma {:induction false} CollectSkips(before: seq<Response>, skipped: Response, after: seq<Response>)
    requires !Contributes(skipped)
    ensures Collect(before + [skipped] + after) == Collect(before + after)
    decreases |before|
  {
    if |before| == 0 {
      assert before + [skipped] + after == [skipped] + after;
      assert ([skipped] + after)[1..] == after;
      assert before + after == after;
    } else {
      var first := before[0];
      assert (before + [skipped] + after)[0] == first && (before + after)[0] == first;
      assert (before + [skipped] + after)[1..] == before[1..] + [skipped] + after;
      assert (before + after)[1..] == before[1..] + after;
      CollectSkips(before[1..], skipped, after);
    }
  }

  /** Collecting one more response, in front, that yields table `f`. */
  lemma CollectReady(x: Response, f: Frame, rest: seq<Response>)
    requires Prepare(x) == Ok(Some(f))
    requires Collect(rest).Ok?
    ensures Collect([x] + rest) == Ok([f] + Collect(rest).value)
  {
    assert ([x] + rest)[0] == x;
    assert ([x] + rest)[1..] == rest;
  }

  /** A single response that yields table `f` is collected as that table. */
  lemma CollectOne(x: Response, f: Frame)
    requires Prepare(x) == Ok(Some(f))
    ensures Collect([x]) == Ok([f])
  {
    assert Collect([]) == Ok([]);
    CollectReady(x, f, []);
    assert [x] + [] == [x] && [f] + [] == [f];
  }

  /** Two responses that both yield a table are collected as those two tables. */
  lemma CollectTwo(a: Response, b: Response)
    requires Ready(a) && Ready(b)
    ensures Collect([a, b]) == Ok([Table(a), Table(b)])
  {
    var fa := Table(a);
    var fb := Table(b);
    CollectOne(b, fb);
    CollectReady(a, fa, [b]);
    assert [a] + [b] == [a, b];
    assert [fa] + [fb] == [fa, fb];
  }

  /** Merging two tables. */
  lemma MergeTwo(fa: Frame, fb: Frame)
    ensures |MergeFrames([fa, fb]).rows| == |fa.rows| + |fb.rows|
    ensures SortedByDate(MergeFrames([fa, fb]).rows)
    ensures IsMergeOf(fa.rows + fb.rows, MergeFrames([fa, fb]).rows)
    ensures MergeFrames([fa, fb]).columns == fa.columns + fb.columns
  {
    assert [fa, fb][1..] == [fb] && [fb][1..] == [];
    assert AllRows([fa, fb]) == fa.rows + fb.rows;
    assert AllColumns([fa, fb]) == fa.columns + fb.columns;
    MergeFramesSpec([fa, fb]);
  }

  /** Two drivers whose responses both contribute without raising: the result holds the rows
      of both bodies, ordered by date, as a fill of an ordering of the two smoothed tables. */
  lemma TwoDrivers(a: Response, b: Response)
    requires Ready(a) && Ready(b)
    ensures var r := FetchCarData([a, b]);
            && !IsEmpty(r)
            && |r.rows| == |a.body| + |b.body|
            && SortedByDate(r.rows)
            && IsMergeOf(Table(a).rows + Table(b).rows, r.rows)
  {
    var fa := Table(a);
    var fb := Table(b);
    assert |fa.rows| == |a.body| by { PrepareNormalizes(a); }
    assert |fb.rows| == |b.body| by { PrepareNormalizes(b); }
    CollectTwo(a, b);
    assert !IsEmpty(FetchCarData([a, b]));
    assert FetchCarData([a, b]) == MergeFrames([fa, fb]);
    MergeTwo(fa, fb);
  }

  /** The merged table of two ready responses is the merge of their rows. */
  lemma MergeOfTwo(a: Response, b: Response)
    requires Ready(a) && Ready(b)
    ensures IsMergeOf(Table(a).rows + Table(b).rows, FetchCarData([a, b]).rows)
  {
    TwoDrivers(a, b);
  }

  /** Merging keeps every driver number present, so rows that all carry one of two driver
      numbers merge into rows that do. */
  lemma FilledDriversFrom(rows: seq<Row>, out: seq<Row>, a: int, b: int)
    requires IsMergeOf(rows, out)
    requires forall k :: 0 <= k < |rows| ==> rows[k].driver == Some(a) || rows[k].driver == Some(b)
    ensures forall k :: 0 <= k < |out| ==> out[k].driver == Some(a) || out[k].driver == Some(b)
  {
    var s :| multiset(s) == multiset(rows) && SortedByDate(s) && out == FFill(s);
    FFillKeepsPresent(s);
    forall k | 0 <= k < |out|
      ensures out[k].driver == Some(a) || out[k].driver == Some(b)
    {
      assert s[k] in multiset(rows);
      var j :| 0 <= j < |rows| && rows[j] == s[k];
    }
  }

  /** The merged table of two ready responses has the columns of either table. */
  lemma TwoDriversColumns(a: Response, b: Response)
    requires Ready(a) && Ready(b)
    ensures FetchCarData([a, b]).columns == Table(a).columns + Table(b).columns
  {
    CollectTwo(a, b);
    assert FetchCarData([a, b]) == MergeFrames([Table(a), Table(b)]);
    MergeTwo(Table(a), Table(b));
  }

  /** Data from a single driver is not enough: when the other response fails or is empty,
      the result is the empty table even though one table was ready. */
  lemma OneDriverIsNotEnough(a: Response, b: Response)
    requires Ready(a)
    requires !Contributes(b)
    ensures FetchCarData([a, b]) == EmptyFrame
    ensures FetchCarData([b, a]) == EmptyFrame
  {
    assert [a, b][1..] == [b] && [b, a][1..] == [a];
    assert [b][1..] == [] && [a][1..] == [];
  }
}
