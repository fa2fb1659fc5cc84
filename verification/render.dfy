/** What the chart callback reads from the merged table: the list of distinct
    driver numbers, and for each driver and metric the series of dates and values
    of that driver's rows. */
module Render {
  import opened Telemetry

  /** Index of the first occurrence of `v` in `xs`. */
  function FirstIndex<T(==)>(xs: seq<T>, v: T): (i: nat)
    requires v in xs
    ensures i < |xs| && xs[i] == v
    ensures forall j :: 0 <= j < i ==> xs[j] != v
  {
    if xs[0] == v then 0 else 1 + FirstIndex(xs[1..], v)
  }

  /** A value's first occurrence does not move when elements are added after it. */
  lemma FirstIndexPrefix<T>(xs: seq<T>, n: nat, v: T)
    requires n <= |xs|
    requires v in xs[..n]
    ensures FirstIndex(xs, v) == FirstIndex(xs[..n], v)
  {
    var b := FirstIndex(xs[..n], v);
    assert xs[b] == v;
    assert forall j :: 0 <= j < b ==> xs[j] == xs[..n][j];
  }

  /** The distinct values of a column in order of first appearance. */
  function Unique<T(==,!new)>(xs: seq<T>): (u: seq<T>)
    ensures NoDuplicates(u)
    ensures forall x :: x in u <==> x in xs
    ensures forall i, j :: 0 <= i < j < |u| ==> FirstIndex(xs, u[i]) < FirstIndex(xs, u[j])
    decreases |xs|
  {
    if |xs| == 0 then []
    else
      var n := |xs| - 1;
      var init := xs[..n];
      var last := xs[n];
      var u := Unique(init);
      assert xs == init + [last];
      forall v | v in u
        ensures FirstIndex(xs, v) == FirstIndex(init, v) < n
      {
        FirstIndexPrefix(xs, n, v);
      }
      if last in u then u
      else
        assert FirstIndex(xs, last) == n;
        u + [last]
  }

  /** Distinct values collected in one pass with a set of those already seen, as a hash-based
      `unique` does. */
  method UniqueValues<T(==,!new)>(xs: seq<T>) returns (u: seq<T>)
    ensures u == Unique(xs)
  {
    u := [];
    var seen: set<T> := {};
    for i := 0 to |xs|
      invariant u == Unique(xs[..i])
      invariant forall x :: x in seen <==> x in u
    {
      assert xs[..i + 1][..i] == xs[..i];
      if xs[i] !in seen {
        u := u + [xs[i]];
        seen := seen + {xs[i]};
      }
    }
    assert xs[..|xs|] == xs;
  }

  /** The driver list of the callback: the distinct driver numbers of the merged table in
      order of first appearance, missing (NaN) counted once like any value; no list when the
      table has no `driver_number` column. */
  function DriverList(f: Frame): (r: Option<seq<Option<int>>>)
    ensures r.None? <==> DriverNumber !in f.columns
    ensures r.Some? ==> NoDuplicates(r.value)
    ensures r.Some? ==> forall d :: d in r.value <==> exists k :: 0 <= k < |f.rows| && f.rows[k].driver == d
    ensures r.Some? ==> r.value == Unique(DriverNumbers(f.rows))
  {
    if DriverNumber !in f.columns then None
    else
      var col := DriverNumbers(f.rows);
      assert forall d :: d in col <==> exists k :: 0 <= k < |f.rows| && f.rows[k].driver == d;
      Some(Unique(col))
  }

  /** Whether the comparison `driver_number == d` holds for row `r`; NaN equals nothing. */
  predicate Selects(d: Option<int>, r: Row) {
    d.Some? && r.driver == d
  }

  /** The rows of driver `d`, in table order. */
  function ForDriver(rows: seq<Row>, d: Option<int>): (out: seq<Row>)
    ensures |out| <= |rows|
    ensures forall r :: r in out ==> r in rows && Selects(d, r)
    ensures forall k :: 0 <= k < |rows| && Selects(d, rows[k]) ==> rows[k] in out
    decreases |rows|
  {
    if |rows| == 0 then []
    else
      var rest := ForDriver(rows[1..], d);
      assert forall k :: 1 <= k < |rows| ==> rows[k] == rows[1..][k - 1];
      (if Selects(d, rows[0]) then [rows[0]] else []) + rest
  }

  /** Selecting a driver commutes with concatenation, so the selected rows keep their
      relative order. */
  lemma {:induction false} ForDriverAppend(a: seq<Row>, b: seq<Row>, d: Option<int>)
    ensures ForDriver(a + b, d) == ForDriver(a, d) + ForDriver(b, d)
    decreases |a|
  {
    if |a| == 0 {
      assert a + b == b;
    } else {
      assert (a + b)[0] == a[0];
      assert (a + b)[1..] == a[1..] + b;
      ForDriverAppend(a[1..], b, d);
    }
  }

  /** Selecting the same driver twice selects nothing more. */
  lemma {:induction false} ForDriverIdempotent(rows: seq<Row>, d: Option<int>)
    ensures ForDriver(ForDriver(rows, d), d) == ForDriver(rows, d)
    decreases |rows|
  {
    if |rows| > 0 {
      var head := if Selects(d, rows[0]) then [rows[0]] else [];
      assert ForDriver(rows, d) == head + ForDriver(rows[1..], d);
      ForDriverAppend(head, ForDriver(rows[1..], d), d);
      if Selects(d, rows[0]) {
        assert [rows[0]][1..] == [];
      }
      ForDriverIdempotent(rows[1..], d);
    }
  }

  /** Number of occurrences of `v` in `xs`. */
  function Count<T(==)>(xs: seq<T>, v: T): (n: nat)
    ensures n == 0 <==> v !in xs
    decreases |xs|
  {
    if |xs| == 0 then 0
    else
      assert v in xs <==> xs[0] == v || v in xs[1..];
      (if xs[0] == v then 1 else 0) + Count(xs[1..], v)
  }

  /** A value occurs once in a list without duplicates that holds it. */
  lemma {:induction false} CountDistinct<T>(ds: seq<T>, v: T)
    requires NoDuplicates(ds)
    requires v in ds
    ensures Count(ds, v) == 1
    decreases |ds|
  {
    assert NoDuplicates(ds[1..]);
    if ds[0] == v {
      assert v !in ds[1..];
    } else {
      assert v in ds[1..];
      CountDistinct(ds[1..], v);
    }
  }

  /** Sum, over the values `ds`, of the number of times each occurs in `xs`. */
  function SumCounts<T(==)>(xs: seq<T>, ds: seq<T>): nat
    decreases |ds|
  {
    if |ds| == 0 then 0 else Count(xs, ds[0]) + SumCounts(xs, ds[1..])
  }

  lemma {:induction false} SumCountsCons<T>(x: T, xs: seq<T>, ds: seq<T>)
    ensures SumCounts([x] + xs, ds) == Count(ds, x) + SumCounts(xs, ds)
    decreases |ds|
  {
    assert ([x] + xs)[0] == x && ([x] + xs)[1..] == xs;
    if |ds| > 0 {
      SumCountsCons(x, xs, ds[1..]);
    }
  }

  /** Counting every value of a list without duplicates that covers `xs` counts `xs`. */
  lemma {:induction false} SumCountsCover<T>(xs: seq<T>, ds: seq<T>)
    requires NoDuplicates(ds)
    requires forall x :: x in xs ==> x in ds
    ensures SumCounts(xs, ds) == |xs|
    decreases |xs|
  {
    if |xs| == 0 {
      SumCountsEmpty(xs, ds);
    } else {
      assert xs == [xs[0]] + xs[1..];
      SumCountsCons(xs[0], xs[1..], ds);
      CountDistinct(ds, xs[0]);
      SumCountsCover(xs[1..], ds);
    }
  }

  lemma {:induction false} SumCountsEmpty<T>(xs: seq<T>, ds: seq<T>)
    requires |xs| == 0
    ensures SumCounts(xs, ds) == 0
    decreases |ds|
  {
    if |ds| > 0 {
      SumCountsEmpty(xs, ds[1..]);
    }
  }

  /** The size of a driver's selection is the number of its rows. */
  lemma {:induction false} ForDriverCount(rows: seq<Row>, d: Option<int>)
    ensures |ForDriver(rows, d)| == if d.Some? then Count(DriverNumbers(rows), d) else 0
    decreases |rows|
  {
    if |rows| > 0 {
      assert DriverNumbers(rows)[0] == rows[0].driver;
      assert DriverNumbers(rows)[1..] == DriverNumbers(rows[1..]);
      ForDriverCount(rows[1..], d);
    }
  }

  /** Total number of rows of the selections of drivers `ds`. */
  function SelectedRows(rows: seq<Row>, ds: seq<Option<int>>): nat
    decreases |ds|
  {
    if |ds| == 0 then 0 else |ForDriver(rows, ds[0])| + SelectedRows(rows, ds[1..])
  }

  lemma {:induction false} SelectedRowsCount(rows: seq<Row>, ds: seq<Option<int>>)
    requires NoDuplicates(ds)
    ensures SelectedRows(rows, ds) + (if None in ds then Count(DriverNumbers(rows), None) else 0)
            == SumCounts(DriverNumbers(rows), ds)
    decreases |ds|
  {
    if |ds| > 0 {
      assert NoDuplicates(ds[1..]);
      assert forall d :: d in ds <==> d == ds[0] || d in ds[1..];
      if ds[0] == None {
        assert None !in ds[1..];
      }
      ForDriverCount(rows, ds[0]);
      SelectedRowsCount(rows, ds[1..]);
    }
  }

  /** The selections of the drivers of the driver list partition the rows that carry a driver
      number: each such row is drawn in exactly one driver's trace, and only rows whose
      `driver_number` is NaN are drawn in none. */
  lemma DriversPartitionRows(rows: seq<Row>)
    ensures SelectedRows(rows, Unique(DriverNumbers(rows))) + Count(DriverNumbers(rows), None) == |rows|
  {
    var col := DriverNumbers(rows);
    var ds := Unique(col);
    SelectedRowsCount(rows, ds);
    SumCountsCover(col, ds);
  }

  /** One line of a chart: the dates and metric values of one driver's rows. */
  datatype Trace = Trace(driver: Option<int>, x: seq<Option<int>>, y: seq<Option<real>>)

  /** The trace of driver `d` for `metric`: its `k`-th point is the date and the metric value of
      the driver's `k`-th row in table order. */
  function TraceOf(rows: seq<Row>, metric: Measure, d: Option<int>): (t: Trace)
    ensures t.driver == d
    ensures |t.x| == |t.y| == |ForDriver(rows, d)|
    ensures forall k :: 0 <= k < |t.x| ==>
              t.x[k] == ForDriver(rows, d)[k].date && t.y[k] == Cell(ForDriver(rows, d)[k], metric)
  {
    var sel := ForDriver(rows, d);
    Trace(d, Dates(sel), Values(sel, metric))
  }

  /** Number of line colours; the trace of the `i`-th driver takes colour `i`, so a driver
      beyond the last colour raises an index error. */
  const LineColours: nat := 2

  /** The columns a chart for `metric` looks up. */
  predicate HasChartColumns(f: Frame, metric: Measure) {
    DriverNumber in f.columns && Date in f.columns && Numeric(metric) in f.columns
  }

  /** Number of points drawn by a list of traces. */
  function Points(ts: seq<Trace>): nat {
    if |ts| == 0 then 0 else |ts[0].x| + Points(ts[1..])
  }

  lemma {:induction false} PointsOfTraces(rows: seq<Row>, metric: Measure, ds: seq<Option<int>>, ts: seq<Trace>)
    requires |ts| == |ds|
    requires forall i :: 0 <= i < |ds| ==> ts[i] == TraceOf(rows, metric, ds[i])
    ensures Points(ts) == SelectedRows(rows, ds)
    decreases |ds|
  {
    if |ds| > 0 {
      PointsOfTraces(rows, metric, ds[1..], ts[1..]);
    }
  }

  /** The traces of `drivers`, the first of them being the `i`-th of its figure. For each
      driver the row selection looks up `driver_number`, `date` and the metric, and then the
      colour list is indexed by `i`; any of these lookups may raise. */
  function Scatter(f: Frame, metric: Measure, drivers: seq<Option<int>>, i: nat): (r: Option<seq<Trace>>)
    ensures r.None? <==> |drivers| > 0 && (!HasChartColumns(f, metric) || i + |drivers| > LineColours)
    ensures r.Some? ==> |r.value| == |drivers|
    ensures r.Some? ==> forall k :: 0 <= k < |drivers| ==> r.value[k] == TraceOf(f.rows, metric, drivers[k])
    decreases |drivers|
  {
    if |drivers| == 0 then Some([])
    else if !HasChartColumns(f, metric) || i >= LineColours then None
    else
      match Scatter(f, metric, drivers[1..], i + 1)
      case None => None
      case Some(rest) => Some([TraceOf(f.rows, metric, drivers[0])] + rest)
  }

  /** The data part of a chart for `metric`: one trace per driver, in driver-list order, or no
      chart when building it raises. It raises exactly when there are more drivers than line
      colours, or when there is a driver and a looked-up column is missing. */
  function Figure(f: Frame, metric: Measure, drivers: seq<Option<int>>): (r: Option<seq<Trace>>)
    ensures r.None? <==> |drivers| > LineColours || (|drivers| > 0 && !HasChartColumns(f, metric))
    ensures r.Some? ==> |r.value| == |drivers|
    ensures r.Some? ==> forall i :: 0 <= i < |drivers| ==> r.value[i].driver == drivers[i]
    ensures r.Some? ==> forall i :: 0 <= i < |drivers| ==> r.value[i] == TraceOf(f.rows, metric, drivers[i])
    ensures r.Some? ==> Points(r.value) == SelectedRows(f.rows, drivers)
  {
    var r := Scatter(f, metric, drivers, 0);
    if r.Some? then
      PointsOfTraces(f.rows, metric, drivers, r.value);
      r
    else
      r
  }

  /** A chart of the dashboard: blank, or the traces of a figure. */
  datatype Chart = BlankChart | Plot(traces: seq<Trace>)

  /** The metrics of the four charts, in order. */
  const Metrics: seq<Measure> := [Throttle, Brake, Speed, NGear]

  /** Whether the callback draws the table: it is not empty, holds every column the charts
      look up, and has no more distinct driver numbers than there are line colours. */
  predicate Drawable(f: Frame) {
    && !IsEmpty(f)
    && (forall m :: m in Metrics ==> HasChartColumns(f, m))
    && |Unique(DriverNumbers(f.rows))| <= LineColours
  }

  /** The four charts of the callback for a merged table: all blank for an empty table or
      when building any chart raises, otherwise one figure per metric over the driver list. */
  function Charts(f: Frame): (charts: seq<Chart>)
    ensures |charts| == |Metrics|
    ensures (forall i :: 0 <= i < |charts| ==> charts[i].Plot?) <==> Drawable(f)
    ensures !Drawable(f) ==> forall i :: 0 <= i < |charts| ==> charts[i] == BlankChart
    ensures Drawable(f) ==> forall i :: 0 <= i < |charts| ==>
              && DriverList(f).Some?
              && charts[i] == Plot(Figure(f, Metrics[i], DriverList(f).value).value)
  {
    var blank := seq(|Metrics|, _ => BlankChart);
    assert blank[0] == BlankChart && Throttle in Metrics;
    if IsEmpty(f) then blank
    else
      match DriverList(f)
      case None => blank
      case Some(drivers) =>
        var figures := seq(|Metrics|, i requires 0 <= i < |Metrics| => Figure(f, Metrics[i], drivers));
        assert Drawable(f) ==> forall i :: 0 <= i < |Metrics| ==> figures[i].Some? by {
          if Drawable(f) {
            forall i | 0 <= i < |Metrics|
              ensures figures[i].Some?
            {
              assert Metrics[i] in Metrics;
            }
          }
        }
        if exists i :: 0 <= i < |Metrics| && figures[i].None? then blank
        else
          assert Drawable(f) by {
            forall m | m in Metrics
              ensures HasChartColumns(f, m)
            {
              var i :| 0 <= i < |Metrics| && Metrics[i] == m;
              assert figures[i].Some?;
            }
            assert figures[0].Some?;
          }
          seq(|Metrics|, i requires 0 <= i < |Metrics| => Plot(figures[i].value))
  }

  /** The rows drawn for the drivers `ds`: each driver's selection, one driver after the other. */
  function Drawn(rows: seq<Row>, ds: seq<Option<int>>): seq<Row>
    decreases |ds|
  {
    if |ds| == 0 then [] else ForDriver(rows, ds[0]) + Drawn(rows, ds[1..])
  }

  /** The rows that carry a driver number, in table order. */
  function Numbered(rows: seq<Row>): (out: seq<Row>)
    ensures forall r :: r in out <==> r in rows && r.driver.Some?
    decreases |rows|
  {
    if |rows| == 0 then []
    else
      var init := rows[..|rows| - 1];
      var last := rows[|rows| - 1];
      assert rows == init + [last];
      Numbered(init) + (if last.driver.Some? then [last] else [])
  }

  lemma {:induction false} DrawnEmpty(ds: seq<Option<int>>)
    ensures Drawn([], ds) == []
    decreases |ds|
  {
    if |ds| > 0 {
      DrawnEmpty(ds[1..]);
    }
  }

  /** Drawing a table with one more row draws what the shorter table draws plus what the row
      alone draws, up to order. */
  lemma {:induction false} DrawnSnoc(rows: seq<Row>, r: Row, ds: seq<Option<int>>)
    ensures multiset(Drawn(rows + [r], ds)) == multiset(Drawn(rows, ds)) + multiset(Drawn([r], ds))
    decreases |ds|
  {
    if |ds| > 0 {
      ForDriverAppend(rows, [r], ds[0]);
      DrawnSnoc(rows, r, ds[1..]);
    }
  }

  /** A single row is drawn once when its driver number is in the list, and not at all otherwise. */
  lemma {:induction false} DrawnSingle(r: Row, ds: seq<Option<int>>)
    requires NoDuplicates(ds)
    ensures multiset(Drawn([r], ds)) == if r.driver.Some? && r.driver in ds then multiset{r} else multiset{}
    decreases |ds|
  {
    if |ds| > 0 {
      assert [r][1..] == [];
      assert ForDriver([r], ds[0]) == if Selects(ds[0], r) then [r] else [];
      assert NoDuplicates(ds[1..]);
      assert r.driver in ds <==> r.driver == ds[0] || r.driver in ds[1..];
      if Selects(ds[0], r) {
        assert r.driver !in ds[1..];
      }
      DrawnSingle(r, ds[1..]);
    }
  }

  /** Over a duplicate-free list holding every driver number of the table, the selections of the
      drivers, one after the other, are a permutation of the rows that carry a driver number. */
  lemma {:induction false} DrawnCovers(rows: seq<Row>, ds: seq<Option<int>>)
    requires NoDuplicates(ds)
    requires forall k :: 0 <= k < |rows| ==> rows[k].driver in ds
    ensures multiset(Drawn(rows, ds)) == multiset(Numbered(rows))
    decreases |rows|
  {
    if |rows| == 0 {
      DrawnEmpty(ds);
    } else {
      var init := rows[..|rows| - 1];
      var last := rows[|rows| - 1];
      assert rows == init + [last];
      DrawnCovers(init, ds);
      DrawnSnoc(init, last, ds);
      DrawnSingle(last, ds);
    }
  }

  /** The `i`-th chart of a drawn dashboard: one trace per entry of the driver list, the
      driver's trace for the chart's metric. */
  lemma DrawnChart(f: Frame, i: nat)
    requires Drawable(f) && i < |Metrics|
    ensures DriverList(f).Some?
    ensures Charts(f)[i].Plot?
    ensures |Charts(f)[i].traces| == |DriverList(f).value|
    ensures forall j :: 0 <= j < |DriverList(f).value| ==>
              Charts(f)[i].traces[j] == TraceOf(f.rows, Metrics[i], DriverList(f).value[j])
    ensures Points(Charts(f)[i].traces) == SelectedRows(f.rows, DriverList(f).value)
  {
    assert Throttle in Metrics;
  }

  /** A drawn dashboard shows, in each chart, one trace per entry of the driver list, whose
      `k`-th point is that driver's `k`-th row; the drivers' rows together are a permutation of
      the rows that carry a driver number, so each such row is drawn exactly once per chart and
      only rows whose driver number is NaN are left out. */
  lemma ChartsDrawEveryRow(f: Frame)
    requires Drawable(f)
    ensures DriverList(f).Some?
    ensures multiset(Drawn(f.rows, DriverList(f).value)) == multiset(Numbered(f.rows))
    ensures forall i :: 0 <= i < |Metrics| ==>
              && Charts(f)[i].Plot?
              && |Charts(f)[i].traces| == |DriverList(f).value|
              && (forall j :: 0 <= j < |DriverList(f).value| ==>
                    Charts(f)[i].traces[j] == TraceOf(f.rows, Metrics[i], DriverList(f).value[j]))
              && Points(Charts(f)[i].traces) + Count(DriverNumbers(f.rows), None) == |f.rows|
  {
    DrawnChart(f, 0);
    var drivers := DriverList(f).value;
    assert drivers == Unique(DriverNumbers(f.rows));
    assert forall k :: 0 <= k < |f.rows| ==> f.rows[k].driver in drivers by {
      forall k | 0 <= k < |f.rows|
        ensures f.rows[k].driver in drivers
      {
        assert DriverNumbers(f.rows)[k] == f.rows[k].driver;
      }
    }
    DrawnCovers(f.rows, drivers);
    DriversPartitionRows(f.rows);
    forall i | 0 <= i < |Metrics|
      ensures && Charts(f)[i].Plot?
              && |Charts(f)[i].traces| == |drivers|
              && (forall j :: 0 <= j < |drivers| ==> Charts(f)[i].traces[j] == TraceOf(f.rows, Metrics[i], drivers[j]))
              && Points(Charts(f)[i].traces) + Count(DriverNumbers(f.rows), None) == |f.rows|
    {
      DrawnChart(f, i);
    }
  }

  lemma ThreeValues<T>(u: seq<T>, a: T, b: T, c: T)
    requires a in u && b in u && c in u
    requires a != b && b != c && a != c
    ensures |u| >= 3
  {
    var i :| 0 <= i < |u| && u[i] == a;
    var j :| 0 <= j < |u| && u[j] == b;
    var k :| 0 <= k < |u| && u[k] == c;
  }

  /** Three distinct values in the `driver_number` column, one more than there are line
      colours, blank all four charts, whatever the other columns hold. */
  lemma ThirdDriverBlanksCharts(f: Frame, a: Option<int>, b: Option<int>, c: Option<int>)
    requires a in DriverNumbers(f.rows) && b in DriverNumbers(f.rows) && c in DriverNumbers(f.rows)
    requires a != b && b != c && a != c
    ensures forall i :: 0 <= i < |Metrics| ==> Charts(f)[i] == BlankChart
  {
    ThreeValues(Unique(DriverNumbers(f.rows)), a, b, c);
  }

  /** The first three entries of a list of at least three. */
  lemma FirstThree<T>(u: seq<T>)
    requires |u| >= 3
    ensures u[0] in u && u[1] in u && u[2] in u
  {
  }

  /** A list without duplicates whose entries are all `a` or `b` has at most two entries. */
  lemma AtMostTwoValues<T>(u: seq<T>, a: T, b: T)
    requires NoDuplicates(u)
    requires forall x :: x in u ==> x == a || x == b
    ensures |u| <= 2
  {
    if |u| > 2 {
      FirstThree(u);
      assert false;
    }
  }

  /** A table whose every row carries one of two driver numbers fits the two line colours. */
  lemma TwoDriversFitColours(f: Frame, a: int, b: int)
    requires forall k :: 0 <= k < |f.rows| ==> f.rows[k].driver == Some(a) || f.rows[k].driver == Some(b)
    ensures |Unique(DriverNumbers(f.rows))| <= LineColours
  {
    var u := Unique(DriverNumbers(f.rows));
    forall x | x in u
      ensures x == Some(a) || x == Some(b)
    {
      assert x in DriverNumbers(f.rows);
    }
    AtMostTwoValues(u, Some(a), Some(b));
  }
}
