/** One refresh of the dashboard: merge the two drivers' responses, then draw the four
    charts from the merged table. */
module Dashboard {
  import opened Telemetry
  import opened Normalize
  import opened Ordering
  import opened Fill
  import opened Merge
  import opened Render

  /** The charts shown after one refresh with the given responses. */
  function UpdateGraphs(responses: seq<Response>): (charts: seq<Chart>)
    ensures |charts| == |Metrics|
    ensures CountContributing(responses) < 2 ==> forall i :: 0 <= i < |charts| ==> charts[i] == BlankChart
    ensures (exists k :: 0 <= k < |responses| && Raises(responses[k])) ==>
              forall i :: 0 <= i < |charts| ==> charts[i] == BlankChart
    ensures (forall i :: 0 <= i < |charts| ==> charts[i].Plot?) ==>
              && Collect(responses).Ok?
              && |Collect(responses).value| >= 2
              && forall i :: 0 <= i < |charts| ==>
                   Points(charts[i].traces) + Count(DriverNumbers(FetchCarData(responses).rows), None)
                   == TotalRows(Collect(responses).value)
  {
    var merged := FetchCarData(responses);
    assert IsEmpty(EmptyFrame);
    if Drawable(merged) then
      DrawnRefreshCounts(responses);
      Charts(merged)
    else
      Charts(merged)
  }

  /** A merged table the charts can draw comes from at least two tables, and every chart
      draws each of its rows that carries a driver number. */
  lemma DrawnRefreshCounts(responses: seq<Response>)
    requires Drawable(FetchCarData(responses))
    ensures Collect(responses).Ok? && |Collect(responses).value| >= 2
    ensures forall i :: 0 <= i < |Metrics| ==>
              Points(Charts(FetchCarData(responses))[i].traces) + Count(DriverNumbers(FetchCarData(responses).rows), None)
              == TotalRows(Collect(responses).value)
  {
    ChartsDrawEveryRow(FetchCarData(responses));
  }

  /** A refresh shows the charts of the merged table. */
  lemma RefreshShowsCharts(responses: seq<Response>)
    ensures UpdateGraphs(responses) == Charts(FetchCarData(responses))
  {
  }

  /** When a refresh draws, each chart holds one trace per entry of the merged table's driver
      list, in that order, whose points are that driver's rows; the drivers' rows together are
      a permutation of the merged rows that carry a driver number. */
  lemma RefreshDrawsEveryRow(responses: seq<Response>)
    requires forall i :: 0 <= i < |UpdateGraphs(responses)| ==> UpdateGraphs(responses)[i].Plot?
    ensures var merged := FetchCarData(responses);
            && DriverList(merged).Some?
            && multiset(Drawn(merged.rows, DriverList(merged).value)) == multiset(Numbered(merged.rows))
            && forall i :: 0 <= i < |Metrics| ==>
                 && UpdateGraphs(responses)[i].Plot?
                 && |UpdateGraphs(responses)[i].traces| == |DriverList(merged).value|
                 && forall j :: 0 <= j < |DriverList(merged).value| ==>
                      UpdateGraphs(responses)[i].traces[j] == TraceOf(merged.rows, Metrics[i], DriverList(merged).value[j])
  {
    RefreshShowsCharts(responses);
    ChartsDrawEveryRow(FetchCarData(responses));
  }

  /** A successful response whose every record has a parsed date and the three smoothed
      channels yields a table. */
  lemma CompleteReplyIsReady(resp: Response)
    requires resp.status == OkStatus && |resp.body| > 0
    requires forall k :: 0 <= k < |resp.body| ==> resp.body[k].date.Given? && resp.body[k].date.value.Iso?
    requires forall m :: m in Smoothed ==> m in resp.body[0].numbers
    ensures Ready(resp)
  {
    var cols := ColumnsOf(resp.body);
    assert Date in Keys(resp.body[0]);
    assert forall m :: m in Smoothed ==> Numeric(m) in Keys(resp.body[0]);
    assert Date in cols;
    assert !HasMalformedDate(resp.body);
    assert |Tabulate(resp.body).rows| > 0;
  }

  /** Nothing fills the driver number of a table's first row. */
  lemma FirstDriverStays(s: seq<Row>)
    requires |s| > 0
    ensures FFill(s)[0].driver == s[0].driver
  {
    FFillIsLastSeen(s, 0);
    assert DriverNumbers(s[..1]) == [s[0].driver];
  }

  /** A driver number present in some row is a driver number of the filled table. */
  lemma PresentDriverStays(s: seq<Row>, r: Row)
    requires r in s && r.driver.Some?
    ensures r.driver in DriverNumbers(FFill(s))
  {
    var j :| 0 <= j < |s| && s[j] == r;
    FFillKeepsPresent(s);
    assert DriverNumbers(FFill(s))[j] == FFill(s)[j].driver;
  }

  /** A date ordering of `rows` is headed by the row dated before every other one. */
  lemma EarliestHeadsOrdering(rows: seq<Row>, s: seq<Row>, e: int)
    requires multiset(s) == multiset(rows) && SortedByDate(s)
    requires 0 <= e < |rows| && rows[e].date.Some?
    requires forall k :: 0 <= k < |rows| && k != e ==> rows[k].date.Some? && rows[e].date.value < rows[k].date.value
    ensures s[0] == rows[e]
  {
    forall r | r in s
      ensures r != rows[e] ==> r.date.Some? && rows[e].date.value < r.date.value
    {
      assert r in multiset(rows);
    }
    assert rows[e] in multiset(s);
    EarliestFirst(s, rows[e]);
  }

  /** The charts of a merge in which a row with a NaN driver number is dated before every
      other row, and two other rows carry distinct driver numbers, are all blank: after the
      sort that row comes first, so nothing fills its driver number, and the driver list has
      three entries. */
  lemma EarliestNaNDriverBlanks(rows: seq<Row>, merged: Frame, e: int, p: int, q: int)
    requires IsMergeOf(rows, merged.rows)
    requires 0 <= e < |rows| && 0 <= p < |rows| && 0 <= q < |rows|
    requires rows[e].date.Some? && rows[e].driver.None?
    requires forall k :: 0 <= k < |rows| && k != e ==> rows[k].date.Some? && rows[e].date.value < rows[k].date.value
    requires rows[p].driver.Some? && rows[q].driver.Some? && rows[p].driver != rows[q].driver
    ensures forall i :: 0 <= i < |Metrics| ==> Charts(merged)[i] == BlankChart
  {
    var s :| multiset(s) == multiset(rows) && SortedByDate(s) && merged.rows == FFill(s);
    EarliestHeadsOrdering(rows, s, e);
    FirstDriverStays(s);
    assert DriverNumbers(merged.rows)[0] == None;
    assert rows[p] in multiset(s) && rows[q] in multiset(s);
    PresentDriverStays(s, rows[p]);
    PresentDriverStays(s, rows[q]);
    ThirdDriverBlanksCharts(merged, None, rows[p].driver, rows[q].driver);
  }

  /** A ready response's table has one row per record, with the record's date and driver
      number. */
  lemma TableRows(resp: Response)
    requires Ready(resp)
    ensures |Table(resp).rows| == |resp.body|
    ensures forall k :: 0 <= k < |resp.body| ==>
              Table(resp).rows[k].date == DateOf(resp.body[k]) && Table(resp).rows[k].driver == DriverOf(resp.body[k])
  {
    PrepareNormalizes(resp);
    var f := Table(resp);
    forall k | 0 <= k < |resp.body|
      ensures f.rows[k].date == DateOf(resp.body[k]) && f.rows[k].driver == DriverOf(resp.body[k])
    {
      assert Dates(f.rows)[k] == RawDates(resp.body)[k];
      assert DriverNumbers(f.rows)[k] == RawDrivers(resp.body)[k];
    }
  }

  /** Appending rows dated after a table's first row keeps that row the earliest. */
  lemma LaterAfterHead(x: seq<Row>, y: seq<Row>, d: int)
    requires |x| > 0 && x[0].date == Some(d)
    requires forall k :: 1 <= k < |x| ==> x[k].date.Some? && d < x[k].date.value
    requires forall k :: 0 <= k < |y| ==> y[k].date.Some? && d < y[k].date.value
    ensures forall k :: 0 <= k < |x + y| && k != 0 ==> (x + y)[k].date.Some? && d < (x + y)[k].date.value
  {
    forall k | 0 <= k < |x + y| && k != 0 ensures (x + y)[k].date.Some? && d < (x + y)[k].date.value {
      if k >= |x| {
        assert (x + y)[k] == y[k - |x|];
      }
    }
  }

  /** `x` opens with a row that has no driver number and is dated before every other row of
      `x` and `y`, and rows `x[p]` and `y[q]` carry two distinct driver numbers. */
  predicate LeadsWithNaNDriver(x: seq<Row>, y: seq<Row>, p: int, q: int) {
    && |x| > 0 && x[0].date.Some? && x[0].driver.None?
    && (forall k :: 1 <= k < |x| ==> x[k].date.Some? && x[0].date.value < x[k].date.value)
    && (forall k :: 0 <= k < |y| ==> y[k].date.Some? && x[0].date.value < y[k].date.value)
    && 0 <= p < |x| && 0 <= q < |y|
    && x[p].driver.Some? && y[q].driver.Some? && x[p].driver != y[q].driver
  }

  /** Merging two tables, the first of which opens with a row that has no driver number and
      is dated before every other row, and that carry two distinct driver numbers elsewhere,
      gives four blank charts. */
  lemma LeadingNaNRowBlanks(x: seq<Row>, y: seq<Row>, merged: Frame, p: int, q: int)
    requires IsMergeOf(x + y, merged.rows)
    requires LeadsWithNaNDriver(x, y, p, q)
    ensures forall i :: 0 <= i < |Metrics| ==> Charts(merged)[i] == BlankChart
  {
    LaterAfterHead(x, y, x[0].date.value);
    assert (x + y)[0] == x[0] && (x + y)[p] == x[p] && (x + y)[|x| + q] == y[q];
    EarliestNaNDriverBlanks(x + y, merged, 0, p, |x| + q);
  }

  /** The record-level conditions below, restated for the rows of the two tables. */
  lemma LeadingNaNRows(a: Response, b: Response, p: int, q: int)
    requires Ready(a) && Ready(b) && |a.body| > 0
    requires DateOf(a.body[0]).Some? && DriverOf(a.body[0]).None?
    requires forall k :: 1 <= k < |a.body| ==> DateOf(a.body[k]).Some? && DateOf(a.body[0]).value < DateOf(a.body[k]).value
    requires forall k :: 0 <= k < |b.body| ==> DateOf(b.body[k]).Some? && DateOf(a.body[0]).value < DateOf(b.body[k]).value
    requires 0 <= p < |a.body| && 0 <= q < |b.body|
    requires DriverOf(a.body[p]).Some? && DriverOf(b.body[q]).Some? && DriverOf(a.body[p]) != DriverOf(b.body[q])
    ensures LeadsWithNaNDriver(Table(a).rows, Table(b).rows, p, q)
  {
    TableRows(a);
    TableRows(b);
    var x, y := Table(a).rows, Table(b).rows;
    assert x[0].date == DateOf(a.body[0]);
    forall k | 1 <= k < |x| ensures x[k].date.Some? && x[0].date.value < x[k].date.value {
      assert x[k].date == DateOf(a.body[k]);
    }
    forall k | 0 <= k < |y| ensures y[k].date.Some? && x[0].date.value < y[k].date.value {
      assert y[k].date == DateOf(b.body[k]);
    }
  }

  /** The merged table of two ready responses whose tables lead with a row without a driver
      number gives four blank charts. */
  lemma LeadingNaNMergeBlanks(a: Response, b: Response, p: int, q: int)
    requires Ready(a) && Ready(b)
    requires LeadsWithNaNDriver(Table(a).rows, Table(b).rows, p, q)
    ensures forall i :: 0 <= i < |Metrics| ==> Charts(FetchCarData([a, b]))[i] == BlankChart
  {
    MergeOfTwo(a, b);
    LeadingNaNRowBlanks(Table(a).rows, Table(b).rows, FetchCarData([a, b]), p, q);
  }

  /** Two ready responses, the first of which opens with a record that has no driver number
      and is dated before every other record, and that carry two distinct driver numbers
      elsewhere, give four blank charts. */
  lemma LeadingNaNDriverBlanks(a: Response, b: Response, p: int, q: int)
    requires Ready(a) && Ready(b) && |a.body| > 0
    requires DateOf(a.body[0]).Some? && DriverOf(a.body[0]).None?
    requires forall k :: 1 <= k < |a.body| ==> DateOf(a.body[k]).Some? && DateOf(a.body[0]).value < DateOf(a.body[k]).value
    requires forall k :: 0 <= k < |b.body| ==> DateOf(b.body[k]).Some? && DateOf(a.body[0]).value < DateOf(b.body[k]).value
    requires 0 <= p < |a.body| && 0 <= q < |b.body|
    requires DriverOf(a.body[p]).Some? && DriverOf(b.body[q]).Some? && DriverOf(a.body[p]) != DriverOf(b.body[q])
    ensures forall i :: 0 <= i < |Metrics| ==> UpdateGraphs([a, b])[i] == BlankChart
  {
    LeadingNaNRows(a, b, p, q);
    LeadingNaNMergeBlanks(a, b, p, q);
    RefreshShowsCharts([a, b]);
  }

  /** Every record of `resp` carries driver number `d`. */
  predicate AllOfDriver(resp: Response, d: int) {
    forall k :: 0 <= k < |resp.body| ==> DriverOf(resp.body[k]) == Some(d)
  }

  /** The records of `resp` carry every column the charts look up. */
  predicate HasChartKeys(resp: Response) {
    && Date in ColumnsOf(resp.body)
    && DriverNumber in ColumnsOf(resp.body)
    && forall m :: m in Metrics ==> Numeric(m) in ColumnsOf(resp.body)
  }

  /** Every row of the table of a response of one driver carries that driver's number. */
  lemma TableOfDriver(resp: Response, d: int)
    requires Ready(resp) && AllOfDriver(resp, d)
    ensures forall k :: 0 <= k < |Table(resp).rows| ==> Table(resp).rows[k].driver == Some(d)
  {
    TableRows(resp);
  }

  /** The rows of two tables of one driver each carry one of the two driver numbers. */
  lemma TwoDriverRows(x: seq<Row>, y: seq<Row>, da: int, db: int)
    requires forall k :: 0 <= k < |x| ==> x[k].driver == Some(da)
    requires forall k :: 0 <= k < |y| ==> y[k].driver == Some(db)
    ensures forall k :: 0 <= k < |x + y| ==> (x + y)[k].driver == Some(da) || (x + y)[k].driver == Some(db)
  {
    forall k | 0 <= k < |x + y|
      ensures (x + y)[k].driver == Some(da) || (x + y)[k].driver == Some(db)
    {
      if k < |x| {
        assert (x + y)[k] == x[k];
      } else {
        assert (x + y)[k] == y[k - |x|];
      }
    }
  }

  /** The merged table of two responses of one driver each fits the two line colours. */
  lemma TwoDriversFit(a: Response, b: Response, da: int, db: int)
    requires Ready(a) && Ready(b) && AllOfDriver(a, da) && AllOfDriver(b, db)
    ensures |Unique(DriverNumbers(FetchCarData([a, b]).rows))| <= LineColours
  {
    TableOfDriver(a, da);
    TableOfDriver(b, db);
    TwoDriverRows(Table(a).rows, Table(b).rows, da, db);
    MergeOfTwo(a, b);
    FilledDriversFrom(Table(a).rows + Table(b).rows, FetchCarData([a, b]).rows, da, db);
    TwoDriversFitColours(FetchCarData([a, b]), da, db);
  }

  /** The merged table keeps the columns the charts look up. */
  lemma ChartKeysKept(a: Response, b: Response)
    requires Ready(a) && Ready(b) && HasChartKeys(a)
    ensures forall m :: m in Metrics ==> HasChartColumns(FetchCarData([a, b]), m)
  {
    PrepareNormalizes(a);
    TwoDriversColumns(a, b);
  }

  /** Two ready responses of one driver each, with every chart column, merge into a table
      the charts can draw. */
  lemma TwoDriversDrawable(a: Response, b: Response, da: int, db: int)
    requires Ready(a) && Ready(b) && AllOfDriver(a, da) && AllOfDriver(b, db) && HasChartKeys(a)
    ensures Drawable(FetchCarData([a, b]))
  {
    TwoDrivers(a, b);
    TwoDriversFit(a, b, da, db);
    ChartKeysKept(a, b);
  }

  /** Such a refresh shows a figure in each of the four charts. */
  lemma TwoDriversDraw(a: Response, b: Response, da: int, db: int)
    requires Ready(a) && Ready(b) && AllOfDriver(a, da) && AllOfDriver(b, db) && HasChartKeys(a)
    ensures forall i :: 0 <= i < |Metrics| ==> UpdateGraphs([a, b])[i].Plot?
  {
    TwoDriversDrawable(a, b, da, db);
    RefreshShowsCharts([a, b]);
  }

  /** One set of channel readings, repeated on every record of the example below. */
  const Readings: map<Measure, Option<real>> :=
    map[Throttle := Some(100.0), Brake := Some(0.0), Speed := Some(300.0), NGear := Some(8.0)]

  /** Driver 1's response, whose first and earliest record has a `null` driver number. */
  const FirstReply: Response :=
    Response(OkStatus, [Record(Given(Iso(0)), Null, Readings), Record(Given(Iso(1)), Given(1), Readings)])

  /** Driver 3's response, one record dated after both of driver 1's. */
  const SecondReply: Response := Response(OkStatus, [Record(Given(Iso(2)), Given(3), Readings)])

  lemma ExampleRepliesReady()
    ensures Ready(FirstReply) && Ready(SecondReply)
  {
    CompleteReplyIsReady(FirstReply);
    CompleteReplyIsReady(SecondReply);
  }

  lemma ExampleRepliesShape()
    ensures |FirstReply.body| == 2 && |SecondReply.body| == 1
    ensures DateOf(FirstReply.body[0]) == Some(0) && DriverOf(FirstReply.body[0]) == None
    ensures DateOf(FirstReply.body[1]) == Some(1) && DriverOf(FirstReply.body[1]) == Some(1)
    ensures DateOf(SecondReply.body[0]) == Some(2) && DriverOf(SecondReply.body[0]) == Some(3)
  {
  }

  /** A refresh whose first response carries a record with a `null` driver number, dated
      before every other record, shows four blank charts: the NaN driver number is a third
      entry of the driver list next to drivers 1 and 3. */
  lemma NaNDriverBlanksDashboard()
    ensures UpdateGraphs([FirstReply, SecondReply]) == [BlankChart, BlankChart, BlankChart, BlankChart]
  {
    ExampleRepliesReady();
    ExampleRepliesShape();
    LeadingNaNDriverBlanks(FirstReply, SecondReply, 1, 0);
  }

  /** Driver 1's response: one record with every channel. */
  const DriverOneReply: Response := Response(OkStatus, [Record(Given(Iso(0)), Given(1), Readings)])

  /** Driver 3's response: one record with every channel, dated after driver 1's. */
  const DriverThreeReply: Response := Response(OkStatus, [Record(Given(Iso(1)), Given(3), Readings)])

  lemma DriverRepliesReady()
    ensures Ready(DriverOneReply) && Ready(DriverThreeReply)
  {
    CompleteReplyIsReady(DriverOneReply);
    CompleteReplyIsReady(DriverThreeReply);
  }

  lemma DriverRepliesShape()
    ensures AllOfDriver(DriverOneReply, 1) && AllOfDriver(DriverThreeReply, 3)
    ensures HasChartKeys(DriverOneReply)
  {
    var rec := DriverOneReply.body[0];
    assert Date in Keys(rec) && DriverNumber in Keys(rec);
    assert forall m :: m in Metrics ==> Numeric(m) in Keys(rec);
  }

  /** A refresh whose two responses each carry one driver and every channel shows a figure
      in each of the four charts. */
  lemma TwoDriversDrawDashboard()
    ensures forall i :: 0 <= i < |Metrics| ==> UpdateGraphs([DriverOneReply, DriverThreeReply])[i].Plot?
  {
    DriverRepliesReady();
    DriverRepliesShape();
    TwoDriversDraw(DriverOneReply, DriverThreeReply, 1, 3);
  }
}
