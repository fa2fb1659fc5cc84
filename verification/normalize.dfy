/** Per-response processing: build the table from the JSON records, convert the
    `date` column, and smooth `throttle`, `brake` and `speed` with the trailing
    rolling mean. Every other column passes through untouched. */
module Normalize {
  import opened Telemetry
  import opened RollingWindow

  /** The keys of one record, as columns. */
  function Keys(rec: Record): set<Column> {
    (if rec.date.Absent? then {} else {Date})
    + (if rec.driver.Absent? then {} else {DriverNumber})
    + (set m | m in rec.numbers :: Numeric(m))
  }

  /** The columns of the table built from a list of records: every key of every record. */
  function ColumnsOf(body: seq<Record>): (cols: set<Column>)
    ensures forall c :: c in cols <==> exists k :: 0 <= k < |body| && c in Keys(body[k])
  {
    if |body| == 0 then {}
    else
      var rest := ColumnsOf(body[1..]);
      assert forall c :: c in rest ==> exists k :: 0 <= k < |body| && c in Keys(body[k]) by {
        forall c | c in rest
          ensures exists k :: 0 <= k < |body| && c in Keys(body[k])
        {
          var j :| 0 <= j < |body[1..]| && c in Keys(body[1..][j]);
          assert c in Keys(body[j + 1]);
        }
      }
      assert forall k :: 1 <= k < |body| ==> body[k] == body[1..][k - 1];
      Keys(body[0]) + rest
  }

  /** Whether a record carries text the date parser rejects. */
  predicate HasMalformedDate(body: seq<Record>) {
    exists k :: 0 <= k < |body| && body[k].date == Given(Malformed)
  }

  /** The converted `date` cell of a record: `null` and absent become NaT. */
  function DateOf(rec: Record): Option<int> {
    if rec.date.Given? && rec.date.value.Iso? then Some(rec.date.value.t) else None
  }

  function DriverOf(rec: Record): Option<int> {
    if rec.driver.Given? then Some(rec.driver.value) else None
  }

  /** The raw cell of measure `m` in a record: `null` and absent become NaN. */
  function RawCell(rec: Record, m: Measure): Option<real> {
    if m in rec.numbers then rec.numbers[m] else None
  }

  /** The raw column of measure `m`, top to bottom. */
  function RawValues(body: seq<Record>, m: Measure): (col: seq<Option<real>>)
    ensures |col| == |body|
    ensures forall k :: 0 <= k < |body| ==> col[k] == RawCell(body[k], m)
  {
    seq(|body|, k requires 0 <= k < |body| => RawCell(body[k], m))
  }

  function ToRow(rec: Record): Row {
    Row(DateOf(rec), DriverOf(rec), map m | m in rec.numbers && rec.numbers[m].Some? :: rec.numbers[m].value)
  }

  /** The table built from a response body, one row per record, dates converted. */
  function Tabulate(body: seq<Record>): (t: Frame)
    ensures |t.rows| == |body|
  {
    Frame(ColumnsOf(body), seq(|body|, k requires 0 <= k < |body| => ToRow(body[k])))
  }

  /** Whether a response takes part in the merge: status 200 and a non-empty table. */
  predicate Contributes(resp: Response) {
    resp.status == OkStatus && !IsEmpty(Tabulate(resp.body))
  }

  /** Row `r` with the cell of measure `m` replaced by `v` (removed when `v` is missing). */
  function Put(r: Row, m: Measure, v: Option<real>): (o: Row)
    ensures o.date == r.date && o.driver == r.driver
    ensures Cell(o, m) == v
    ensures forall m' :: m' != m ==> Cell(o, m') == Cell(r, m')
  {
    r.(numbers := if v.Some? then r.numbers[m := v.value] else r.numbers - {m})
  }

  /** A column whose cells agree row by row is the same column. */
  lemma SameValues(a: seq<Row>, b: seq<Row>, m: Measure)
    requires |a| == |b|
    requires forall k :: 0 <= k < |a| ==> Cell(a[k], m) == Cell(b[k], m)
    ensures Values(a, m) == Values(b, m)
  {
  }

  /** Replace one column by its trailing rolling mean. */
  function SmoothChannel(rows: seq<Row>, m: Measure): (out: seq<Row>)
    ensures |out| == |rows|
    ensures Dates(out) == Dates(rows) && DriverNumbers(out) == DriverNumbers(rows)
    ensures Values(out, m) == Rolling(Values(rows, m))
    ensures forall m' :: m' != m ==> Values(out, m') == Values(rows, m')
  {
    var smoothed := Rolling(Values(rows, m));
    var out := seq(|rows|, k requires 0 <= k < |rows| => Put(rows[k], m, smoothed[k]));
    assert Values(out, m) == smoothed;
    assert forall m' :: m' != m ==> Values(out, m') == Values(rows, m') by {
      forall m' | m' != m
        ensures Values(out, m') == Values(rows, m')
      {
        SameValues(out, rows, m');
      }
    }
    out
  }

  /** Smooth the listed channels one after the other. */
  function SmoothAll(rows: seq<Row>, ms: seq<Measure>): (out: seq<Row>)
    ensures |out| == |rows|
    decreases |ms|
  {
    if |ms| == 0 then rows else SmoothAll(SmoothChannel(rows, ms[0]), ms[1..])
  }

  /** Smoothing distinct channels in sequence: since each channel is smoothed from its own raw
      column, every listed channel ends up as the rolling mean of its raw column, whatever the
      order, and `date`, `driver_number` and every other column are left as they were. */
  lemma {:induction false} SmoothAllColumns(rows: seq<Row>, ms: seq<Measure>)
    requires NoDuplicates(ms)
    ensures Dates(SmoothAll(rows, ms)) == Dates(rows)
    ensures DriverNumbers(SmoothAll(rows, ms)) == DriverNumbers(rows)
    ensures forall m :: m in ms ==> Values(SmoothAll(rows, ms), m) == Rolling(Values(rows, m))
    ensures forall m :: m !in ms ==> Values(SmoothAll(rows, ms), m) == Values(rows, m)
    decreases |ms|
  {
    if |ms| > 0 {
      var first := SmoothChannel(rows, ms[0]);
      var rest := ms[1..];
      assert NoDuplicates(rest);
      SmoothAllColumns(first, rest);
      assert SmoothAll(rows, ms) == SmoothAll(first, rest);
      assert forall m :: m in rest ==> m != ms[0];
      assert forall m :: m in ms ==> m == ms[0] || m in rest;
    }
  }

  /** The three smoothed channels, leaving every other column as it is. */
  function Smooth(rows: seq<Row>): (out: seq<Row>)
    ensures |out| == |rows|
  {
    SmoothAll(rows, Smoothed)
  }

  /** The converted `date` column of a body. */
  function RawDates(body: seq<Record>): seq<Option<int>> {
    seq(|body|, k requires 0 <= k < |body| => DateOf(body[k]))
  }

  /** The converted `driver_number` column of a body. */
  function RawDrivers(body: seq<Record>): seq<Option<int>> {
    seq(|body|, k requires 0 <= k < |body| => DriverOf(body[k]))
  }

  /** `f` is the table a body turns into: the same columns, one row per record in the same
      order, `date` and `driver_number` as converted, each smoothed channel the rolling mean
      of its raw column, and every other column its raw values. */
  ghost predicate NormalizedFrom(body: seq<Record>, f: Frame) {
    && f.columns == ColumnsOf(body)
    && |f.rows| == |body|
    && Dates(f.rows) == RawDates(body)
    && DriverNumbers(f.rows) == RawDrivers(body)
    && (forall m :: m in Smoothed ==> Values(f.rows, m) == Rolling(RawValues(body, m)))
    && (forall m :: m !in Smoothed ==> Values(f.rows, m) == RawValues(body, m))
  }

  /** The first of `ms` that is not a column, if any. */
  function FirstMissing(cols: set<Column>, ms: seq<Measure>): (r: Option<Measure>)
    ensures r.None? <==> forall m :: m in ms ==> Numeric(m) in cols
    ensures r.Some? ==> r.value in ms && Numeric(r.value) !in cols
  {
    if |ms| == 0 then None
    else if Numeric(ms[0]) !in cols then Some(ms[0])
    else
      assert forall m :: m in ms ==> m == ms[0] || m in ms[1..];
      FirstMissing(cols, ms[1..])
  }

  /** Whether processing a contributing response raises: its table lacks `date` or one of
      the smoothed channels, or a date does not parse. */
  predicate Raises(resp: Response) {
    && Contributes(resp)
    && (|| Date !in ColumnsOf(resp.body)
        || HasMalformedDate(resp.body)
        || exists m :: m in Smoothed && Numeric(m) !in ColumnsOf(resp.body))
  }

  /** What one response contributes: nothing (`Ok(None)`), a smoothed table, or the
      exception that empties the whole result. */
  function Prepare(resp: Response): (r: Result<Option<Frame>>)
    ensures r == Ok(None) <==> !Contributes(resp)
    ensures r.Err? <==> Raises(resp)
  {
    if resp.status != OkStatus then Ok(None)
    else
      var raw := Tabulate(resp.body);
      if IsEmpty(raw) then Ok(None)
      else if Date !in raw.columns then Err(MissingColumn(Date))
      else if HasMalformedDate(resp.body) then Err(UnparseableDate)
      else
        match FirstMissing(raw.columns, Smoothed)
        case Some(m) => Err(MissingColumn(Numeric(m)))
        case None => Ok(Some(Frame(raw.columns, Smooth(raw.rows))))
  }

  /** The table built from a body holds the converted dates and driver numbers and the raw
      values of every measure. */
  lemma TabulateColumns(body: seq<Record>)
    ensures Dates(Tabulate(body).rows) == RawDates(body)
    ensures DriverNumbers(Tabulate(body).rows) == RawDrivers(body)
    ensures forall m :: Values(Tabulate(body).rows, m) == RawValues(body, m)
  {
    var rows := Tabulate(body).rows;
    forall m
      ensures Values(rows, m) == RawValues(body, m)
    {
      assert forall k :: 0 <= k < |rows| ==> Cell(rows[k], m) == RawCell(body[k], m);
    }
  }

  /** A contributing response that raises nothing yields a non-empty table with one row per
      record, in the order of the body, smoothed as `NormalizedFrom` describes. */
  lemma PrepareNormalizes(resp: Response)
    ensures Prepare(resp).Ok? && Prepare(resp).value.Some? ==>
              var f := Prepare(resp).value.value;
              !IsEmpty(f) && NormalizedFrom(resp.body, f)
  {
    if Prepare(resp).Ok? && Prepare(resp).value.Some? {
      var raw := Tabulate(resp.body);
      assert Prepare(resp).value.value == Frame(raw.columns, SmoothAll(raw.rows, Smoothed));
      assert NoDuplicates(Smoothed);
      SmoothAllColumns(raw.rows, Smoothed);
      TabulateColumns(resp.body);
    }
  }
}
