/** Data model of the telemetry reconciliation step of the F1 dashboard.

    A provider response carries a list of car-data records (JSON objects); the
    dashboard turns each successful response into a table with one row per
    record, smooths three channels, and merges the tables of both drivers into
    one table ordered by date. This module holds the shared vocabulary: raw
    records, table rows, tables and the failure that empties the whole result.
 */
module Telemetry {

  /** A possibly missing cell: `None` is pandas' NaN (or NaT for dates). */
  datatype Option<+T> = None | Some(value: T)

  /** A key of a JSON record: not there at all, present with `null`, or present with a value.
      The difference matters because the table's columns are the union of the keys. */
  datatype Slot<+T> = Absent | Null | Given(value: T)

  /** The text of a `date` field: an ISO-8601 timestamp, kept as an integer count of
      nanoseconds, or text the date parser rejects. */
  datatype RawDate = Iso(t: int) | Malformed

  /** The numeric columns of a car-data record other than `date` and `driver_number`. */
  datatype Measure =
    | Throttle
    | Brake
    | Speed
    | NGear
    | Rpm
    | Drs
    | SessionKey
    | MeetingKey
    /** Any further numeric key of a record. The name is never that of a column listed here
        or of `date` or `driver_number`. */
    | Other(name: string)

  /** A column of a table. */
  datatype Column = Date | DriverNumber | Numeric(measure: Measure)

  /** One JSON record of a car-data response. A measure missing from `numbers` is an absent
      key; a key mapped to `None` is present with `null`. */
  datatype Record = Record(date: Slot<RawDate>, driver: Slot<int>, numbers: map<Measure, Option<real>>)

  /** One HTTP response of the provider: its status code and its JSON body. */
  datatype Response = Response(status: int, body: seq<Record>)

  /** One row of a table after date conversion. A measure missing from `numbers` is a NaN cell. */
  datatype Row = Row(date: Option<int>, driver: Option<int>, numbers: map<Measure, real>)

  /** A table: its set of columns and its rows in positional order. */
  datatype Frame = Frame(columns: set<Column>, rows: seq<Row>)

  /** The exception that, once raised anywhere in the processing, empties the whole result. */
  datatype Fault = MissingColumn(column: Column) | UnparseableDate

  datatype Result<+T> = Ok(value: T) | Err(fault: Fault)

  /** The status code of a successful response. */
  const OkStatus: int := 200

  /** Number of samples in the trailing rolling-mean window. */
  const WindowSize: nat := 15

  /** The channels that are smoothed, in the order they are processed. */
  const Smoothed: seq<Measure> := [Throttle, Brake, Speed]

  /** The table with no rows and no columns, returned whenever no merge happens. */
  const EmptyFrame: Frame := Frame({}, [])

  /** A table is empty when it has no rows or no columns. */
  predicate IsEmpty(f: Frame) {
    |f.rows| == 0 || f.columns == {}
  }

  /** The cell of measure `m` in row `r`. */
  function Cell(r: Row, m: Measure): Option<real> {
    if m in r.numbers then Some(r.numbers[m]) else None
  }

  /** The column of measure `m`, top to bottom. */
  function Values(rows: seq<Row>, m: Measure): (col: seq<Option<real>>)
    ensures |col| == |rows|
    ensures forall k :: 0 <= k < |rows| ==> col[k] == Cell(rows[k], m)
  {
    seq(|rows|, k requires 0 <= k < |rows| => Cell(rows[k], m))
  }

  /** The `date` column, top to bottom. */
  function Dates(rows: seq<Row>): (col: seq<Option<int>>)
    ensures |col| == |rows|
    ensures forall k :: 0 <= k < |rows| ==> col[k] == rows[k].date
  {
    seq(|rows|, k requires 0 <= k < |rows| => rows[k].date)
  }

  /** The `driver_number` column, top to bottom. */
  function DriverNumbers(rows: seq<Row>): (col: seq<Option<int>>)
    ensures |col| == |rows|
    ensures forall k :: 0 <= k < |rows| ==> col[k] == rows[k].driver
  {
    seq(|rows|, k requires 0 <= k < |rows| => rows[k].driver)
  }

  /** No element occurs twice. */
  predicate NoDuplicates<T(==)>(s: seq<T>) {
    forall i, j :: 0 <= i < j < |s| ==> s[i] != s[j]
  }
}
