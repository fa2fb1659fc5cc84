/** Forward-fill over the whole merged table: every missing cell takes the
    nearest earlier present value of the same column, whichever driver the
    earlier row belongs to. Cells with no earlier value stay missing. */
module Fill {
  import opened Telemetry
  import opened Ordering

  /** The row with every cell missing. */
  const Blank: Row := Row(None, None, map[])

  function Or<T>(a: Option<T>, b: Option<T>): Option<T> {
    if a.Some? then a else b
  }

  /** Row `r` with each missing cell taken from `prev`. */
  function Overlay(prev: Row, r: Row): (o: Row)
    ensures o.date == Or(r.date, prev.date) && o.driver == Or(r.driver, prev.driver)
    ensures forall m :: Cell(o, m) == Or(Cell(r, m), Cell(prev, m))
  {
    Row(Or(r.date, prev.date), Or(r.driver, prev.driver), prev.numbers + r.numbers)
  }

  /** The forward-filled table: each row overlaid on the filled row before it. */
  function FFill(rows: seq<Row>): (out: seq<Row>)
    ensures |out| == |rows|
    decreases |rows|
  {
    if |rows| == 0 then []
    else
      var filled := FFill(rows[..|rows| - 1]);
      var prev := if |filled| == 0 then Blank else filled[|filled| - 1];
      filled + [Overlay(prev, rows[|rows| - 1])]
  }

  /** The last present entry of a column, or missing when it has none. */
  function LastSeen<T>(col: seq<Option<T>>): (v: Option<T>)
    ensures v.None? <==> forall k :: 0 <= k < |col| ==> col[k].None?
    ensures v.Some? ==> exists k :: 0 <= k < |col| && col[k] == v && forall j :: k < j < |col| ==> col[j].None?
    decreases |col|
  {
    if |col| == 0 then None
    else if col[|col| - 1].Some? then col[|col| - 1]
    else
      var init := col[..|col| - 1];
      var v := LastSeen(init);
      assert forall k :: 0 <= k < |init| ==> init[k] == col[k];
      assert v.Some? ==> exists k :: 0 <= k < |col| && col[k] == v && forall j :: k < j < |col| ==> col[j].None? by {
        if v.Some? {
          var k :| 0 <= k < |init| && init[k] == v && forall j :: k < j < |init| ==> init[j].None?;
          assert col[k] == v && forall j :: k < j < |col| ==> col[j].None?;
        }
      }
      v
  }

  lemma LastSeenSnoc<T>(col: seq<Option<T>>, x: Option<T>)
    ensures LastSeen(col + [x]) == Or(x, LastSeen(col))
  {
    assert (col + [x])[..|col|] == col;
  }

  /** The columns of a table with one more row at the bottom. */
  lemma ColumnsSnoc(init: seq<Row>, r: Row)
    ensures Dates(init + [r]) == Dates(init) + [r.date]
    ensures DriverNumbers(init + [r]) == DriverNumbers(init) + [r.driver]
    ensures forall m :: Values(init + [r], m) == Values(init, m) + [Cell(r, m)]
  {
  }

  /** The filled table restricted to its first `k` rows is the fill of those rows. */
  lemma {:induction false} FFillPrefix(rows: seq<Row>, k: nat)
    requires k <= |rows|
    ensures FFill(rows)[..k] == FFill(rows[..k])
    decreases |rows|
  {
    if k < |rows| {
      var init := rows[..|rows| - 1];
      assert FFill(rows)[..|rows| - 1] == FFill(init);
      FFillPrefix(init, k);
      assert init[..k] == rows[..k];
    } else {
      assert rows[..k] == rows;
    }
  }

  /** Each filled row is its input row overlaid on the filled row above it. */
  lemma FFillStep(rows: seq<Row>, i: int)
    requires 0 <= i < |rows|
    ensures FFill(rows)[i] == Overlay(if i == 0 then Blank else FFill(rows)[i - 1], rows[i])
  {
    var init := rows[..i + 1];
    FFillPrefix(rows, i + 1);
    assert FFill(rows)[i] == FFill(init)[i];
    assert init[..i] == rows[..i] && init[i] == rows[i];
    var filled := FFill(rows[..i]);
    assert FFill(init) == filled + [Overlay(if |filled| == 0 then Blank else filled[|filled| - 1], rows[i])];
    if i > 0 {
      FFillPrefix(rows, i);
      assert filled[i - 1] == FFill(rows)[i - 1];
    }
  }

  /** The bottom row of the filled table holds, in each column, the last present value. */
  lemma {:induction false} FFillLast(rows: seq<Row>)
    requires |rows| > 0
    ensures FFill(rows)[|rows| - 1].date == LastSeen(Dates(rows))
    ensures FFill(rows)[|rows| - 1].driver == LastSeen(DriverNumbers(rows))
    ensures forall m :: Cell(FFill(rows)[|rows| - 1], m) == LastSeen(Values(rows, m))
    decreases |rows|
  {
    var n := |rows|;
    var init := rows[..n - 1];
    var r := rows[n - 1];
    var filled := FFill(init);
    var prev := if |filled| == 0 then Blank else filled[|filled| - 1];
    assert FFill(rows)[n - 1] == Overlay(prev, r);
    assert rows == init + [r];
    ColumnsSnoc(init, r);
    LastSeenSnoc(Dates(init), r.date);
    LastSeenSnoc(DriverNumbers(init), r.driver);
    forall m
      ensures LastSeen(Values(rows, m)) == Or(Cell(r, m), LastSeen(Values(init, m)))
    {
      LastSeenSnoc(Values(init, m), Cell(r, m));
    }
    if n > 1 {
      FFillLast(init);
    }
  }

  /** Each filled cell is the last present value of its column at or above its row, so a
      present cell keeps its value and a cell with nothing above it stays missing. */
  lemma FFillIsLastSeen(rows: seq<Row>, i: nat)
    requires i < |rows|
    ensures FFill(rows)[i].date == LastSeen(Dates(rows[..i + 1]))
    ensures FFill(rows)[i].driver == LastSeen(DriverNumbers(rows[..i + 1]))
    ensures forall m :: Cell(FFill(rows)[i], m) == LastSeen(Values(rows[..i + 1], m))
  {
    FFillPrefix(rows, i + 1);
    assert FFill(rows)[i] == FFill(rows[..i + 1])[i];
    FFillLast(rows[..i + 1]);
  }

  /** Overlaying a row on the row it was filled from changes nothing. */
  lemma OverlayAbsorbs(prev: Row, r: Row)
    ensures Overlay(prev, Overlay(prev, r)) == Overlay(prev, r)
  {
    assert prev.numbers + (prev.numbers + r.numbers) == prev.numbers + r.numbers;
  }

  /** Forward-filling an already filled table leaves it as it is. */
  lemma {:induction false} FFillIdempotent(rows: seq<Row>)
    ensures FFill(FFill(rows)) == FFill(rows)
    decreases |rows|
  {
    if |rows| > 0 {
      var n := |rows|;
      var filled := FFill(rows[..n - 1]);
      var prev := if |filled| == 0 then Blank else filled[|filled| - 1];
      var out := FFill(rows);
      assert out == filled + [Overlay(prev, rows[n - 1])];
      assert out[..n - 1] == filled;
      FFillIdempotent(rows[..n - 1]);
      OverlayAbsorbs(prev, rows[n - 1]);
    }
  }

  /** Filling a table ordered by date keeps it ordered: a present date is never changed, and
      the missing dates, all at the end, take the last present date. */
  lemma {:induction false} FFillKeepsOrder(rows: seq<Row>)
    requires SortedByDate(rows)
    ensures SortedByDate(FFill(rows))
    decreases |rows|
  {
    if |rows| > 0 {
      var n := |rows|;
      var init := rows[..n - 1];
      var filled := FFill(init);
      var prev := if |filled| == 0 then Blank else filled[|filled| - 1];
      var out := FFill(rows);
      assert out == filled + [Overlay(prev, rows[n - 1])];
      FFillKeepsOrder(init);
      forall i, j | 0 <= i < j < n
        ensures DateLe(out[i].date, out[j].date)
      {
        if j < n - 1 {
          assert out[i] == filled[i] && out[j] == filled[j];
        } else if rows[n - 1].date.Some? {
          assert DateLe(rows[i].date, rows[n - 1].date);
          FFillIsLastSeen(rows, i);
          assert Dates(rows[..i + 1])[i] == rows[i].date;
        } else {
          assert out[i] == filled[i];
          if i < n - 2 {
            DateLeTotalPreorder(filled[i].date, filled[n - 2].date, filled[n - 2].date);
          } else {
            DateLeTotalPreorder(filled[i].date, filled[i].date, filled[i].date);
          }
        }
      }
    }
  }

  /** Forward-fill never overwrites: every present cell of the input is in the output. */
  lemma FFillKeepsPresent(rows: seq<Row>)
    ensures forall i :: 0 <= i < |rows| && rows[i].date.Some? ==> FFill(rows)[i].date == rows[i].date
    ensures forall i :: 0 <= i < |rows| && rows[i].driver.Some? ==> FFill(rows)[i].driver == rows[i].driver
    ensures forall i, m :: 0 <= i < |rows| && Cell(rows[i], m).Some? ==> Cell(FFill(rows)[i], m) == Cell(rows[i], m)
  {
    forall i | 0 <= i < |rows|
      ensures rows[i].date.Some? ==> FFill(rows)[i].date == rows[i].date
      ensures rows[i].driver.Some? ==> FFill(rows)[i].driver == rows[i].driver
      ensures forall m :: Cell(rows[i], m).Some? ==> Cell(FFill(rows)[i], m) == Cell(rows[i], m)
    {
      FFillStep(rows, i);
    }
  }

  /** The fill crosses drivers: a throttle reading of driver 1 fills the missing throttle
      cell of a later row of driver 3. */
  lemma FFillCrossesDrivers()
    ensures var rows := [Row(Some(1), Some(1), map[Throttle := 50.0]), Row(Some(2), Some(3), map[])];
            Cell(FFill(rows)[1], Throttle) == Some(50.0) && FFill(rows)[1].driver == Some(3)
  {
    var rows := [Row(Some(1), Some(1), map[Throttle := 50.0]), Row(Some(2), Some(3), map[])];
    assert rows[..1] == [rows[0]] && [rows[0]][..0] == [];
    assert FFill([rows[0]]) == [Overlay(Blank, rows[0])];
    assert Cell(Overlay(Blank, rows[0]), Throttle) == Some(50.0);
  }
}
