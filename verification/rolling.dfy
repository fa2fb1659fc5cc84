/** The trailing rolling mean applied to each smoothed channel: window of
    `WindowSize` samples, at least one present sample required, missing samples
    ignored. Reals are exact, so the bounds below do not depend on rounding. */
module RollingWindow {
  import opened Telemetry

  /** The present values of a window, in order. */
  function Present(w: seq<Option<real>>): (p: seq<real>)
    ensures |p| <= |w|
    ensures forall x :: x in p <==> Some(x) in w
  {
    if |w| == 0 then []
    else (if w[0].Some? then [w[0].value] else []) + Present(w[1..])
  }

  function Sum(xs: seq<real>): real {
    if |xs| == 0 then 0.0 else xs[0] + Sum(xs[1..])
  }

  /** The arithmetic mean of a non-empty sequence. */
  function Mean(xs: seq<real>): real
    requires |xs| > 0
  {
    Average(Sum(xs), |xs|)
  }

  /** A total divided by a positive count. */
  function Average(total: real, count: int): real
    requires count > 0
  {
    total / (count as real)
  }

  function Min(xs: seq<real>): (m: real)
    requires |xs| > 0
    ensures m in xs
    ensures forall x :: x in xs ==> m <= x
  {
    if |xs| == 1 then xs[0]
    else
      var rest := Min(xs[1..]);
      assert xs == [xs[0]] + xs[1..];
      if xs[0] <= rest then xs[0] else rest
  }

  function Max(xs: seq<real>): (m: real)
    requires |xs| > 0
    ensures m in xs
    ensures forall x :: x in xs ==> x <= m
  {
    if |xs| == 1 then xs[0]
    else
      var rest := Max(xs[1..]);
      assert xs == [xs[0]] + xs[1..];
      if xs[0] >= rest then xs[0] else rest
  }

  /** Index of the first sample of the trailing window that ends just before `end`. */
  function TrailStart(end: nat): (s: nat)
    ensures s <= end
  {
    if end >= WindowSize then end - WindowSize else 0
  }

  /** The window the mean at row `i` is taken over: rows max(0, i-14) .. i. */
  function Window(col: seq<Option<real>>, i: nat): seq<Option<real>>
    requires i < |col|
  {
    col[TrailStart(i + 1)..i + 1]
  }

  /** The smoothed value at row `i`: the mean of the present samples of its window,
      or missing when the window has none. */
  function WindowMean(col: seq<Option<real>>, i: nat): Option<real>
    requires i < |col|
  {
    var p := Present(Window(col, i));
    if |p| == 0 then None else Some(Mean(p))
  }

  /** The whole smoothed column. */
  function Rolling(col: seq<Option<real>>): (out: seq<Option<real>>)
    ensures |out| == |col|
    ensures forall i :: 0 <= i < |col| ==> out[i] == WindowMean(col, i)
  {
    seq(|col|, i requires 0 <= i < |col| => WindowMean(col, i))
  }

  lemma {:induction false} PresentAppend(a: seq<Option<real>>, b: seq<Option<real>>)
    ensures Present(a + b) == Present(a) + Present(b)
    decreases |a|
  {
    if |a| == 0 {
      assert a + b == b;
    } else {
      assert (a + b)[1..] == a[1..] + b;
      PresentAppend(a[1..], b);
    }
  }

  lemma {:induction false} SumAppend(a: seq<real>, b: seq<real>)
    ensures Sum(a + b) == Sum(a) + Sum(b)
    decreases |a|
  {
    if |a| == 0 {
      assert a + b == b;
    } else {
      assert (a + b)[1..] == a[1..] + b;
      SumAppend(a[1..], b);
    }
  }

  /** What the sample at index `k` adds to the running sum and to the running count. */
  function Weight(x: Option<real>): (real, int) {
    if x.Some? then (x.value, 1) else (0.0, 0)
  }

  /** The present samples of a one-sample window. */
  lemma PresentSingle(x: Option<real>)
    ensures Sum(Present([x])) == Weight(x).0
    ensures |Present([x])| == Weight(x).1
  {
    assert [x][1..] == [];
  }

  /** Extending the window `col[lo..hi]` by the sample at `hi`. */
  lemma WindowGrows(col: seq<Option<real>>, lo: nat, hi: nat)
    requires lo <= hi < |col|
    ensures Sum(Present(col[lo..hi + 1])) == Sum(Present(col[lo..hi])) + Weight(col[hi]).0
    ensures |Present(col[lo..hi + 1])| == |Present(col[lo..hi])| + Weight(col[hi]).1
  {
    assert col[lo..hi + 1] == col[lo..hi] + [col[hi]];
    PresentAppend(col[lo..hi], [col[hi]]);
    SumAppend(Present(col[lo..hi]), Present([col[hi]]));
    PresentSingle(col[hi]);
  }

  /** Dropping the sample at `lo` from the window `col[lo..hi]`. */
  lemma WindowShrinks(col: seq<Option<real>>, lo: nat, hi: nat)
    requires lo < hi <= |col|
    ensures Sum(Present(col[lo..hi])) == Weight(col[lo]).0 + Sum(Present(col[lo + 1..hi]))
    ensures |Present(col[lo..hi])| == Weight(col[lo]).1 + |Present(col[lo + 1..hi])|
  {
    assert col[lo..hi] == [col[lo]] + col[lo + 1..hi];
    PresentAppend([col[lo]], col[lo + 1..hi]);
    SumAppend(Present([col[lo]]), Present(col[lo + 1..hi]));
    PresentSingle(col[lo]);
  }

  /** One step of the running totals: from the present samples of `col[TrailStart(i)..i]`
      to those of the window of row `i`, by dropping the sample that leaves (once the
      window is full) and adding the sample at `i`. */
  lemma Slide(col: seq<Option<real>>, i: nat, sum: real, count: int)
    requires i < |col|
    requires sum == Sum(Present(col[TrailStart(i)..i]))
    requires count == |Present(col[TrailStart(i)..i])|
    ensures var out := if i >= WindowSize then Weight(col[i - WindowSize]) else (0.0, 0);
            var into := Weight(col[i]);
            sum - out.0 + into.0 == Sum(Present(col[TrailStart(i + 1)..i + 1])) &&
            count - out.1 + into.1 == |Present(col[TrailStart(i + 1)..i + 1])|
  {
    if i >= WindowSize {
      WindowShrinks(col, i - WindowSize, i);
    }
    WindowGrows(col, TrailStart(i + 1), i);
  }

  /** The value emitted from running totals that match the window of row `i`. */
  lemma Emit(col: seq<Option<real>>, i: nat, sum: real, count: int)
    requires i < |col|
    requires sum == Sum(Present(col[TrailStart(i + 1)..i + 1]))
    requires count == |Present(col[TrailStart(i + 1)..i + 1])|
    ensures count >= 0
    ensures (if count > 0 then Some(Average(sum, count)) else None) == Rolling(col)[i]
  {
    assert Window(col, i) == col[TrailStart(i + 1)..i + 1];
  }

  lemma PrefixSnoc<T>(s: seq<T>, i: nat)
    requires i < |s|
    ensures s[..i + 1] == s[..i] + [s[i]]
  {
  }

  /** One iteration of the running computation: totals that match the samples before the
      window of row `i`, updated by the sample that leaves and the one that enters, match
      the window of row `i` and emit its smoothed value. */
  lemma Step(col: seq<Option<real>>, i: nat, sum: real, count: int, sum': real, count': int, out: seq<Option<real>>)
    requires i < |col|
    requires out == Rolling(col)[..i]
    requires sum == Sum(Present(col[TrailStart(i)..i]))
    requires count == |Present(col[TrailStart(i)..i])|
    requires var leaving := if i >= WindowSize then Weight(col[i - WindowSize]) else (0.0, 0);
             sum' == sum - leaving.0 + Weight(col[i]).0 && count' == count - leaving.1 + Weight(col[i]).1
    ensures sum' == Sum(Present(col[TrailStart(i + 1)..i + 1]))
    ensures count' == |Present(col[TrailStart(i + 1)..i + 1])|
    ensures out + [if count' > 0 then Some(Average(sum', count')) else None] == Rolling(col)[..i + 1]
  {
    Slide(col, i, sum, count);
    Emit(col, i, sum', count');
    PrefixSnoc(Rolling(col), i);
  }

  /** The rolling mean as the dataframe library computes it: one pass that keeps the sum and
      the count of the present samples of the current window, subtracting the sample that
      leaves and adding the one that enters. */
  method RollingMean(col: seq<Option<real>>) returns (out: seq<Option<real>>)
    ensures |out| == |col|
    ensures forall i :: 0 <= i < |col| ==> out[i] == WindowMean(col, i)
  {
    var sum: real := 0.0;
    var count: int := 0;
    out := [];
    var i: nat := 0;
    while i < |col|
      invariant i <= |col|
      invariant out == Rolling(col)[..i]
      invariant sum == Sum(Present(col[TrailStart(i)..i]))
      invariant count == |Present(col[TrailStart(i)..i])|
    {
      var leaving := if i >= WindowSize then Weight(col[i - WindowSize]) else (0.0, 0);
      var entering := Weight(col[i]);
      var sum' := sum - leaving.0 + entering.0;
      var count' := count - leaving.1 + entering.1;
      Step(col, i, sum, count, sum', count', out);
      out := out + [if count' > 0 then Some(Average(sum', count')) else None];
      sum, count := sum', count';
      i := i + 1;
    }
    assert out == Rolling(col);
  }

  lemma {:induction false} SumBounds(xs: seq<real>, lo: real, hi: real)
    requires forall x :: x in xs ==> lo <= x <= hi
    ensures (|xs| as real) * lo <= Sum(xs) <= (|xs| as real) * hi
    decreases |xs|
  {
    if |xs| > 0 {
      var n := |xs[1..]| as real;
      assert xs[0] in xs;
      assert forall x :: x in xs[1..] ==> x in xs;
      SumBounds(xs[1..], lo, hi);
      assert n * lo + lo <= Sum(xs) <= n * hi + hi;
      assert (|xs| as real) == n + 1.0;
    }
  }

  /** A mean never leaves an interval that holds all of its samples. */
  lemma MeanBetween(xs: seq<real>, lo: real, hi: real)
    requires |xs| > 0
    requires forall x :: x in xs ==> lo <= x <= hi
    ensures lo <= Mean(xs) <= hi
  {
    SumBounds(xs, lo, hi);
    var n := |xs| as real;
    assert Mean(xs) * n == Sum(xs);
  }

  /** A window whose samples are all missing has no present values. */
  lemma {:induction false} PresentEmpty(w: seq<Option<real>>)
    requires forall k :: 0 <= k < |w| ==> w[k].None?
    ensures |Present(w)| == 0
    decreases |w|
  {
    if |w| > 0 {
      PresentEmpty(w[1..]);
    }
  }

  /** The window of row `i` has a present value exactly when one of its rows has a sample. */
  lemma WindowHasSample(col: seq<Option<real>>, i: nat)
    requires i < |col|
    ensures |Present(Window(col, i))| > 0 <==> exists j :: TrailStart(i + 1) <= j <= i && col[j].Some?
  {
    var lo := TrailStart(i + 1);
    var w := Window(col, i);
    if exists j :: lo <= j <= i && col[j].Some? {
      var j :| lo <= j <= i && col[j].Some?;
      assert w[j - lo] == col[j];
      assert col[j].value in Present(w);
    } else {
      forall k | 0 <= k < |w|
        ensures w[k].None?
      {
        assert w[k] == col[lo + k];
      }
      PresentEmpty(w);
    }
  }

  /** The smoothed value at row `i` exists exactly when its window holds a present sample
      (so always when the raw sample is present), and then lies between the smallest and
      the largest present sample of the window. */
  lemma WindowMeanBounds(col: seq<Option<real>>, i: nat)
    requires i < |col|
    ensures WindowMean(col, i).Some? <==> exists j :: TrailStart(i + 1) <= j <= i && col[j].Some?
    ensures col[i].Some? ==> WindowMean(col, i).Some?
    ensures WindowMean(col, i).Some? ==>
              var p := Present(Window(col, i));
              |p| > 0 && Min(p) <= WindowMean(col, i).value <= Max(p)
  {
    WindowHasSample(col, i);
    assert TrailStart(i + 1) <= i;
    var p := Present(Window(col, i));
    if |p| > 0 {
      MeanBetween(p, Min(p), Max(p));
    }
  }

  /** Smoothing keeps a channel inside any range its raw samples respect (a throttle
      percentage stays within 0..100, a speed stays non-negative). */
  lemma RollingWithin(col: seq<Option<real>>, lo: real, hi: real)
    requires forall k :: 0 <= k < |col| && col[k].Some? ==> lo <= col[k].value <= hi
    ensures forall i :: 0 <= i < |col| && Rolling(col)[i].Some? ==> lo <= Rolling(col)[i].value <= hi
  {
    forall i | 0 <= i < |col| && Rolling(col)[i].Some?
      ensures lo <= Rolling(col)[i].value <= hi
    {
      var w := Window(col, i);
      var p := Present(w);
      forall x | x in p
        ensures lo <= x <= hi
      {
        var j :| 0 <= j < |w| && w[j] == Some(x);
        assert col[TrailStart(i + 1) + j] == Some(x);
      }
      MeanBetween(p, lo, hi);
    }
  }
}
