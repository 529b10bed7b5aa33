/**
 The trailing simple moving average of a price series, as computed by
 `Close.rolling(window = w).mean()` with the default `min_periods = w`:
 row `i` is missing while fewer than `w` rows exist up to and including `i`,
 and otherwise is the unweighted mean of the `w` closes ending at row `i`.
 Prices are exact reals rather than IEEE doubles.
 */
module RollingMean {
  import opened Wrappers

  /** One derived column: a value or a missing cell per row. */
  type Column = seq<Option<real>>

  /** Sum of a sequence, accumulated from the front like a running total. */
  function Sum(s: seq<real>): real
  {
    if s == [] then 0.0 else Sum(s[..|s| - 1]) + s[|s| - 1]
  }

  /** Smallest element of a non-empty sequence. */
  function Min(s: seq<real>): (m: real)
    requires s != []
    ensures m in s
    ensures forall x :: x in s ==> m <= x
  {
    if |s| == 1 then s[0]
    else
      var p := s[..|s| - 1];
      assert s == p + [s[|s| - 1]];
      var m := Min(p);
      if s[|s| - 1] < m then s[|s| - 1] else m
  }

  /** Largest element of a non-empty sequence. */
  function Max(s: seq<real>): (m: real)
    requires s != []
    ensures m in s
    ensures forall x :: x in s ==> x <= m
  {
    if |s| == 1 then s[0]
    else
      var p := s[..|s| - 1];
      assert s == p + [s[|s| - 1]];
      var m := Max(p);
      if s[|s| - 1] > m then s[|s| - 1] else m
  }

  /** The `w` closes that end at row `i` (only meaningful once `i + 1 >= w`). */
  function Window(closes: seq<real>, w: nat, i: nat): seq<real>
    requires w - 1 <= i < |closes|
  {
    closes[i + 1 - w..i + 1]
  }

  /** The value of row `i` of the rolling mean with window `w`. */
  function WindowMean(closes: seq<real>, w: nat, i: nat): Option<real>
    requires 0 < w && i < |closes|
  {
    if i + 1 < w then None else Some(Sum(Window(closes, w, i)) / w as real)
  }

  /** The whole rolling-mean column: one cell per close. */
  function Rolling(closes: seq<real>, w: nat): (col: Column)
    requires 0 < w
    ensures |col| == |closes|
  {
    seq(|closes|, i requires 0 <= i < |closes| => WindowMean(closes, w, i))
  }

  /** Removing the first element of a sum. */
  lemma {:induction false} SumCons(s: seq<real>)
    requires s != []
    ensures Sum(s) == s[0] + Sum(s[1..])
  {
    if |s| > 1 {
      var p := s[..|s| - 1];
      SumCons(p);
      assert p[1..] == s[1..][..|s| - 2];
    }
  }

  /** A sum of `|s|` terms, each at least `lo`, is at least `|s| * lo`. */
  lemma {:induction false} SumAtLeast(s: seq<real>, lo: real)
    requires forall x :: x in s ==> lo <= x
    ensures |s| as real * lo <= Sum(s)
  {
    if s != [] {
      var p := s[..|s| - 1];
      assert forall x :: x in p ==> x in s;
      SumAtLeast(p, lo);
      assert s[|s| - 1] in s;
      assert |s| as real * lo == |p| as real * lo + lo;
    }
  }

  /** A sum of `|s|` terms, each at most `hi`, is at most `|s| * hi`. */
  lemma {:induction false} SumAtMost(s: seq<real>, hi: real)
    requires forall x :: x in s ==> x <= hi
    ensures Sum(s) <= |s| as real * hi
  {
    if s != [] {
      var p := s[..|s| - 1];
      assert forall x :: x in p ==> x in s;
      SumAtMost(p, hi);
      assert s[|s| - 1] in s;
      assert |s| as real * hi == |p| as real * hi + hi;
    }
  }

  /** Dividing bounds `n * lo <= total <= n * hi` by a positive `n`. */
  lemma QuotientBetween(total: real, n: real, lo: real, hi: real)
    requires 0.0 < n && n * lo <= total <= n * hi
    ensures lo <= total / n <= hi
  {
  }

  /**
   The column has exactly one cell per close, a cell is missing exactly
   while the window is not yet full, and a present cell is the window's sum
   divided by the window size.
   */
  lemma RollingShape(closes: seq<real>, w: nat, i: nat)
    requires 0 < w && i < |closes|
    ensures |Rolling(closes, w)| == |closes|
    ensures Rolling(closes, w)[i].None? <==> i < w - 1
    ensures i >= w - 1 ==>
      Rolling(closes, w)[i] == Some(Sum(closes[i + 1 - w..i + 1]) / w as real)
  {
  }

  /** A series shorter than the window has the whole column missing. */
  lemma ShortSeriesAllMissing(closes: seq<real>, w: nat)
    requires 0 < w && |closes| < w
    ensures forall i :: 0 <= i < |closes| ==> Rolling(closes, w)[i] == None
  {
  }

  /** Every present value lies between the smallest and largest close of its window. */
  lemma MeanWithinWindow(closes: seq<real>, w: nat, i: nat)
    requires 0 < w && w - 1 <= i < |closes|
    ensures Rolling(closes, w)[i].Some?
    ensures Min(Window(closes, w, i)) <= Rolling(closes, w)[i].value <= Max(Window(closes, w, i))
  {
    var win := Window(closes, w, i);
    var lo, hi := Min(win), Max(win);
    SumAtLeast(win, lo);
    SumAtMost(win, hi);
    assert |win| == w;
    var n := w as real;
    assert |win| as real == n;
    QuotientBetween(Sum(win), n, lo, hi);
  }

  /**
   The sliding update: once the window is full, each value is the previous
   value plus the close that enters the window minus the one that leaves it,
   scaled by the window size.
   */
  lemma SlidingUpdate(closes: seq<real>, w: nat, i: nat)
    requires 0 < w && w <= i < |closes|
    ensures Rolling(closes, w)[i].Some? && Rolling(closes, w)[i - 1].Some?
    ensures Rolling(closes, w)[i].value
         == Rolling(closes, w)[i - 1].value + (closes[i] - closes[i - w]) / w as real
  {
    var prev := closes[i - w..i];
    var cur := closes[i + 1 - w..i + 1];
    SumCons(prev);
    assert prev[1..] == closes[i + 1 - w..i];
    assert cur[..|cur| - 1] == closes[i + 1 - w..i];
    assert Sum(cur) == Sum(prev) - closes[i - w] + closes[i];
  }

  /** Lower bound of the running window before row `i` in `RollingMeanOf`. */
  function WindowStart(i: nat, w: nat): nat
  {
    if i >= w then i - w else 0
  }

  /**
   Computes the rolling-mean column of `closes` in one pass, keeping a
   running sum of the current window: add the close entering it, subtract
   the one leaving it.
   */
  method RollingMeanOf(closes: array<real>, w: nat) returns (col: Column)
    requires 0 < w
    ensures col == Rolling(closes[..], w)
  {
    var n := closes.Length;
    col := [];
    var sum := 0.0;
    var i := 0;
    while i < n
      invariant 0 <= i <= n
      invariant |col| == i
      invariant forall j :: 0 <= j < i ==> col[j] == WindowMean(closes[..], w, j)
      invariant sum == Sum(closes[WindowStart(i, w)..i])
    {
      var lo := WindowStart(i, w);
      assert closes[lo..i + 1][..i - lo] == closes[lo..i];
      sum := sum + closes[i];
      if i >= w {
        SumCons(closes[lo..i + 1]);
        assert closes[lo..i + 1][1..] == closes[lo + 1..i + 1];
        sum := sum - closes[i - w];
      }
      assert sum == Sum(closes[WindowStart(i + 1, w)..i + 1]);
      col := col + [if i + 1 >= w then Some(sum / w as real) else None];
      i := i + 1;
    }
  }
}
