/**
 The two scenarios the repository's tests check against `calculate_metrics`:
 closes `1..200`, and a table of only three closes.
 */
module MetricsTests {
  import opened Wrappers
  import opened RollingMean
  import opened Metrics

  /** The closes `1, 2, ..., n`. */
  function Ramp(n: nat): (s: seq<real>)
    ensures |s| == n
  {
    seq(n, i requires 0 <= i < n => (i + 1) as real)
  }

  /** `1 + 2 + ... + n == n * (n + 1) / 2`. */
  lemma {:induction false} SumRamp(n: nat)
    ensures Sum(Ramp(n)) == n as real * (n as real + 1.0) / 2.0
  {
    if n > 0 {
      var k := n as real;
      assert Ramp(n)[..n - 1] == Ramp(n - 1);
      SumRamp(n - 1);
      assert Sum(Ramp(n)) == (k - 1.0) * k / 2.0 + k;
      assert (k - 1.0) * k + 2.0 * k == k * (k + 1.0);
    }
  }

  /** A window that starts at the first row of `Ramp(n)` is itself a ramp. */
  lemma RampWindowFromStart(n: nat, w: nat)
    requires 0 < w <= n
    ensures Window(Ramp(n), w, w - 1) == Ramp(w)
  {
  }

  /** For closes `1..200`: `SMA50` at row 49 is 25.5 and `SMA200` at row 199 is 100.5. */
  lemma RampMeans()
    ensures Rolling(Ramp(200), ShortWindow)[49] == Some(25.5)
    ensures Rolling(Ramp(200), LongWindow)[199] == Some(100.5)
  {
    RampWindowFromStart(200, 50);
    RampWindowFromStart(200, 200);
    SumRamp(50);
    SumRamp(200);
  }

  /** The first test: 200 rows of closes `1..200`. */
  method TestCalculateMetricsLogic() returns (sma50At49: Option<real>, sma200At199: Option<real>)
    ensures sma50At49 == Some(25.5)
    ensures sma200At199 == Some(100.5)
  {
    var df := new Frame(Ramp(200), map[]);
    var result := CalculateMetrics(df);
    RampMeans();
    sma50At49 := result.sma50.value[49];
    sma200At199 := result.sma200.value[199];
  }

  /**
   The second test: closes `[1, 2, 3]` leave the last `SMA50` cell missing.
   The repository's test checks only `SMA50`; that the last `SMA200` cell is
   missing too is an extra claim of this model.
   */
  method TestInsufficientData() returns (lastSma50: Option<real>, lastSma200: Option<real>)
    ensures lastSma50 == None && lastSma200 == None
  {
    var df := new Frame([1.0, 2.0, 3.0], map[]);
    var result := CalculateMetrics(df);
    ShortSeriesAllMissing(result.close[..], ShortWindow);
    ShortSeriesAllMissing(result.close[..], LongWindow);
    lastSma50 := result.sma50.value[2];
    lastSma200 := result.sma200.value[2];
  }
}
