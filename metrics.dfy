/**
 The metrics step of the dashboard: `calculate_metrics` adds the 50-row and
 200-row trailing simple moving averages of `Close` to the price table it is
 given, as the columns `SMA50` and `SMA200`, and returns that same table.
 */
module Metrics {
  import opened Wrappers
  import opened RollingMean

  /** Window of the short moving average (`SMA50`). */
  const ShortWindow: nat := 50

  /** Window of the long moving average (`SMA200`). */
  const LongWindow: nat := 200

  /** The map of other columns holds none of the names the frame keeps in fields. */
  predicate ReservedNamesAbsent(columns: map<string, seq<real>>)
  {
    "Close" !in columns && "SMA50" !in columns && "SMA200" !in columns
  }

  /**
   A price table. `close` is the `Close` column; `others` holds every other
   price column by name (`Open`, `High`, `Low`, `Volume`, ...); `sma50` and
   `sma200` are the derived columns, `None` while the table does not have them.
   */
  class Frame {
    var close: array<real>
    var others: map<string, seq<real>>
    var sma50: Option<Column>
    var sma200: Option<Column>

    /**
     All columns of the table have one entry per row, and `Close`, `SMA50`
     and `SMA200` exist only as their own fields, never again in `others`.
     */
    ghost predicate Valid()
      reads this
    {
      && ReservedNamesAbsent(others)
      && (forall name :: name in others ==> |others[name]| == close.Length)
      && (sma50.Some? ==> |sma50.value| == close.Length)
      && (sma200.Some? ==> |sma200.value| == close.Length)
    }

    /** A freshly loaded table, without derived columns. */
    constructor (closes: seq<real>, columns: map<string, seq<real>>)
      requires ReservedNamesAbsent(columns)
      requires forall name :: name in columns ==> |columns[name]| == |closes|
      ensures Valid() && fresh(close)
      ensures close[..] == closes && others == columns
      ensures sma50 == None && sma200 == None
    {
      close := new real[|closes|](i requires 0 <= i < |closes| => closes[i]);
      others := columns;
      sma50, sma200 := None, None;
    }
  }

  /**
   Assigns the `SMA50` and `SMA200` columns of `df`, each computed from
   `Close` alone, and returns `df` itself. `Close` and every other column are
   left as they were.
   */
  method CalculateMetrics(df: Frame) returns (result: Frame)
    requires df.Valid()
    modifies df`sma50, df`sma200
    ensures result == df && df.Valid()
    ensures df.sma50 == Some(Rolling(df.close[..], ShortWindow))
    ensures df.sma200 == Some(Rolling(df.close[..], LongWindow))
    ensures df.close == old(df.close) && df.close[..] == old(df.close[..])
    ensures df.others == old(df.others)
  {
    var short := RollingMeanOf(df.close, ShortWindow);
    df.sma50 := Some(short);
    var long := RollingMeanOf(df.close, LongWindow);
    df.sma200 := Some(long);
    result := df;
  }

  /**
   Running `CalculateMetrics` on its own output leaves the derived columns as
   the first run set them; `first50` and `first200` are those first values.
   */
  method CalculateMetricsTwice(df: Frame) returns (first50: Option<Column>, first200: Option<Column>)
    requires df.Valid()
    modifies df`sma50, df`sma200
    ensures first50 == Some(Rolling(old(df.close[..]), ShortWindow))
    ensures first200 == Some(Rolling(old(df.close[..]), LongWindow))
    ensures df.sma50 == first50 && df.sma200 == first200
    ensures df.close[..] == old(df.close[..]) && df.others == old(df.others)
  {
    var once := CalculateMetrics(df);
    first50, first200 := once.sma50, once.sma200;
    var twice := CalculateMetrics(once);
  }
}
