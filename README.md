# Golden Cross visualizer: the moving-average step

The dashboard downloads daily prices for one ticker, adds two trailing simple
moving averages of the closing price (`SMA50` and `SMA200`), and draws them
over a candlestick chart. This project models the one computational step,
`calculate_metrics`, and proves what it produces.

- `wrappers.dfy`, module `Wrappers`: `Option`, whose `None` stands for a
  missing (NaN) cell.
- `rolling.dfy`, module `RollingMean`: the specification of
  `rolling(window = w).mean()` with the default `min_periods = w`
  (`WindowMean`, `Rolling`), its properties, and `RollingMeanOf`, a one-pass
  method that keeps a running window sum and is proved to produce exactly
  `Rolling`.
- `metrics.dfy`, module `Metrics`: the price table as a `Frame` class whose
  `Close` column is an array and whose `SMA50`/`SMA200` columns are fields.
  `CalculateMetrics` assigns both columns in place and returns the same
  table.
- `tests.dfy`, module `MetricsTests`: the repository's two test scenarios,
  stated as lemmas and client methods. The short-series scenario also
  states that the last `SMA200` cell is missing, which the repository's
  test does not check.

Closes are exact `real` numbers. The window sizes are the constants 50 and
200 of the source.

`calculate_metrics` writes both columns into the DataFrame it is given and
returns that same object (app.py:29-31); the model follows the code. The
`Close`, `SMA50` and `SMA200` columns live only in their own fields: the map
of other columns never holds those names, so assigning `SMA50` or `SMA200`
replaces the table's one column of that name, as pandas does.

## Model

| member | source | states |
|---|---|---|
| `RollingMean.Rolling` | app.py:29-30 | the rolling-mean column has exactly one cell per close |
| `RollingMean.RollingShape` | app.py:29-30 | row `i` is missing exactly when `i < w - 1`; otherwise it is the sum of `Close[i-w+1..i]` divided by `w` |
| `RollingMean.ShortSeriesAllMissing` | app.py:29-30 | a series shorter than the window has every cell of that column missing |
| `RollingMean.MeanWithinWindow` | app.py:29-30 | every present value lies between the smallest and the largest close of its window |
| `RollingMean.SlidingUpdate` | app.py:29-30 | once the window is full, each value equals the previous value plus (entering close minus leaving close) / `w` |
| `RollingMean.RollingMeanOf` | app.py:29-30 | one pass with a running window sum yields exactly the column `Rolling(closes, w)` |
| `Metrics.Frame.constructor` | tests.py:11-12 | a new table holds the given closes and other columns, and has no derived columns yet |
| `Metrics.CalculateMetrics` | app.py:23-31 | sets `SMA50` to `Rolling(Close, 50)` and `SMA200` to `Rolling(Close, 200)`; leaves `Close` and every other column unchanged; keeps all columns one entry per row; returns the same table |
| `Metrics.CalculateMetricsTwice` | app.py:29-30 | running the step again on its own output leaves `SMA50` and `SMA200` equal to the first run's values (idempotence) |
| `MetricsTests.SumRamp` | tests.py:18-19 | `1 + 2 + ... + n == n * (n + 1) / 2` |
| `MetricsTests.RampMeans` | tests.py:11-25 | for closes `1..200`, `SMA50` at row 49 is 25.5 and `SMA200` at row 199 is 100.5 |
| `MetricsTests.TestCalculateMetricsLogic` | tests.py:6-25 | running `CalculateMetrics` on a table of closes `1..200` gives 25.5 at `SMA50[49]` and 100.5 at `SMA200[199]` |
| `MetricsTests.TestInsufficientData` | tests.py:27-34 | on closes `[1, 2, 3]` the last `SMA50` cell is missing, as the test asserts; beyond the test, the last `SMA200` cell is missing too |

## Left out

- The flattening of a two-level column index (app.py:26-27). It relies on
  pandas' hierarchical column internals, and no test uses it.
- `fetch_stock_data` (app.py:11-21). It is a network download with a
  session cache and an error message.
- The page layout, the sidebar inputs, the spinner, the metric readouts and
  their `$x.2f` formatting, the data-table view and the chart (app.py:8,
  34-94). These are calls into UI and plotting libraries.
- The start and end dates (app.py:47-48). They depend on the clock.
- IEEE double rounding. Prices are exact reals, so `RollingMeanOf` equals
  the direct windowed mean exactly. pandas' running sum is compensated but
  still rounds.
- Missing closes inside a window. Every close is assumed present, so no NaN
  propagates from `Close` into the derived columns.
- Windows of size zero or less. The model requires a positive window,
  since the source only uses 50 and 200.
