# QQQ strategy assistant — RSI and decision model

The dashboard in `stock_1.py` downloads about a month of daily QQQ and VIX
closing prices on every refresh. It computes a 14-period relative strength
index (RSI) over the QQQ closes and shows the latest close, the latest VIX and
the latest RSI. It then applies a three-way rule:

- **BUY** when VIX is above 30 and the RSI is below 30;
- **SELL** when VIX is below 20 or the RSI is above 70;
- **HOLD** otherwise.

This project models that core in Dafny:

- `indicator.dfy` (module `Indicator`) models `compute_rsi` as pure functions on
  sequences. It takes the pandas pipeline step by step: first difference,
  masking of rises and falls, rolling mean, then ratio and rescaling. A NaN is
  the `Undefined` reading. The pipeline is proved equal to an independent
  reference definition: over the window ending at index `i`, the RSI is
  `100·U/(U+D)`, where `U` is the total rise and `D` the total fall of the
  closes, and it is undefined when `U + D = 0`. Its range, its boundary cases,
  its midpoint behaviour and its invariance under a change of price level or
  unit then follow from the reference.
- `strategy.dfy` (module `Strategy`) models the if / elif / else rule. IEEE
  comparisons against a NaN are false.
- `dashboard.dfy` (module `Dashboard`) models one refresh. It takes the
  downloaded close series as parameters and produces the snapshot shown and
  the branch taken, or the failure an empty download causes.

At its edges the code behaves as follows:

- A window with no movement at all gives 0/0, so the RSI is NaN and not 50.
- A window with rises and no falls gives an infinite ratio, which the final
  formula turns into exactly 100.
- The first difference is NaN. The masking turns it into a 0 gain and a 0 loss
  rather than dropping it. The rolling mean needs a full window, so exactly
  the first `period − 1` entries are NaN, not the first `period`. The entry at
  index `period − 1` averages `period − 1` real changes and that artificial 0.
- There is no separate unavailable result. A NaN RSI makes every comparison
  false, so the rule answers SELL when VIX is below 20 and HOLD otherwise.
- An empty download makes the `iloc[-1]` lookup raise before anything is
  decided. The model returns `Failed` for it.

## Model

| member | source | states |
|---|---|---|
| Indicator.RsiStep | stock_1.py:21-22 | From one average gain and one average loss, both non-negative, the result is defined exactly when both are defined and they do not both vanish. A defined value lies in [0, 100]. A zero loss with a positive gain gives 100, through the infinite ratio. A positive loss gives the gain's share `100·g/(g+l)`. |
| Indicator.GainShare | stock_1.py:21-22 | For a positive loss, `100 − 100/(1 + g/l)` equals the gain's share `100·g/(g+l)` and lies in [0, 100). |
| Indicator.Rsi | stock_1.py:17-23 | The RSI series is aligned with the closes (same length). Every entry before a full window (`i + 1 < period`) is NaN. |
| Indicator.GainLossSplit | stock_1.py:18-20 | Each masked gain and loss is non-negative, and at most one is non-zero. Both are 0 at the first row. From the second row on, gain − loss is the day's change. |
| Indicator.AverageGainAt | stock_1.py:19 | Once a full window exists, the rolling mean of gains is the total rise over the window divided by the period. |
| Indicator.AverageLossAt | stock_1.py:20 | Once a full window exists, the negated rolling mean of the masked falls is the total fall over the window divided by the period. |
| Indicator.AveragesNonNegative | stock_1.py:19-20 | Every defined average gain and average loss is non-negative. |
| Indicator.RsiMatchesReference | stock_1.py:17-23 | Every entry of the pipeline equals the reference RSI `100·U/(U+D)` of its window, and is undefined where the reference is. |
| Indicator.RsiUndefinedIff | stock_1.py:19-22 | An entry is NaN exactly when it is in the warm-up, or when the closes neither rise nor fall anywhere in its window. |
| Indicator.RsiInRange | stock_1.py:17-23 | Every defined RSI entry lies in [0, 100]. |
| Indicator.RsiHundredIff | stock_1.py:21-22 | An entry is 100 exactly when it is past the warm-up and its window has some rise and no fall. |
| Indicator.RsiZeroIff | stock_1.py:21-22 | An entry is 0 exactly when it is past the warm-up and its window has some fall and no rise. |
| Indicator.RsiAboveMidpointIff | stock_1.py:17-23 | A defined entry is above 50 exactly when the window's last close is above the close it is measured from. It is exactly 50 when the two are equal. |
| Indicator.RsiOfFlatSeries | stock_1.py:18-22 | Constant closes give a NaN RSI everywhere. |
| Indicator.RsiOfRisingSeries | stock_1.py:18-22 | Strictly rising closes give an RSI of 100 after the warm-up. |
| Indicator.RsiOfFallingSeries | stock_1.py:18-22 | Strictly falling closes give an RSI of 0 after the warm-up. |
| Indicator.RsiScaleInvariant | stock_1.py:17-23 | Scaling the closes by a positive factor and shifting them by a constant leaves the whole RSI series unchanged. |
| Strategy.Evaluate | stock_1.py:41-49 | BUY exactly when VIX > 30 and RSI < 30. SELL exactly when VIX < 20 or RSI > 70. HOLD exactly in the remaining case. A NaN RSI satisfies neither RSI test. |
| Strategy.ThresholdsAreStrict | stock_1.py:41-49 | A VIX of exactly 20 or 30, or an RSI of exactly 30 or 70, falls on the HOLD side of its comparison. |
| Strategy.UndefinedRsiNeverBuys | stock_1.py:41-49 | A NaN RSI never gives BUY. It gives SELL below VIX 20 and HOLD otherwise, the same as an RSI of 50. |
| Strategy.SampleReadings | stock_1.py:41-49 | Sample readings take the branches the rule prescribes: (35, 25) BUY; (15, 50), (50, 75) and (15, 25) SELL; (25, 50) HOLD. |
| Dashboard.Refresh | stock_1.py:28-33 | A refresh shows a snapshot exactly when both downloads have rows, and fails on the price rows first. The snapshot holds the last close, the last VIX close, the reference RSI of the last window, and the decision on those two. |
| Dashboard.ShortHistory | stock_1.py:28-49 | With fewer closes than the 14-period window, the RSI shown is NaN, and the decision is SELL below VIX 20 and HOLD otherwise. |
| Dashboard.BuyOnlyAfterDecline | stock_1.py:41-43 | A BUY requires at least 14 closes, and a last close below the close its RSI window is measured from. |
| Dashboard.PriceLevelIrrelevant | stock_1.py:28-49 | A positive rescaling and shift of the closes changes the close shown accordingly. It changes neither the RSI shown nor the decision. |

## Left out

- Rendering is not modelled, because it is presentation only. This covers the page setup, the metrics, the messages for each branch and the optional matplotlib charts (stock_1.py:9-14, 36-38, 42-49, 52-70).
- The five-minute auto-refresh timer is not modelled. The model covers one refresh.
- The two `yf.download` calls are network I/O. Their close series are parameters of `Dashboard.Refresh`.
- Floating point is not modelled. Prices and averages are exact reals, and the rounding of the IEEE operations is not represented. NaN appears only where the computation produces it (`Undefined`). A NaN or missing close inside the downloaded data is not modelled, and neither is a NaN VIX close.
- Dashboard.Refresh: assumes that the scalar extractions through `.iloc[-1]`, `.iloc[0]` and `.item()` (stock_1.py:31-33, 36-38, 41, 44) succeed, and takes each as the last element of its series. Depending on the column layout of the downloaded frame, some of them can raise. With single-level columns, `latest_close` is already a scalar, so `.iloc[-1]` on it at line 36 fails. With two-level columns, the stored RSI column reads back as a series, so `latest_rsi` is a scalar, and `latest_rsi.iloc[0]` at line 41 fails whenever the VIX test before it holds. In that layout BUY is never shown. These failures depend on the library's frame layout and are not modelled; the `:.2f` formatting at line 38 is left out with the rendering.
- Indicator.Rsi: requires `period >= 1`. In pandas a negative window raises, and a window of 0 gives an all-NaN series. Neither case is modelled, and the program always uses the default of 14.
- Indicator.RsiStep: requires non-negative averages. It does not model the ratio for negative inputs, which the masking in `compute_rsi` never produces.
