/** The buy / sell / hold rule the dashboard applies on every refresh to the
    latest VIX close and the latest RSI entry: a first-match chain of strict
    threshold comparisons. */
module Strategy {
  import opened Indicator

  /** The three branches of the decision; which message is rendered for each
      is presentation and is not modelled. */
  datatype Signal = Buy | Sell | Hold

  /** VIX strictly above this level is the fear condition for buying. */
  const VixHigh: real := 30.0
  /** VIX strictly below this level is the complacency condition for selling. */
  const VixLow: real := 20.0
  /** RSI strictly below this level is oversold. */
  const Oversold: real := 30.0
  /** RSI strictly above this level is overbought. */
  const Overbought: real := 70.0

  /** `rsi < t` on a float: a NaN compares false. */
  predicate Below(rsi: Reading, t: real)
  {
    rsi.Value? && rsi.v < t
  }

  /** `rsi > t` on a float: a NaN compares false. */
  predicate Above(rsi: Reading, t: real)
  {
    rsi.Value? && rsi.v > t
  }

  /** The if / elif / else on the latest VIX and RSI. The branches exclude
      each other, so each outcome is also characterised on its own, without
      reference to the order in which the conditions are tried: SELL whenever
      VIX is below 20 or RSI above 70, whatever the BUY test says. */
  function Evaluate(vix: real, rsi: Reading): (s: Signal)
    ensures s == Buy <==> vix > 30.0 && Below(rsi, 30.0)
    ensures s == Sell <==> vix < 20.0 || Above(rsi, 70.0)
    ensures s == Hold <==> (20.0 <= vix <= 30.0 && !Above(rsi, 70.0)) ||
                           (30.0 < vix && !Below(rsi, 30.0) && !Above(rsi, 70.0))
  {
    if vix > VixHigh && Below(rsi, Oversold) then Buy
    else if vix < VixLow || Above(rsi, Overbought) then Sell
    else Hold
  }

  /** Every threshold is strict: a VIX of exactly 20 or 30, or an RSI of
      exactly 30 or 70, with the other input in its middle band, holds. */
  lemma ThresholdsAreStrict(vix: real, r: real)
    ensures (vix == 20.0 || vix == 30.0) && 30.0 <= r <= 70.0 ==> Evaluate(vix, Value(r)) == Hold
    ensures (r == 30.0 || r == 70.0) && 20.0 <= vix <= 30.0 ==> Evaluate(vix, Value(r)) == Hold
    ensures r == 30.0 ==> Evaluate(vix, Value(r)) != Buy
    ensures r == 70.0 && vix >= 20.0 ==> Evaluate(vix, Value(r)) != Sell
  {
  }

  /** A NaN RSI never buys: it sells when VIX is below 20 and holds otherwise,
      exactly as if the RSI sat in its middle band. */
  lemma UndefinedRsiNeverBuys(vix: real)
    ensures Evaluate(vix, Undefined) == (if vix < 20.0 then Sell else Hold)
    ensures Evaluate(vix, Undefined) == Evaluate(vix, Value(50.0))
  {
  }

  /** Sample readings and the branch each takes. */
  lemma SampleReadings()
    ensures Evaluate(35.0, Value(25.0)) == Buy
    ensures Evaluate(15.0, Value(50.0)) == Sell
    ensures Evaluate(50.0, Value(75.0)) == Sell
    ensures Evaluate(25.0, Value(50.0)) == Hold
    ensures Evaluate(15.0, Value(25.0)) == Sell
  {
  }
}
