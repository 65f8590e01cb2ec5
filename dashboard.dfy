/** One refresh of the dashboard: the downloaded closing prices and VIX
    closes go in, the latest close, the latest RSI entry, the latest VIX close
    and the branch of the decision come out. The download itself, the timer
    that triggers a refresh, and the rendering are outside the model. */
module Dashboard {
  import opened Indicator
  import opened Strategy

  /** What one refresh displays and decides. */
  datatype Snapshot = Snapshot(close: real, rsi: Reading, vix: real, signal: Signal)

  /** Taking the last row of an empty download raises an IndexError, which
      ends the refresh before anything is decided. */
  datatype Failure = NoPriceRows | NoVixRows

  datatype Outcome = Shown(snapshot: Snapshot) | Failed(failure: Failure)

  /** The refresh: the RSI series is computed over all closes with the default
      window, and each "latest" value is the last entry of its series; the
      RSI entry used is the one aligned with the latest close. The price rows
      are read before the VIX rows. */
  function Refresh(closes: seq<real>, vixCloses: seq<real>): (o: Outcome)
    ensures o.Shown? <==> |closes| > 0 && |vixCloses| > 0
    ensures o == Failed(NoPriceRows) <==> |closes| == 0
    ensures o.Shown? ==>
              && o.snapshot.close == closes[|closes| - 1]
              && o.snapshot.vix == vixCloses[|vixCloses| - 1]
              && o.snapshot.rsi == RsiReference(closes, DefaultPeriod, |closes| - 1)
              && o.snapshot.signal == Evaluate(o.snapshot.vix, o.snapshot.rsi)
  {
    if |closes| == 0 then Failed(NoPriceRows)
    else if |vixCloses| == 0 then Failed(NoVixRows)
    else
      var rsi := Rsi(closes, DefaultPeriod);
      RsiMatchesReference(closes, DefaultPeriod, |closes| - 1);
      var latestRsi := rsi[|rsi| - 1];
      var latestVix := vixCloses[|vixCloses| - 1];
      Shown(Snapshot(closes[|closes| - 1], latestRsi, latestVix, Evaluate(latestVix, latestRsi)))
  }

  /** With fewer closes than the window, the RSI shown is NaN and the decision
      falls through to SELL or HOLD on VIX alone; there is no separate
      "unavailable" outcome. */
  lemma ShortHistory(closes: seq<real>, vixCloses: seq<real>)
    requires 0 < |closes| < DefaultPeriod && |vixCloses| > 0
    ensures Refresh(closes, vixCloses).Shown?
    ensures Refresh(closes, vixCloses).snapshot.rsi == Undefined
    ensures Refresh(closes, vixCloses).snapshot.signal ==
              if vixCloses[|vixCloses| - 1] < 20.0 then Sell else Hold
  {
    UndefinedRsiNeverBuys(vixCloses[|vixCloses| - 1]);
  }

  /** A BUY needs a full window of history whose last close is below the close
      the window is measured from: an RSI under 30 is under 50. */
  lemma BuyOnlyAfterDecline(closes: seq<real>, vixCloses: seq<real>)
    requires Refresh(closes, vixCloses).Shown? && Refresh(closes, vixCloses).snapshot.signal == Buy
    ensures |closes| >= DefaultPeriod
    ensures closes[|closes| - 1] < closes[Anchor(WindowStart(|closes| - 1, DefaultPeriod))]
  {
    var last := |closes| - 1;
    RsiMatchesReference(closes, DefaultPeriod, last);
    assert Rsi(closes, DefaultPeriod)[last].Value?;
    RsiAboveMidpointIff(closes, DefaultPeriod, last);
  }

  /** The price level and unit never change the decision: closes shifted by
      any constant or scaled by any positive factor give the same RSI and the
      same signal, though a different latest close. */
  lemma PriceLevelIrrelevant(closes: seq<real>, vixCloses: seq<real>, k: real, c: real)
    requires k > 0.0
    ensures Refresh(Rescale(closes, k, c), vixCloses).Shown? == Refresh(closes, vixCloses).Shown?
    ensures Refresh(closes, vixCloses).Shown? ==>
              && Refresh(Rescale(closes, k, c), vixCloses).snapshot.rsi == Refresh(closes, vixCloses).snapshot.rsi
              && Refresh(Rescale(closes, k, c), vixCloses).snapshot.signal == Refresh(closes, vixCloses).snapshot.signal
              && Refresh(Rescale(closes, k, c), vixCloses).snapshot.close == k * closes[|closes| - 1] + c
  {
    var scaled := Rescale(closes, k, c);
    if |closes| > 0 {
      forall j | 0 <= j < |closes|
        ensures Rise(scaled, j) == k * Rise(closes, j) && Fall(scaled, j) == k * Fall(closes, j)
      {
        RescaledStep(closes, k, c, j);
      }
      ScaledReference(scaled, closes, k, DefaultPeriod, |closes| - 1);
    }
  }
}
