/** The relative strength index (RSI) of a closing-price series, as computed by
    compute_rsi: a chain of whole-series operations (diff, where, a trailing
    rolling mean, a division), each modelled as a function on sequences aligned
    index-for-index with the prices. Prices are exact reals; the only floating
    point outcomes kept are the NaN entries, written as `Undefined`, and the
    infinite ratio, whose effect (an RSI of exactly 100) is written out. */
module Indicator {

  /** One entry of a float series: a number, or NaN. */
  datatype Reading = Undefined | Value(v: real)

  /** The look-back window compute_rsi uses when none is given. */
  const DefaultPeriod: nat := 14

  // ---------------------------------------------------------------------------
  // The whole-series operations, in the order compute_rsi applies them
  // ---------------------------------------------------------------------------

  /** series.diff(): the change from the previous entry; the first entry has no
      predecessor and is NaN. */
  function Diff(p: seq<real>): seq<Reading>
  {
    seq(|p|, i requires 0 <= i < |p| => if i == 0 then Undefined else Value(p[i] - p[i - 1]))
  }

  /** The conditions compute_rsi passes to where: delta > 0 and delta < 0. */
  predicate IsRise(x: real) { x > 0.0 }
  predicate IsFall(x: real) { x < 0.0 }

  /** series.where(cond, 0): an entry is kept where `keep` holds of it and
      replaced by 0 elsewhere; a NaN fails every comparison and becomes 0. */
  function Where(d: seq<Reading>, keep: real -> bool): seq<real>
  {
    seq(|d|, i requires 0 <= i < |d| => if d[i].Value? && keep(d[i].v) then d[i].v else 0.0)
  }

  /** Unary minus on a series; NaN stays NaN. */
  function Negate(m: seq<Reading>): seq<Reading>
  {
    seq(|m|, i requires 0 <= i < |m| => if m[i].Value? then Value(-m[i].v) else Undefined)
  }

  /** The total of a series. */
  function Sum(xs: seq<real>): real
  {
    if xs == [] then 0.0 else Sum(xs[..|xs| - 1]) + xs[|xs| - 1]
  }

  /** series.rolling(window=w).mean(): at index i the mean of entries
      i-w+1 .. i; NaN while fewer than w entries exist. */
  function RollingMean(xs: seq<real>, w: nat): seq<Reading>
    requires w >= 1
  {
    seq(|xs|, i requires 0 <= i < |xs| =>
      if i + 1 < w then Undefined else Value(Sum(xs[i + 1 - w..i + 1]) / w as real))
  }

  /** rs = gain / loss; rsi = 100 - 100 / (1 + rs), at one index. A NaN input
      gives NaN; 0/0 is NaN; a positive gain over a zero loss is an infinite
      ratio, and 100 / (1 + rs) is then zero, so the result is exactly 100.
      Otherwise the result is the gain's share of gain + loss, in percent. The
      averages it is applied to are never negative. */
  function RsiStep(gain: Reading, loss: Reading): (r: Reading)
    requires gain.Value? ==> gain.v >= 0.0
    requires loss.Value? ==> loss.v >= 0.0
    ensures r.Value? ==> 0.0 <= r.v <= 100.0
    ensures r.Value? <==> gain.Value? && loss.Value? && gain.v + loss.v > 0.0
    ensures gain.Value? && gain.v > 0.0 && loss == Value(0.0) ==> r == Value(100.0)
    ensures gain.Value? && loss.Value? && loss.v > 0.0 ==>
              r == Value(100.0 * gain.v / (gain.v + loss.v))
  {
    if gain.Undefined? || loss.Undefined? then Undefined
    else if loss.v == 0.0 then
      if gain.v == 0.0 then Undefined else Value(100.0)
    else
      GainShare(gain.v, loss.v);
      Value(100.0 - 100.0 / (1.0 + gain.v / loss.v))
  }

  /** compute_rsi(series, period): one entry per price, NaN throughout the
      warm-up of period - 1 entries. */
  function Rsi(p: seq<real>, period: nat): (r: seq<Reading>)
    requires period >= 1
    ensures |r| == |p|
    ensures forall i :: 0 <= i < |p| && i + 1 < period ==> r[i] == Undefined
  {
    var delta := Diff(p);
    var gain := RollingMean(Where(delta, IsRise), period);
    var loss := Negate(RollingMean(Where(delta, IsFall), period));
    seq(|p|, i requires 0 <= i < |p| =>
      AveragesNonNegative(p, period, i);
      RsiStep(gain[i], loss[i]))
  }

  // ---------------------------------------------------------------------------
  // An independent definition: RSI as the share of upward movement
  // ---------------------------------------------------------------------------

  /** The rise into index j (0 at index 0, which has no predecessor). */
  function Rise(p: seq<real>, j: nat): real
    requires j < |p|
  {
    if j >= 1 && p[j] > p[j - 1] then p[j] - p[j - 1] else 0.0
  }

  /** The fall into index j (0 at index 0). */
  function Fall(p: seq<real>, j: nat): real
    requires j < |p|
  {
    if j >= 1 && p[j] < p[j - 1] then p[j - 1] - p[j] else 0.0
  }

  /** Total rise over indices a .. b-1. */
  function Ups(p: seq<real>, a: nat, b: nat): real
    requires a <= b <= |p|
    decreases b - a
  {
    if a == b then 0.0 else Ups(p, a, b - 1) + Rise(p, b - 1)
  }

  /** Total fall over indices a .. b-1. */
  function Downs(p: seq<real>, a: nat, b: nat): real
    requires a <= b <= |p|
    decreases b - a
  {
    if a == b then 0.0 else Downs(p, a, b - 1) + Fall(p, b - 1)
  }

  /** Totals of rises and falls are never negative. */
  lemma {:induction false} MovesNonNegative(p: seq<real>, a: nat, b: nat)
    requires a <= b <= |p|
    ensures Ups(p, a, b) >= 0.0 && Downs(p, a, b) >= 0.0
    decreases b - a
  {
    if a < b {
      MovesNonNegative(p, a, b - 1);
    }
  }

  /** The first index of the window that ends at i. */
  function WindowStart(i: nat, period: nat): nat
    requires 1 <= period <= i + 1
  {
    i + 1 - period
  }

  /** The RSI at index i defined directly from the prices: undefined during the
      warm-up and on a window without movement, otherwise the percentage of the
      window's total movement that was upward. */
  function RsiReference(p: seq<real>, period: nat, i: nat): Reading
    requires period >= 1 && i < |p|
  {
    if i + 1 < period then Undefined
    else
      var u := Ups(p, WindowStart(i, period), i + 1);
      var d := Downs(p, WindowStart(i, period), i + 1);
      if u + d == 0.0 then Undefined else Value(100.0 * u / (u + d))
  }

  /** With s positive, x * s has the sign of x. */
  lemma SignOfProduct(x: real, s: real)
    requires s > 0.0
    ensures x * s > 0.0 <==> x > 0.0
    ensures x * s == 0.0 <==> x == 0.0
  {
    if x > 0.0 {
      assert x * s > 0.0;
    } else if x < 0.0 {
      assert (-x) * s > 0.0;
    }
  }

  /** 100 - 100/(1 + g/l) is the share of g in g + l, in percent. */
  lemma GainShare(g: real, l: real)
    requires g >= 0.0 && l > 0.0
    ensures 100.0 - 100.0 / (1.0 + g / l) == 100.0 * g / (g + l)
    ensures 0.0 <= 100.0 * g / (g + l) < 100.0
  {
    var a := 1.0 + g / l;
    assert (g / l) * l == g;
    assert a * l == g + l;
    var b := 100.0 / a;
    assert b * a == 100.0;
    var c := 100.0 * g / (g + l);
    assert c * (g + l) == 100.0 * g;
    assert (100.0 - b) * (g + l) == 100.0 * a * l - b * a * l;
    assert (100.0 - b) * (g + l) == c * (g + l);
    assert (100.0 - b - c) * (g + l) == 0.0;
    SignOfProduct(100.0 - b - c, g + l);
    assert (c - 100.0) * (g + l) == -100.0 * l;
    SignOfProduct(100.0 - c, g + l);
    SignOfProduct(c, g + l);
  }

  /** The series that where keeps for delta > 0 is the rise into each index,
      and the one it keeps for delta < 0 is the negated fall. */
  lemma WhereIsRiseAndFall(p: seq<real>, j: nat)
    requires j < |p|
    ensures Where(Diff(p), IsRise)[j] == Rise(p, j)
    ensures Where(Diff(p), IsFall)[j] == -Fall(p, j)
  {
    var d := Diff(p);
    if j == 0 {
      assert d[j] == Undefined;
    } else {
      assert d[j] == Value(p[j] - p[j - 1]);
      assert IsRise(d[j].v) <==> p[j] > p[j - 1];
      assert IsFall(d[j].v) <==> p[j] < p[j - 1];
    }
  }

  /** Each change splits into a gain and a loss: both non-negative, at most
      one of them nonzero, and gain minus loss is the change; at index 0,
      whose change is NaN, both are 0. */
  lemma GainLossSplit(p: seq<real>, j: nat)
    requires j < |p|
    ensures var gain, loss := Where(Diff(p), IsRise)[j], -Where(Diff(p), IsFall)[j];
            && gain >= 0.0 && loss >= 0.0
            && (gain == 0.0 || loss == 0.0)
            && (j == 0 ==> gain == 0.0 && loss == 0.0)
            && (j >= 1 ==> gain - loss == p[j] - p[j - 1])
  {
    WhereIsRiseAndFall(p, j);
  }

  /** Summing a window of a series of rises gives the total rise. */
  lemma {:induction false} SumOfRises(g: seq<real>, p: seq<real>, a: nat, b: nat)
    requires |g| == |p| && a <= b <= |p|
    requires forall j :: 0 <= j < |p| ==> g[j] == Rise(p, j)
    ensures Sum(g[a..b]) == Ups(p, a, b)
    decreases b - a
  {
    if a < b {
      SumOfRises(g, p, a, b - 1);
      assert g[a..b][..b - a - 1] == g[a..b - 1];
    } else {
      assert g[a..b] == [];
    }
  }

  /** Summing a window of a series of negated falls gives minus the total fall. */
  lemma {:induction false} SumOfFalls(g: seq<real>, p: seq<real>, a: nat, b: nat)
    requires |g| == |p| && a <= b <= |p|
    requires forall j :: 0 <= j < |p| ==> g[j] == -Fall(p, j)
    ensures Sum(g[a..b]) == -Downs(p, a, b)
    decreases b - a
  {
    if a < b {
      SumOfFalls(g, p, a, b - 1);
      assert g[a..b][..b - a - 1] == g[a..b - 1];
    } else {
      assert g[a..b] == [];
    }
  }

  /** The windows of gains that the rolling mean averages are the rises of
      the prices. */
  lemma SumGainWindow(p: seq<real>, a: nat, b: nat)
    requires a <= b <= |p|
    ensures Sum(Where(Diff(p), IsRise)[a..b]) == Ups(p, a, b)
  {
    forall j | 0 <= j < |p|
      ensures Where(Diff(p), IsRise)[j] == Rise(p, j)
    {
      WhereIsRiseAndFall(p, j);
    }
    SumOfRises(Where(Diff(p), IsRise), p, a, b);
  }

  /** The windows of kept negative changes are the negated falls. */
  lemma SumLossWindow(p: seq<real>, a: nat, b: nat)
    requires a <= b <= |p|
    ensures Sum(Where(Diff(p), IsFall)[a..b]) == -Downs(p, a, b)
  {
    forall j | 0 <= j < |p|
      ensures Where(Diff(p), IsFall)[j] == -Fall(p, j)
    {
      WhereIsRiseAndFall(p, j);
    }
    SumOfFalls(Where(Diff(p), IsFall), p, a, b);
  }

  /** A non-negative total over a positive window length gives a
      non-negative mean. */
  lemma DivNonNegative(x: real, w: real)
    requires x >= 0.0 && w > 0.0
    ensures x / w >= 0.0
  {
  }

  /** Negating the mean of negated values gives the mean of the values: the
      average loss is the mean of the falls themselves. */
  lemma NegatedMean(d: real, w: real)
    requires w > 0.0
    ensures -((-d) / w) == d / w
  {
  }

  /** The step applied to the means u/w and d/w of a window gives the share
      of u in u + d: the window length cancels out. */
  lemma StepOfMeans(u: real, d: real, w: real)
    requires u >= 0.0 && d >= 0.0 && w > 0.0
    ensures RsiStep(Value(u / w), Value(d / w)) ==
              if u + d == 0.0 then Undefined else Value(100.0 * u / (u + d))
  {
    if d == 0.0 {
      assert d / w == 0.0;
      assert u / w == 0.0 <==> u == 0.0;
    } else {
      assert d / w > 0.0;
      assert (u / w) / (d / w) == u / d;
      GainShare(u, d);
    }
  }

  /** Once w entries exist, the rolling mean at i is the mean of the last w. */
  lemma MeanAt(xs: seq<real>, w: nat, i: nat)
    requires 1 <= w <= i + 1 <= |xs|
    ensures RollingMean(xs, w)[i] == Value(Sum(xs[i + 1 - w..i + 1]) / w as real)
  {
  }

  /** The average gain compute_rsi divides at index i, once the warm-up is
      over: the total rise of the window over its length. */
  lemma AverageGainAt(p: seq<real>, period: nat, i: nat)
    requires 1 <= period <= i + 1 <= |p|
    ensures RollingMean(Where(Diff(p), IsRise), period)[i] ==
              Value(Ups(p, WindowStart(i, period), i + 1) / period as real)
  {
    MeanAt(Where(Diff(p), IsRise), period, i);
    SumGainWindow(p, WindowStart(i, period), i + 1);
  }

  /** The average loss at index i, once the warm-up is over: the total fall
      of the window over its length (the mean of the kept negative changes,
      negated). */
  lemma AverageLossAt(p: seq<real>, period: nat, i: nat)
    requires 1 <= period <= i + 1 <= |p|
    ensures Negate(RollingMean(Where(Diff(p), IsFall), period))[i] ==
              Value(Downs(p, WindowStart(i, period), i + 1) / period as real)
  {
    var a := WindowStart(i, period);
    var w := period as real;
    var d := Downs(p, a, i + 1);
    var m := RollingMean(Where(Diff(p), IsFall), period);
    MeanAt(Where(Diff(p), IsFall), period, i);
    SumLossWindow(p, a, i + 1);
    assert m[i] == Value((-d) / w);
    NegatedMean(d, w);
    assert Negate(m)[i] == Value(-((-d) / w));
  }

  /** The averages compute_rsi divides are never negative. */
  lemma AveragesNonNegative(p: seq<real>, period: nat, i: nat)
    requires period >= 1 && i < |p|
    ensures var gain := RollingMean(Where(Diff(p), IsRise), period)[i];
            gain.Value? ==> gain.v >= 0.0
    ensures var loss := Negate(RollingMean(Where(Diff(p), IsFall), period))[i];
            loss.Value? ==> loss.v >= 0.0
  {
    if i + 1 >= period {
      var a := WindowStart(i, period);
      AverageGainAt(p, period, i);
      AverageLossAt(p, period, i);
      MovesNonNegative(p, a, i + 1);
      DivNonNegative(Ups(p, a, i + 1), period as real);
      DivNonNegative(Downs(p, a, i + 1), period as real);
    }
  }

  /** compute_rsi agrees with the reference definition at every index. */
  lemma RsiMatchesReference(p: seq<real>, period: nat, i: nat)
    requires period >= 1 && i < |p|
    ensures Rsi(p, period)[i] == RsiReference(p, period, i)
  {
    AveragesNonNegative(p, period, i);
    assert Rsi(p, period)[i] ==
             RsiStep(RollingMean(Where(Diff(p), IsRise), period)[i],
                     Negate(RollingMean(Where(Diff(p), IsFall), period))[i]);
    if i + 1 >= period {
      AverageGainAt(p, period, i);
      AverageLossAt(p, period, i);
      MovesNonNegative(p, WindowStart(i, period), i + 1);
      StepOfMeans(Ups(p, WindowStart(i, period), i + 1), Downs(p, WindowStart(i, period), i + 1), period as real);
    }
  }

  // ---------------------------------------------------------------------------
  // Properties of the windowed movement
  // ---------------------------------------------------------------------------

  /** The prices never rise from one index to the next within a .. b-1. */
  predicate NeverRises(p: seq<real>, a: nat, b: nat)
    requires a <= b <= |p|
  {
    forall j :: a <= j < b && j >= 1 ==> p[j] <= p[j - 1]
  }

  /** The prices never fall from one index to the next within a .. b-1. */
  predicate NeverFalls(p: seq<real>, a: nat, b: nat)
    requires a <= b <= |p|
  {
    forall j :: a <= j < b && j >= 1 ==> p[j] >= p[j - 1]
  }

  lemma {:induction false} UpsZeroIff(p: seq<real>, a: nat, b: nat)
    requires a <= b <= |p|
    ensures Ups(p, a, b) == 0.0 <==> NeverRises(p, a, b)
    decreases b - a
  {
    if a < b {
      UpsZeroIff(p, a, b - 1);
      MovesNonNegative(p, a, b - 1);
      if Ups(p, a, b) == 0.0 {
        assert Ups(p, a, b - 1) == 0.0 && Rise(p, b - 1) == 0.0;
      }
    }
  }

  lemma {:induction false} DownsZeroIff(p: seq<real>, a: nat, b: nat)
    requires a <= b <= |p|
    ensures Downs(p, a, b) == 0.0 <==> NeverFalls(p, a, b)
    decreases b - a
  {
    if a < b {
      DownsZeroIff(p, a, b - 1);
      MovesNonNegative(p, a, b - 1);
      if Downs(p, a, b) == 0.0 {
        assert Downs(p, a, b - 1) == 0.0 && Fall(p, b - 1) == 0.0;
      }
    }
  }

  /** The first price a window is measured from: the one before its first
      index, or index 0 itself, whose change counts as zero. */
  function Anchor(a: nat): nat
  {
    if a == 0 then 0 else a - 1
  }

  /** Rises minus falls telescope to the net move across the window. */
  lemma {:induction false} NetMove(p: seq<real>, a: nat, b: nat)
    requires a < b <= |p|
    ensures Ups(p, a, b) - Downs(p, a, b) == p[b - 1] - p[Anchor(a)]
    decreases b - a
  {
    if a + 1 < b {
      NetMove(p, a, b - 1);
    }
  }

  // ---------------------------------------------------------------------------
  // What compute_rsi promises, stated on its result
  // ---------------------------------------------------------------------------

  /** An entry is NaN exactly during the warm-up (the first period-1 entries)
      and where the prices in the window do not move at all. */
  lemma RsiUndefinedIff(p: seq<real>, period: nat, i: nat)
    requires period >= 1 && i < |p|
    ensures Rsi(p, period)[i] == Undefined <==>
              i + 1 < period ||
              (NeverRises(p, WindowStart(i, period), i + 1) && NeverFalls(p, WindowStart(i, period), i + 1))
  {
    RsiMatchesReference(p, period, i);
    if i + 1 >= period {
      UpsZeroIff(p, WindowStart(i, period), i + 1);
      DownsZeroIff(p, WindowStart(i, period), i + 1);
      MovesNonNegative(p, WindowStart(i, period), i + 1);
    }
  }

  /** The share of u in u + d, in percent, is 100 exactly when d is 0, 0
      exactly when u is 0, and above (at) 50 exactly when u is above (at) d. */
  lemma ShareCases(u: real, d: real)
    requires u >= 0.0 && d >= 0.0 && u + d > 0.0
    ensures 100.0 * u / (u + d) == 100.0 <==> d == 0.0
    ensures 100.0 * u / (u + d) == 0.0 <==> u == 0.0
    ensures 100.0 * u / (u + d) > 50.0 <==> u > d
    ensures 100.0 * u / (u + d) == 50.0 <==> u == d
    ensures 0.0 <= 100.0 * u / (u + d) <= 100.0
  {
    var s := u + d;
    var r := 100.0 * u / s;
    assert r * s == 100.0 * u;
    assert (r - 100.0) * s == -100.0 * d;
    assert (r - 50.0) * s == 50.0 * (u - d);
    SignOfProduct(r - 100.0, s);
    SignOfProduct(r, s);
    SignOfProduct(r - 50.0, s);
  }

  /** Every defined entry lies in [0, 100]. */
  lemma RsiInRange(p: seq<real>, period: nat, i: nat)
    requires period >= 1 && i < |p|
    ensures Rsi(p, period)[i].Value? ==> 0.0 <= Rsi(p, period)[i].v <= 100.0
  {
    RsiMatchesReference(p, period, i);
    if i + 1 >= period {
      var a := WindowStart(i, period);
      MovesNonNegative(p, a, i + 1);
      if Ups(p, a, i + 1) + Downs(p, a, i + 1) > 0.0 {
        ShareCases(Ups(p, a, i + 1), Downs(p, a, i + 1));
      }
    }
  }

  /** After the warm-up, the RSI is exactly 100 when the window has upward but
      no downward movement (the infinite-ratio case). */
  lemma RsiHundredIff(p: seq<real>, period: nat, i: nat)
    requires period >= 1 && i < |p|
    ensures Rsi(p, period)[i] == Value(100.0) <==>
              i + 1 >= period &&
              NeverFalls(p, WindowStart(i, period), i + 1) && !NeverRises(p, WindowStart(i, period), i + 1)
  {
    RsiMatchesReference(p, period, i);
    if i + 1 >= period {
      var a := WindowStart(i, period);
      UpsZeroIff(p, a, i + 1);
      DownsZeroIff(p, a, i + 1);
      MovesNonNegative(p, a, i + 1);
      if Ups(p, a, i + 1) + Downs(p, a, i + 1) > 0.0 {
        ShareCases(Ups(p, a, i + 1), Downs(p, a, i + 1));
      }
    }
  }

  /** After the warm-up, the RSI is exactly 0 when the window has downward but
      no upward movement. */
  lemma RsiZeroIff(p: seq<real>, period: nat, i: nat)
    requires period >= 1 && i < |p|
    ensures Rsi(p, period)[i] == Value(0.0) <==>
              i + 1 >= period &&
              NeverRises(p, WindowStart(i, period), i + 1) && !NeverFalls(p, WindowStart(i, period), i + 1)
  {
    RsiMatchesReference(p, period, i);
    if i + 1 >= period {
      var a := WindowStart(i, period);
      UpsZeroIff(p, a, i + 1);
      DownsZeroIff(p, a, i + 1);
      MovesNonNegative(p, a, i + 1);
      if Ups(p, a, i + 1) + Downs(p, a, i + 1) > 0.0 {
        ShareCases(Ups(p, a, i + 1), Downs(p, a, i + 1));
      }
    }
  }

  /** A defined RSI is above 50 exactly when the latest price is above the
      price the window is measured from, and equal to 50 exactly when the two
      prices are equal. */
  lemma RsiAboveMidpointIff(p: seq<real>, period: nat, i: nat)
    requires period >= 1 && i < |p| && Rsi(p, period)[i].Value?
    ensures Rsi(p, period)[i].v > 50.0 <==> p[i] > p[Anchor(WindowStart(i, period))]
    ensures Rsi(p, period)[i].v == 50.0 <==> p[i] == p[Anchor(WindowStart(i, period))]
  {
    RsiMatchesReference(p, period, i);
    var a := WindowStart(i, period);
    NetMove(p, a, i + 1);
    MovesNonNegative(p, a, i + 1);
    ShareCases(Ups(p, a, i + 1), Downs(p, a, i + 1));
  }

  // ---------------------------------------------------------------------------
  // Whole series of a given shape
  // ---------------------------------------------------------------------------

  /** On a series that never moves, every entry is NaN: a flat window has no
      gains and no losses, and 0/0 is NaN (not a neutral 50). */
  lemma RsiOfFlatSeries(p: seq<real>, period: nat, i: nat)
    requires period >= 1 && i < |p|
    requires forall j :: 1 <= j < |p| ==> p[j] == p[j - 1]
    ensures Rsi(p, period)[i] == Undefined
  {
    RsiUndefinedIff(p, period, i);
  }

  /** On a strictly rising series, every entry after the warm-up is 100,
      except at index 0, whose window holds no change at all. */
  lemma RsiOfRisingSeries(p: seq<real>, period: nat, i: nat)
    requires period >= 1 && 1 <= i < |p| && i + 1 >= period
    requires forall j :: 1 <= j < |p| ==> p[j] > p[j - 1]
    ensures Rsi(p, period)[i] == Value(100.0)
  {
    RsiHundredIff(p, period, i);
    assert WindowStart(i, period) <= i && p[i] > p[i - 1];
  }

  /** On a strictly falling series, every entry after the warm-up is 0,
      except at index 0. */
  lemma RsiOfFallingSeries(p: seq<real>, period: nat, i: nat)
    requires period >= 1 && 1 <= i < |p| && i + 1 >= period
    requires forall j :: 1 <= j < |p| ==> p[j] < p[j - 1]
    ensures Rsi(p, period)[i] == Value(0.0)
  {
    RsiZeroIff(p, period, i);
    assert WindowStart(i, period) <= i && p[i] < p[i - 1];
  }

  // ---------------------------------------------------------------------------
  // Independence from the price level and unit
  // ---------------------------------------------------------------------------

  /** The prices measured on another scale: k * p + c. */
  function Rescale(p: seq<real>, k: real, c: real): (q: seq<real>)
  {
    seq(|p|, j requires 0 <= j < |p| => k * p[j] + c)
  }

  /** Rescaling multiplies each single rise and fall by k. */
  lemma RescaledStep(p: seq<real>, k: real, c: real, j: nat)
    requires k > 0.0 && j < |p|
    ensures Rise(Rescale(p, k, c), j) == k * Rise(p, j)
    ensures Fall(Rescale(p, k, c), j) == k * Fall(p, j)
  {
    if j >= 1 {
      var q := Rescale(p, k, c);
      var x := p[j] - p[j - 1];
      assert q[j] - q[j - 1] == k * x;
      if x > 0.0 {
        assert k * x > 0.0;
      } else if x < 0.0 {
        assert k * -x > 0.0;
      }
    }
  }

  /** A common factor k of two moves is a factor of their sum. */
  lemma Distribute(k: real, x: real, y: real)
    ensures k * x + k * y == k * (x + y)
  {
  }

  /** When every single rise of q is k times that of p, so is the total
      rise over any window. */
  lemma {:induction false} ScaledUps(q: seq<real>, p: seq<real>, k: real, a: nat, b: nat)
    requires |q| == |p| && a <= b <= |p|
    requires forall j :: 0 <= j < |p| ==> Rise(q, j) == k * Rise(p, j)
    ensures Ups(q, a, b) == k * Ups(p, a, b)
    decreases b - a
  {
    if a < b {
      ScaledUps(q, p, k, a, b - 1);
      Distribute(k, Ups(p, a, b - 1), Rise(p, b - 1));
    }
  }

  /** When every single fall of q is k times that of p, so is the total
      fall over any window. */
  lemma {:induction false} ScaledDowns(q: seq<real>, p: seq<real>, k: real, a: nat, b: nat)
    requires |q| == |p| && a <= b <= |p|
    requires forall j :: 0 <= j < |p| ==> Fall(q, j) == k * Fall(p, j)
    ensures Downs(q, a, b) == k * Downs(p, a, b)
    decreases b - a
  {
    if a < b {
      ScaledDowns(q, p, k, a, b - 1);
      Distribute(k, Downs(p, a, b - 1), Fall(p, b - 1));
    }
  }

  /** Scaling both movements by k > 0 keeps the window flat or not, and
      keeps the share of the upward movement. */
  lemma ScaledShare(uq: real, dq: real, u: real, d: real, k: real)
    requires k > 0.0 && uq == k * u && dq == k * d
    ensures uq + dq == 0.0 <==> u + d == 0.0
    ensures u + d != 0.0 ==> 100.0 * uq / (uq + dq) == 100.0 * u / (u + d)
  {
    var s := u + d;
    Distribute(k, u, d);
    SignOfProduct(s, k);
    if s != 0.0 {
      var ks := uq + dq;
      assert ks == k * s;
      var a := 100.0 * uq / ks;
      var b := 100.0 * u / s;
      assert a * ks == 100.0 * uq;
      assert b * s == 100.0 * u;
      assert b * ks == k * (b * s);
      assert (a - b) * ks == 0.0;
      if ks > 0.0 {
        SignOfProduct(a - b, ks);
      } else {
        SignOfProduct(b - a, -ks);
      }
    }
  }

  /** The reference RSI of q equals that of p when q's moves are p's times k. */
  lemma ScaledReference(q: seq<real>, p: seq<real>, k: real, period: nat, i: nat)
    requires k > 0.0 && |q| == |p| && period >= 1 && i < |p|
    requires forall j :: 0 <= j < |p| ==> Rise(q, j) == k * Rise(p, j) && Fall(q, j) == k * Fall(p, j)
    ensures RsiReference(q, period, i) == RsiReference(p, period, i)
  {
    if i + 1 >= period {
      var a := WindowStart(i, period);
      ScaledUps(q, p, k, a, i + 1);
      ScaledDowns(q, p, k, a, i + 1);
      ScaledShare(Ups(q, a, i + 1), Downs(q, a, i + 1), Ups(p, a, i + 1), Downs(p, a, i + 1), k);
    }
  }

  /** compute_rsi does not depend on the level or the unit of the prices:
      shifting them by any constant or scaling them by any positive factor
      leaves every entry unchanged. */
  lemma RsiScaleInvariant(p: seq<real>, k: real, c: real, period: nat)
    requires k > 0.0 && period >= 1
    ensures Rsi(Rescale(p, k, c), period) == Rsi(p, period)
  {
    var q := Rescale(p, k, c);
    forall j | 0 <= j < |p|
      ensures Rise(q, j) == k * Rise(p, j) && Fall(q, j) == k * Fall(p, j)
    {
      RescaledStep(p, k, c, j);
    }
    forall i | 0 <= i < |p|
      ensures Rsi(q, period)[i] == Rsi(p, period)[i]
    {
      RsiMatchesReference(p, period, i);
      RsiMatchesReference(q, period, i);
      ScaledReference(q, p, k, period, i);
    }
  }
}
