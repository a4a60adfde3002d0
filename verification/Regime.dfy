/**
 The regime classifier: exponential averages of the close, percentile ranks, the decision
 between the four regimes and the confidence attached to it.
 */
module RegimeClassifier {
  import opened Prelude
  import opened Adx
  import opened AdxTheorems
  import opened Fading

  datatype Regime = TrendingUp | TrendingDown | Range | Volatile

  datatype Params = Params(
    adxPeriod: nat, adxTrend: real, emaFast: nat, emaSlow: nat, gapThreshold: real,
    volLookback: nat, volHigh: real, bandHigh: real)

  const DEFAULTS := Params(14, 25.0, 50, 200, 0.005, 100, 0.80, 0.80)

  // ---------------------------------------------------------------------------
  // Exponential averages
  // ---------------------------------------------------------------------------

  /** Weight of the newest value for a given span. */
  function Alpha(span: nat): real {
    2.0 / ((span + 1) as real)
  }

  function Step(prev: real, x: real, alpha: real): real {
    prev + alpha * (x - prev)
  }

  /** `ewm(span, adjust=False).mean()`: starts at the first value. */
  function Ema(xs: seq<real>, span: nat): real
    requires xs != []
  {
    if |xs| == 1 then xs[0] else Step(Ema(xs[..|xs|-1], span), xs[|xs|-1], Alpha(span))
  }

  function TrendGap(closes: seq<real>, fast: nat, slow: nat): real
    requires closes != []
  {
    GapOf(Ema(closes, fast), Ema(closes, slow))
  }

  /** The distance of the fast average from the slow one, as a share of the slow one. */
  function GapOf(fast: real, slow: real): real {
    if slow == 0.0 then 0.0 else (fast - slow) / slow
  }

  /** The closed form of the exponential average: the first value has faded by 1 - 2/(span+1) at
      every step since, and so has 2/(span+1) of every later value since it came in. */
  lemma {:induction false} EmaClosedForm(xs: seq<real>, span: nat)
    requires xs != []
    ensures Ema(xs, span) == Closed(xs[0], xs, 0, |xs| - 1, 2.0 / ((span + 1) as real))
    decreases |xs|
  {
    var n, w := |xs| - 1, 2.0 / ((span + 1) as real);
    if |xs| == 1 {
      ClosedStart(xs[0], xs, 0, w);
    } else {
      EmaClosedForm(xs[..n], span);
      FadedPrefix(xs, n, 1, n - 1, w);
      ClosedStep(xs[0], xs, 0, n, w);
      StepIsOnwards(Ema(xs[..n], span), xs[n], w);
    }
  }

  lemma StepIsOnwards(prev: real, x: real, w: real)
    ensures Step(prev, x, w) == Onwards(prev, x, w)
  {
  }

  lemma AlphaBounds(span: nat)
    requires span >= 1
    ensures 0.0 < Alpha(span) <= 1.0
  {
    PositiveQuotient(2.0, (span + 1) as real);
    DivisionMonotone(2.0, (span + 1) as real, (span + 1) as real);
  }

  lemma ShorterSpanWeighsMore(fast: nat, slow: nat)
    requires 1 <= fast < slow
    ensures Alpha(fast) > Alpha(slow)
  {
    var f, s := (fast + 1) as real, (slow + 1) as real;
    assert Alpha(fast) * f == 2.0 && Alpha(slow) * s == 2.0;
    AlphaBounds(slow);
    assert Alpha(slow) * f < Alpha(slow) * s;
    SignOfFactor(Alpha(fast) - Alpha(slow), f);
  }

  predicate RisingPositive(xs: seq<real>) {
    xs != [] && xs[0] > 0.0 && forall i :: 1 <= i < |xs| ==> xs[i] > xs[i-1]
  }

  /** One step: the average moves towards the value without passing it, and a heavier
      weight moves it further. */
  lemma StepFacts(slowPrev: real, fastPrev: real, x: real, a: real, b: real)
    requires 0.0 < b < a <= 1.0 && slowPrev <= fastPrev < x
    ensures Step(slowPrev, x, b) < Step(fastPrev, x, a) <= x
    ensures Step(slowPrev, x, b) > slowPrev
  {
    assert a * (x - fastPrev) <= 1.0 * (x - fastPrev);
    assert a * (x - fastPrev) > b * (x - fastPrev);
    assert b * (x - slowPrev) > 0.0;
    assert b * (fastPrev - slowPrev) <= 1.0 * (fastPrev - slowPrev);
    assert b * (x - slowPrev) == b * (x - fastPrev) + b * (fastPrev - slowPrev);
  }

  /** On rising closes the fast average runs ahead of the slow one, below the price. */
  lemma {:induction false} FastLeadsSlow(xs: seq<real>, fast: nat, slow: nat)
    requires RisingPositive(xs) && 1 <= fast < slow
    ensures Ema(xs, slow) <= Ema(xs, fast) <= xs[|xs|-1] && Ema(xs, slow) > 0.0
    ensures |xs| >= 2 ==> Ema(xs, slow) < Ema(xs, fast)
    decreases |xs|
  {
    if |xs| == 1 {
    } else {
      var n := |xs| - 1;
      FastLeadsSlow(xs[..n], fast, slow);
      AlphaBounds(fast);
      AlphaBounds(slow);
      ShorterSpanWeighsMore(fast, slow);
      StepFacts(Ema(xs[..n], slow), Ema(xs[..n], fast), xs[n], Alpha(fast), Alpha(slow));
    }
  }

  lemma RisingGapIsPositive(xs: seq<real>, fast: nat, slow: nat)
    requires RisingPositive(xs) && |xs| >= 2 && 1 <= fast < slow
    ensures TrendGap(xs, fast, slow) > 0.0
  {
    FastLeadsSlow(xs, fast, slow);
    PositiveQuotient(Ema(xs, fast) - Ema(xs, slow), Ema(xs, slow));
  }

  // ---------------------------------------------------------------------------
  // Percentile ranks
  // ---------------------------------------------------------------------------

  function CountBelow(xs: seq<real>, v: real): nat {
    if xs == [] then 0 else CountBelow(xs[..|xs|-1], v) + (if xs[|xs|-1] < v then 1 else 0)
  }

  /** Share of the window that lies below its last value. */
  function RankOfLast(recent: seq<real>): real
    requires recent != []
  {
    (CountBelow(recent, recent[|recent|-1]) as real) / (|recent| as real)
  }

  /** `iloc[-n:]`: the last n values, all of them when there are fewer or n is zero. */
  function LastValues(series: seq<real>, n: nat): seq<real> {
    if n == 0 || |series| <= n then series else series[|series| - n..]
  }

  /** The rank of the newest volatility: 0.5 with fewer returns than the lookback. The series
      starts later than the returns, so the window may be shorter than the lookback. */
  function VolatilityRank(returnCount: nat, vols: seq<real>, lookback: nat): real {
    if returnCount < lookback || vols == [] then 0.5 else RankOfLast(LastValues(vols, lookback))
  }

  /** The rank of the newest band width: 0.5 with fewer values than the lookback. Without any
      value and with a lookback of zero the lookup raises. */
  function BandRank(bands: seq<real>, lookback: nat): Option<real> {
    if |bands| < lookback then Some(0.5)
    else if bands == [] then None
    else Some(RankOfLast(LastValues(bands, lookback)))
  }

  lemma {:induction false} CountBelowBound(xs: seq<real>, v: real)
    ensures CountBelow(xs, v) <= |xs|
    ensures xs != [] && xs[|xs|-1] >= v ==> CountBelow(xs, v) < |xs|
    decreases |xs|
  {
    if xs == [] {
    } else {
      CountBelowBound(xs[..|xs|-1], v);
    }
  }

  /** The positions from lo on at which a value lies below v. */
  function PlacesBelow(xs: seq<real>, lo: nat, v: real): set<nat> {
    set i: nat | lo <= i < |xs| && xs[i] < v
  }

  /** Counting is counting: as many values lie below v as there are positions of such values. */
  lemma {:induction false} CountBelowIsNumber(xs: seq<real>, lo: nat, v: real)
    requires lo <= |xs|
    ensures CountBelow(xs[lo..], v) == |PlacesBelow(xs, lo, v)|
    decreases |xs|
  {
    if lo == |xs| {
      assert PlacesBelow(xs, lo, v) == {};
    } else {
      var n := |xs| - 1;
      CountBelowIsNumber(xs[..n], lo, v);
      assert xs[lo..][..|xs[lo..]|-1] == xs[..n][lo..];
      assert PlacesBelow(xs, lo, v) == PlacesBelow(xs[..n], lo, v) + (if xs[n] < v then {n} else {});
    }
  }

  /** The rank is the share, among the last n values (all of them for n = 0 or when there are
      fewer), of those below the very last one. */
  ghost predicate ShareBelow(series: seq<real>, n: nat, rank: real)
    requires series != []
  {
    var window := if 0 < n <= |series| then n else |series|;
    rank * window as real == |PlacesBelow(series, |series| - window, series[|series|-1])| as real
  }

  lemma WindowIsSuffix(series: seq<real>, n: nat)
    requires series != []
    ensures var recent := LastValues(series, n);
            var window := if 0 < n <= |series| then n else |series|;
            recent == series[|series| - window..] && |recent| == window > 0 &&
            recent[window-1] == series[|series|-1]
  {
  }

  lemma RankTimesWindow(recent: seq<real>)
    requires recent != []
    ensures RankOfLast(recent) * |recent| as real == CountBelow(recent, recent[|recent|-1]) as real
  {
  }

  lemma {:induction false} RankIsShare(series: seq<real>, n: nat)
    requires series != []
    ensures ShareBelow(series, n, RankOfLast(LastValues(series, n)))
  {
    WindowIsSuffix(series, n);
    RankTimesWindow(LastValues(series, n));
    CountBelowIsNumber(series, |series| - |LastValues(series, n)|, series[|series|-1]);
  }

  /** Both ranks are such shares, and 0.5 while returns or band widths do not fill the lookback
      (or no volatility is known yet). */
  lemma {:induction false} RanksAreShares(returnCount: nat, vols: seq<real>, bands: seq<real>, lookback: nat)
    ensures if returnCount < lookback || vols == [] then VolatilityRank(returnCount, vols, lookback) == 0.5
            else ShareBelow(vols, lookback, VolatilityRank(returnCount, vols, lookback))
    ensures BandRank(bands, lookback).None? <==> bands == [] && lookback == 0
    ensures |bands| < lookback ==> BandRank(bands, lookback) == Some(0.5)
    ensures bands != [] && |bands| >= lookback ==> ShareBelow(bands, lookback, BandRank(bands, lookback).value)
  {
    if vols != [] {
      RankIsShare(vols, lookback);
    }
    if bands != [] {
      RankIsShare(bands, lookback);
    }
  }

  lemma RankBelowOne(recent: seq<real>)
    requires recent != []
    ensures 0.0 <= RankOfLast(recent) < 1.0
  {
    var n := |recent|;
    var k := CountBelow(recent, recent[n-1]);
    CountBelowBound(recent, recent[n-1]);
    DivisionMonotone(0.0, k as real, n as real);
    DivisionMonotone(k as real, n as real, n as real);
  }

  /** A rank is never 1: the last value is not below itself. */
  lemma RankBounds(returnCount: nat, vols: seq<real>, bands: seq<real>, lookback: nat)
    ensures 0.0 <= VolatilityRank(returnCount, vols, lookback) < 1.0
    ensures BandRank(bands, lookback).Some? ==> 0.0 <= BandRank(bands, lookback).value < 1.0
  {
    if vols != [] {
      RankBelowOne(LastValues(vols, lookback));
    }
    if bands != [] {
      RankBelowOne(LastValues(bands, lookback));
    }
  }

  // ---------------------------------------------------------------------------
  // Rounding
  // ---------------------------------------------------------------------------

  /** Rounds to the nearest integer, ties to even. */
  function RoundHalfEven(y: real): int {
    var f := y.Floor;
    var rest := y - f as real;
    if rest < 0.5 || (rest == 0.5 && f % 2 == 0) then f else f + 1
  }

  /** Rounds to a grid of `scale` points per unit: `round(x, k)` with scale 10^k. */
  function RoundTo(x: real, scale: nat): real
    requires scale >= 1
  {
    RoundHalfEven(x * scale as real) as real / scale as real
  }

  /** `round(x, 3)`. */
  function Round3(x: real): real {
    RoundTo(x, 1000)
  }

  /** Two numbers that sum to at most an even number still do so after rounding to
      integers: ties go to even, so two halves cannot both be rounded up. */
  lemma RoundedSum(x: real, y: real, half: int)
    requires x + y <= (2 * half) as real
    ensures RoundHalfEven(x) + RoundHalfEven(y) <= 2 * half
  {
    var f, g := x.Floor, y.Floor;
    assert f as real <= x && g as real <= y;
    assert RoundHalfEven(x) == f + 1 && RoundHalfEven(y) == g + 1 && f + g + 1 == 2 * half ==>
             x - f as real == 0.5 && y - g as real == 0.5;
  }

  /** Rounding goes to a nearest integer, and from a half to the even one. */
  lemma RoundsToNearest(y: real)
    ensures var r := RoundHalfEven(y);
            Abs(r as real - y) <= 0.5 && (Abs(r as real - y) == 0.5 ==> r % 2 == 0)
  {
  }

  lemma RoundMonotone(x: real, y: real)
    requires x <= y
    ensures RoundHalfEven(x) <= RoundHalfEven(y)
  {
    assert x.Floor <= y.Floor;
  }

  lemma Round3Monotone(x: real, y: real)
    requires x <= y
    ensures Round3(x) <= Round3(y)
  {
    RoundMonotone(x * 1000.0, y * 1000.0);
  }

  lemma Round3Fixes()
    ensures Round3(0.3) == 0.3 && Round3(0.4) == 0.4 && Round3(0.5) == 0.5 && Round3(1.0) == 1.0
  {
    assert RoundHalfEven(300.0) == 300 && RoundHalfEven(400.0) == 400;
    assert RoundHalfEven(500.0) == 500 && RoundHalfEven(1000.0) == 1000;
  }

  // ---------------------------------------------------------------------------
  // Classification
  // ---------------------------------------------------------------------------

  /** Confidence of a trend whose direction both indicators confirm. */
  function TrendConfidence(p: Params, adx: real, leading: real, trailing: real): real {
    var spread := (leading - trailing) / Max(leading + trailing, 1.0);
    Round3(Min(1.0, 0.5 + spread + (adx - p.adxTrend) / 50.0))
  }

  predicate Trending(p: Params, adx: real, gap: real) {
    adx >= p.adxTrend && Abs(gap) >= p.gapThreshold
  }

  function Classify(
    p: Params, adx: real, diPlus: real, diMinus: real, gap: real, volPct: real, bandPct: real): (Regime, real)
  {
    if Trending(p, adx, gap) then
      if gap > 0.0 && diPlus > diMinus then (TrendingUp, TrendConfidence(p, adx, diPlus, diMinus))
      else if gap < 0.0 && diMinus > diPlus then (TrendingDown, TrendConfidence(p, adx, diMinus, diPlus))
      else if gap > 0.0 then (TrendingUp, 0.4)
      else (TrendingDown, 0.4)
    else Sideways(p, adx, volPct, bandPct)
  }

  /** The regime without a trend, by the two ranks. */
  function Sideways(p: Params, adx: real, volPct: real, bandPct: real): (Regime, real) {
    if volPct >= p.volHigh && bandPct >= p.bandHigh then
      (Volatile, Round3(Min(1.0, (volPct + bandPct) / 2.0)))
    else (Range, Round3(Max(0.3, Min(1.0, 0.5 + (p.adxTrend - adx) / 50.0))))
  }

  /** The regime by what is observed: the direction of a trend is the sign of the gap alone (zero
      counts as falling), whatever the directional indicators say; without a trend, two high
      ranks make it volatile. */
  lemma RegimeIff(p: Params, adx: real, diPlus: real, diMinus: real, gap: real, volPct: real, bandPct: real)
    ensures var r := Classify(p, adx, diPlus, diMinus, gap, volPct, bandPct).0;
            var trend := adx >= p.adxTrend && (gap >= p.gapThreshold || -gap >= p.gapThreshold);
            (r == TrendingUp <==> trend && gap > 0.0) && (r == TrendingDown <==> trend && gap <= 0.0) &&
            (r == Volatile <==> !trend && volPct >= p.volHigh && bandPct >= p.bandHigh) &&
            (r == Range <==> !trend && (volPct < p.volHigh || bandPct < p.bandHigh))
  {
  }

  /** More ADX never lowers the confidence of a confirmed trend, and 25 points above the threshold
      make it certain. */
  lemma TrendConfidenceRises(p: Params, adx: real, more: real, leading: real, trailing: real)
    requires p.adxTrend <= adx <= more && leading > trailing
    ensures 0.5 <= TrendConfidence(p, adx, leading, trailing) <= TrendConfidence(p, more, leading, trailing)
    ensures more >= p.adxTrend + 25.0 ==> TrendConfidence(p, more, leading, trailing) == 1.0
  {
    TrendConfidenceBounds(p, adx, leading, trailing);
    SpreadNonNegative(leading, trailing);
    var spread := (leading - trailing) / Max(leading + trailing, 1.0);
    Round3Monotone(Min(1.0, 0.5 + spread + (adx - p.adxTrend) / 50.0),
                   Min(1.0, 0.5 + spread + (more - p.adxTrend) / 50.0));
    Round3Fixes();
  }

  /** A trend that the larger indicator of its direction confirms has at least confidence 0.5, one
      that the indicators contradict 0.4. */
  lemma TrendConfidenceIs(p: Params, adx: real, diPlus: real, diMinus: real, gap: real, volPct: real, bandPct: real)
    requires Trending(p, adx, gap)
    ensures var conf := Classify(p, adx, diPlus, diMinus, gap, volPct, bandPct).1;
            if gap > 0.0 && diPlus > diMinus then conf == TrendConfidence(p, adx, diPlus, diMinus) >= 0.5
            else if gap < 0.0 && diMinus > diPlus then conf == TrendConfidence(p, adx, diMinus, diPlus) >= 0.5
            else conf == 0.4
  {
    if diPlus > diMinus {
      TrendConfidenceBounds(p, adx, diPlus, diMinus);
    } else if diMinus > diPlus {
      TrendConfidenceBounds(p, adx, diMinus, diPlus);
    }
  }

  /** In a range, more ADX never raises the confidence: it is 0.5 at the trend threshold and
      certain from 25 points below it on. With high ranks, higher ranks never lower it. */
  lemma SidewaysConfidence(p: Params, adx: real, more: real, volPct: real, bandPct: real, vol': real, band': real)
    requires adx <= more && volPct <= vol' && bandPct <= band'
    ensures (volPct < p.volHigh || bandPct < p.bandHigh) ==>
              Sideways(p, more, volPct, bandPct).1 <= Sideways(p, adx, volPct, bandPct).1 &&
              (more == p.adxTrend ==> Sideways(p, more, volPct, bandPct).1 == 0.5) &&
              (adx <= p.adxTrend - 25.0 ==> Sideways(p, adx, volPct, bandPct).1 == 1.0)
    ensures volPct >= p.volHigh && bandPct >= p.bandHigh ==>
              Sideways(p, adx, volPct, bandPct).1 <= Sideways(p, adx, vol', band').1 &&
              (volPct == bandPct == 0.5 ==> Sideways(p, adx, volPct, bandPct).1 == 0.5)
  {
    Round3Fixes();
    Round3Monotone(Max(0.3, Min(1.0, 0.5 + (p.adxTrend - more) / 50.0)),
                   Max(0.3, Min(1.0, 0.5 + (p.adxTrend - adx) / 50.0)));
    Round3Monotone(Min(1.0, (volPct + bandPct) / 2.0), Min(1.0, (vol' + band') / 2.0));
  }

  function Mirror(r: Regime): Regime {
    match r
    case TrendingUp => TrendingDown
    case TrendingDown => TrendingUp
    case _ => r
  }

  /** Swapping the directional indicators and negating the gap mirrors the regime at equal
      confidence, except in exactly one case: a trend declared with a gap of zero, which a
      positive threshold rules out, counts as falling both ways. */
  lemma ClassifyMirrorIff(p: Params, adx: real, diPlus: real, diMinus: real, gap: real, volPct: real, bandPct: real)
    ensures var (r, conf) := Classify(p, adx, diPlus, diMinus, gap, volPct, bandPct);
            Classify(p, adx, diMinus, diPlus, -gap, volPct, bandPct) == (Mirror(r), conf)
            <==> !(adx >= p.adxTrend && gap == 0.0 && p.gapThreshold <= 0.0)
  {
    assert Abs(-gap) == Abs(gap);
    assert diPlus + diMinus == diMinus + diPlus;
  }

  lemma SpreadNonNegative(leading: real, trailing: real)
    requires leading >= trailing
    ensures (leading - trailing) / Max(leading + trailing, 1.0) >= 0.0
  {
    DivisionMonotone(0.0, leading - trailing, Max(leading + trailing, 1.0));
  }

  lemma TrendConfidenceBounds(p: Params, adx: real, leading: real, trailing: real)
    requires adx >= p.adxTrend && leading >= trailing
    ensures 0.5 <= TrendConfidence(p, adx, leading, trailing) <= 1.0
  {
    SpreadNonNegative(leading, trailing);
    var raw := Min(1.0, 0.5 + (leading - trailing) / Max(leading + trailing, 1.0) + (adx - p.adxTrend) / 50.0);
    Round3Fixes();
    Round3Monotone(0.5, raw);
    Round3Monotone(raw, 1.0);
  }

  lemma OtherConfidenceBounds(p: Params, adx: real, volPct: real, bandPct: real)
    requires p.volHigh + p.bandHigh >= 0.6
    ensures volPct >= p.volHigh && bandPct >= p.bandHigh ==>
              0.3 <= Round3(Min(1.0, (volPct + bandPct) / 2.0)) <= 1.0
    ensures 0.3 <= Round3(Max(0.3, Min(1.0, 0.5 + (p.adxTrend - adx) / 50.0))) <= 1.0
  {
    Round3Fixes();
    var v, r := Min(1.0, (volPct + bandPct) / 2.0), Max(0.3, Min(1.0, 0.5 + (p.adxTrend - adx) / 50.0));
    if volPct >= p.volHigh && bandPct >= p.bandHigh {
      Round3Monotone(0.3, v);
    }
    Round3Monotone(v, 1.0);
    Round3Monotone(0.3, r);
    Round3Monotone(r, 1.0);
  }

  /** The confidence lies in [0.3, 1] for every input, when the two high-percentile
      thresholds are not set absurdly low (they sum to 1.6 by default). */
  lemma ConfidenceBounds(p: Params, adx: real, diPlus: real, diMinus: real, gap: real, volPct: real, bandPct: real)
    requires p.volHigh + p.bandHigh >= 0.6
    ensures 0.3 <= Classify(p, adx, diPlus, diMinus, gap, volPct, bandPct).1 <= 1.0
  {
    if Trending(p, adx, gap) {
      if gap > 0.0 && diPlus > diMinus {
        TrendConfidenceBounds(p, adx, diPlus, diMinus);
      } else if gap < 0.0 && diMinus > diPlus {
        TrendConfidenceBounds(p, adx, diMinus, diPlus);
      }
    } else {
      OtherConfidenceBounds(p, adx, volPct, bandPct);
    }
  }

  // ---------------------------------------------------------------------------
  // From candles to a regime
  // ---------------------------------------------------------------------------

  function Closes(cs: seq<Candle>): (r: seq<real>)
    ensures |r| == |cs| && forall i :: 0 <= i < |cs| ==> r[i] == cs[i].close
  {
    seq(|cs|, i requires 0 <= i < |cs| => cs[i].close)
  }

  function MinRows(p: Params): nat {
    var a := if p.emaSlow < p.volLookback then p.volLookback else p.emaSlow;
    (if a < 3 * p.adxPeriod then 3 * p.adxPeriod else a) + 10
  }

  datatype State = State(regime: Regime, confidence: real, adx: real, diPlus: real, diMinus: real, gap: real)

  /** What the classifier reads besides the candles: the number of returns, and the series of
      volatilities and band widths, which are inputs. */
  datatype Spreads = Spreads(returnCount: nat, vols: seq<real>, bands: seq<real>)

  /** Enough rows, and ranks that do not raise. */
  predicate Classifiable(p: Params, cs: seq<Candle>, x: Spreads) {
    p.adxPeriod >= 1 && |cs| >= MinRows(p) && BandRank(x.bands, p.volLookback).Some?
  }

  /** The classifier on a data frame, with the reported indicators rounded. Without enough rows,
      or when a rank raises, there is no result. */
  function ClassifyCandles(p: Params, cs: seq<Candle>, x: Spreads): (r: Option<State>)
    requires p.adxPeriod >= 1
    ensures r.Some? <==> Classifiable(p, cs, x)
  {
    var band := BandRank(x.bands, p.volLookback);
    if |cs| < MinRows(p) || band.None? then None else
      var ind := Compute(cs, p.adxPeriod);
      var gap := TrendGap(Closes(cs), p.emaFast, p.emaSlow);
      var (r, conf) := Classify(p, ind.adx, ind.diPlus, ind.diMinus, gap,
                                VolatilityRank(x.returnCount, x.vols, p.volLookback), band.value);
      Some(State(r, conf, RoundTo(ind.adx, 100), RoundTo(ind.diPlus, 100), RoundTo(ind.diMinus, 100),
                 RoundTo(gap, 1000000)))
  }

  /** Candles are classified exactly when there are ten more than the slow average, the lookback
      and three ADX periods each ask for, and a band width unless the lookback is positive. */
  lemma ClassifiableIff(p: Params, cs: seq<Candle>, x: Spreads)
    requires p.adxPeriod >= 1
    ensures ClassifyCandles(p, cs, x).Some? <==>
            |cs| >= p.emaSlow + 10 && |cs| >= p.volLookback + 10 && |cs| >= 3 * p.adxPeriod + 10 &&
            (x.bands != [] || p.volLookback > 0)
  {
  }

  /** What is reported of candles: the regime by ADX, the gap of the two averages and the two
      ranks, each in its place, and the indicators rounded to their number of decimals. */
  lemma ReportedIff(p: Params, cs: seq<Candle>, x: Spreads)
    requires Classifiable(p, cs, x)
    ensures var r := ClassifyCandles(p, cs, x).value;
            var ind, gap := Compute(cs, p.adxPeriod), TrendGap(Closes(cs), p.emaFast, p.emaSlow);
            var trend := ind.adx >= p.adxTrend && (gap >= p.gapThreshold || -gap >= p.gapThreshold);
            (r.regime == TrendingUp <==> trend && gap > 0.0) && (r.regime == TrendingDown <==> trend && gap <= 0.0) &&
            (r.regime == Volatile <==>
               !trend && VolatilityRank(x.returnCount, x.vols, p.volLookback) >= p.volHigh &&
               BandRank(x.bands, p.volLookback).value >= p.bandHigh) &&
            r.adx == RoundTo(ind.adx, 100) && r.diPlus == RoundTo(ind.diPlus, 100) &&
            r.diMinus == RoundTo(ind.diMinus, 100) && r.gap == RoundTo(gap, 1000000)
  {
    var ind := Compute(cs, p.adxPeriod);
    RegimeIff(p, ind.adx, ind.diPlus, ind.diMinus, TrendGap(Closes(cs), p.emaFast, p.emaSlow),
              VolatilityRank(x.returnCount, x.vols, p.volLookback), BandRank(x.bands, p.volLookback).value);
  }

  // ---------------------------------------------------------------------------
  // Reflecting the candles
  // ---------------------------------------------------------------------------

  lemma StepReflects(prev: real, x: real, k: real, alpha: real)
    ensures Step(k - prev, k - x, alpha) == k - Step(prev, x, alpha)
  {
    assert alpha * ((k - x) - (k - prev)) == -(alpha * (x - prev));
  }

  /** ys is xs turned upside down. */
  predicate Reflected(ys: seq<real>, xs: seq<real>, k: real) {
    |ys| == |xs| && forall i :: 0 <= i < |xs| ==> ys[i] == k - xs[i]
  }

  lemma {:induction false} EmaReflects(ys: seq<real>, xs: seq<real>, k: real, span: nat)
    requires xs != [] && Reflected(ys, xs, k)
    ensures Ema(ys, span) == k - Ema(xs, span)
    decreases |xs|
  {
    if |xs| == 1 {
    } else {
      var n := |xs| - 1;
      EmaReflects(ys[..n], xs[..n], k, span);
      StepReflects(Ema(xs[..n], span), xs[n], k, Alpha(span));
    }
  }

  /** The gap after reflecting about k: the averages keep their distance, with the other sign,
      but the slow one is now k minus itself. */
  function ReflectedGap(closes: seq<real>, fast: nat, slow: nat, k: real): real
    requires closes != []
  {
    GapOf(k - Ema(closes, fast), k - Ema(closes, slow))
  }

  lemma GapReflects(cs: seq<Candle>, k: real, fast: nat, slow: nat)
    requires cs != []
    ensures TrendGap(Closes(ReflectAll(cs, k)), fast, slow) == ReflectedGap(Closes(cs), fast, slow, k)
  {
    EmaReflects(Closes(ReflectAll(cs, k)), Closes(cs), k, fast);
    EmaReflects(Closes(ReflectAll(cs, k)), Closes(cs), k, slow);
  }

  /** Two gaps that, with swapped indicators, give opposite trends at equal confidence: they
      have opposite signs, or one of them is zero and the other is positive against the
      indicators, which makes both trends weak. */
  predicate Opposite(gap: real, gap': real, diPlus: real, diMinus: real) {
    (gap > 0.0 && gap' < 0.0) || (gap < 0.0 && gap' > 0.0) ||
    (gap > 0.0 && gap' == 0.0 && diPlus <= diMinus) || (gap == 0.0 && gap' > 0.0 && diMinus <= diPlus)
  }

  lemma TrendsMirrorIff(p: Params, adx: real, diPlus: real, diMinus: real, gap: real, gap': real,
                        volPct: real, bandPct: real, volPct': real, bandPct': real)
    requires Trending(p, adx, gap) && Trending(p, adx, gap')
    ensures var (r, conf) := Classify(p, adx, diPlus, diMinus, gap, volPct, bandPct);
            Classify(p, adx, diMinus, diPlus, gap', volPct', bandPct') == (Mirror(r), conf) <==>
            Opposite(gap, gap', diPlus, diMinus)
  {
    assert diPlus + diMinus == diMinus + diPlus;
    if diPlus > diMinus {
      TrendConfidenceBounds(p, adx, diPlus, diMinus);
    } else if diMinus > diPlus {
      TrendConfidenceBounds(p, adx, diMinus, diPlus);
    }
  }

  /** A gap, and the gap of the reflected market, mirror each other's classification. */
  predicate MirrorsUnder(p: Params, ind: Indicators, gap: real, gap': real,
                         volPct: real, bandPct: real, volPct': real, bandPct': real) {
    if Trending(p, ind.adx, gap) then
      Trending(p, ind.adx, gap') && Opposite(gap, gap', ind.diPlus, ind.diMinus)
    else
      !Trending(p, ind.adx, gap') && Sideways(p, ind.adx, volPct', bandPct') == Sideways(p, ind.adx, volPct, bandPct)
  }

  lemma ClassificationsMirrorIff(p: Params, ind: Indicators, gap: real, gap': real,
                                 volPct: real, bandPct: real, volPct': real, bandPct': real)
    ensures var (r, conf) := Classify(p, ind.adx, ind.diPlus, ind.diMinus, gap, volPct, bandPct);
            Classify(p, ind.adx, ind.diMinus, ind.diPlus, gap', volPct', bandPct') == (Mirror(r), conf) <==>
            MirrorsUnder(p, ind, gap, gap', volPct, bandPct, volPct', bandPct')
  {
    if Trending(p, ind.adx, gap) && Trending(p, ind.adx, gap') {
      TrendsMirrorIff(p, ind.adx, ind.diPlus, ind.diMinus, gap, gap', volPct, bandPct, volPct', bandPct');
    }
  }

  /** The reflected candles are reported as the mirrored regime, at equal confidence. */
  predicate ReportsMirror(p: Params, cs: seq<Candle>, k: real, x: Spreads, x': Spreads)
    requires Classifiable(p, cs, x) && Classifiable(p, ReflectAll(cs, k), x')
  {
    var s, s' := ClassifyCandles(p, cs, x).value, ClassifyCandles(p, ReflectAll(cs, k), x').value;
    s'.regime == Mirror(s.regime) && s'.confidence == s.confidence
  }

  /** What decides that, in terms of the original candles, k and the ranks. */
  predicate MirrorsAbout(p: Params, cs: seq<Candle>, k: real, x: Spreads, x': Spreads)
    requires Classifiable(p, cs, x) && Classifiable(p, ReflectAll(cs, k), x')
  {
    MirrorsUnder(p, Compute(cs, p.adxPeriod), TrendGap(Closes(cs), p.emaFast, p.emaSlow),
                 ReflectedGap(Closes(cs), p.emaFast, p.emaSlow, k),
                 VolatilityRank(x.returnCount, x.vols, p.volLookback), BandRank(x.bands, p.volLookback).value,
                 VolatilityRank(x'.returnCount, x'.vols, p.volLookback), BandRank(x'.bands, p.volLookback).value)
  }

  /** Reflecting all candles about k mirrors the reported regime at equal confidence if and only
      if a trend stays a trend of the opposite direction, and no trend stays none with the same
      outcome of the ranks. The reflected gap is measured against k minus the slow average, so a
      reflection can lose a trend, make one, or even keep its direction. */
  lemma {:induction false} ReflectionMirrorsIff(p: Params, cs: seq<Candle>, k: real, x: Spreads, x': Spreads)
    requires Classifiable(p, cs, x) && Classifiable(p, ReflectAll(cs, k), x')
    ensures ReportsMirror(p, cs, k, x, x') == MirrorsAbout(p, cs, k, x, x')
  {
    ReflectionSwapsDirections(cs, k, p.adxPeriod);
    GapReflects(cs, k, p.emaFast, p.emaSlow);
    ClassificationsMirrorIff(p, Compute(cs, p.adxPeriod), TrendGap(Closes(cs), p.emaFast, p.emaSlow),
                             ReflectedGap(Closes(cs), p.emaFast, p.emaSlow, k),
                             VolatilityRank(x.returnCount, x.vols, p.volLookback), BandRank(x.bands, p.volLookback).value,
                             VolatilityRank(x'.returnCount, x'.vols, p.volLookback),
                             BandRank(x'.bands, p.volLookback).value);
  }

  lemma QuotientAtLeast(x: real, d: real, t: real)
    requires d > 0.0
    ensures x / d >= t <==> x >= t * d
  {
    var q := x / d;
    assert q * d == x;
    SignOfFactor(q - t, d);
    SignOfFactor(t - q, d);
  }

  lemma NegatedQuotient(x: real, d: real)
    requires d != 0.0
    ensures -x / d == -(x / d)
  {
    assert (x / d) * d == x;
  }

  lemma AbsOfQuotient(x: real, d: real)
    requires d > 0.0
    ensures Abs(x / d) == Abs(x) / d
    ensures x / d > 0.0 <==> x > 0.0
    ensures x / d < 0.0 <==> x < 0.0
  {
    NegatedQuotient(x, d);
    if x > 0.0 {
      PositiveQuotient(x, d);
    } else if x < 0.0 {
      PositiveQuotient(-x, d);
    }
  }

  /** A distance of the averages that is at least the threshold's share of a base. */
  predicate Reaches(distance: real, threshold: real, base: real) {
    distance >= threshold * base
  }

  lemma GapReaches(fast: real, slow: real, threshold: real)
    requires slow > 0.0
    ensures Abs(GapOf(fast, slow)) >= threshold <==> Reaches(Abs(fast - slow), threshold, slow)
    ensures GapOf(fast, slow) > 0.0 <==> fast > slow
    ensures GapOf(fast, slow) < 0.0 <==> fast < slow
  {
    AbsOfQuotient(fast - slow, slow);
    QuotientAtLeast(Abs(fast - slow), slow, threshold);
  }

  lemma SpreadsMirrorIff(p: Params, ind: Indicators, fast: real, slow: real, k: real,
                         volPct: real, bandPct: real, volPct': real, bandPct': real)
    requires p.gapThreshold > 0.0 && 0.0 < slow < k && Trending(p, ind.adx, GapOf(fast, slow))
    ensures MirrorsUnder(p, ind, GapOf(fast, slow), GapOf(k - fast, k - slow), volPct, bandPct, volPct', bandPct') <==>
            Reaches(Abs(fast - slow), p.gapThreshold, k - slow)
  {
    GapReaches(fast, slow, p.gapThreshold);
    GapReaches(k - fast, k - slow, p.gapThreshold);
    assert Abs((k - fast) - (k - slow)) == Abs(fast - slow);
  }

  /** The classified candles are a trend, with the slow average between zero and k. */
  predicate TrendBelow(p: Params, cs: seq<Candle>, k: real)
    requires p.adxPeriod >= 1 && |cs| >= MinRows(p)
  {
    Trending(p, Compute(cs, p.adxPeriod).adx, TrendGap(Closes(cs), p.emaFast, p.emaSlow)) &&
    0.0 < Ema(Closes(cs), p.emaSlow) < k
  }

  /** The distance of the averages reaches the threshold's share of k minus the slow one. */
  predicate ReachesFromAbove(p: Params, cs: seq<Candle>, k: real)
    requires cs != []
  {
    Reaches(Abs(Ema(Closes(cs), p.emaFast) - Ema(Closes(cs), p.emaSlow)), p.gapThreshold,
            k - Ema(Closes(cs), p.emaSlow))
  }

  lemma {:induction false} TrendMirrorsAbout(p: Params, cs: seq<Candle>, k: real, x: Spreads, x': Spreads)
    requires Classifiable(p, cs, x) && Classifiable(p, ReflectAll(cs, k), x')
    requires p.gapThreshold > 0.0
    ensures TrendBelow(p, cs, k) ==> MirrorsAbout(p, cs, k, x, x') == ReachesFromAbove(p, cs, k)
  {
    if TrendBelow(p, cs, k) {
      SpreadsMirrorIff(p, Compute(cs, p.adxPeriod), Ema(Closes(cs), p.emaFast), Ema(Closes(cs), p.emaSlow), k,
                       VolatilityRank(x.returnCount, x.vols, p.volLookback), BandRank(x.bands, p.volLookback).value,
                       VolatilityRank(x'.returnCount, x'.vols, p.volLookback), BandRank(x'.bands, p.volLookback).value);
    }
  }

  /** For a positive threshold: the reflection of a trend about a k above its positive slow
      average is reported as the opposite trend at equal confidence if and only if the distance
      of the averages also reaches the threshold against k minus the slow one. */
  lemma {:induction false} ReflectedTrendIff(p: Params, cs: seq<Candle>, k: real, x: Spreads, x': Spreads)
    requires Classifiable(p, cs, x) && Classifiable(p, ReflectAll(cs, k), x')
    requires p.gapThreshold > 0.0
    ensures TrendBelow(p, cs, k) ==> ReportsMirror(p, cs, k, x, x') == ReachesFromAbove(p, cs, k)
  {
    TrendMirrorsAbout(p, cs, k, x, x');
    ReflectionMirrorsIff(p, cs, k, x, x');
  }

  lemma FarBase(distance: real, threshold: real) returns (base: real)
    requires distance >= 0.0 && threshold > 0.0
    ensures base > 0.0 && !Reaches(distance, threshold, base)
  {
    var q := distance / threshold;
    assert q * threshold == distance;
    DivisionMonotone(0.0, distance, threshold);
    base := q + 1.0;
    assert threshold * base == distance + threshold;
  }

  /** So every trend is lost by reflecting far enough above the prices. */
  lemma FarReflectionLosesTrend(p: Params, cs: seq<Candle>) returns (k: real)
    requires p.adxPeriod >= 1 && |cs| >= MinRows(p) && p.gapThreshold > 0.0 && Ema(Closes(cs), p.emaSlow) > 0.0
    requires Trending(p, Compute(cs, p.adxPeriod).adx, TrendGap(Closes(cs), p.emaFast, p.emaSlow))
    ensures TrendBelow(p, cs, k) && !ReachesFromAbove(p, cs, k)
  {
    var slow := Ema(Closes(cs), p.emaSlow);
    var base := FarBase(Abs(Ema(Closes(cs), p.emaFast) - slow), p.gapThreshold);
    k := slow + base;
    assert k - slow == base;
  }

  lemma SteadyRiseConfidence(p: Params, diPlus: real)
    requires diPlus > 0.0 && p.adxTrend <= 75.0
    ensures TrendConfidence(p, 100.0, diPlus, 0.0) == 1.0
  {
    SpreadNonNegative(diPlus, 0.0);
    Round3Fixes();
  }

  /** On candles that rise steadily from a positive price, the default classifier reports
      TRENDING_UP with confidence exactly 1 whenever the gap reaches its threshold, and
      never reports TRENDING_DOWN. */
  lemma SteadyRiseTrendsUp(cs: seq<Candle>, x: Spreads)
    requires ValidCandles(cs) && Rising(cs) && |cs| >= MinRows(DEFAULTS) && cs[0].close > 0.0
    ensures var s := ClassifyCandles(DEFAULTS, cs, x).value;
            var gap := TrendGap(Closes(cs), DEFAULTS.emaFast, DEFAULTS.emaSlow);
            s.regime != TrendingDown && gap > 0.0 &&
            (gap >= DEFAULTS.gapThreshold ==> s.regime == TrendingUp && s.confidence == 1.0)
  {
    SteadyRise(cs, DEFAULTS.adxPeriod);
    RisingGapIsPositive(Closes(cs), DEFAULTS.emaFast, DEFAULTS.emaSlow);
    SteadyRiseConfidence(DEFAULTS, Compute(cs, DEFAULTS.adxPeriod).diPlus);
  }

  lemma RoundedIndicators(ind: Indicators)
    requires 0.0 <= ind.adx <= 100.0 && 0.0 <= ind.diPlus && 0.0 <= ind.diMinus && ind.diPlus + ind.diMinus <= 100.0
    ensures 0.0 <= RoundTo(ind.adx, 100) <= 100.0 && 0.0 <= RoundTo(ind.diPlus, 100) && 0.0 <= RoundTo(ind.diMinus, 100)
    ensures RoundTo(ind.diPlus, 100) + RoundTo(ind.diMinus, 100) <= 100.0
  {
    assert RoundHalfEven(0.0) == 0 && RoundHalfEven(10000.0) == 10000;
    RoundMonotone(0.0, ind.adx * 100.0);
    RoundMonotone(ind.adx * 100.0, 10000.0);
    RoundMonotone(0.0, ind.diPlus * 100.0);
    RoundMonotone(0.0, ind.diMinus * 100.0);
    RoundedSum(ind.diPlus * 100.0, ind.diMinus * 100.0, 5000);
  }

  /** For all valid candles the reported, rounded state is within its documented ranges. */
  lemma StateBounds(p: Params, cs: seq<Candle>, x: Spreads)
    requires p.adxPeriod >= 1 && p.volHigh + p.bandHigh >= 0.6 && ValidCandles(cs)
    requires Classifiable(p, cs, x)
    ensures var s := ClassifyCandles(p, cs, x).value;
            0.3 <= s.confidence <= 1.0 && 0.0 <= s.adx <= 100.0 &&
            0.0 <= s.diPlus && 0.0 <= s.diMinus && s.diPlus + s.diMinus <= 100.0
  {
    IndicatorBounds(cs, p.adxPeriod);
    var ind := Compute(cs, p.adxPeriod);
    RoundedIndicators(ind);
    ConfidenceBounds(p, ind.adx, ind.diPlus, ind.diMinus, TrendGap(Closes(cs), p.emaFast, p.emaSlow),
                     VolatilityRank(x.returnCount, x.vols, p.volLookback), BandRank(x.bands, p.volLookback).value);
  }
}
