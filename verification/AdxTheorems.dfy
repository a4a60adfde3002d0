/**
 What the directional index guarantees for all candles: bounds, symmetry under
 reflection, invariance under scaling and shifting, and its value on a steady rise.
 */
module AdxTheorems {
  import opened Prelude
  import opened Adx
  import opened Fading

  // ---------------------------------------------------------------------------
  // Smoothing is linear and monotone
  // ---------------------------------------------------------------------------

  lemma BlendAdds(a: real, b: real, x: real, y: real, period: nat)
    requires period >= 1
    ensures Blend(a + b, x + y, period) == Blend(a, x, period) + Blend(b, y, period)
  {
  }

  lemma DivisionScales(c: real, x: real, d: real)
    requires d != 0.0
    ensures (c * x) / d == c * (x / d)
  {
    assert x == (x / d) * d;
    assert c * x == (c * (x / d)) * d;
  }

  lemma BlendMonotone(a: real, b: real, x: real, y: real, period: nat)
    requires period >= 1 && a <= b && x <= y
    ensures Blend(a, x, period) <= Blend(b, y, period)
  {
    var w := (period - 1) as real;
    assert a * w <= b * w;
    DivisionMonotone(a * w + x, b * w + y, period as real);
  }

  lemma BlendOfConstant(h: real, period: nat)
    requires period >= 1
    ensures Blend(h, h, period) == h
  {
    assert h * ((period - 1) as real) + h == h * (period as real);
  }

  /** xs[i] + ys[i] <= zs[i] over the part that smoothing reads. */
  predicate SumBelow(xs: seq<real>, ys: seq<real>, zs: seq<real>, lo: nat) {
    |xs| == |ys| == |zs| && forall i :: lo <= i < |xs| ==> xs[i] + ys[i] <= zs[i]
  }

  lemma {:induction false} SumsBelow(xs: seq<real>, ys: seq<real>, zs: seq<real>, lo: nat, hi: nat)
    requires lo <= hi <= |xs| && SumBelow(xs, ys, zs, lo)
    ensures Sum(xs, lo, hi) + Sum(ys, lo, hi) <= Sum(zs, lo, hi)
    decreases hi
  {
    if lo == hi {
    } else {
      SumsBelow(xs, ys, zs, lo, hi - 1);
    }
  }

  lemma MeansBelow(xs: seq<real>, ys: seq<real>, zs: seq<real>, lo: nat, hi: nat)
    requires lo < hi <= |xs| && SumBelow(xs, ys, zs, lo)
    ensures Mean(xs, lo, hi) + Mean(ys, lo, hi) <= Mean(zs, lo, hi)
  {
    SumsBelow(xs, ys, zs, lo, hi);
    DivisionMonotone(Sum(xs, lo, hi) + Sum(ys, lo, hi), Sum(zs, lo, hi), (hi - lo) as real);
  }

  lemma {:induction false} SmoothsBelow(xs: seq<real>, ys: seq<real>, zs: seq<real>,
                                        lo: nat, start: nat, period: nat, i: nat)
    requires period >= 1 && lo <= start <= i < |xs| && SumBelow(xs, ys, zs, lo)
    ensures Smooth(xs, lo, start, period, i) + Smooth(ys, lo, start, period, i) <= Smooth(zs, lo, start, period, i)
    decreases i
  {
    if i == start {
      MeansBelow(xs, ys, zs, lo, start + 1);
    } else {
      SmoothsBelow(xs, ys, zs, lo, start, period, i - 1);
      var a, b := Smooth(xs, lo, start, period, i - 1), Smooth(ys, lo, start, period, i - 1);
      BlendAdds(a, b, xs[i], ys[i], period);
      BlendMonotone(a + b, Smooth(zs, lo, start, period, i - 1), xs[i] + ys[i], zs[i], period);
    }
  }

  /** Every value smoothing reads lies in [low, high]. */
  predicate Within(xs: seq<real>, lo: nat, low: real, high: real) {
    forall i :: lo <= i < |xs| ==> low <= xs[i] <= high
  }

  lemma NoneOf(x: real)
    ensures x * (0 as real) == 0.0
  {
  }

  lemma OneMoreOf(x: real, k: nat)
    ensures x * ((k + 1) as real) == x * (k as real) + x
  {
    assert (k + 1) as real == k as real + 1.0;
  }

  lemma {:induction false} SumWithin(xs: seq<real>, lo: nat, hi: nat, low: real, high: real)
    requires lo <= hi <= |xs| && Within(xs, lo, low, high)
    ensures low * ((hi - lo) as real) <= Sum(xs, lo, hi) <= high * ((hi - lo) as real)
    decreases hi
  {
    if lo == hi {
      NoneOf(low);
      NoneOf(high);
    } else {
      SumWithin(xs, lo, hi - 1, low, high);
      OneMoreOf(low, hi - 1 - lo);
      OneMoreOf(high, hi - 1 - lo);
    }
  }

  lemma MeanWithin(xs: seq<real>, lo: nat, hi: nat, low: real, high: real)
    requires lo < hi <= |xs| && Within(xs, lo, low, high)
    ensures low <= Mean(xs, lo, hi) <= high
  {
    var d := (hi - lo) as real;
    SumWithin(xs, lo, hi, low, high);
    QuotientWithin(low, Sum(xs, lo, hi), high, d);
  }

  lemma QuotientWithin(low: real, x: real, high: real, d: real)
    requires d > 0.0 && low * d <= x <= high * d
    ensures low <= x / d <= high
  {
    var q := x / d;
    assert q * d == x;
    SignOfFactor(q - low, d);
    SignOfFactor(high - q, d);
  }

  lemma BlendWithin(a: real, x: real, period: nat, low: real, high: real)
    requires period >= 1 && low <= a <= high && low <= x <= high
    ensures low <= Blend(a, x, period) <= high
  {
    BlendMonotone(low, a, low, x, period);
    BlendMonotone(a, high, x, high, period);
    BlendOfConstant(low, period);
    BlendOfConstant(high, period);
  }

  lemma {:induction false} SmoothWithin(xs: seq<real>, lo: nat, start: nat, period: nat, i: nat, low: real, high: real)
    requires period >= 1 && lo <= start <= i < |xs| && Within(xs, lo, low, high)
    ensures low <= Smooth(xs, lo, start, period, i) <= high
    decreases i
  {
    if i == start {
      MeanWithin(xs, lo, start + 1, low, high);
    } else {
      SmoothWithin(xs, lo, start, period, i - 1, low, high);
      BlendWithin(Smooth(xs, lo, start, period, i - 1), xs[i], period, low, high);
    }
  }

  // ---------------------------------------------------------------------------
  // What the series and the smoothing mean
  // ---------------------------------------------------------------------------

  /** Only the larger directional move of a candle counts: DM+ is positive exactly when the
      highs rise, and by more than the lows fall, and then equals that rise; DM- is the mirror.
      So they are never both positive, and equal moves give zero on both. */
  lemma OnlyLargerMoveCounts(cs: seq<Candle>, i: nat)
    requires 1 <= i < |cs|
    ensures var rise, fall := cs[i].high - cs[i-1].high, cs[i-1].low - cs[i].low;
            var p, m := PlusSeries(cs)[i], MinusSeries(cs)[i];
            (p > 0.0 <==> rise > 0.0 && rise > fall) && (p > 0.0 ==> p == rise) && p >= 0.0 &&
            (m > 0.0 <==> fall > 0.0 && fall > rise) && (m > 0.0 ==> m == fall) && m >= 0.0 &&
            !(p > 0.0 && m > 0.0) && (rise == fall ==> p == 0.0 && m == 0.0)
  {
    SeriesAt(cs, i);
  }

  /** The true range is the spread of the candle together with the previous close. */
  lemma TrueRangeIsSpread(cs: seq<Candle>, i: nat)
    requires 1 <= i < |cs| && cs[i].low <= cs[i].high
    ensures var top, bottom := Max(cs[i].high, cs[i-1].close), Min(cs[i].low, cs[i-1].close);
            RangeSeries(cs)[i] == top - bottom
  {
    SeriesAt(cs, i);
  }

  lemma BlendIsFading(prev: real, x: real, period: nat)
    requires period >= 1
    ensures Blend(prev, x, period) == Onwards(prev, x, 1.0 / period as real)
  {
    assert (period - 1) as real == period as real - 1.0;
    QuotientOfSum(prev, x, period as real);
  }

  lemma QuotientOfSum(prev: real, x: real, d: real)
    requires d > 0.0
    ensures (prev * (d - 1.0) + x) / d == Onwards(prev, x, 1.0 / d)
  {
    var u := 1.0 / d;
    assert u * d == 1.0;
    var r := prev * (1.0 - u) + u * x;
    assert r * d == prev * d - prev * (u * d) + (u * d) * x;
    assert r * d == prev * (d - 1.0) + x;
  }

  /** The closed form of Wilder smoothing: the mean it starts from has faded by 1 - 1/period at
      every step since, and so has 1/period of every value since it came in. */
  lemma {:induction false} SmoothClosedForm(xs: seq<real>, lo: nat, start: nat, period: nat, i: nat)
    requires period >= 1 && lo <= start <= i < |xs|
    ensures Smooth(xs, lo, start, period, i) == Closed(Mean(xs, lo, start + 1), xs, start, i, 1.0 / period as real)
    decreases i
  {
    var first, w := Mean(xs, lo, start + 1), 1.0 / period as real;
    if i == start {
      ClosedStart(first, xs, start, w);
    } else {
      SmoothClosedForm(xs, lo, start, period, i - 1);
      ClosedStep(first, xs, start, i, w);
      BlendIsFading(Smooth(xs, lo, start, period, i - 1), xs[i], period);
    }
  }

  /** The directional index is the imbalance of the two smoothed moves in percent of their sum;
      it vanishes exactly when they are equal. */
  lemma DxIsImbalance(plus: real, minus: real)
    requires plus >= 0.0 && minus >= 0.0
    ensures Dx(plus, minus) * (plus + minus) == 100.0 * (Max(plus, minus) - Min(plus, minus))
    ensures Dx(plus, minus) == 0.0 <==> plus == minus
  {
    var x, y := Max(plus, minus) - Min(plus, minus), plus + minus;
    assert Abs(plus - minus) == x;
    if y > 0.0 {
      PercentOfWhole(x, y);
    }
  }

  lemma PercentOfWhole(part: real, whole: real)
    requires whole != 0.0
    ensures Percent(part, whole) * whole == 100.0 * part
    ensures Percent(part, whole) == 0.0 <==> part == 0.0
  {
    var q := 100.0 * part / whole;
    assert q * whole == 100.0 * part;
  }

  /** The faded average of a whole series, from the mean of xs[lo..start] on. */
  function FadedAverage(xs: seq<real>, lo: nat, start: nat, period: nat): real
    requires period >= 1 && lo <= start < |xs|
  {
    Closed(Mean(xs, lo, start + 1), xs, start, |xs| - 1, 1.0 / period as real)
  }

  lemma {:induction false} AverageIs(xs: seq<real>, lo: nat, start: nat, period: nat)
    requires period >= 1 && lo <= start < |xs|
    ensures Smooth(xs, lo, start, period, |xs| - 1) == FadedAverage(xs, lo, start, period)
  {
    SmoothClosedForm(xs, lo, start, period, |xs| - 1);
  }

  /** A share of the whole, in percent, that stands for the part. */
  predicate InPercent(share: real, whole: real, part: real) {
    share * whole == 100.0 * part
  }

  lemma RatiosAre(a: real, p: real, m: real, adx: real)
    ensures var r := Ratios(a, p, m, adx);
            if a == 0.0 then r == Indicators(0.0, 0.0, 0.0)
            else InPercent(r.diPlus, a, p) && InPercent(r.diMinus, a, m) && r.adx == adx
  {
    if a != 0.0 {
      PercentOfWhole(p, a);
      PercentOfWhole(m, a);
    }
  }

  lemma {:induction false} IndicatorsOfAverages(
    range: seq<real>, plus: seq<real>, minus: seq<real>, period: nat, a: real, p: real, m: real)
    requires 1 <= period && 2 * period < |range| && |range| == |plus| == |minus|
    requires a == LastSmooth(range, period) && p == LastSmooth(plus, period) && m == LastSmooth(minus, period)
    ensures var r := FromSeries(range, plus, minus, period);
            if a == 0.0 then r == Indicators(0.0, 0.0, 0.0)
            else InPercent(r.diPlus, a, p) && InPercent(r.diMinus, a, m) && r.adx == AdxOf(plus, minus, period)
  {
    RatiosAre(a, p, m, AdxOf(plus, minus, period));
  }

  lemma {:induction false} AdxIsAverage(plus: seq<real>, minus: seq<real>, period: nat)
    requires 1 <= period && 2 * period < |plus| == |minus|
    ensures AdxOf(plus, minus, period) == FadedAverage(DxSeries(plus, minus, period), period, 2 * period, period)
  {
    AverageIs(DxSeries(plus, minus, period), period, 2 * period, period);
  }

  /** DI+ and DI- are the faded averages of the moves in percent of that of the ranges, and ADX
      is the faded average of the directional index of every candle, from twice the period on. */
  predicate AveragesGive(r: Indicators, range: seq<real>, plus: seq<real>, minus: seq<real>, period: nat)
    requires 1 <= period && 2 * period < |range| && |range| == |plus| == |minus|
  {
    var a := FadedAverage(range, 1, period, period);
    if a == 0.0 then r == Indicators(0.0, 0.0, 0.0)
    else InPercent(r.diPlus, a, FadedAverage(plus, 1, period, period)) &&
         InPercent(r.diMinus, a, FadedAverage(minus, 1, period, period)) &&
         r.adx == FadedAverage(DxSeries(plus, minus, period), period, 2 * period, period)
  }

  lemma {:induction false} SeriesClosedForm(range: seq<real>, plus: seq<real>, minus: seq<real>, period: nat)
    requires 1 <= period && 2 * period < |range| && |range| == |plus| == |minus|
    ensures AveragesGive(FromSeries(range, plus, minus, period), range, plus, minus, period)
  {
    AverageIs(range, 1, period, period);
    AverageIs(plus, 1, period, period);
    AverageIs(minus, 1, period, period);
    AdxIsAverage(plus, minus, period);
    IndicatorsOfAverages(range, plus, minus, period,
                         LastSmooth(range, period), LastSmooth(plus, period), LastSmooth(minus, period));
  }

  /** The three indicators in closed form, for all candles. */
  lemma {:induction false} IndicatorsClosedForm(cs: seq<Candle>, period: nat)
    requires 1 <= period && 2 * period < |cs|
    ensures AveragesGive(Compute(cs, period), RangeSeries(cs), PlusSeries(cs), MinusSeries(cs), period)
  {
    SeriesClosedForm(RangeSeries(cs), PlusSeries(cs), MinusSeries(cs), period);
  }

  // ---------------------------------------------------------------------------
  // Bounds
  // ---------------------------------------------------------------------------

  predicate ValidCandle(c: Candle) {
    c.low <= c.close <= c.high
  }

  predicate ValidCandles(cs: seq<Candle>) {
    forall i :: 0 <= i < |cs| ==> ValidCandle(cs[i])
  }

  /** The two directional moves of one candle never exceed its true range together. */
  lemma MovesWithinRange(prev: Candle, cur: Candle)
    requires ValidCandle(prev) && ValidCandle(cur)
    ensures 0.0 <= PlusMove(prev, cur) && 0.0 <= MinusMove(prev, cur)
    ensures PlusMove(prev, cur) + MinusMove(prev, cur) <= TrueRange(prev, cur)
  {
  }

  lemma SeriesBounds(cs: seq<Candle>)
    requires ValidCandles(cs)
    ensures SumBelow(PlusSeries(cs), MinusSeries(cs), RangeSeries(cs), 1)
    ensures forall i :: 1 <= i < |cs| ==> PlusSeries(cs)[i] >= 0.0 && MinusSeries(cs)[i] >= 0.0
  {
    forall i | 1 <= i < |cs|
      ensures 0.0 <= PlusSeries(cs)[i] && 0.0 <= MinusSeries(cs)[i]
      ensures PlusSeries(cs)[i] + MinusSeries(cs)[i] <= RangeSeries(cs)[i]
    {
      SeriesAt(cs, i);
      MovesWithinRange(cs[i-1], cs[i]);
    }
  }

  lemma {:induction false} SmoothNonNegative(xs: seq<real>, lo: nat, start: nat, period: nat, i: nat)
    requires period >= 1 && lo <= start <= i < |xs|
    requires forall k :: lo <= k < |xs| ==> xs[k] >= 0.0
    ensures Smooth(xs, lo, start, period, i) >= 0.0
    decreases i
  {
    if i == start {
      SumNonNegative(xs, lo, start + 1);
      DivisionMonotone(0.0, Sum(xs, lo, start + 1), (start + 1 - lo) as real);
    } else {
      SmoothNonNegative(xs, lo, start, period, i - 1);
      BlendMonotone(0.0, Smooth(xs, lo, start, period, i - 1), 0.0, xs[i], period);
      BlendOfConstant(0.0, period);
    }
  }

  lemma {:induction false} SumNonNegative(xs: seq<real>, lo: nat, hi: nat)
    requires lo <= hi <= |xs| && forall k :: lo <= k < |xs| ==> xs[k] >= 0.0
    ensures Sum(xs, lo, hi) >= 0.0
    decreases hi
  {
    if lo == hi {
    } else {
      SumNonNegative(xs, lo, hi - 1);
    }
  }

  lemma PercentWithin(x: real, y: real)
    requires 0.0 <= x <= y && y > 0.0
    ensures 0.0 <= Percent(x, y) <= 100.0
  {
    DivisionMonotone(0.0, 100.0 * x, y);
    DivisionMonotone(100.0 * x, 100.0 * y, y);
    assert 100.0 * y / y == 100.0;
  }

  lemma DxWithin(plus: real, minus: real)
    requires plus >= 0.0 && minus >= 0.0
    ensures 0.0 <= Dx(plus, minus) <= 100.0
  {
    var x, y := Abs(plus - minus), plus + minus;
    if y > 0.0 {
      assert 0.0 <= x <= y;
      PercentWithin(x, y);
    }
  }

  /** At every index the smoothed moves together stay below the smoothed true range. */
  lemma SmoothedMovesBelowRange(cs: seq<Candle>, period: nat, i: nat)
    requires ValidCandles(cs) && 1 <= period <= i < |cs|
    ensures var p, m := Smooth(PlusSeries(cs), 1, period, period, i), Smooth(MinusSeries(cs), 1, period, period, i);
            0.0 <= p && 0.0 <= m && p + m <= Smooth(RangeSeries(cs), 1, period, period, i)
  {
    SeriesBounds(cs);
    SmoothNonNegative(PlusSeries(cs), 1, period, period, i);
    SmoothNonNegative(MinusSeries(cs), 1, period, period, i);
    SmoothsBelow(PlusSeries(cs), MinusSeries(cs), RangeSeries(cs), 1, period, period, i);
  }

  lemma RatioBounds(p: real, m: real, atr: real)
    requires 0.0 <= p && 0.0 <= m && p + m <= atr && atr > 0.0
    ensures 0.0 <= Percent(p, atr) && 0.0 <= Percent(m, atr) && Percent(p, atr) + Percent(m, atr) <= 100.0
  {
    PercentWithin(p, atr);
    PercentWithin(m, atr);
    PercentWithin(p + m, atr);
    PercentAdds(p, m, atr);
  }

  lemma PercentAdds(x: real, y: real, whole: real)
    requires whole != 0.0
    ensures Percent(x, whole) + Percent(y, whole) == Percent(x + y, whole)
  {
    QuotientsAdd(100.0 * x, 100.0 * y, whole);
  }

  lemma QuotientsAdd(x: real, y: real, d: real)
    requires d != 0.0
    ensures x / d + y / d == (x + y) / d
  {
  }

  lemma {:induction false} DxSeriesWithin(cs: seq<Candle>, period: nat)
    requires ValidCandles(cs) && 1 <= period < |cs|
    ensures Within(DxSeries(PlusSeries(cs), MinusSeries(cs), period), 0, 0.0, 100.0)
  {
    var dx := DxSeries(PlusSeries(cs), MinusSeries(cs), period);
    forall i | 0 <= i < |dx| ensures 0.0 <= dx[i] <= 100.0 {
      if i >= period {
        SmoothedMovesBelowRange(cs, period, i);
        DxWithin(Smooth(PlusSeries(cs), 1, period, period, i), Smooth(MinusSeries(cs), 1, period, period, i));
      }
    }
  }

  lemma SmoothedWithin(dx: seq<real>, period: nat)
    requires period >= 1 && 2 * period < |dx| && Within(dx, 0, 0.0, 100.0)
    ensures 0.0 <= Smooth(dx, period, 2 * period, period, |dx| - 1) <= 100.0
  {
    SmoothWithin(dx, period, 2 * period, period, |dx| - 1, 0.0, 100.0);
  }

  lemma AdxOfWithin(plus: seq<real>, minus: seq<real>, period: nat)
    requires period >= 1 && 0 < |plus| == |minus| && Within(DxSeries(plus, minus, period), 0, 0.0, 100.0)
    ensures 0.0 <= AdxOf(plus, minus, period) <= 100.0
  {
    if 2 * period < |plus| {
      SmoothedWithin(DxSeries(plus, minus, period), period);
    }
  }

  lemma {:induction false} AdxWithin(cs: seq<Candle>, period: nat)
    requires ValidCandles(cs) && 1 <= period < |cs|
    ensures 0.0 <= AdxOf(PlusSeries(cs), MinusSeries(cs), period) <= 100.0
  {
    DxSeriesWithin(cs, period);
    AdxOfWithin(PlusSeries(cs), MinusSeries(cs), period);
  }

  lemma DirectionsWithin(cs: seq<Candle>, period: nat)
    requires ValidCandles(cs) && 1 <= period < |cs|
    ensures var r := Compute(cs, period);
            0.0 <= r.diPlus && 0.0 <= r.diMinus && r.diPlus + r.diMinus <= 100.0
  {
    var n := |cs| - 1;
    var atr := Smooth(RangeSeries(cs), 1, period, period, n);
    SmoothedMovesBelowRange(cs, period, n);
    if atr != 0.0 {
      RatioBounds(Smooth(PlusSeries(cs), 1, period, period, n), Smooth(MinusSeries(cs), 1, period, period, n), atr);
    }
  }

  /** For all candles with low <= close <= high: DI+ and DI- are non-negative and sum to at
      most 100, and ADX lies between 0 and 100. */
  lemma IndicatorBounds(cs: seq<Candle>, period: nat)
    requires ValidCandles(cs) && 1 <= period < |cs|
    ensures var r := Compute(cs, period);
            0.0 <= r.diPlus && 0.0 <= r.diMinus && r.diPlus + r.diMinus <= 100.0 && 0.0 <= r.adx <= 100.0
  {
    AdxWithin(cs, period);
    DirectionsWithin(cs, period);
  }

  // ---------------------------------------------------------------------------
  // Reflection
  // ---------------------------------------------------------------------------

  function Reflect(c: Candle, k: real): Candle {
    Candle(k - c.low, k - c.high, k - c.close)
  }

  function ReflectAll(cs: seq<Candle>, k: real): (r: seq<Candle>)
    ensures |r| == |cs| && forall i :: 0 <= i < |cs| ==> r[i] == Reflect(cs[i], k)
  {
    seq(|cs|, i requires 0 <= i < |cs| => Reflect(cs[i], k))
  }

  lemma ReflectSwapsMoves(prev: Candle, cur: Candle, k: real)
    ensures PlusMove(Reflect(prev, k), Reflect(cur, k)) == MinusMove(prev, cur)
    ensures MinusMove(Reflect(prev, k), Reflect(cur, k)) == PlusMove(prev, cur)
    ensures TrueRange(Reflect(prev, k), Reflect(cur, k)) == TrueRange(prev, cur)
  {
  }

  lemma ReflectSwapsSeries(cs: seq<Candle>, k: real)
    ensures PlusSeries(ReflectAll(cs, k)) == MinusSeries(cs)
    ensures MinusSeries(ReflectAll(cs, k)) == PlusSeries(cs)
    ensures RangeSeries(ReflectAll(cs, k)) == RangeSeries(cs)
  {
    var rs := ReflectAll(cs, k);
    forall i | 0 <= i < |cs|
      ensures PlusSeries(rs)[i] == MinusSeries(cs)[i] && MinusSeries(rs)[i] == PlusSeries(cs)[i]
      ensures RangeSeries(rs)[i] == RangeSeries(cs)[i]
    {
      SeriesAt(cs, i);
      SeriesAt(rs, i);
      if i > 0 { ReflectSwapsMoves(cs[i-1], cs[i], k); }
    }
  }

  lemma DxSeriesSymmetric(plus: seq<real>, minus: seq<real>, period: nat)
    requires period >= 1 && |plus| == |minus|
    ensures DxSeries(plus, minus, period) == DxSeries(minus, plus, period)
  {
    forall i | period <= i < |plus|
      ensures DxSeries(plus, minus, period)[i] == DxSeries(minus, plus, period)[i]
    {
      DxSymmetric(Smooth(plus, 1, period, period, i), Smooth(minus, 1, period, period, i));
    }
  }

  lemma DxSymmetric(plus: real, minus: real)
    ensures Dx(plus, minus) == Dx(minus, plus)
  {
    assert Abs(plus - minus) == Abs(minus - plus);
  }

  /** Turning the market upside down swaps DI+ and DI- and leaves ADX as it is. */
  lemma ReflectionSwapsDirections(cs: seq<Candle>, k: real, period: nat)
    requires 1 <= period < |cs|
    ensures var r, s := Compute(cs, period), Compute(ReflectAll(cs, k), period);
            s.diPlus == r.diMinus && s.diMinus == r.diPlus && s.adx == r.adx
  {
    ReflectSwapsSeries(cs, k);
    DxSeriesSymmetric(PlusSeries(cs), MinusSeries(cs), period);
  }

  // ---------------------------------------------------------------------------
  // Scaling and shifting
  // ---------------------------------------------------------------------------

  function Times(c: real, x: real): real {
    c * x
  }

  function Rescale(x: Candle, c: real, d: real): Candle {
    Candle(Times(c, x.high) + d, Times(c, x.low) + d, Times(c, x.close) + d)
  }

  function RescaleAll(cs: seq<Candle>, c: real, d: real): (r: seq<Candle>)
    ensures |r| == |cs| && forall i :: 0 <= i < |cs| ==> r[i] == Rescale(cs[i], c, d)
  {
    seq(|cs|, i requires 0 <= i < |cs| => Rescale(cs[i], c, d))
  }

  /** zs is c times xs. */
  predicate Scaled(zs: seq<real>, xs: seq<real>, c: real) {
    |zs| == |xs| && forall i :: 0 <= i < |xs| ==> zs[i] == Times(c, xs[i])
  }

  lemma TimesSubtracts(c: real, x: real, y: real)
    ensures Times(c, x) - Times(c, y) == Times(c, x - y)
  {
  }

  lemma TimesKeepsSign(c: real, x: real)
    requires c > 0.0
    ensures Times(c, x) > 0.0 <==> x > 0.0
    ensures Times(c, x) == 0.0 <==> x == 0.0
    ensures Abs(Times(c, x)) == Times(c, Abs(x))
  {
    if x > 0.0 {
      assert c * x > 0.0;
    } else if x < 0.0 {
      assert c * -x > 0.0;
      assert c * -x == -(c * x);
    }
  }

  lemma TimesKeepsOrder(c: real, x: real, y: real)
    requires c > 0.0
    ensures Times(c, x) > Times(c, y) <==> x > y
    ensures Max(Times(c, x), Times(c, y)) == Times(c, Max(x, y))
  {
    TimesSubtracts(c, x, y);
    TimesKeepsSign(c, x - y);
  }

  lemma RescaledUpMove(prev: Candle, cur: Candle, c: real, d: real)
    requires c > 0.0
    ensures var p, q := Rescale(prev, c, d), Rescale(cur, c, d);
            q.high - p.high == Times(c, cur.high - prev.high) && p.low - q.low == Times(c, prev.low - cur.low)
  {
    TimesSubtracts(c, cur.high, prev.high);
    TimesSubtracts(c, prev.low, cur.low);
  }

  lemma ZeroTimes(c: real)
    ensures Times(c, 0.0) == 0.0
  {
  }

  lemma RescaleScalesMoves(prev: Candle, cur: Candle, c: real, d: real)
    requires c > 0.0
    ensures PlusMove(Rescale(prev, c, d), Rescale(cur, c, d)) == Times(c, PlusMove(prev, cur))
    ensures MinusMove(Rescale(prev, c, d), Rescale(cur, c, d)) == Times(c, MinusMove(prev, cur))
  {
    var up, down := cur.high - prev.high, prev.low - cur.low;
    RescaledUpMove(prev, cur, c, d);
    TimesKeepsOrder(c, up, down);
    TimesKeepsOrder(c, down, up);
    TimesKeepsSign(c, up);
    TimesKeepsSign(c, down);
    ZeroTimes(c);
  }

  lemma RescaleScalesRange(prev: Candle, cur: Candle, c: real, d: real)
    requires c > 0.0
    ensures TrueRange(Rescale(prev, c, d), Rescale(cur, c, d)) == Times(c, TrueRange(prev, cur))
  {
    var p, q := Rescale(prev, c, d), Rescale(cur, c, d);
    var x, y, z := cur.high - cur.low, cur.high - prev.close, cur.low - prev.close;
    TimesSubtracts(c, cur.high, cur.low);
    TimesSubtracts(c, cur.high, prev.close);
    TimesSubtracts(c, cur.low, prev.close);
    assert q.high - q.low == Times(c, x) && q.high - p.close == Times(c, y) && q.low - p.close == Times(c, z);
    TimesKeepsSign(c, y);
    TimesKeepsSign(c, z);
    TimesKeepsOrder(c, x, Abs(y));
    TimesKeepsOrder(c, Max(x, Abs(y)), Abs(z));
  }

  lemma RescaleScalesSeries(cs: seq<Candle>, c: real, d: real)
    requires c > 0.0
    ensures Scaled(PlusSeries(RescaleAll(cs, c, d)), PlusSeries(cs), c)
    ensures Scaled(MinusSeries(RescaleAll(cs, c, d)), MinusSeries(cs), c)
    ensures Scaled(RangeSeries(RescaleAll(cs, c, d)), RangeSeries(cs), c)
  {
    forall i | 0 <= i < |cs|
      ensures PlusSeries(RescaleAll(cs, c, d))[i] == Times(c, PlusSeries(cs)[i])
      ensures MinusSeries(RescaleAll(cs, c, d))[i] == Times(c, MinusSeries(cs)[i])
      ensures RangeSeries(RescaleAll(cs, c, d))[i] == Times(c, RangeSeries(cs)[i])
    {
      RescaleScalesAt(cs, c, d, i);
    }
  }

  lemma {:induction false} RescaleScalesAt(cs: seq<Candle>, c: real, d: real, i: nat)
    requires c > 0.0 && i < |cs|
    ensures PlusSeries(RescaleAll(cs, c, d))[i] == Times(c, PlusSeries(cs)[i])
    ensures MinusSeries(RescaleAll(cs, c, d))[i] == Times(c, MinusSeries(cs)[i])
    ensures RangeSeries(RescaleAll(cs, c, d))[i] == Times(c, RangeSeries(cs)[i])
  {
    SeriesAt(cs, i);
    SeriesAt(RescaleAll(cs, c, d), i);
    if i > 0 {
      RescaleScalesMoves(cs[i-1], cs[i], c, d);
      RescaleScalesRange(cs[i-1], cs[i], c, d);
    } else {
      ZeroTimes(c);
    }
  }

  lemma TimesAdds(c: real, x: real, y: real)
    ensures Times(c, x) + Times(c, y) == Times(c, x + y)
  {
  }

  lemma TimesDivides(c: real, x: real, d: real)
    requires d != 0.0
    ensures Times(c, x) / d == Times(c, x / d)
  {
    DivisionScales(c, x, d);
  }

  lemma BlendScales(c: real, a: real, x: real, period: nat)
    requires period >= 1
    ensures Blend(Times(c, a), Times(c, x), period) == Times(c, Blend(a, x, period))
  {
    var w, d := (period - 1) as real, period as real;
    assert Times(c, a) * w + Times(c, x) == Times(c, a * w + x);
    TimesDivides(c, a * w + x, d);
  }

  lemma {:induction false} SumScales(zs: seq<real>, xs: seq<real>, c: real, lo: nat, hi: nat)
    requires Scaled(zs, xs, c) && lo <= hi <= |xs|
    ensures Sum(zs, lo, hi) == Times(c, Sum(xs, lo, hi))
    decreases hi
  {
    if lo < hi {
      SumScales(zs, xs, c, lo, hi - 1);
      TimesAdds(c, Sum(xs, lo, hi - 1), xs[hi-1]);
    } else {
      ZeroTimes(c);
    }
  }

  lemma {:induction false} SmoothScales(zs: seq<real>, xs: seq<real>, c: real, lo: nat, start: nat, period: nat, i: nat)
    requires Scaled(zs, xs, c) && period >= 1 && lo <= start <= i < |xs|
    ensures Smooth(zs, lo, start, period, i) == Times(c, Smooth(xs, lo, start, period, i))
    decreases i
  {
    if i == start {
      SumScales(zs, xs, c, lo, start + 1);
      TimesDivides(c, Sum(xs, lo, start + 1), (start + 1 - lo) as real);
    } else {
      SmoothScales(zs, xs, c, lo, start, period, i - 1);
      BlendScales(c, Smooth(xs, lo, start, period, i - 1), xs[i], period);
    }
  }

  lemma RatioScales(c: real, x: real, y: real)
    requires c > 0.0 && y != 0.0
    ensures Times(c, y) != 0.0 && Percent(Times(c, x), Times(c, y)) == Percent(x, y)
  {
    TimesKeepsSign(c, y);
    var q := 100.0 * x / y;
    assert 100.0 * x == q * y;
    assert 100.0 * (c * x) == q * (c * y);
  }

  lemma DxScales(c: real, plus: real, minus: real)
    requires c > 0.0
    ensures Dx(Times(c, plus), Times(c, minus)) == Dx(plus, minus)
  {
    TimesAdds(c, plus, minus);
    TimesSubtracts(c, plus, minus);
    TimesKeepsSign(c, plus - minus);
    TimesKeepsSign(c, plus + minus);
    if plus + minus > 0.0 {
      RatioScales(c, Abs(plus - minus), plus + minus);
    }
  }

  lemma DxSeriesScales(p': seq<real>, m': seq<real>, p: seq<real>, m: seq<real>, c: real, period: nat)
    requires c > 0.0 && Scaled(p', p, c) && Scaled(m', m, c) && period >= 1 && |p| == |m|
    ensures DxSeries(p', m', period) == DxSeries(p, m, period)
  {
    forall i | period <= i < |p|
      ensures Dx(Smooth(p', 1, period, period, i), Smooth(m', 1, period, period, i)) ==
              Dx(Smooth(p, 1, period, period, i), Smooth(m, 1, period, period, i))
    {
      SmoothScales(p', p, c, 1, period, period, i);
      SmoothScales(m', m, c, 1, period, period, i);
      DxScales(c, Smooth(p, 1, period, period, i), Smooth(m, 1, period, period, i));
    }
  }

  /** Multiplying all prices by a positive factor and adding a constant changes neither
      ADX nor DI+ nor DI-. */
  lemma UnitsDoNotMatter(cs: seq<Candle>, c: real, d: real, period: nat)
    requires c > 0.0 && 1 <= period < |cs|
    ensures Compute(RescaleAll(cs, c, d), period) == Compute(cs, period)
  {
    var rs := RescaleAll(cs, c, d);
    RescaleScalesSeries(cs, c, d);
    ScaledSeriesAgree(RangeSeries(rs), PlusSeries(rs), MinusSeries(rs),
                      RangeSeries(cs), PlusSeries(cs), MinusSeries(cs), c, period);
  }

  lemma RatiosScale(c: real, atr: real, plus: real, minus: real, adx: real)
    requires c > 0.0
    ensures Ratios(Times(c, atr), Times(c, plus), Times(c, minus), adx) == Ratios(atr, plus, minus, adx)
  {
    TimesKeepsSign(c, atr);
    if atr != 0.0 {
      RatioScales(c, plus, atr);
      RatioScales(c, minus, atr);
    }
  }

  lemma AdxScales(p': seq<real>, m': seq<real>, p: seq<real>, m: seq<real>, c: real, period: nat)
    requires c > 0.0 && Scaled(p', p, c) && Scaled(m', m, c) && period >= 1 && 0 < |p| == |m|
    ensures AdxOf(p', m', period) == AdxOf(p, m, period)
  {
    DxSeriesScales(p', m', p, m, c, period);
  }

  /** Smoothing at the last candle scales. */
  lemma LastSmoothScales(zs: seq<real>, xs: seq<real>, c: real, period: nat)
    requires Scaled(zs, xs, c) && 1 <= period < |xs|
    ensures LastSmooth(zs, period) == Times(c, LastSmooth(xs, period))
  {
    SmoothScales(zs, xs, c, 1, period, period, |xs| - 1);
  }

  lemma ScaledSeriesAgree(r': seq<real>, p': seq<real>, m': seq<real>,
                          r: seq<real>, p: seq<real>, m: seq<real>, c: real, period: nat)
    requires c > 0.0 && Scaled(r', r, c) && Scaled(p', p, c) && Scaled(m', m, c)
    requires |r| == |p| == |m| && 1 <= period < |r|
    ensures FromSeries(r', p', m', period) == FromSeries(r, p, m, period)
  {
    AdxScales(p', m', p, m, c, period);
    var adx := AdxOf(p, m, period);
    var atr, plus, minus := LastSmooth(r, period), LastSmooth(p, period), LastSmooth(m, period);
    assert LastSmooth(r', period) == Times(c, atr) by { LastSmoothScales(r', r, c, period); }
    assert LastSmooth(p', period) == Times(c, plus) by { LastSmoothScales(p', p, c, period); }
    assert LastSmooth(m', period) == Times(c, minus) by { LastSmoothScales(m', m, c, period); }
    RatiosScale(c, atr, plus, minus, adx);
  }

  // ---------------------------------------------------------------------------
  // A steady rise
  // ---------------------------------------------------------------------------

  /** Highs, lows and closes all rise from candle to candle. */
  predicate Rising(cs: seq<Candle>) {
    forall i :: 1 <= i < |cs| ==>
      cs[i].high > cs[i-1].high && cs[i].low > cs[i-1].low && cs[i].close > cs[i-1].close
  }

  lemma {:induction false} SmoothPositive(xs: seq<real>, start: nat, period: nat, i: nat)
    requires period >= 1 && 1 <= start <= i < |xs|
    requires forall k :: 1 <= k < |xs| ==> xs[k] > 0.0
    ensures Smooth(xs, 1, start, period, i) > 0.0
    decreases i
  {
    if i == start {
      SumPositive(xs, start + 1);
      PositiveQuotient(Sum(xs, 1, start + 1), start as real);
    } else {
      SmoothPositive(xs, start, period, i - 1);
      var a := Smooth(xs, 1, start, period, i - 1);
      assert a * ((period - 1) as real) >= 0.0;
      PositiveQuotient(a * ((period - 1) as real) + xs[i], period as real);
    }
  }

  lemma {:induction false} SumPositive(xs: seq<real>, hi: nat)
    requires 1 < hi <= |xs| && forall k :: 1 <= k < |xs| ==> xs[k] > 0.0
    ensures Sum(xs, 1, hi) > 0.0
    decreases hi
  {
    if hi > 2 {
      SumPositive(xs, hi - 1);
    } else {
      assert Sum(xs, 1, 1) == 0.0;
    }
  }

  lemma RisingSeries(cs: seq<Candle>)
    requires ValidCandles(cs) && Rising(cs)
    ensures forall i :: 1 <= i < |cs| ==>
              PlusSeries(cs)[i] > 0.0 && MinusSeries(cs)[i] == 0.0 && RangeSeries(cs)[i] > 0.0
  {
    forall i | 1 <= i < |cs|
      ensures PlusSeries(cs)[i] > 0.0 && MinusSeries(cs)[i] == 0.0 && RangeSeries(cs)[i] > 0.0
    {
      SeriesAt(cs, i);
      MovesWithinRange(cs[i-1], cs[i]);
    }
  }

  lemma RisingSmoothed(cs: seq<Candle>, period: nat, i: nat)
    requires ValidCandles(cs) && Rising(cs) && 1 <= period <= i < |cs|
    ensures Smooth(PlusSeries(cs), 1, period, period, i) > 0.0
    ensures Smooth(MinusSeries(cs), 1, period, period, i) == 0.0
    ensures Smooth(RangeSeries(cs), 1, period, period, i) > 0.0
  {
    RisingSeries(cs);
    SmoothPositive(PlusSeries(cs), period, period, i);
    SmoothPositive(RangeSeries(cs), period, period, i);
    SmoothWithin(MinusSeries(cs), 1, period, period, i, 0.0, 0.0);
  }

  lemma OneSidedDx(plus: real)
    requires plus > 0.0
    ensures Dx(plus, 0.0) == 100.0
  {
    assert 100.0 * plus / plus == 100.0;
  }

  lemma RisingDx(cs: seq<Candle>, period: nat)
    requires ValidCandles(cs) && Rising(cs) && 1 <= period < |cs|
    ensures Within(DxSeries(PlusSeries(cs), MinusSeries(cs), period), period, 100.0, 100.0)
  {
    var dx := DxSeries(PlusSeries(cs), MinusSeries(cs), period);
    forall i | period <= i < |cs| ensures dx[i] == 100.0 {
      RisingSmoothed(cs, period, i);
      OneSidedDx(Smooth(PlusSeries(cs), 1, period, period, i));
    }
  }

  lemma ConstantAdx(plus: seq<real>, minus: seq<real>, period: nat)
    requires period >= 1 && 2 * period < |plus| == |minus|
    requires Within(DxSeries(plus, minus, period), period, 100.0, 100.0)
    ensures AdxOf(plus, minus, period) == 100.0
  {
    SmoothWithin(DxSeries(plus, minus, period), period, 2 * period, period, |plus| - 1, 100.0, 100.0);
  }

  lemma OneSidedRatio(plus: real, atr: real)
    requires plus > 0.0 && atr > 0.0
    ensures Percent(plus, atr) > 0.0 && Percent(0.0, atr) == 0.0
  {
    PositiveQuotient(100.0 * plus, atr);
  }

  lemma {:induction false} OneSidedIndicators(range: seq<real>, plus: seq<real>, minus: seq<real>, period: nat)
    requires |range| == |plus| == |minus| && 1 <= period < |plus|
    requires Smooth(plus, 1, period, period, |plus| - 1) > 0.0
    requires Smooth(minus, 1, period, period, |plus| - 1) == 0.0
    requires Smooth(range, 1, period, period, |plus| - 1) > 0.0
    ensures FromSeries(range, plus, minus, period).diMinus == 0.0
    ensures FromSeries(range, plus, minus, period).diPlus > 0.0
  {
    OneSidedRatio(Smooth(plus, 1, period, period, |plus| - 1), Smooth(range, 1, period, period, |plus| - 1));
  }

  /** On a steady rise DI- is exactly zero, DI+ is positive and ADX is exactly 100. */
  lemma {:induction false} SteadyRise(cs: seq<Candle>, period: nat)
    requires ValidCandles(cs) && Rising(cs) && 1 <= period && 2 * period < |cs|
    ensures var r := Compute(cs, period);
            r.diMinus == 0.0 && r.diPlus > 0.0 && r.adx == 100.0
  {
    var n := |cs| - 1;
    RisingSmoothed(cs, period, n);
    RisingDx(cs, period);
    ConstantAdx(PlusSeries(cs), MinusSeries(cs), period);
    OneSidedIndicators(RangeSeries(cs), PlusSeries(cs), MinusSeries(cs), period);
  }
}
