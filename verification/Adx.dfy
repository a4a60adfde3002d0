/**
 The average directional index: directional moves and true range per candle, Wilder
 smoothing of each, the two directional indicators, and the smoothed index. Everything is
 given twice: as functions on sequences, which the theorems are about, and as the array
 loops that compute it.
 */
module Adx {
  import opened Prelude

  datatype Candle = Candle(high: real, low: real, close: real)

  // ---------------------------------------------------------------------------
  // Series
  // ---------------------------------------------------------------------------

  function PlusMove(prev: Candle, cur: Candle): real {
    var up, down := cur.high - prev.high, prev.low - cur.low;
    if up > down && up > 0.0 then up else 0.0
  }

  function MinusMove(prev: Candle, cur: Candle): real {
    var up, down := cur.high - prev.high, prev.low - cur.low;
    if down > up && down > 0.0 then down else 0.0
  }

  function TrueRange(prev: Candle, cur: Candle): real {
    Max(Max(cur.high - cur.low, Abs(cur.high - prev.close)), Abs(cur.low - prev.close))
  }

  function PlusSeries(cs: seq<Candle>): (r: seq<real>)
    ensures |r| == |cs|
  {
    if cs == [] then [] else
      var n := |cs| - 1;
      PlusSeries(cs[..n]) + [if n == 0 then 0.0 else PlusMove(cs[n-1], cs[n])]
  }

  function MinusSeries(cs: seq<Candle>): (r: seq<real>)
    ensures |r| == |cs|
  {
    if cs == [] then [] else
      var n := |cs| - 1;
      MinusSeries(cs[..n]) + [if n == 0 then 0.0 else MinusMove(cs[n-1], cs[n])]
  }

  function RangeSeries(cs: seq<Candle>): (r: seq<real>)
    ensures |r| == |cs|
  {
    if cs == [] then [] else
      var n := |cs| - 1;
      RangeSeries(cs[..n]) + [if n == 0 then 0.0 else TrueRange(cs[n-1], cs[n])]
  }

  lemma {:induction false} SeriesAt(cs: seq<Candle>, i: nat)
    requires i < |cs|
    ensures PlusSeries(cs)[i] == if i == 0 then 0.0 else PlusMove(cs[i-1], cs[i])
    ensures MinusSeries(cs)[i] == if i == 0 then 0.0 else MinusMove(cs[i-1], cs[i])
    ensures RangeSeries(cs)[i] == if i == 0 then 0.0 else TrueRange(cs[i-1], cs[i])
    decreases |cs|
  {
    var n := |cs| - 1;
    if i < n {
      SeriesAt(cs[..n], i);
    }
  }

  /** Each series grows by the move of its newest candle. */
  lemma SeriesGrow(cs: seq<Candle>, i: nat)
    requires 1 <= i < |cs|
    ensures RangeSeries(cs[..i+1]) == RangeSeries(cs[..i]) + [TrueRange(cs[i-1], cs[i])]
    ensures PlusSeries(cs[..i+1]) == PlusSeries(cs[..i]) + [PlusMove(cs[i-1], cs[i])]
    ensures MinusSeries(cs[..i+1]) == MinusSeries(cs[..i]) + [MinusMove(cs[i-1], cs[i])]
  {
    assert cs[..i+1][..i] == cs[..i];
  }

  function Sum(xs: seq<real>, lo: nat, hi: nat): real
    requires lo <= hi <= |xs|
    decreases hi
  {
    if lo == hi then 0.0 else Sum(xs, lo, hi - 1) + xs[hi - 1]
  }

  function Mean(xs: seq<real>, lo: nat, hi: nat): real
    requires lo < hi <= |xs|
  {
    Sum(xs, lo, hi) / ((hi - lo) as real)
  }

  /** One step of Wilder smoothing. */
  function Blend(prev: real, x: real, period: nat): real
    requires period >= 1
  {
    (prev * ((period - 1) as real) + x) / (period as real)
  }

  /** Wilder smoothing: the mean of xs[lo..start] at `start`, blended onwards. */
  function Smooth(xs: seq<real>, lo: nat, start: nat, period: nat, i: nat): real
    requires period >= 1 && lo <= start <= i < |xs|
    decreases i
  {
    if i == start then Mean(xs, lo, start + 1) else Blend(Smooth(xs, lo, start, period, i - 1), xs[i], period)
  }

  /** A share in percent. */
  function Percent(part: real, whole: real): real
    requires whole != 0.0
  {
    100.0 * part / whole
  }

  /** The directional index of two smoothed moves. */
  function Dx(plus: real, minus: real): real {
    if plus + minus > 0.0 then Percent(Abs(plus - minus), plus + minus) else 0.0
  }

  function DxSeries(plus: seq<real>, minus: seq<real>, period: nat): (r: seq<real>)
    requires period >= 1 && |plus| == |minus|
    ensures |r| == |plus|
  {
    seq(|plus|, i requires 0 <= i < |plus| =>
      if i < period then 0.0
      else Dx(Smooth(plus, 1, period, period, i), Smooth(minus, 1, period, period, i)))
  }

  datatype Indicators = Indicators(adx: real, diPlus: real, diMinus: real)

  /** The smoothed index of the last candle; it starts at twice the period. */
  function AdxOf(plus: seq<real>, minus: seq<real>, period: nat): real
    requires period >= 1 && 0 < |plus| == |minus|
  {
    if 2 * period < |plus| then Smooth(DxSeries(plus, minus, period), period, 2 * period, period, |plus| - 1) else 0.0
  }

  /** Nothing when the smoothed range vanishes. */
  function Ratios(atr: real, plus: real, minus: real, adx: real): Indicators {
    if atr == 0.0 then Indicators(0.0, 0.0, 0.0) else Indicators(adx, Percent(plus, atr), Percent(minus, atr))
  }

  /** A series of moves, smoothed up to its last value. */
  function LastSmooth(xs: seq<real>, period: nat): real
    requires 1 <= period < |xs|
  {
    Smooth(xs, 1, period, period, |xs| - 1)
  }

  /** The result from the three series. */
  function FromSeries(range: seq<real>, plus: seq<real>, minus: seq<real>, period: nat): Indicators
    requires period >= 1 && |range| == |plus| == |minus| && period < |range|
  {
    Ratios(LastSmooth(range, period), LastSmooth(plus, period), LastSmooth(minus, period), AdxOf(plus, minus, period))
  }

  function Compute(cs: seq<Candle>, period: nat): Indicators
    requires period >= 1 && period < |cs|
  {
    FromSeries(RangeSeries(cs), PlusSeries(cs), MinusSeries(cs), period)
  }

  // ---------------------------------------------------------------------------
  // The loops
  // ---------------------------------------------------------------------------

  function CandlesOf(high: seq<real>, low: seq<real>, close: seq<real>): (cs: seq<Candle>)
    requires |high| == |low| == |close|
    ensures |cs| == |high|
    ensures forall i :: 0 <= i < |cs| ==> cs[i] == Candle(high[i], low[i], close[i])
  {
    seq(|high|, i requires 0 <= i < |high| => Candle(high[i], low[i], close[i]))
  }

  /** The body of the first loop. */
  method RecordMove(tr: array<real>, plus: array<real>, minus: array<real>, i: nat, prev: Candle, cur: Candle)
    requires i < tr.Length == plus.Length == minus.Length
    requires tr != plus && tr != minus && plus != minus
    modifies tr, plus, minus
    ensures tr[..i+1] == old(tr[..i]) + [TrueRange(prev, cur)]
    ensures plus[..i+1] == old(plus[..i]) + [PlusMove(prev, cur)]
    ensures minus[..i+1] == old(minus[..i]) + [MinusMove(prev, cur)]
  {
    var up := cur.high - prev.high;
    var down := prev.low - cur.low;
    plus[i] := if up > down && up > 0.0 then up else 0.0;
    minus[i] := if down > up && down > 0.0 then down else 0.0;
    tr[i] := Max(Max(cur.high - cur.low, Abs(cur.high - prev.close)), Abs(cur.low - prev.close));
  }

  /** The first loop: directional moves and true range of every candle after the first. */
  method Moves(high: array<real>, low: array<real>, close: array<real>)
    returns (tr: array<real>, plus: array<real>, minus: array<real>)
    requires high.Length == low.Length == close.Length > 0
    ensures fresh(tr) && fresh(plus) && fresh(minus)
    ensures tr[..] == RangeSeries(CandlesOf(high[..], low[..], close[..]))
    ensures plus[..] == PlusSeries(CandlesOf(high[..], low[..], close[..]))
    ensures minus[..] == MinusSeries(CandlesOf(high[..], low[..], close[..]))
  {
    var n := high.Length;
    ghost var cs := CandlesOf(high[..], low[..], close[..]);
    tr := new real[n](_ => 0.0);
    plus := new real[n](_ => 0.0);
    minus := new real[n](_ => 0.0);
    var i := 1;
    while i < n
      invariant 1 <= i <= n
      invariant tr[..i] == RangeSeries(cs[..i])
      invariant plus[..i] == PlusSeries(cs[..i])
      invariant minus[..i] == MinusSeries(cs[..i])
    {
      var prev, cur := Candle(high[i-1], low[i-1], close[i-1]), Candle(high[i], low[i], close[i]);
      SeriesGrow(cs, i);
      RecordMove(tr, plus, minus, i, prev, cur);
      i := i + 1;
    }
    assert cs[..n] == cs;
  }

  /** Wilder smoothing of one series into a new array; entries before `start` stay zero. */
  method WilderSmooth(xs: array<real>, lo: nat, start: nat, period: nat) returns (r: array<real>)
    requires period >= 1 && lo <= start < xs.Length
    ensures fresh(r) && r.Length == xs.Length
    ensures forall i :: start <= i < r.Length ==> r[i] == Smooth(xs[..], lo, start, period, i)
  {
    r := new real[xs.Length](_ => 0.0);
    ghost var s := xs[..];
    r[start] := Mean(xs[..], lo, start + 1);
    var i := start + 1;
    while i < xs.Length
      invariant start < i <= xs.Length && xs[..] == s
      invariant forall j :: start <= j < i ==> r[j] == Smooth(s, lo, start, period, j)
    {
      var blended := Blend(r[i-1], xs[i], period);
      assert xs[i] == s[i] && blended == Smooth(s, lo, start, period, i);
      r[i] := blended;
      i := i + 1;
    }
  }

  /** The directional index of every candle from `period` on. */
  method DirectionalIndex(plus: array<real>, minus: array<real>, period: nat, ghost p: seq<real>, ghost m: seq<real>)
    returns (dx: array<real>)
    requires period >= 1 && plus.Length == minus.Length == |p| == |m|
    requires forall i :: period <= i < |p| ==> plus[i] == Smooth(p, 1, period, period, i)
    requires forall i :: period <= i < |m| ==> minus[i] == Smooth(m, 1, period, period, i)
    ensures fresh(dx) && dx[..] == DxSeries(p, m, period)
  {
    var n := plus.Length;
    dx := new real[n](_ => 0.0);
    var i := period;
    while i < n
      invariant period <= i && (i <= n || n < period)
      invariant forall j :: 0 <= j < i && j < n ==> dx[j] == DxSeries(p, m, period)[j]
      invariant forall j :: i <= j < n ==> dx[j] == 0.0
    {
      dx[i] := Dx(plus[i], minus[i]);
      i := i + 1;
    }
  }

  /** ADX, DI+ and DI-, for every length that passes the guard of the classifier. */
  method ComputeAdx(high: array<real>, low: array<real>, close: array<real>, period: nat)
    returns (adx: real, diPlus: real, diMinus: real)
    requires high.Length == low.Length == close.Length
    requires period >= 1 && 3 * period + 10 <= high.Length
    ensures Indicators(adx, diPlus, diMinus) == Compute(CandlesOf(high[..], low[..], close[..]), period)
  {
    var tr, plus, minus := Moves(high, low, close);
    adx, diPlus, diMinus := IndicatorsOf(tr, plus, minus, period);
  }

  /** The smoothing part: from the three series to the three indicators. */
  method IndicatorsOf(tr: array<real>, plus: array<real>, minus: array<real>, period: nat)
    returns (adx: real, diPlus: real, diMinus: real)
    requires tr.Length == plus.Length == minus.Length
    requires period >= 1 && 3 * period + 10 <= tr.Length
    ensures Indicators(adx, diPlus, diMinus) == FromSeries(tr[..], plus[..], minus[..], period)
  {
    var n := tr.Length;
    ghost var range, p, m := tr[..], plus[..], minus[..];
    var atr := WilderSmooth(tr, 1, period, period);
    var smoothPlus := WilderSmooth(plus, 1, period, period);
    var smoothMinus := WilderSmooth(minus, 1, period, period);
    var lastAtr := atr[n-1];
    if lastAtr == 0.0 {
      return 0.0, 0.0, 0.0;
    }
    diPlus := Percent(smoothPlus[n-1], lastAtr);
    diMinus := Percent(smoothMinus[n-1], lastAtr);
    var dx := DirectionalIndex(smoothPlus, smoothMinus, period, p, m);
    adx := SmoothedIndex(dx, period);
  }

  /** The last step: the index itself is smoothed once more, from twice the period on. */
  method SmoothedIndex(dx: array<real>, period: nat) returns (adx: real)
    requires period >= 1 && dx.Length > 0
    ensures adx == if 2 * period < dx.Length then Smooth(dx[..], period, 2 * period, period, dx.Length - 1) else 0.0
  {
    var start := period * 2;
    if start < dx.Length {
      var adxArr := WilderSmooth(dx, period, start, period);
      adx := adxArr[dx.Length-1];
    } else {
      adx := 0.0;
    }
  }
}
