/**
 The four signal engines. Each decides from the last row of its indicator frame, the
 position flag, the stored stop and the number of bars since the last trade.
 */
module SignalEngines {
  import opened Prelude

  datatype Signal = BuySignal | SellSignal | HoldSignal

  datatype Reason =
    | InsufficientData | TrailingStopHit | RegimeExit | InPositionHold | Cooldown | BullishBreakout | NoEntry
    | HtfReversed | HtfInsufficient | NoHtfBull | RsiRecovery | LtfNoEntry
    | BreakoutConfirmed | BreakoutNoVolume | NoBreakout
    | StopHit | RsiOverbought | BandMidReached | OversoldAtBand

  datatype Decision = Decision(signal: Signal, reason: Reason, stop: Option<real>, close: real)

  /** One row of an indicator frame, with the columns of all engines. */
  datatype Bar = Bar(
    close: real, atr: real, trendGap: real, emaFast: real, ema: real, rsi: real,
    priorHigh: real, volume: real, volumeMa: real, bandLower: real, bandMid: real)

  datatype RegimeTrendParams = RegimeTrendParams(
    minTrendGap: real, initialMult: real, trailingMult: real, cooldownBars: int)

  datatype DualTimeframeParams = DualTimeframeParams(
    rsiOversold: real, initialMult: real, trailingMult: real, cooldownBars: int)

  datatype BreakoutParams = BreakoutParams(volumeMult: real, initialMult: real, trailingMult: real, cooldownBars: int)

  datatype MeanReversionParams = MeanReversionParams(
    rsiOversold: real, rsiOverbought: real, stopMult: real, cooldownBars: int)

  function Last(frame: seq<Bar>): Bar
    requires frame != []
  {
    frame[|frame|-1]
  }

  /** The stop a multiple of the ATR below the close. */
  function StopFor(bar: Bar, mult: real): real {
    bar.close - bar.atr * mult
  }

  /** `max(trailing_stop or candidate, candidate)`. */
  function RaisedStop(stop: Option<real>, candidate: real): real {
    Max(if Truthy(stop) then stop.value else candidate, candidate)
  }

  /** The regime engine only keeps a stop that is positive. */
  function RaisedPositiveStop(stop: Option<real>, candidate: real): real {
    if stop.Some? && stop.value > 0.0 then Max(stop.value, candidate) else candidate
  }

  function RegimeTrendDecide(
    p: RegimeTrendParams, frame: seq<Bar>, inPosition: bool, stop: Option<real>, bars: int): Decision
  {
    if frame == [] then Decision(HoldSignal, InsufficientData, stop, 0.0) else
    var last := Last(frame);
    var bullish := last.trendGap >= p.minTrendGap;
    if inPosition then
      var next := RaisedPositiveStop(stop, StopFor(last, p.trailingMult));
      if last.close <= next then Decision(SellSignal, TrailingStopHit, Some(next), last.close)
      else if !bullish then Decision(SellSignal, RegimeExit, Some(next), last.close)
      else Decision(HoldSignal, InPositionHold, Some(next), last.close)
    else if bars < p.cooldownBars then Decision(HoldSignal, Cooldown, stop, last.close)
    else if bullish && last.close > last.emaFast then
      Decision(BuySignal, BullishBreakout, Some(StopFor(last, p.initialMult)), last.close)
    else Decision(HoldSignal, NoEntry, stop, last.close)
  }

  function DualTimeframeDecide(
    p: DualTimeframeParams, frame: seq<Bar>, htfBullish: bool, htfSufficient: bool,
    inPosition: bool, stop: Option<real>, bars: int): Decision
  {
    if |frame| < 2 then Decision(HoldSignal, InsufficientData, stop, 0.0) else
    var last, prev := Last(frame), frame[|frame|-2];
    if inPosition then
      var next := RaisedStop(stop, StopFor(last, p.trailingMult));
      if last.close <= next then Decision(SellSignal, TrailingStopHit, Some(next), last.close)
      else if !htfBullish then Decision(SellSignal, HtfReversed, Some(next), last.close)
      else Decision(HoldSignal, InPositionHold, Some(next), last.close)
    else if bars < p.cooldownBars then Decision(HoldSignal, Cooldown, stop, last.close)
    else if !htfBullish then
      Decision(HoldSignal, if htfSufficient then NoHtfBull else HtfInsufficient, stop, last.close)
    else if prev.rsi <= p.rsiOversold && last.rsi > p.rsiOversold && last.close > last.ema then
      Decision(BuySignal, RsiRecovery, Some(StopFor(last, p.initialMult)), last.close)
    else Decision(HoldSignal, LtfNoEntry, stop, last.close)
  }

  function BreakoutDecide(
    p: BreakoutParams, frame: seq<Bar>, inPosition: bool, stop: Option<real>, bars: int): Decision
  {
    if frame == [] then Decision(HoldSignal, InsufficientData, stop, 0.0) else
    var last := Last(frame);
    var surge := last.volume >= last.volumeMa * p.volumeMult;
    if inPosition then
      var next := RaisedStop(stop, StopFor(last, p.trailingMult));
      if last.close <= next then Decision(SellSignal, TrailingStopHit, Some(next), last.close)
      else Decision(HoldSignal, InPositionHold, Some(next), last.close)
    else if bars < p.cooldownBars then Decision(HoldSignal, Cooldown, stop, last.close)
    else if last.close > last.priorHigh && surge then
      Decision(BuySignal, BreakoutConfirmed, Some(StopFor(last, p.initialMult)), last.close)
    else Decision(HoldSignal, if last.close > last.priorHigh then BreakoutNoVolume else NoBreakout, stop, last.close)
  }

  function MeanReversionDecide(
    p: MeanReversionParams, frame: seq<Bar>, inPosition: bool, stop: Option<real>, bars: int): Decision
  {
    if frame == [] then Decision(HoldSignal, InsufficientData, stop, 0.0) else
    var last := Last(frame);
    if inPosition then
      if Truthy(stop) && last.close <= stop.value then Decision(SellSignal, StopHit, stop, last.close)
      else if last.rsi >= p.rsiOverbought then Decision(SellSignal, RsiOverbought, stop, last.close)
      else if last.close >= last.bandMid then Decision(SellSignal, BandMidReached, stop, last.close)
      else Decision(HoldSignal, InPositionHold, stop, last.close)
    else if bars < p.cooldownBars then Decision(HoldSignal, Cooldown, stop, last.close)
    else if last.rsi <= p.rsiOversold && last.close <= last.bandLower then
      Decision(BuySignal, OversoldAtBand, Some(StopFor(last, p.stopMult)), last.close)
    else Decision(HoldSignal, NoEntry, stop, last.close)
  }

  // ---------------------------------------------------------------------------
  // The engines behind one interface
  // ---------------------------------------------------------------------------

  datatype Engine =
    | RegimeTrend(rt: RegimeTrendParams)
    | DualTimeframe(dt: DualTimeframeParams)
    | Breakout(bo: BreakoutParams)
    | MeanReversion(mr: MeanReversionParams)
  {
    function CooldownBars(): int {
      match this
      case RegimeTrend(p) => p.cooldownBars
      case DualTimeframe(p) => p.cooldownBars
      case Breakout(p) => p.cooldownBars
      case MeanReversion(p) => p.cooldownBars
    }

    predicate Trails() {
      !MeanReversion?
    }

    function TrailingMult(): real
      requires Trails()
    {
      match this
      case RegimeTrend(p) => p.trailingMult
      case DualTimeframe(p) => p.trailingMult
      case Breakout(p) => p.trailingMult
    }

    function InitialMult(): real {
      match this
      case RegimeTrend(p) => p.initialMult
      case DualTimeframe(p) => p.initialMult
      case Breakout(p) => p.initialMult
      case MeanReversion(p) => p.stopMult
    }
  }

  /** What the engines read of the market at one tick. */
  datatype Market = Market(frame: seq<Bar>, htfBullish: bool, htfSufficient: bool)

  function Decide(e: Engine, m: Market, inPosition: bool, stop: Option<real>, bars: int): Decision {
    match e
    case RegimeTrend(p) => RegimeTrendDecide(p, m.frame, inPosition, stop, bars)
    case DualTimeframe(p) => DualTimeframeDecide(p, m.frame, m.htfBullish, m.htfSufficient, inPosition, stop, bars)
    case Breakout(p) => BreakoutDecide(p, m.frame, inPosition, stop, bars)
    case MeanReversion(p) => MeanReversionDecide(p, m.frame, inPosition, stop, bars)
  }

  /** The consumer keeps a decision's stop, except that a zero stop is forgotten. */
  function StoredStop(e: Engine, d: Decision): Option<real> {
    if e.Trails() then (if Truthy(d.stop) then d.stop else None) else d.stop
  }

  /** A buy is only ever decided flat and after the cooldown, and comes with the engine's
      entry stop; a sell is only decided in position; both at the last close. */
  lemma SignalsFitPosition(e: Engine, m: Market, inPosition: bool, stop: Option<real>, bars: int)
    ensures var d := Decide(e, m, inPosition, stop, bars);
            (d.signal == BuySignal ==>
               !inPosition && bars >= e.CooldownBars() && m.frame != [] &&
               d.stop == Some(StopFor(Last(m.frame), e.InitialMult()))) &&
            (d.signal == SellSignal ==> inPosition && m.frame != []) &&
            (d.signal != HoldSignal ==> d.close == Last(m.frame).close)
  {
  }

  /** The dual-timeframe entry is a crossing: two bars in a row never both allow one,
      whatever the higher timeframe, the stops and the cooldown do in between. */
  lemma NoEntryAfterEntry(p: DualTimeframeParams, m: Market, next: Market, bar: Bar,
                          stop: Option<real>, bars: int, nextStop: Option<real>, nextBars: int)
    requires next.frame == m.frame + [bar]
    requires Decide(DualTimeframe(p), m, false, stop, bars).signal == BuySignal
    ensures Decide(DualTimeframe(p), next, false, nextStop, nextBars).signal == HoldSignal
  {
    assert next.frame[|next.frame|-2] == Last(m.frame);
  }

  // ---------------------------------------------------------------------------
  // No whipsaw
  // ---------------------------------------------------------------------------

  /** The stop the engine enters with, and the one it trails with, lie below the close. */
  predicate StopsBelowClose(e: Engine, bar: Bar) {
    StopFor(bar, e.InitialMult()) < bar.close && (e.Trails() ==> StopFor(bar, e.TrailingMult()) < bar.close)
  }

  /** They do whenever ATR and multipliers are positive. */
  lemma PositiveAtrSuffices(e: Engine, bar: Bar)
    requires bar.atr > 0.0 && e.InitialMult() > 0.0 && (e.Trails() ==> e.TrailingMult() > 0.0)
    ensures StopsBelowClose(e, bar)
  {
    PositiveDistance(bar, e.InitialMult());
    if e.Trails() {
      PositiveDistance(bar, e.TrailingMult());
    }
  }

  lemma PositiveDistance(bar: Bar, mult: real)
    requires bar.atr > 0.0 && mult > 0.0
    ensures StopFor(bar, mult) < bar.close
  {
  }

  /** Mean reversion enters far from where it exits. */
  predicate BandsOrdered(e: Engine, bar: Bar) {
    e.MeanReversion? ==> bar.bandLower < bar.bandMid && e.mr.rsiOversold < e.mr.rsiOverbought
  }

  /** No whipsaw: in every engine, the bar that yields a buy yields hold when it is decided
      again in position with the entry stop just set. */
  lemma NoWhipsaw(e: Engine, m: Market, stop: Option<real>, bars: int, barsLater: int)
    requires Decide(e, m, false, stop, bars).signal == BuySignal
    requires StopsBelowClose(e, Last(m.frame)) && BandsOrdered(e, Last(m.frame))
    ensures var d := Decide(e, m, false, stop, bars);
            Decide(e, m, true, StoredStop(e, d), barsLater).signal == HoldSignal
  {
  }

  /** In the terms of the engines' settings: with positive ATR and multipliers the bought bar is
      held, in mean reversion also with a positive band width and oversold below overbought. */
  lemma PositiveSettingsHold(e: Engine, m: Market, stop: Option<real>, bars: int, barsLater: int)
    requires Decide(e, m, false, stop, bars).signal == BuySignal
    requires Last(m.frame).atr > 0.0 && e.InitialMult() > 0.0 && (e.Trails() ==> e.TrailingMult() > 0.0)
    requires BandsOrdered(e, Last(m.frame))
    ensures var d := Decide(e, m, false, stop, bars);
            Decide(e, m, true, StoredStop(e, d), barsLater).signal == HoldSignal
  {
    PositiveAtrSuffices(e, Last(m.frame));
    NoWhipsaw(e, m, stop, bars, barsLater);
  }

  /** For the trailing engines the condition on the stops is exact: with a positive entry
      stop, the bought bar is held if and only if both stops lie below the close. */
  lemma WhipsawIff(e: Engine, m: Market, stop: Option<real>, bars: int, barsLater: int)
    requires e.Trails() && Decide(e, m, false, stop, bars).signal == BuySignal
    requires Decide(e, m, false, stop, bars).stop.value > 0.0
    ensures var d := Decide(e, m, false, stop, bars);
            Decide(e, m, true, d.stop, barsLater).signal == HoldSignal <==> StopsBelowClose(e, Last(m.frame))
  {
  }

  // ---------------------------------------------------------------------------
  // The trailing stop over whole holding periods
  // ---------------------------------------------------------------------------

  /** Where a trailing engine would put the stop for one bar. */
  function Candidate(e: Engine, m: Market): real
    requires e.Trails() && m.frame != []
  {
    StopFor(Last(m.frame), e.TrailingMult())
  }

  /** The frame is long enough for the engine to look at its last bar. */
  predicate Readable(e: Engine, m: Market) {
    |m.frame| >= (if e.DualTimeframe? then 2 else 1)
  }

  predicate AllReadable(e: Engine, ms: seq<Market>) {
    forall i :: 0 <= i < |ms| ==> Readable(e, ms[i])
  }

  /** The stop stored after a holding period: every bar is decided in position with the
      stop the previous one left. */
  function HeldStop(e: Engine, ms: seq<Market>, stop: Option<real>): Option<real>
    decreases |ms|
  {
    if ms == [] then stop else
      var n := |ms| - 1;
      StoredStop(e, Decide(e, ms[n], true, HeldStop(e, ms[..n], stop), 0))
  }

  /** The highest of the starting stop and all candidate stops. */
  function HighestCandidate(e: Engine, ms: seq<Market>, start: real): real
    requires e.Trails() && AllReadable(e, ms)
  {
    if ms == [] then start else
      var n := |ms| - 1;
      Max(HighestCandidate(e, ms[..n], start), Candidate(e, ms[n]))
  }

  lemma {:induction false} HighestIsUpperBound(e: Engine, ms: seq<Market>, start: real, i: nat)
    requires e.Trails() && AllReadable(e, ms) && i < |ms|
    ensures HighestCandidate(e, ms, start) >= Candidate(e, ms[i]) && HighestCandidate(e, ms, start) >= start
    decreases |ms|
  {
    var n := |ms| - 1;
    if i < n {
      HighestIsUpperBound(e, ms[..n], start, i);
    } else if n > 0 {
      HighestIsUpperBound(e, ms[..n], start, 0);
    }
  }

  lemma HighestAppends(e: Engine, ms: seq<Market>, m: Market, start: real)
    requires e.Trails() && AllReadable(e, ms) && Readable(e, m)
    ensures AllReadable(e, ms + [m])
    ensures HighestCandidate(e, ms + [m], start) == Max(HighestCandidate(e, ms, start), Candidate(e, m))
  {
    assert (ms + [m])[..|ms|] == ms;
  }

  lemma StopAfterBar(e: Engine, m: Market, stop: real, bars: int)
    requires e.Trails() && Readable(e, m) && stop > 0.0
    ensures var d := Decide(e, m, true, Some(stop), bars);
            d.stop == Some(Max(stop, Candidate(e, m))) && StoredStop(e, d) == d.stop &&
            (d.signal == HoldSignal ==> Last(m.frame).close > d.stop.value)
  {
  }

  /** In position, without a strategy switch and from a positive stop, the stored stop of
      every trailing engine is the maximum of the starting stop and of close minus
      multiplier times ATR over all bars since. It therefore never falls. */
  lemma {:induction false} StopIsRunningMaximum(e: Engine, ms: seq<Market>, start: real)
    requires e.Trails() && AllReadable(e, ms) && start > 0.0
    ensures HeldStop(e, ms, Some(start)) == Some(HighestCandidate(e, ms, start))
    ensures HighestCandidate(e, ms, start) >= start
    decreases |ms|
  {
    if ms == [] {
    } else {
      var n := |ms| - 1;
      StopIsRunningMaximum(e, ms[..n], start);
      StopAfterBar(e, ms[n], HighestCandidate(e, ms[..n], start), 0);
    }
  }

  lemma HeldCloseIsAboveStop(e: Engine, ms: seq<Market>, start: real, bars: int)
    requires e.Trails() && AllReadable(e, ms) && start > 0.0 && ms != []
    requires Decide(e, ms[|ms|-1], true, HeldStop(e, ms[..|ms|-1], Some(start)), bars).signal == HoldSignal
    ensures Last(ms[|ms|-1].frame).close > HighestCandidate(e, ms, start)
  {
    var n := |ms| - 1;
    StopIsRunningMaximum(e, ms[..n], start);
    StopAfterBar(e, ms[n], HighestCandidate(e, ms[..n], start), bars);
  }

  lemma FallBelowHighest(e: Engine, ms: seq<Market>, start: real, i: nat, close: real)
    requires e.Trails() && AllReadable(e, ms) && i < |ms|
    requires close > HighestCandidate(e, ms, start)
    ensures close > start && Last(ms[i].frame).close - close < Last(ms[i].frame).atr * e.TrailingMult()
  {
    HighestIsUpperBound(e, ms, start, i);
    assert close > Candidate(e, ms[i]);
  }

  /** As long as bar j is held, its close lies above the stop, so the fall from any earlier
      bar i of the holding period is smaller than multiplier times ATR at bar i. */
  lemma DrawdownIsBounded(e: Engine, ms: seq<Market>, start: real, i: nat, bars: int)
    requires e.Trails() && AllReadable(e, ms) && start > 0.0 && i < |ms|
    requires Decide(e, ms[|ms|-1], true, HeldStop(e, ms[..|ms|-1], Some(start)), bars).signal == HoldSignal
    ensures var closeI, closeJ := Last(ms[i].frame).close, Last(ms[|ms|-1].frame).close;
            closeJ > start && closeI - closeJ < Last(ms[i].frame).atr * e.TrailingMult()
  {
    HeldCloseIsAboveStop(e, ms, start, bars);
    FallBelowHighest(e, ms, start, i, Last(ms[|ms|-1].frame).close);
  }

  /** Without a positive stop the regime engine restarts from the candidate, so its stop can
      fall: in position it does not fall if and only if the old stop is positive or the
      candidate is no lower. */
  lemma RegimeStopRisesIff(p: RegimeTrendParams, m: Market, stop: real, bars: int)
    requires m.frame != []
    ensures RegimeTrendDecide(p, m.frame, true, Some(stop), bars).stop.value >= stop <==>
            stop > 0.0 || Candidate(RegimeTrend(p), m) >= stop
  {
  }

  /** The other trailing engines keep a negative stop, and lose only a zero one. */
  lemma TruthyStopRisesIff(e: Engine, m: Market, stop: real, bars: int)
    requires (e.DualTimeframe? || e.Breakout?) && Readable(e, m)
    ensures Decide(e, m, true, Some(stop), bars).stop.value >= stop <==>
            stop != 0.0 || Candidate(e, m) >= stop
  {
  }

  // ---------------------------------------------------------------------------
  // When the engines buy and sell
  // ---------------------------------------------------------------------------

  /** What an engine asks of the market for an entry. */
  ghost predicate Enters(e: Engine, m: Market)
    requires Readable(e, m)
  {
    var last := Last(m.frame);
    match e
    case RegimeTrend(p) => last.trendGap >= p.minTrendGap && last.close > last.emaFast
    case DualTimeframe(p) =>
      m.htfBullish && m.frame[|m.frame|-2].rsi <= p.rsiOversold < last.rsi && last.close > last.ema
    case Breakout(p) => last.close > last.priorHigh && last.volume >= last.volumeMa * p.volumeMult
    case MeanReversion(p) => last.rsi <= p.rsiOversold && last.close <= last.bandLower
  }

  /** Out of position a bar is bought exactly when the cooldown is over and the engine's
      entry condition holds on it, whatever stop is left over; it is never sold. */
  lemma EntryIff(e: Engine, m: Market, stop: Option<real>, bars: int)
    requires Readable(e, m)
    ensures var d := Decide(e, m, false, stop, bars);
            d.signal != SellSignal &&
            (d.signal == BuySignal <==> bars >= e.CooldownBars() && Enters(e, m))
  {
  }

  /** The price lies at least the trailing distance of a bar below that bar's close. */
  ghost predicate FellFrom(e: Engine, close: real, bar: Bar)
    requires e.Trails()
  {
    close <= bar.close - bar.atr * e.TrailingMult()
  }

  /** The close lies on or below the starting stop or the trailing distance of some bar. */
  ghost predicate Undercuts(e: Engine, close: real, ms: seq<Market>, start: real)
    requires e.Trails() && AllReadable(e, ms)
  {
    close <= start || exists i :: 0 <= i < |ms| && FellFrom(e, close, Last(ms[i].frame))
  }

  /** The highest candidate is the starting stop or the candidate of some bar. */
  lemma {:induction false} HighestIsReached(e: Engine, ms: seq<Market>, start: real) returns (i: nat)
    requires e.Trails() && AllReadable(e, ms)
    ensures i <= |ms| && HighestCandidate(e, ms, start) == if i == |ms| then start else Candidate(e, ms[i])
    decreases |ms|
  {
    i := |ms|;
    if ms != [] {
      var n := |ms| - 1;
      i := HighestIsReached(e, ms[..n], start);
      if HighestCandidate(e, ms[..n], start) < Candidate(e, ms[n]) {
        i := n;
      } else if i == n {
        i := |ms|;
      }
    }
  }

  lemma FellFromIff(e: Engine, close: real, m: Market)
    requires e.Trails() && Readable(e, m)
    ensures FellFrom(e, close, Last(m.frame)) <==> close <= Candidate(e, m)
  {
  }

  lemma UndercutReachesStop(e: Engine, close: real, ms: seq<Market>, start: real)
    requires e.Trails() && AllReadable(e, ms) && Undercuts(e, close, ms, start)
    ensures close <= HighestCandidate(e, ms, start)
  {
    if close <= start {
      if ms != [] { HighestIsUpperBound(e, ms, start, 0); }
    } else {
      var i :| 0 <= i < |ms| && FellFrom(e, close, Last(ms[i].frame));
      FellFromIff(e, close, ms[i]);
      HighestIsUpperBound(e, ms, start, i);
    }
  }

  lemma UndercutsIff(e: Engine, close: real, ms: seq<Market>, start: real)
    requires e.Trails() && AllReadable(e, ms)
    ensures Undercuts(e, close, ms, start) <==> close <= HighestCandidate(e, ms, start)
  {
    if Undercuts(e, close, ms, start) {
      UndercutReachesStop(e, close, ms, start);
    } else {
      var i := HighestIsReached(e, ms, start);
      if i < |ms| { FellFromIff(e, close, ms[i]); }
    }
  }

  /** An engine's own reason to leave a position, apart from its stop. */
  ghost predicate LosesTrend(e: Engine, m: Market)
    requires e.Trails() && Readable(e, m)
  {
    (e.RegimeTrend? && Last(m.frame).trendGap < e.rt.minTrendGap) || (e.DualTimeframe? && !m.htfBullish)
  }

  lemma ExitAtBar(e: Engine, m: Market, stop: real, bars: int)
    requires e.Trails() && Readable(e, m) && stop > 0.0
    ensures var d := Decide(e, m, true, Some(stop), bars);
            var stopped := Last(m.frame).close <= Max(stop, Candidate(e, m));
            d.signal != BuySignal && (d.reason == TrailingStopHit <==> stopped) &&
            (d.signal == SellSignal <==> stopped || LosesTrend(e, m))
  {
  }

  /** After any held stretch, a trailing engine sells the next bar exactly when its close
      is on or below the entry stop or the trailing distance of any bar of the stretch, itself
      included, or when the engine's own exit applies: a faded trend or a turned higher
      timeframe. It never buys in position. */
  lemma TrailingExitIff(e: Engine, ms: seq<Market>, m: Market, start: real, bars: int)
    requires e.Trails() && AllReadable(e, ms) && Readable(e, m) && start > 0.0
    ensures AllReadable(e, ms + [m])
    ensures var d := Decide(e, m, true, HeldStop(e, ms, Some(start)), bars);
            var stopped := Undercuts(e, Last(m.frame).close, ms + [m], start);
            d.signal != BuySignal && (d.reason == TrailingStopHit <==> stopped) &&
            (d.signal == SellSignal <==> stopped || LosesTrend(e, m))
  {
    StopIsRunningMaximum(e, ms, start);
    ExitAtBar(e, m, HighestCandidate(e, ms, start), bars);
    HighestAppends(e, ms, m, start);
    UndercutsIff(e, Last(m.frame).close, ms + [m], start);
  }

  lemma {:induction false} MeanReversionKeepsStop(e: Engine, ms: seq<Market>, stop: Option<real>)
    requires e.MeanReversion?
    ensures HeldStop(e, ms, stop) == stop
    decreases |ms|
  {
    if ms == [] {
    } else {
      MeanReversionKeepsStop(e, ms[..|ms|-1], stop);
    }
  }

  /** Mean reversion never moves its stop: after any held stretch it sells exactly at or
      below the entry stop, when overbought, or back at the middle of the band. */
  lemma MeanReversionExitIff(e: Engine, ms: seq<Market>, m: Market, start: real, bars: int)
    requires e.MeanReversion? && Readable(e, m) && start > 0.0
    ensures var d := Decide(e, m, true, HeldStop(e, ms, Some(start)), bars);
            var last := Last(m.frame);
            d.signal != BuySignal && d.stop == Some(start) &&
            (d.signal == SellSignal <==>
             last.close <= start || last.rsi >= e.mr.rsiOverbought || last.close >= last.bandMid)
  {
    MeanReversionKeepsStop(e, ms, Some(start));
  }

  /** Every decision on a readable frame gives its true reason. */
  lemma ReasonTells(e: Engine, m: Market, inPosition: bool, stop: Option<real>, bars: int)
    requires Readable(e, m)
    ensures var d := Decide(e, m, inPosition, stop, bars);
            var last := Last(m.frame);
            match d.reason
            case InsufficientData => false
            case Cooldown => d.signal == HoldSignal && !inPosition && bars < e.CooldownBars()
            case TrailingStopHit => d.signal == SellSignal && e.Trails() && last.close <= d.stop.value
            case RegimeExit => d.signal == SellSignal && e.RegimeTrend? && LosesTrend(e, m)
            case HtfReversed => d.signal == SellSignal && e.DualTimeframe? && LosesTrend(e, m)
            case StopHit => d.signal == SellSignal && e.MeanReversion? && last.close <= stop.value
            case RsiOverbought => d.signal == SellSignal && e.MeanReversion? && last.rsi >= e.mr.rsiOverbought
            case BandMidReached => d.signal == SellSignal && e.MeanReversion? && last.close >= last.bandMid
            case InPositionHold => d.signal == HoldSignal && inPosition
            case HtfInsufficient => d.signal == HoldSignal && !m.htfBullish && !m.htfSufficient
            case NoHtfBull => d.signal == HoldSignal && !m.htfBullish && m.htfSufficient
            case BreakoutNoVolume =>
              d.signal == HoldSignal && last.close > last.priorHigh && last.volume < last.volumeMa * e.bo.volumeMult
            case NoBreakout => d.signal == HoldSignal && last.close <= last.priorHigh
            case LtfNoEntry => d.signal == HoldSignal && m.htfBullish && !Enters(e, m)
            case NoEntry => d.signal == HoldSignal && !Enters(e, m)
            case BullishBreakout => d.signal == BuySignal && e.RegimeTrend?
            case RsiRecovery => d.signal == BuySignal && e.DualTimeframe?
            case BreakoutConfirmed => d.signal == BuySignal && e.Breakout?
            case OversoldAtBand => d.signal == BuySignal && e.MeanReversion?
  {
  }
}
