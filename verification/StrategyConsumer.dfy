/**
 The strategy consumer: a loop that may swap its engine on request, decides once per
 tick, may swap the engine again when the market regime suggests another one, and then
 publishes a signal. `Iterate` is one turn of the loop on values; the class below does the
 same on its fields.
 */
module StrategyConsumers {
  import opened Prelude
  import opened SignalEngines
  import TradeLedger
  import RegimeClassifier

  datatype Name = RegimeTrendName | DualTimeframeName | BreakoutName | MeanReversionName | FundingArbName

  type Regime = RegimeClassifier.Regime

  /** The strategy an operator asked for: an unknown text has no name, and a text with
      surrounding blanks never equals the current strategy's name. */
  datatype Request = NoRequest | Asked(name: Option<Name>, padded: bool)

  /** Where an exception ends the handling of a tick. */
  datatype Fault = NoFault | AtDecide | AtEnabledRead | AtSwitchRead | AtSwitchWrite | AtPublish

  /** What one tick finds: candles, regime, the two flags, and the fresh signal id. */
  datatype Tick = Tick(
    enoughRows: bool, regime: Option<Regime>, frameReady: bool, market: Market,
    enabled: bool, autoSwitch: bool, fault: Fault, sigId: string)

  /** One turn of the loop; no tick when the queue stayed empty. */
  datatype Turn = Turn(request: Request, tick: Option<Tick>)

  datatype Message = Message(strategy: Name, side: TradeLedger.Side, sigId: string, price: real)

  /** What a turn did: whether a decision was made, by an engine with which cooldown,
      which signal the state changed for, and whether its message reached the queue. */
  datatype Outcome = Outcome(decided: bool, cooldown: int, issued: Option<Message>, delivered: bool)

  const QUIET := Outcome(false, 0, None, false)

  datatype Consumer = Consumer(
    symbol: string, name: Name, engine: Engine, inPosition: bool, stop: Option<real>,
    bars: int, lastRegime: Option<Regime>)

  /** Default parameters, with the built-in presets for the two faster coins. */
  function RsiOversoldPreset(symbol: string): real {
    if symbol == "XRPUSDT" then 35.0 else if symbol == "SOLUSDT" then 38.0 else 40.0
  }

  function BuildEngine(name: Name, symbol: string): Option<Engine> {
    match name
    case RegimeTrendName => Some(RegimeTrend(RegimeTrendParams(0.001, 2.5, 3.0, 2)))
    case DualTimeframeName => Some(DualTimeframe(DualTimeframeParams(RsiOversoldPreset(symbol), 2.0, 2.5, 2)))
    case BreakoutName => Some(Breakout(BreakoutParams(1.5, 2.0, 2.5, 3)))
    case MeanReversionName => Some(MeanReversion(MeanReversionParams(30.0, 65.0, 1.5, 2)))
    case FundingArbName => None
  }

  /** `_check_strategy_change`; the flag tells that it raised. The name is replaced before
      the engine is built, and there is no engine for funding arbitrage. */
  function ChangeStrategy(c: Consumer, request: Request): (Consumer, bool) {
    match request
    case NoRequest => (c, false)
    case Asked(None, _) => (c, false)
    case Asked(Some(name), padded) =>
      if name == c.name && !padded then (c, false) else
      match BuildEngine(name, c.symbol)
      case None => (c.(name := name), true)
      case Some(engine) => (c.(name := name, engine := engine, stop := None), false)
  }

  /** Whether the code path chosen by the name can call the engine that is loaded. */
  predicate EngineAnswers(c: Consumer) {
    match c.name
    case DualTimeframeName => c.engine.DualTimeframe?
    case MeanReversionName => c.engine.MeanReversion?
    case _ => c.engine.RegimeTrend? || c.engine.Breakout?
  }

  /** How an engine decides; the runs below are about any decider, the system uses `Decide`. */
  type Decider = (Engine, Market, bool, Option<real>, int) -> Decision

  datatype Decided = Nothing | Raises | Made(decision: Decision)

  function SeeRegime(c: Consumer, t: Tick): Consumer {
    if t.enoughRows && t.regime.Some? then c.(lastRegime := t.regime) else c
  }

  function DecideTick(decide: Decider, c: Consumer, t: Tick): Decided {
    if t.fault == AtDecide then Raises
    else if !t.enoughRows then Nothing
    else if c.name == FundingArbName && c.engine.DualTimeframe? then Raises
    else if !t.frameReady then Nothing
    else if !EngineAnswers(c) then Raises
    else Made(decide(c.engine, t.market, c.inPosition, c.stop, c.bars))
  }

  /** The strategy that suits a regime; none for falling and volatile markets. */
  function Suggested(regime: Regime): Option<Name> {
    match regime
    case TrendingUp => Some(RegimeTrendName)
    case Range => Some(MeanReversionName)
    case _ => None
  }

  predicate Switches(c: Consumer, t: Tick) {
    c.lastRegime.Some? && !c.inPosition && t.autoSwitch &&
    Suggested(c.lastRegime.value).Some? && Suggested(c.lastRegime.value) != Some(c.name)
  }

  function AutoSwitch(c: Consumer, t: Tick): Consumer {
    if !Switches(c, t) then c else
      var name := Suggested(c.lastRegime.value).value;
      c.(name := name, engine := BuildEngine(name, c.symbol).value, stop := None)
  }

  /** The message of a decision that changes the position, if trading is enabled. */
  function ToPublish(c: Consumer, t: Tick, d: Decision): Option<Message> {
    if !t.enabled then None
    else if d.signal == BuySignal && !c.inPosition then Some(Message(c.name, TradeLedger.Buy, t.sigId, d.close))
    else if d.signal == SellSignal && c.inPosition then Some(Message(c.name, TradeLedger.Sell, t.sigId, d.close))
    else None
  }

  /** From the decision on: count the bar, keep the stop, maybe switch, maybe publish. */
  function ActOn(c: Consumer, t: Tick, d: Decision): (Consumer, Outcome) {
    var cooldown := c.engine.CooldownBars();
    var c1 := c.(bars := c.bars + 1, stop := StoredStop(c.engine, d));
    if t.fault == AtEnabledRead then (c1, Outcome(true, cooldown, None, false)) else
    if t.fault == AtSwitchRead && c1.lastRegime.Some? && !c1.inPosition
    then (c1, Outcome(true, cooldown, None, false)) else
    var c2 := AutoSwitch(c1, t);
    if t.fault == AtSwitchWrite && Switches(c1, t) then (c2, Outcome(true, cooldown, None, false)) else
    match ToPublish(c2, t, d)
    case None => (c2, Outcome(true, cooldown, None, false))
    case Some(m) =>
      (c2.(inPosition := m.side.Buy?, bars := 0), Outcome(true, cooldown, Some(m), t.fault != AtPublish))
  }

  function ProcessTick(decide: Decider, c: Consumer, t: Tick): (Consumer, Outcome) {
    var c1 := if t.fault == AtDecide then c else SeeRegime(c, t);
    match DecideTick(decide, c1, t)
    case Made(d) => ActOn(c1, t, d)
    case _ => (c1, QUIET)
  }

  function Iterate(decide: Decider, c: Consumer, turn: Turn): (Consumer, Outcome) {
    var (c1, raised) := ChangeStrategy(c, turn.request);
    if raised || turn.tick.None? then (c1, QUIET) else ProcessTick(decide, c1, turn.tick.value)
  }

  // ---------------------------------------------------------------------------
  // Runs
  // ---------------------------------------------------------------------------

  function Run(decide: Decider, c: Consumer, turns: seq<Turn>): Consumer {
    if turns == [] then c else Iterate(decide, Run(decide, c, turns[..|turns|-1]), turns[|turns|-1]).0
  }

  function Trace(decide: Decider, c: Consumer, turns: seq<Turn>): (r: seq<Outcome>)
    ensures |r| == |turns|
  {
    if turns == [] then [] else
      var n := |turns| - 1;
      Trace(decide, c, turns[..n]) + [Iterate(decide, Run(decide, c, turns[..n]), turns[n]).1]
  }

  /** The sides of all signals issued, in order. */
  function Issued(trace: seq<Outcome>): seq<TradeLedger.Side> {
    if trace == [] then [] else
      var o := trace[|trace|-1];
      Issued(trace[..|trace|-1]) + (if o.issued.Some? then [o.issued.value.side] else [])
  }

  function Delivered(trace: seq<Outcome>): seq<TradeLedger.Side> {
    if trace == [] then [] else
      var o := trace[|trace|-1];
      Delivered(trace[..|trace|-1]) + (if o.issued.Some? && o.delivered then [o.issued.value.side] else [])
  }

  /** No two neighbouring sides are equal, and the first is a sell exactly when a position
      was held before. */
  predicate Alternates(sides: seq<TradeLedger.Side>, inPosition: bool) {
    (sides != [] ==> sides[0].Sell? == inPosition) &&
    (forall i :: 0 < i < |sides| ==> sides[i] != sides[i-1])
  }

  /** The position flag after the given sides. */
  function FlagAfter(sides: seq<TradeLedger.Side>, inPosition: bool): bool {
    if sides == [] then inPosition else sides[|sides|-1].Buy?
  }

  /** A turn issues a buy only out of position and a sell only in position, and the
      position flag then follows; without a signal the flag stays. */
  lemma TurnFlips(decide: Decider, c: Consumer, turn: Turn)
    ensures var (c', o) := Iterate(decide, c, turn);
            (o.issued.None? ==> c'.inPosition == c.inPosition) &&
            (o.issued.Some? ==> c'.inPosition == !c.inPosition == o.issued.value.side.Buy?)
  {
  }

  /** The sides issued over a run grow by what its last turn issues. */
  lemma IssuedGrows(decide: Decider, c: Consumer, turns: seq<Turn>)
    requires turns != []
    ensures var n := |turns| - 1;
            var o := Trace(decide, c, turns)[n];
            Issued(Trace(decide, c, turns)) ==
            Issued(Trace(decide, c, turns[..n])) + (if o.issued.Some? then [o.issued.value.side] else [])
  {
    var n := |turns| - 1;
    assert Trace(decide, c, turns)[..n] == Trace(decide, c, turns[..n]);
  }

  lemma AlternationGrows(sides: seq<TradeLedger.Side>, inPosition: bool, side: TradeLedger.Side)
    requires Alternates(sides, inPosition) && side.Sell? == FlagAfter(sides, inPosition)
    ensures Alternates(sides + [side], inPosition) && FlagAfter(sides + [side], inPosition) == side.Buy?
  {
  }

  /** Over every run, with engine changes by request and by regime, and with exceptions
      anywhere, issued signals strictly alternate, consistently with the position flag the
      consumer started from, and the flag always tells the side of the last one. */
  lemma {:induction false} SignalsAlternate(decide: Decider, c: Consumer, turns: seq<Turn>)
    ensures var sides := Issued(Trace(decide, c, turns));
            Alternates(sides, c.inPosition) && Run(decide, c, turns).inPosition == FlagAfter(sides, c.inPosition)
    decreases |turns|
  {
    if turns == [] {
    } else {
      var n := |turns| - 1;
      SignalsAlternate(decide, c, turns[..n]);
      IssuedGrows(decide, c, turns);
      TurnFlips(decide, Run(decide, c, turns[..n]), turns[n]);
      var o := Trace(decide, c, turns)[n];
      assert o == Iterate(decide, Run(decide, c, turns[..n]), turns[n]).1;
      var before := Issued(Trace(decide, c, turns[..n]));
      if o.issued.Some? {
        AlternationGrows(before, c.inPosition, o.issued.value.side);
      } else {
        assert before + [] == before;
      }
    }
  }

  /** If no push to the queue fails, the delivered signals are the issued ones. */
  lemma {:induction false} NothingLost(decide: Decider, c: Consumer, turns: seq<Turn>)
    requires forall i :: 0 <= i < |turns| && turns[i].tick.Some? ==> turns[i].tick.value.fault != AtPublish
    ensures Delivered(Trace(decide, c, turns)) == Issued(Trace(decide, c, turns))
    decreases |turns|
  {
    if turns == [] {
    } else {
      var n := |turns| - 1;
      NothingLost(decide, c, turns[..n]);
      assert Trace(decide, c, turns)[..n] == Trace(decide, c, turns[..n]);
    }
  }

  /** What an issued signal says: the close of the bar it was decided on, the tick's fresh
      id, and the strategy in force when it is published. */
  lemma IssuedCarriesLastClose(c: Consumer, turn: Turn)
    requires Iterate(Decide, c, turn).1.issued.Some?
    ensures var (c', o) := Iterate(Decide, c, turn);
            var t := turn.tick.value;
            t.market.frame != [] &&
            o.issued.value.price == Last(t.market.frame).close &&
            o.issued.value.sigId == t.sigId && o.issued.value.strategy == c'.name
  {
    var c1 := SeeRegime(ChangeStrategy(c, turn.request).0, turn.tick.value);
    SignalsFitPosition(c1.engine, turn.tick.value.market, c1.inPosition, c1.stop, c1.bars);
  }

  // ---------------------------------------------------------------------------
  // Cooldown
  // ---------------------------------------------------------------------------

  /** Decided ticks since the last issued signal, or since the start on top of `bars`. */
  function BarsAfter(bars: int, trace: seq<Outcome>): int {
    if trace == [] then bars else
      var o := trace[|trace|-1];
      if o.issued.Some? then 0
      else BarsAfter(bars, trace[..|trace|-1]) + (if o.decided then 1 else 0)
  }

  function DecidedCount(trace: seq<Outcome>): nat {
    if trace == [] then 0 else
      DecidedCount(trace[..|trace|-1]) + (if trace[|trace|-1].decided then 1 else 0)
  }

  lemma TurnCounts(decide: Decider, c: Consumer, turn: Turn)
    ensures var (c', o) := Iterate(decide, c, turn);
            c'.bars == if o.issued.Some? then 0 else if o.decided then c.bars + 1 else c.bars
  {
  }

  lemma {:induction false} BarsAreCounted(decide: Decider, c: Consumer, turns: seq<Turn>)
    ensures Run(decide, c, turns).bars == BarsAfter(c.bars, Trace(decide, c, turns))
    decreases |turns|
  {
    if turns == [] {
    } else {
      var n := |turns| - 1;
      BarsAreCounted(decide, c, turns[..n]);
      TurnCounts(decide, Run(decide, c, turns[..n]), turns[n]);
      var trace := Trace(decide, c, turns);
      assert trace[..n] == Trace(decide, c, turns[..n]);
      assert trace[n] == Iterate(decide, Run(decide, c, turns[..n]), turns[n]).1;
    }
  }

  lemma {:induction false} CountSinceSignal(bars: int, trace: seq<Outcome>, i: nat)
    requires i < |trace| && trace[i].issued.Some?
    requires forall k :: i < k < |trace| ==> trace[k].issued.None?
    ensures BarsAfter(bars, trace) == DecidedCount(trace[i+1..])
    decreases |trace|
  {
    var n := |trace| - 1;
    if i == n {
      assert trace[i+1..] == [];
    } else {
      CountSinceSignal(bars, trace[..n], i);
      assert trace[i+1..][..|trace[i+1..]|-1] == trace[..n][i+1..];
    }
  }

  lemma {:induction false} TraceAt(decide: Decider, c: Consumer, turns: seq<Turn>, j: nat)
    requires j < |turns|
    ensures Trace(decide, c, turns)[j] == Iterate(decide, Run(decide, c, turns[..j]), turns[j]).1
    ensures Trace(decide, c, turns)[..j] == Trace(decide, c, turns[..j])
    decreases |turns|
  {
    var n := |turns| - 1;
    if j < n {
      TraceAt(decide, c, turns[..n], j);
      assert turns[..n][..j] == turns[..j];
      assert Trace(decide, c, turns)[..j] == Trace(decide, c, turns[..n])[..j];
    } else {
      assert Trace(decide, c, turns)[..n] == Trace(decide, c, turns[..n]);
    }
  }

  /** The decider never buys before its engine's cooldown is over. */
  ghost predicate WaitsForCooldown(decide: Decider) {
    forall e, m, inPosition, stop, bars ::
      decide(e, m, inPosition, stop, bars).signal == BuySignal ==> bars >= e.CooldownBars()
  }

  lemma EnginesWait()
    ensures WaitsForCooldown(Decide)
  {
    forall e, m, inPosition, stop, bars
      ensures Decide(e, m, inPosition, stop, bars).signal == BuySignal ==> bars >= e.CooldownBars()
    {
      SignalsFitPosition(e, m, inPosition, stop, bars);
    }
  }

  /** A turn that issues a buy saw at least the deciding engine's cooldown. */
  lemma BuyAfterCooldown(decide: Decider, c: Consumer, turn: Turn)
    requires WaitsForCooldown(decide)
    requires var o := Iterate(decide, c, turn).1; o.issued.Some? && o.issued.value.side.Buy?
    ensures c.bars >= Iterate(decide, c, turn).1.cooldown
  {
  }

  lemma DeciderKeepsCooldown(decide: Decider, c: Consumer, turns: seq<Turn>, i: nat, j: nat)
    requires WaitsForCooldown(decide) && i < j < |turns|
    requires var trace := Trace(decide, c, turns);
             trace[i].issued.Some? && trace[j].issued.Some? && trace[j].issued.value.side.Buy? &&
             forall k :: i < k < j ==> trace[k].issued.None?
    ensures DecidedCount(Trace(decide, c, turns)[i+1..j]) >= Trace(decide, c, turns)[j].cooldown
  {
    var trace := Trace(decide, c, turns);
    TraceAt(decide, c, turns, j);
    BarsAreCounted(decide, c, turns[..j]);
    BuyAfterCooldown(decide, Run(decide, c, turns[..j]), turns[j]);
    CountSinceSignal(c.bars, trace[..j], i);
    assert trace[..j][i+1..] == trace[i+1..j];
  }

  /** Between an issued signal (in particular a sell) and the next buy lie at least
      cooldown-many decided ticks, by the cooldown of the engine that decides the buy,
      whatever engines were loaded in between. */
  lemma CooldownIsKept(c: Consumer, turns: seq<Turn>, i: nat, j: nat)
    requires i < j < |turns|
    requires var trace := Trace(Decide, c, turns);
             trace[i].issued.Some? && trace[j].issued.Some? && trace[j].issued.value.side.Buy? &&
             forall k :: i < k < j ==> trace[k].issued.None?
    ensures DecidedCount(Trace(Decide, c, turns)[i+1..j]) >= Trace(Decide, c, turns)[j].cooldown
  {
    EnginesWait();
    DeciderKeepsCooldown(Decide, c, turns, i, j);
  }

  // ---------------------------------------------------------------------------
  // The stop of a holding period
  // ---------------------------------------------------------------------------

  /** A pending request that changes nothing for a consumer of this name. */
  predicate KeepsStrategy(request: Request, name: Name) {
    request.NoRequest? || request.name.None? || (request.name == Some(name) && !request.padded)
  }

  /** The turn showed the engine a bar. */
  predicate Shows(c: Consumer, turn: Turn) {
    Iterate(Decide, c, turn).1.decided && turn.tick.Some? && Readable(c.engine, turn.tick.value.market)
  }

  /** The markets of the turns that showed the engine a bar, in order. */
  function MarketsShown(c: Consumer, turns: seq<Turn>): (r: seq<Market>)
    ensures forall i :: 0 <= i < |r| ==> r[i].frame != []
  {
    if turns == [] then [] else
      var n := |turns| - 1;
      MarketsShown(c, turns[..n]) +
      (if Shows(Run(Decide, c, turns[..n]), turns[n]) then [turns[n].tick.value.market] else [])
  }

  lemma HeldTurn(c: Consumer, turn: Turn)
    requires c.inPosition && c.engine.Trails() && c.stop.Some? && c.stop.value > 0.0
    requires KeepsStrategy(turn.request, c.name) && Iterate(Decide, c, turn).1.issued.None?
    ensures var c' := Iterate(Decide, c, turn).0;
            c'.inPosition && c'.engine == c.engine && c'.name == c.name &&
            c'.stop == (if Shows(c, turn) then Some(Max(c.stop.value, Candidate(c.engine, turn.tick.value.market)))
                        else c.stop)
  {
    if Shows(c, turn) {
      StopAfterBar(c.engine, turn.tick.value.market, c.stop.value, c.bars);
    }
  }

  /** Through every stretch of the consumer's loop in which it holds, with ticks that cannot be
      decided, errors and requests that change nothing, the stored stop of a trailing engine is
      the maximum of the stop it started from and the candidates of all bars shown. */
  lemma {:induction false} HeldStopIsRunningMaximum(c: Consumer, turns: seq<Turn>)
    requires c.inPosition && c.engine.Trails() && c.stop.Some? && c.stop.value > 0.0
    requires forall i :: 0 <= i < |turns| ==> KeepsStrategy(turns[i].request, c.name)
    requires forall i :: 0 <= i < |turns| ==> Trace(Decide, c, turns)[i].issued.None?
    ensures var c', ms := Run(Decide, c, turns), MarketsShown(c, turns);
            c'.inPosition && c'.engine == c.engine && c'.name == c.name && AllReadable(c.engine, ms) &&
            c'.stop == Some(HighestCandidate(c.engine, ms, c.stop.value)) && c'.stop.value >= c.stop.value
    decreases |turns|
  {
    if turns == [] {
    } else {
      var n := |turns| - 1;
      TraceAt(Decide, c, turns, n);
      assert forall i :: 0 <= i < n ==> Trace(Decide, c, turns[..n])[i] == Trace(Decide, c, turns)[i];
      HeldStopIsRunningMaximum(c, turns[..n]);
      var before, ms := Run(Decide, c, turns[..n]), MarketsShown(c, turns[..n]);
      HeldTurn(before, turns[n]);
      if Shows(before, turns[n]) {
        HighestAppends(c.engine, ms, turns[n].tick.value.market, c.stop.value);
      } else {
        assert MarketsShown(c, turns) == ms + [] == ms;
      }
    }
  }

  lemma UnissuedIsHeld(c: Consumer, turn: Turn)
    requires c.inPosition && c.engine.Trails() && c.stop.Some? && c.stop.value > 0.0
    requires KeepsStrategy(turn.request, c.name) && Shows(c, turn) && Iterate(Decide, c, turn).1.issued.None?
    requires turn.tick.value.enabled && turn.tick.value.fault != AtEnabledRead
    ensures Decide(c.engine, turn.tick.value.market, true, c.stop, c.bars).signal == HoldSignal
  {
    SignalsFitPosition(c.engine, turn.tick.value.market, true, c.stop, c.bars);
  }

  lemma HighestGrows(e: Engine, ms: seq<Market>, m: Market, start: real, close: real)
    requires e.Trails() && AllReadable(e, ms) && Readable(e, m)
    requires close > Max(HighestCandidate(e, ms, start), Candidate(e, m))
    ensures AllReadable(e, ms + [m]) && close > HighestCandidate(e, ms + [m], start)
  {
    HighestAppends(e, ms, m, start);
  }

  /** A stretch in which the consumer holds, from a positive stop of a trailing engine. */
  ghost predicate Holding(c: Consumer, turns: seq<Turn>) {
    c.inPosition && c.engine.Trails() && c.stop.Some? && c.stop.value > 0.0 &&
    (forall j :: 0 <= j < |turns| ==> KeepsStrategy(turns[j].request, c.name)) &&
    (forall j :: 0 <= j < |turns| ==> Trace(Decide, c, turns)[j].issued.None?)
  }

  /** Its last turn showed the engine a bar, and a sell would have been issued. */
  predicate EndsOnBar(c: Consumer, turns: seq<Turn>) {
    turns != [] && Shows(Run(Decide, c, turns[..|turns|-1]), turns[|turns|-1]) &&
    turns[|turns|-1].tick.value.enabled && turns[|turns|-1].tick.value.fault != AtEnabledRead
  }

  lemma {:induction false} HoldingBefore(c: Consumer, turns: seq<Turn>)
    requires Holding(c, turns) && turns != []
    ensures Holding(c, turns[..|turns|-1])
    ensures Iterate(Decide, Run(Decide, c, turns[..|turns|-1]), turns[|turns|-1]).1.issued.None?
  {
    var n := |turns| - 1;
    TraceAt(Decide, c, turns, n);
    assert forall j :: 0 <= j < n ==> Trace(Decide, c, turns[..n])[j] == Trace(Decide, c, turns)[j];
  }

  lemma HeldBarIsAboveStop(c: Consumer, turn: Turn)
    requires c.inPosition && c.engine.Trails() && c.stop.Some? && c.stop.value > 0.0
    requires KeepsStrategy(turn.request, c.name) && Shows(c, turn) && Iterate(Decide, c, turn).1.issued.None?
    requires turn.tick.value.enabled && turn.tick.value.fault != AtEnabledRead
    ensures var m := turn.tick.value.market;
            Last(m.frame).close > Max(c.stop.value, Candidate(c.engine, m))
  {
    UnissuedIsHeld(c, turn);
    StopAfterBar(c.engine, turn.tick.value.market, c.stop.value, c.bars);
  }

  lemma {:induction false} HeldCloseIsAboveAll(c: Consumer, turns: seq<Turn>)
    requires Holding(c, turns) && EndsOnBar(c, turns)
    ensures AllReadable(c.engine, MarketsShown(c, turns))
    ensures Last(turns[|turns|-1].tick.value.market.frame).close >
            HighestCandidate(c.engine, MarketsShown(c, turns), c.stop.value)
  {
    var n := |turns| - 1;
    var m := turns[n].tick.value.market;
    HoldingBefore(c, turns);
    HeldStopIsRunningMaximum(c, turns[..n]);
    HeldBarIsAboveStop(Run(Decide, c, turns[..n]), turns[n]);
    HighestGrows(c.engine, MarketsShown(c, turns[..n]), m, c.stop.value, Last(m.frame).close);
  }

  /** A bar that the consumer holds through, with trading enabled, closes above the stop it
      started from, and lies less than multiplier times ATR of any earlier bar below that bar. */
  lemma {:induction false} HeldDrawdownIsBounded(c: Consumer, turns: seq<Turn>, i: nat)
    requires Holding(c, turns) && EndsOnBar(c, turns) && i < |MarketsShown(c, turns)|
    ensures var last := Last(turns[|turns|-1].tick.value.market.frame).close;
            var bar := Last(MarketsShown(c, turns)[i].frame);
            last > c.stop.value && bar.close - last < bar.atr * c.engine.TrailingMult()
  {
    HeldCloseIsAboveAll(c, turns);
    FallBelowHighest(c.engine, MarketsShown(c, turns), c.stop.value, i,
                     Last(turns[|turns|-1].tick.value.market.frame).close);
  }

  // ---------------------------------------------------------------------------
  // Where the consumer falls short
  // ---------------------------------------------------------------------------

  /** Signals the state changed for but whose push to the queue failed. */
  function LostCount(trace: seq<Outcome>): nat {
    if trace == [] then 0 else
      var o := trace[|trace|-1];
      LostCount(trace[..|trace|-1]) + (if Lost(o) then 1 else 0)
  }

  predicate Lost(o: Outcome) {
    o.issued.Some? && !o.delivered
  }

  lemma LostSinceGrows(trace: seq<Outcome>, i: nat)
    requires i + 1 < |trace|
    ensures var n := |trace| - 1;
            LostCount(trace[i+1..]) == LostCount(trace[..n][i+1..]) + (if Lost(trace[n]) then 1 else 0)
  {
    var n := |trace| - 1;
    assert trace[i+1..][..|trace[i+1..]|-1] == trace[..n][i+1..];
  }

  lemma ParityFlips(k: nat)
    ensures (k + 1) % 2 == 0 <==> k % 2 != 0
  {
  }

  /** Position flags before and after each outcome of a trace. */
  ghost predicate FlagsFollow(flags: seq<bool>, trace: seq<Outcome>) {
    |flags| == |trace| + 1 &&
    forall k :: 0 <= k < |trace| ==> Flips(flags[k], trace[k], flags[k+1])
  }

  /** A flag before and after one outcome. */
  predicate Flips(before: bool, o: Outcome, after: bool) {
    if o.issued.Some? then after == !before == o.issued.value.side.Buy? else after == before
  }

  lemma {:induction false} FlagFollowsLosses(flags: seq<bool>, trace: seq<Outcome>, i: nat)
    requires FlagsFollow(flags, trace) && i < |trace| && trace[i].issued.Some?
    requires forall k :: i < k < |trace| ==> !trace[k].delivered
    ensures flags[|trace|] <==> (trace[i].issued.value.side.Buy? <==> LostCount(trace[i+1..]) % 2 == 0)
    decreases |trace|
  {
    var n := |trace| - 1;
    if i == n {
      assert trace[i+1..] == [];
    } else {
      FlagFollowsLosses(flags[..n+1], trace[..n], i);
      LostSinceGrows(trace, i);
      ParityFlips(LostCount(trace[..n][i+1..]));
    }
  }

  function Flags(decide: Decider, c: Consumer, turns: seq<Turn>): (r: seq<bool>)
    ensures |r| == |turns| + 1
  {
    seq(|turns| + 1, k requires 0 <= k <= |turns| => Run(decide, c, turns[..k]).inPosition)
  }

  lemma RunFlagsFollow(decide: Decider, c: Consumer, turns: seq<Turn>)
    ensures FlagsFollow(Flags(decide, c, turns), Trace(decide, c, turns))
  {
    forall k | 0 <= k < |turns|
      ensures Flips(Flags(decide, c, turns)[k], Trace(decide, c, turns)[k], Flags(decide, c, turns)[k+1])
    {
      TraceAt(decide, c, turns, k);
      assert turns[..k+1][..k] == turns[..k];
      TurnFlips(decide, Run(decide, c, turns[..k]), turns[k]);
    }
  }

  /** What the queue sees: two consecutive delivered signals are of different sides if and
      only if an even number of signals was lost between them by failing pushes. */
  lemma DeliveredAlternateIff(decide: Decider, c: Consumer, turns: seq<Turn>, i: nat, j: nat)
    requires i < j < |turns|
    requires var trace := Trace(decide, c, turns);
             trace[i].issued.Some? && trace[j].issued.Some? &&
             forall k :: i < k < j ==> !trace[k].delivered
    ensures var trace := Trace(decide, c, turns);
            trace[i].issued.value.side != trace[j].issued.value.side <==> LostCount(trace[i+1..j]) % 2 == 0
  {
    var trace := Trace(decide, c, turns);
    var flags := Flags(decide, c, turns);
    RunFlagsFollow(decide, c, turns);
    FlagFollowsLosses(flags[..j+1], trace[..j], i);
    assert trace[..j][i+1..] == trace[i+1..j];
    assert Flips(flags[j], trace[j], flags[j+1]);
  }

  const PLAIN := Breakout(BreakoutParams(1.0, 1.0, 1.0, 0))
  const RISING := Bar(10.0, 1.0, 0.0, 0.0, 0.0, 0.0, 5.0, 1.0, 1.0, 0.0, 0.0)
  const FLAT := RISING.(atr := 0.0)

  function TurnAt(bar: Bar, fault: Fault): Turn {
    Turn(NoRequest, Some(Tick(true, None, true, Market([bar], false, false), true, false, fault, "s")))
  }

  /** The smallest such loss: the push of a buy fails, and the sell that follows is the
      first thing the executor ever hears. */
  lemma LostBuyThenSell()
    ensures var c := Consumer("BTCUSDT", BreakoutName, PLAIN, false, None, 0, None);
            var (c1, o1) := Iterate(Decide, c, TurnAt(RISING, AtPublish));
            var (c2, o2) := Iterate(Decide, c1, TurnAt(FLAT, NoFault));
            o1.issued.Some? && o1.issued.value.side.Buy? && !o1.delivered &&
            o2.issued.Some? && o2.issued.value.side.Sell? && o2.delivered
  {
    var c := Consumer("BTCUSDT", BreakoutName, PLAIN, false, None, 0, None);
    var d := BreakoutDecide(PLAIN.bo, [RISING], false, None, 0);
    assert d == Decision(BuySignal, BreakoutConfirmed, Some(9.0), 10.0);
    var c1 := Iterate(Decide, c, TurnAt(RISING, AtPublish)).0;
    assert c1 == Consumer("BTCUSDT", BreakoutName, PLAIN, true, Some(9.0), 0, None);
    assert BreakoutDecide(PLAIN.bo, [FLAT], true, Some(9.0), 0).signal == SellSignal;
  }

  /** The entry stop of a buy survives the tick if and only if no automatic switch takes
      place between the decision and the publication. */
  lemma BuyKeepsStopIff(c: Consumer, t: Tick, d: Decision)
    requires d.signal == BuySignal && StoredStop(c.engine, d).Some?
    requires ActOn(c, t, d).1.issued.Some?
    ensures ActOn(c, t, d).0.stop == StoredStop(c.engine, d) <==>
            !Switches(c.(bars := c.bars + 1, stop := StoredStop(c.engine, d)), t)
  {
  }

  /** Name and engine are of the same kind. */
  predicate EngineFits(c: Consumer) {
    match c.name
    case RegimeTrendName => c.engine.RegimeTrend?
    case DualTimeframeName => c.engine.DualTimeframe?
    case BreakoutName => c.engine.Breakout?
    case MeanReversionName => c.engine.MeanReversion?
    case FundingArbName => false
  }

  /** A request that does not load an engine. */
  predicate LoadsNothing(request: Request) {
    request.NoRequest? || request.name.None? || request.name == Some(FundingArbName)
  }

  /** Under the name of funding arbitrage, a tick on which a decision is possible is decided if
      and only if the engine that stayed loaded fits the generic path, and the pending request
      is not a padded one for funding arbitrage, which raises again in every turn. */
  lemma FundingArbDecidesIff(decide: Decider, c: Consumer, turn: Turn)
    requires c.name == FundingArbName && LoadsNothing(turn.request)
    requires turn.tick.Some? && turn.tick.value.enoughRows && turn.tick.value.frameReady
    requires turn.tick.value.fault != AtDecide
    ensures Iterate(decide, c, turn).1.decided <==>
            (c.engine.RegimeTrend? || c.engine.Breakout?) && turn.request != Asked(Some(FundingArbName), true)
  {
    assert SeeRegime(c, turn.tick.value).engine == c.engine;
  }

  /** Asking for the funding-arbitrage strategy renames the consumer but loads no engine.
      Unless the loaded engine happens to fit the generic path, no tick is ever decided
      again until a request loads another engine. */
  lemma {:induction false} FundingArbRequestStalls(decide: Decider, c: Consumer, turns: seq<Turn>)
    requires c.name == FundingArbName && (c.engine.DualTimeframe? || c.engine.MeanReversion?)
    requires forall i :: 0 <= i < |turns| ==> LoadsNothing(turns[i].request)
    ensures forall i :: 0 <= i < |turns| ==> Trace(decide, c, turns)[i] == QUIET
    ensures Run(decide, c, turns).name == FundingArbName && Run(decide, c, turns).engine == c.engine
    decreases |turns|
  {
    if turns == [] {
    } else {
      var n := |turns| - 1;
      FundingArbRequestStalls(decide, c, turns[..n]);
    }
  }

  lemma ChangeKeepsFit(c: Consumer, request: Request)
    requires EngineFits(c) && !(request.Asked? && request.name == Some(FundingArbName))
    ensures EngineFits(ChangeStrategy(c, request).0)
  {
  }

  lemma ActingKeepsFit(c: Consumer, t: Tick, d: Decision)
    requires EngineFits(c)
    ensures EngineFits(ActOn(c, t, d).0)
  {
    var c1 := c.(bars := c.bars + 1, stop := StoredStop(c.engine, d));
    assert EngineFits(AutoSwitch(c1, t));
  }

  lemma FitStep(decide: Decider, c: Consumer, turn: Turn)
    requires EngineFits(c) && !(turn.request.Asked? && turn.request.name == Some(FundingArbName))
    ensures EngineFits(Iterate(decide, c, turn).0)
  {
    ChangeKeepsFit(c, turn.request);
    if turn.tick.Some? {
      var t := turn.tick.value;
      var c1 := SeeRegime(ChangeStrategy(c, turn.request).0, t);
      var made := DecideTick(decide, c1, t);
      if made.Made? {
        ActingKeepsFit(c1, t, made.decision);
      }
    }
  }

  /** As long as funding arbitrage is never asked for, name and engine stay of one kind,
      so the engine can always answer. */
  lemma {:induction false} EngineAlwaysFits(decide: Decider, c: Consumer, turns: seq<Turn>)
    requires EngineFits(c)
    requires forall i :: 0 <= i < |turns| ==>
               !(turns[i].request.Asked? && turns[i].request.name == Some(FundingArbName))
    ensures EngineFits(Run(decide, c, turns)) && EngineAnswers(Run(decide, c, turns))
    decreases |turns|
  {
    if turns == [] {
    } else {
      EngineAlwaysFits(decide, c, turns[..|turns|-1]);
      FitStep(decide, Run(decide, c, turns[..|turns|-1]), turns[|turns|-1]);
    }
  }

  // ---------------------------------------------------------------------------
  // What one turn does
  // ---------------------------------------------------------------------------

  /** A request for a strategy with an engine, under a name the consumer does not bear, loads
      an engine of that kind and forgets the stop. Position, cooldown count and regime stay;
      so does everything when the name is unknown or already in force. */
  lemma RequestLoads(decide: Decider, c: Consumer, name: Name, padded: bool)
    requires name != FundingArbName
    ensures var c' := Iterate(decide, c, Turn(Asked(Some(name), padded), None)).0;
            if name == c.name && !padded then c' == c
            else c'.name == name && EngineFits(c') && c'.stop == None &&
                 c' == c.(name := c'.name, engine := c'.engine, stop := None)
    ensures Iterate(decide, c, Turn(Asked(None, padded), None)).0 == c
  {
  }

  /** The engines a consumer loads put the entry stop closer than the trailing one, both below
      the close of a bar with positive ATR, mean reversion leaves well above where it enters, and
      the two faster coins have their own oversold mark. */
  lemma LoadedEnginesAreOrdered(name: Name, symbol: string, bar: Bar)
    requires name != FundingArbName && bar.atr > 0.0
    ensures var e := BuildEngine(name, symbol).value;
            BuildEngine(name, symbol).Some? && e.CooldownBars() >= 2 && StopsBelowClose(e, bar) &&
            (e.Trails() ==> StopFor(bar, e.TrailingMult()) < StopFor(bar, e.InitialMult())) &&
            (e.MeanReversion? ==> e.mr.rsiOversold < e.mr.rsiOverbought) &&
            (e.DualTimeframe? ==>
               e.dt.rsiOversold == if symbol == "XRPUSDT" then 35.0 else if symbol == "SOLUSDT" then 38.0 else 40.0)
  {
    var e := BuildEngine(name, symbol).value;
    PositiveAtrSuffices(e, bar);
  }

  /** The turn makes a decision: no request interferes, the candles suffice and the engine
      answers to the consumer's name. */
  ghost predicate CanDecide(c: Consumer, turn: Turn) {
    turn.request.NoRequest? && turn.tick.Some? && turn.tick.value.enoughRows && turn.tick.value.frameReady &&
    EngineFits(c) && Readable(c.engine, turn.tick.value.market)
  }

  lemma CanDecideDecides(c: Consumer, turn: Turn)
    requires CanDecide(c, turn) && turn.tick.value.fault != AtDecide
    ensures var c1 := SeeRegime(c, turn.tick.value);
            Iterate(Decide, c, turn) ==
              ActOn(c1, turn.tick.value, Decide(c.engine, turn.tick.value.market, c.inPosition, c.stop, c.bars))
  {
  }

  /** The strategy follows the regime: after a decided turn that reads the switch, a flat
      consumer with automatic switching runs the trend strategy in a rising market and mean
      reversion in a ranging one, by this tick's regime or else the last one seen. In every
      other case it keeps its strategy. */
  lemma SwitchFollowsRegime(c: Consumer, turn: Turn)
    requires CanDecide(c, turn) && turn.tick.value.fault in {NoFault, AtSwitchWrite, AtPublish}
    ensures var t := turn.tick.value;
            var regime := if t.regime.Some? then t.regime else c.lastRegime;
            var c' := Iterate(Decide, c, turn).0;
            c'.lastRegime == regime && EngineFits(c') &&
            c'.name == (if c.inPosition || !t.autoSwitch then c.name
                        else if regime == Some(RegimeClassifier.TrendingUp) then RegimeTrendName
                        else if regime == Some(RegimeClassifier.Range) then MeanReversionName
                        else c.name) &&
            (c'.name != c.name ==> c'.stop == None) && (c'.name == c.name ==> c'.engine == c.engine)
  {
    var t := turn.tick.value;
    CanDecideDecides(c, turn);
    ActingKeepsFit(SeeRegime(c, t), t, Decide(c.engine, t.market, c.inPosition, c.stop, c.bars));
  }

  /** A turn issues exactly when trading is enabled and the market calls for it: a flat
      consumer buys after the cooldown on its engine's entry condition, one in position sells
      when its engine does. The message reaches the queue unless the push fails; without one
      the bar is counted, and a switch is the only other thing that may happen. */
  lemma IssuesIff(c: Consumer, turn: Turn)
    requires CanDecide(c, turn) && turn.tick.value.fault in {NoFault, AtPublish}
    ensures var t := turn.tick.value;
            var (c', o) := Iterate(Decide, c, turn);
            var exits := Decide(c.engine, t.market, true, c.stop, c.bars).signal == SellSignal;
            o.decided && (o.delivered <==> o.issued.Some? && t.fault == NoFault) &&
            (o.issued.Some? <==>
             t.enabled &&
             if c.inPosition then exits else c.bars >= c.engine.CooldownBars() && Enters(c.engine, t.market)) &&
            (o.issued.Some? ==> o.issued.value.side == (if c.inPosition then TradeLedger.Sell else TradeLedger.Buy)) &&
            c'.inPosition == (if o.issued.Some? then !c.inPosition else c.inPosition) &&
            c'.bars == (if o.issued.Some? then 0 else c.bars + 1)
  {
    var t := turn.tick.value;
    CanDecideDecides(c, turn);
    if c.inPosition {
      SignalsFitPosition(c.engine, t.market, true, c.stop, c.bars);
    } else {
      EntryIff(c.engine, t.market, c.stop, c.bars);
    }
  }

  /** The stop of a decision is kept as it is, also without a position, unless the turn loads
      another engine; only a trailing engine's stop of exactly zero is forgotten. */
  lemma ZeroStopIsForgotten(c: Consumer, turn: Turn)
    requires CanDecide(c, turn) && turn.tick.value.fault != AtDecide
    ensures var stop := Decide(c.engine, turn.tick.value.market, c.inPosition, c.stop, c.bars).stop;
            var c' := Iterate(Decide, c, turn).0;
            c'.name == c.name ==> c'.stop == if stop == Some(0.0) && !c.engine.MeanReversion? then None else stop
  {
    CanDecideDecides(c, turn);
  }

  /** A consumer whose engine fits decides a turn without a request exactly when a tick comes,
      its handling does not fail before the decision, and candles and frame suffice. Otherwise
      nothing happens but that a regime computed from sufficient candles is remembered. */
  lemma DecidesIff(decide: Decider, c: Consumer, turn: Turn)
    requires turn.request.NoRequest? && EngineFits(c)
    ensures var (c', o) := Iterate(decide, c, turn);
            (o.decided <==>
             turn.tick.Some? && turn.tick.value.fault != AtDecide &&
             turn.tick.value.enoughRows && turn.tick.value.frameReady) &&
            (!o.decided ==>
             o.issued == None && !o.delivered &&
             c' == (if turn.tick.Some? && turn.tick.value.fault != AtDecide && turn.tick.value.enoughRows &&
                       turn.tick.value.regime.Some?
                    then c.(lastRegime := turn.tick.value.regime) else c))
  {
  }

  /** The same turn without the error. */
  function Unharmed(turn: Turn): Turn
    requires turn.tick.Some?
  {
    turn.(tick := Some(turn.tick.value.(fault := NoFault)))
  }

  /** Where an error after the decision strikes, given what the turn does without it. */
  predicate Strikes(fault: Fault, c: Consumer, after: Consumer) {
    match fault
    case AtEnabledRead => true
    case AtSwitchRead => !c.inPosition && after.lastRegime.Some?
    case AtSwitchWrite => after.name != c.name
    case _ => false
  }

  /** The decision is counted, but nothing is issued; only a failing write comes too late to
      prevent the switch. */
  predicate Silenced(fault: Fault, c: Consumer, c': Consumer, o: Outcome) {
    o.decided && o.issued == None && c'.inPosition == c.inPosition && c'.bars == c.bars + 1 &&
    (fault == AtSwitchWrite || (c'.name == c.name && c'.engine == c.engine))
  }

  lemma ActErrors(c: Consumer, t: Tick, d: Decision)
    requires t.fault in {AtEnabledRead, AtSwitchRead, AtSwitchWrite}
    ensures var (c', o) := ActOn(c, t, d);
            var (u, good) := ActOn(c, t.(fault := NoFault), d);
            if Strikes(t.fault, c, u)
            then Silenced(t.fault, c, c', o) && c'.lastRegime == u.lastRegime &&
                 (t.fault == AtSwitchWrite ==> c'.name == u.name)
            else c' == u && o == good
  {
    var c1 := c.(bars := c.bars + 1, stop := StoredStop(c.engine, d));
    assert Switches(c1, t) == Switches(c1, t.(fault := NoFault));
    assert Switches(c1, t) <==> AutoSwitch(c1, t).name != c.name;
  }

  /** An error after the decision silences the turn exactly where it can strike: reading the
      trading flag always, reading the switch when a flat consumer knows a regime, writing it
      when the strategy changes. An error that does not strike changes nothing. */
  lemma LateErrors(c: Consumer, turn: Turn)
    requires CanDecide(c, turn) && turn.tick.value.fault in {AtEnabledRead, AtSwitchRead, AtSwitchWrite}
    ensures var (c', o) := Iterate(Decide, c, turn);
            var (u, good) := Iterate(Decide, c, Unharmed(turn));
            if Strikes(turn.tick.value.fault, c, u)
            then Silenced(turn.tick.value.fault, c, c', o) && c'.lastRegime == u.lastRegime &&
                 (turn.tick.value.fault == AtSwitchWrite ==> c'.name == u.name)
            else c' == u && o == good
  {
    var t := turn.tick.value;
    CanDecideDecides(c, turn);
    CanDecideDecides(c, Unharmed(turn));
    ActErrors(SeeRegime(c, t), t, Decide(c.engine, t.market, c.inPosition, c.stop, c.bars));
  }
}
