/** The strategy consumer as an object that owns its fields and pushes to the signal queue. */
module StrategyService {
  import opened Prelude
  import opened SignalEngines
  import opened SignalQueue
  import opened StrategyConsumers
  import TradeLedger

  class StrategyConsumer {
    const symbol: string
    const signals: InMemoryQueue<Message>
    var name: Name
    var engine: Engine
    var inPosition: bool
    var trailingStop: Option<real>
    var barsSinceTrade: int
    var lastRegime: Option<Regime>

    constructor (symbol: string, name: Name, engine: Engine, signals: InMemoryQueue<Message>)
      ensures this.signals == signals
      ensures View() == Consumer(symbol, name, engine, false, None, engine.CooldownBars(), None)
    {
      this.symbol := symbol;
      this.signals := signals;
      this.name := name;
      this.engine := engine;
      inPosition := false;
      trailingStop := None;
      barsSinceTrade := engine.CooldownBars();
      lastRegime := None;
    }

    function View(): Consumer
      reads this
    {
      Consumer(symbol, name, engine, inPosition, trailingStop, barsSinceTrade, lastRegime)
    }

    method CheckStrategyChange(request: Request) returns (raised: bool)
      modifies this
      ensures (View(), raised) == ChangeStrategy(old(View()), request)
    {
      if request.NoRequest? || request.name.None? || (request.name == Some(name) && !request.padded) {
        return false;
      }
      name := request.name.value;
      var built := BuildEngine(name, symbol);
      if built.None? {
        return true;
      }
      engine := built.value;
      trailingStop := None;
      return false;
    }

    method MaybeAutoSwitch(t: Tick) returns (switched: bool)
      requires lastRegime.Some? && !inPosition
      modifies this
      ensures View() == AutoSwitch(old(View()), t) && switched == Switches(old(View()), t)
    {
      if !t.autoSwitch {
        return false;
      }
      var suggested := Suggested(lastRegime.value);
      if suggested.None? || suggested == Some(name) {
        return false;
      }
      name := suggested.value;
      engine := BuildEngine(name, symbol).value;
      trailingStop := None;
      return true;
    }

    method PublishSignal(side: TradeLedger.Side, t: Tick, price: real) returns (o: Option<Message>)
      requires |signals.items| <= MAX_LEN
      modifies signals
      ensures o == Some(Message(name, side, t.sigId, price))
      ensures signals.items == if t.fault == AtPublish then old(signals.items) else Push(old(signals.items), o.value)
      ensures |signals.items| <= MAX_LEN
    {
      var m := Message(name, side, t.sigId, price);
      o := Some(m);
      if t.fault != AtPublish {
        signals.QueuePush(m);
      }
    }

    /** What a turn leaves in the queue. */
    ghost predicate Queued(before: seq<Message>, o: Outcome)
      reads signals
    {
      signals.items == (if o.issued.Some? && o.delivered then Push(before, o.issued.value) else before) &&
      |signals.items| <= MAX_LEN
    }

    method Act(t: Tick, d: Decision) returns (o: Outcome)
      requires |signals.items| <= MAX_LEN
      modifies this, signals
      ensures (View(), o) == ActOn(old(View()), t, d)
      ensures Queued(old(signals.items), o)
    {
      var cooldown := engine.CooldownBars();
      barsSinceTrade := barsSinceTrade + 1;
      trailingStop := StoredStop(engine, d);
      o := Outcome(true, cooldown, None, false);
      if t.fault == AtEnabledRead {
        return;
      }
      if lastRegime.Some? && !inPosition {
        if t.fault == AtSwitchRead {
          return;
        }
        var switched := MaybeAutoSwitch(t);
        if switched && t.fault == AtSwitchWrite {
          return;
        }
      }
      if t.enabled {
        var issued: Option<Message> := None;
        if d.signal == BuySignal && !inPosition {
          inPosition := true;
          barsSinceTrade := 0;
          issued := PublishSignal(TradeLedger.Buy, t, d.close);
        } else if d.signal == SellSignal && inPosition {
          inPosition := false;
          barsSinceTrade := 0;
          issued := PublishSignal(TradeLedger.Sell, t, d.close);
        }
        o := Outcome(true, cooldown, issued, issued.Some? && t.fault != AtPublish);
      }
    }

    method HandleTick(t: Tick) returns (o: Outcome)
      requires |signals.items| <= MAX_LEN
      modifies this, signals
      ensures (View(), o) == ProcessTick(Decide, old(View()), t)
      ensures Queued(old(signals.items), o)
    {
      o := QUIET;
      if t.fault == AtDecide || !t.enoughRows {
        return;
      }
      if t.regime.Some? {
        lastRegime := t.regime;
      }
      if name == FundingArbName && engine.DualTimeframe? {
        return;
      }
      if !t.frameReady || !EngineAnswers(View()) {
        return;
      }
      var d := Decide(engine, t.market, inPosition, trailingStop, barsSinceTrade);
      o := Act(t, d);
    }

    /** The body of the endless loop, for one message or timeout of the tick queue. */
    method OneTurn(turn: Turn) returns (o: Outcome)
      requires |signals.items| <= MAX_LEN
      modifies this, signals
      ensures (View(), o) == Iterate(Decide, old(View()), turn)
      ensures Queued(old(signals.items), o)
    {
      var raised := CheckStrategyChange(turn.request);
      if raised || turn.tick.None? {
        return QUIET;
      }
      o := HandleTick(turn.tick.value);
    }
  }
}
