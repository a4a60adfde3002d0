/**
 Strategy consumer, signal queue and executor as one system with two independently kept
 notions of "in position": the consumer's flag and the open rows of the positions table.
 Orders may fail, signals may be skipped or dropped by an overflowing queue, the consumer
 may restart and the table may be repaired; the theorem says when the two notions agree
 again by themselves.
 */
module Pipeline {
  import opened Prelude
  import opened TradeLedger
  import opened ExecutorSteps
  import opened Reconciliation
  import opened SessionEffects
  import opened StrategyConsumers
  import SignalEngines
  import SignalQueue

  /** The last signal the executor took from the queue, and what became of it. */
  datatype Consumed = Consumed(side: Side, result: Result)

  /** `last` and `pushed` are forgotten when the consumer restarts; `repaired` tells that
      the table was repaired since the last consumed signal or restart, and `cleanStart`
      that the restart found an empty queue and could read the table. */
  datatype Pipe = Pipe(
    c: Consumer, queue: seq<Message>, world: World, last: Option<Consumed>,
    pushed: Option<Side>, repaired: bool, cleanStart: bool)

  /** What the executor's environment answers to one signal. */
  datatype Answers = Answers(sized: Option<real>, order: Order, faults: set<Pc>, closeLimit: nat, clock: Clock)

  datatype Event =
    | StrategyTurn(turn: Turn)
    | Consume(answers: Answers)
    | ConsumeBroken(left: World)
    | RepairTable(obs: Observation, minOrder: real)
    | Restart(name: Name, engine: SignalEngines.Engine, readable: bool)

  function CallFor(m: Message, a: Answers): Call {
    Call(if m.side.Buy? then BuyIntent(a.sized) else SellIntent(None),
         m.sigId, m.price, a.order, a.faults, a.closeLimit)
  }

  /** `_restore_state`: in position if the open rows hold a positive quantity; a failed
      read leaves the initial value. */
  function Restored(p: Pipe, name: Name, engine: SignalEngines.Engine, readable: bool): Consumer {
    Consumer(p.c.symbol, name, engine, readable && VisibleQty(p.world.positions) > 0.0,
             None, engine.CooldownBars(), None)
  }

  function Next(p: Pipe, e: Event): Pipe {
    match e
    case StrategyTurn(turn) =>
      var (c', o) := Iterate(SignalEngines.Decide, p.c, turn);
      if o.issued.Some? && o.delivered
      then p.(c := c', queue := SignalQueue.Push(p.queue, o.issued.value), pushed := Some(o.issued.value.side))
      else p.(c := c')
    case Consume(a) =>
      if p.queue == [] then p else
        var (w', result) := Session(p.world, CallFor(p.queue[0], a), a.clock);
        p.(queue := p.queue[1..], world := w', last := Some(Consumed(p.queue[0].side, result)), repaired := false)
    case ConsumeBroken(left) =>
      if p.queue == [] then p else
        p.(queue := p.queue[1..], world := left, last := Some(Consumed(p.queue[0].side, Raised)), repaired := false)
    case RepairTable(obs, minOrder) =>
      var ps := Repair(p.world.positions, obs, minOrder).0;
      p.(world := p.world.(positions := ps), repaired := p.repaired || ps != p.world.positions)
    case Restart(name, engine, readable) =>
      p.(c := Restored(p, name, engine, readable), last := None, pushed := None, repaired := false,
         cleanStart := readable && p.queue == [])
  }

  function Run(p: Pipe, es: seq<Event>): Pipe {
    if es == [] then p else Next(Run(p, es[..|es|-1]), es[|es|-1])
  }

  predicate HasOpenRow(ps: seq<Position>) {
    VisibleIds(ps) != []
  }

  /** The write assumptions: pushes reach the queue, an order that is carried out gets its
      row written or its rows closed, all rows are seen, and open rows hold something. */
  ghost predicate Sound(p: Pipe, e: Event) {
    match e
    case StrategyTurn(turn) => turn.tick.Some? ==> turn.tick.value.fault != AtPublish
    case Consume(a) =>
      WriteRow !in a.faults && RereadRows !in a.faults && |VisibleIds(p.world.positions)| <= a.closeLimit &&
      |OpenIds(p.world.positions)| <= ROW_LIMIT
    case Restart(_, _, _) => HasOpenRow(p.world.positions) <==> VisibleQty(p.world.positions) > 0.0
    case _ => true
  }

  ghost predicate SoundRun(p: Pipe, es: seq<Event>) {
    forall i :: 0 <= i < |es| ==> Sound(Run(p, es[..i]), es[i])
  }

  /** Results after which the executor knows where the table stands. */
  predicate Settles(result: Result) {
    result.Bought? || result.Sold? || result.PositionAlreadyOpen?
  }

  /** The signal queue is drained, no repair intervened, and the last signal settled; or
      nothing at all happened since a restart on an empty queue. */
  predicate Quiet(p: Pipe) {
    p.queue == [] && !p.repaired &&
    (if p.pushed.Some? then p.last.Some? && Settles(p.last.value.result) else p.last.None? && p.cleanStart)
  }

  /** The consumer's flag is the side of the last message pushed, and that message is
      either still the newest in the queue or the last one consumed. */
  predicate Tracks(p: Pipe) {
    (p.pushed.Some? ==>
      p.c.inPosition == p.pushed.value.Buy? &&
      (if p.queue != [] then p.queue[|p.queue|-1].side == p.pushed.value
       else p.last.Some? && p.last.value.side == p.pushed.value)) &&
    (p.pushed.None? && p.cleanStart ==> p.queue == [])
  }

  /** A settled signal, unless a repair came later, tells whether a row is open. */
  predicate Reflects(p: Pipe) {
    (p.last.Some? && Settles(p.last.value.result) && !p.repaired ==>
      (HasOpenRow(p.world.positions) <==> p.last.value.side.Buy?)) &&
    (p.last.None? && p.pushed.None? && p.cleanStart && !p.repaired ==>
      (HasOpenRow(p.world.positions) <==> p.c.inPosition))
  }

  lemma SettledSession(p: Pipe, a: Answers)
    requires p.queue != [] && Sound(p, Consume(a))
    ensures var (w', result) := Session(p.world, CallFor(p.queue[0], a), a.clock);
            Settles(result) ==> (HasOpenRow(w'.positions) <==> p.queue[0].side.Buy?)
  {
    var call := CallFor(p.queue[0], a);
    var ps := p.world.positions;
    var (w', result) := Session(p.world, call, a.clock);
    SessionTables(p.world, call, a.clock);
    match result
    case Bought(_, _) =>
      OpenedIds(ps, LongRow(call.price, RecordedQty(call)));
    case Sold(_, _, _) =>
      CloseVisibleClosesAll(ps, call.price);
      NoneOpenIds(w'.positions);
    case _ =>
  }

  lemma DeliveredUnlessFaulty(c: Consumer, turn: Turn)
    requires turn.tick.Some? ==> turn.tick.value.fault != AtPublish
    ensures Iterate(SignalEngines.Decide, c, turn).1.issued.Some? ==> Iterate(SignalEngines.Decide, c, turn).1.delivered
  {
  }

  /** Right after a restart, whatever happened before it, both links hold: a consumer that
      could read the table is in position exactly when a row is open. It is ready to trade,
      without a stop, and queue and tables are untouched. */
  lemma RestartEstablishes(p: Pipe, name: Name, engine: SignalEngines.Engine, readable: bool)
    requires Sound(p, Restart(name, engine, readable))
    ensures Tracks(Next(p, Restart(name, engine, readable))) && Reflects(Next(p, Restart(name, engine, readable)))
    ensures var r := Next(p, Restart(name, engine, readable));
            (r.c.inPosition <==> readable && HasOpenRow(p.world.positions)) && r.c.stop == None &&
            r.c.bars >= engine.CooldownBars() && r.queue == p.queue && r.world == p.world
  {
  }

  /** A turn of the strategy consumer puts a signal into the queue exactly when it is delivered, as
      the newest message; nothing else in the system changes. */
  lemma TurnPushesIff(p: Pipe, turn: Turn)
    ensures var (c', o) := Iterate(SignalEngines.Decide, p.c, turn);
            var q := Next(p, StrategyTurn(turn));
            q.c == c' && q.world == p.world && q.last == p.last &&
            if o.delivered then o.issued.Some? && q.queue != [] && q.queue[|q.queue|-1] == o.issued.value &&
                                q.pushed == Some(o.issued.value.side)
            else q.queue == p.queue && q.pushed == p.pushed
  {
  }

  /** A message is consumed as what it says: the oldest one, and any fill or trade it leads to
      has its side, its id and its price. */
  lemma {:induction false} ConsumeFollowsMessage(p: Pipe, a: Answers)
    requires p.queue != []
    ensures var m := p.queue[0];
            var q := Next(p, Consume(a));
            q.queue == p.queue[1..] && q.c == p.c && q.last.Some? && q.last.value.side == m.side &&
            (q.last.value.result.Bought? ==> m.side.Buy?) && (q.last.value.result.Sold? ==> m.side.Sell?) &&
            (q.world.fills == p.world.fills ||
             q.world.fills == p.world.fills + [Fill(m.sigId, m.side, a.clock.check, a.clock.place)]) &&
            (q.world.trades == p.world.trades ||
             (|q.world.trades| == |p.world.trades| + 1 && p.world.trades <= q.world.trades &&
              q.world.trades[|p.world.trades|].side == m.side && q.world.trades[|p.world.trades|].price == m.price))
  {
    var call := CallFor(p.queue[0], a);
    SessionFills(p.world, call, a.clock);
    SessionBooks(p.world, call, a.clock);
    SessionTables(p.world, call, a.clock);
  }

  /** While signals are queued, nothing need be known about the table: the last of them will
      tell once it settles. */
  predicate Settling(p: Pipe) {
    Tracks(p) && (p.queue == [] || p.pushed.None? ==> Reflects(p)) && |p.queue| <= SignalQueue.MAX_LEN
  }

  lemma TurnKeepsSettling(p: Pipe, turn: Turn)
    requires Settling(p) && Sound(p, StrategyTurn(turn))
    ensures Settling(Next(p, StrategyTurn(turn)))
  {
    TurnFlips(SignalEngines.Decide, p.c, turn);
    DeliveredUnlessFaulty(p.c, turn);
  }

  lemma ConsumeKeepsSettling(p: Pipe, a: Answers)
    requires Settling(p) && Sound(p, Consume(a)) && p.queue != []
    ensures Settling(Next(p, Consume(a)))
  {
    SettledSession(p, a);
  }

  lemma OtherKeepsSettling(p: Pipe, e: Event)
    requires Settling(p) && (e.ConsumeBroken? || e.RepairTable?)
    ensures Settling(Next(p, e))
  {
  }

  lemma NextKeepsSettling(p: Pipe, e: Event)
    requires Settling(p) && Sound(p, e)
    ensures Settling(Next(p, e))
  {
    if e.StrategyTurn? {
      TurnKeepsSettling(p, e.turn);
    } else if e.Consume? {
      if p.queue != [] {
        ConsumeKeepsSettling(p, e.answers);
      }
    } else if e.Restart? {
      RestartEstablishes(p, e.name, e.engine, e.readable);
    } else {
      OtherKeepsSettling(p, e);
    }
  }

  /** Self-stabilisation: after any history of failed orders, skipped and dropped signals,
      executor crashes, repairs and restarts, whenever the system is quiet the consumer's
      flag equals "the table has an open row". */
  lemma {:induction false} SelfStabilises(p: Pipe, es: seq<Event>)
    requires Settling(p) && SoundRun(p, es)
    ensures Quiet(Run(p, es)) ==> (Run(p, es).c.inPosition <==> HasOpenRow(Run(p, es).world.positions))
    ensures Settling(Run(p, es))
    decreases |es|
  {
    if es == [] {
    } else {
      var init := es[..|es|-1];
      assert forall i :: 0 <= i < |init| ==> init[..i] == es[..i];
      SelfStabilises(p, init);
      NextKeepsSettling(Run(p, init), es[|es|-1]);
    }
  }

  /** One signal is enough: from any state whatsoever, after lost pushes, failed row writes and
      anything else, a turn that issues and delivers a signal puts the system on the track on
      which, with sound events from there on, it is right whenever it is quiet. */
  lemma {:induction false} OneDeliveryStabilises(p: Pipe, turn: Turn, es: seq<Event>)
    requires |p.queue| <= SignalQueue.MAX_LEN
    requires var o := Iterate(SignalEngines.Decide, p.c, turn).1; o.issued.Some? && o.delivered
    requires SoundRun(Next(p, StrategyTurn(turn)), es)
    ensures var q := Run(Next(p, StrategyTurn(turn)), es);
            Quiet(q) ==> (q.c.inPosition <==> HasOpenRow(q.world.positions))
  {
    TurnFlips(SignalEngines.Decide, p.c, turn);
    assert Settling(Next(p, StrategyTurn(turn)));
    SelfStabilises(Next(p, StrategyTurn(turn)), es);
  }

  predicate LastSettled(p: Pipe) {
    p.last.Some? && Settles(p.last.value.result)
  }

  predicate Drains(e: Event) {
    e.Consume? || e.ConsumeBroken?
  }

  /** Consuming k messages takes the k oldest ones and touches neither flag nor pushes. */
  lemma {:induction false} DrainTakesOldest(p: Pipe, es: seq<Event>)
    requires |es| <= |p.queue| && forall i :: 0 <= i < |es| ==> Drains(es[i])
    ensures var q := Run(p, es);
            q.queue == p.queue[|es|..] && q.c == p.c &&
            (es != [] ==> q.last.Some? && q.last.value.side == p.queue[|es|-1].side && !q.repaired)
    decreases |es|
  {
    if es == [] {
    } else {
      DrainTakesOldest(p, es[..|es|-1]);
    }
  }

  /** A consumer that restarts while signals are queued starts from a table that is about to
      change. Once the queue it found is drained and the last signal settled, its flag is
      right if and only if the newest queued signal already agreed with the table at the
      restart: a buy with an open row, or a sell without one. */
  lemma {:induction false} RestartOnBusyQueueIff(p: Pipe, name: Name, engine: SignalEngines.Engine, es: seq<Event>)
    requires p.queue != [] && |p.queue| <= SignalQueue.MAX_LEN && |es| == |p.queue|
    requires forall i :: 0 <= i < |es| ==> Drains(es[i])
    requires Sound(p, Restart(name, engine, true)) && SoundRun(Next(p, Restart(name, engine, true)), es)
    requires LastSettled(Run(Next(p, Restart(name, engine, true)), es))
    ensures var q := Run(Next(p, Restart(name, engine, true)), es);
            q.queue == [] &&
            ((q.c.inPosition <==> HasOpenRow(q.world.positions)) <==>
             (HasOpenRow(p.world.positions) <==> p.queue[|p.queue|-1].side.Buy?))
  {
    var r := Next(p, Restart(name, engine, true));
    RestartEstablishes(p, name, engine, true);
    DrainTakesOldest(r, es);
    SelfStabilises(r, es);
  }
}
