/**
 The executor's endless loop: one message or timeout per turn, a heartbeat and a repair of
 the positions table when they are due, then the order call the message asks for.
 */
module ExecutorConsumers {
  import opened Prelude
  import opened RedisStore
  import opened TradeLedger
  import opened ExecutorSteps
  import opened Reconciliation
  import opened ExecutorService
  import opened SessionEffects

  const BEAT_INTERVAL := 60.0
  const BEAT_TTL := 300.0
  const RECONCILE_INTERVAL := 300.0
  const BEAT_KEY := "hb:executor"

  /** What the queue delivers. An unreadable message raises before anything is assigned; a
      price that is not a number raises after the symbol has been taken over. */
  datatype Raw = Timeout | Unreadable | Payload(symbol: string, side: string, sigId: string, price: Option<real>)

  /** What the environment answers during one turn. */
  datatype Env = Env(
    now: real, obs: Observation, minOrder: real,
    sized: Option<real>, order: Order, faults: set<Pc>, closeLimit: nat, clock: Clock)

  datatype Loop = Loop(symbol: string, lastBeat: real, lastReconcile: real)

  function CallOf(m: Raw, env: Env): Call
    requires m.Payload? && m.price.Some?
  {
    Call(if m.side == "buy" then BuyIntent(env.sized) else SellIntent(None),
         m.sigId, m.price.value, env.order, env.faults, env.closeLimit)
  }

  /** Whether a message leads to an order call. */
  predicate Actionable(m: Raw) {
    m.Payload? && m.price.Some? && m.symbol != "" && m.sigId != "" && m.side in {"buy", "sell"}
  }

  predicate RepairDue(c: Loop, env: Env) {
    env.now - c.lastReconcile >= RECONCILE_INTERVAL
  }

  /** What a repair under a given symbol observes on the rows of this one. A repair of another
      symbol does not see them. A repair without a symbol sees them all, because an empty
      symbol drops the filter of the read, next to the balance of a coin without a name: 0. */
  function ObservedUnder(symbol: string, obs: Observation): Option<Observation> {
    if symbol == SYMBOL then Some(obs)
    else if symbol == "" then Some(obs.(exchangeQty := 0.0))
    else None
  }

  function RepairUnder(symbol: string, ps: seq<Position>, obs: Observation, minOrder: real): seq<Position> {
    var seen := ObservedUnder(symbol, obs);
    if seen.None? then ps else Repair(ps, seen.value, minOrder).0
  }

  /** Heartbeat and repair, when due. The repair works on the loop's current symbol. */
  function Upkeep(c: Loop, w: World, env: Env): (Loop, World) {
    var beat := env.now - c.lastBeat >= BEAT_INTERVAL;
    var repair := RepairDue(c, env);
    var w1 := if beat then w.(store := Apply(w.store, Set(BEAT_KEY, "beat", Some(BEAT_TTL)), env.now).0) else w;
    var w2 := if repair then w1.(positions := RepairUnder(c.symbol, w1.positions, env.obs, env.minOrder)) else w1;
    (c.(lastBeat := if beat then env.now else c.lastBeat,
        lastReconcile := if repair then env.now else c.lastReconcile), w2)
  }

  /** One turn of the loop. Messages for other symbols run outside this model. */
  function TurnOf(c: Loop, w: World, m: Raw, env: Env): (Loop, World, Option<Result>) {
    var (c1, w1) := Upkeep(c, w, env);
    if !m.Payload? then (c1, w1, None) else
    var c2 := c1.(symbol := m.symbol);
    if !Actionable(m) || m.symbol != SYMBOL then (c2, w1, None) else
    var (w2, result) := Session(w1, CallOf(m, env), env.clock);
    (c2, w2, Some(result))
  }

  datatype Step = Step(m: Raw, env: Env)

  function RunTurns(c: Loop, w: World, steps: seq<Step>): (Loop, World) {
    if steps == [] then (c, w) else
      var n := |steps| - 1;
      var (c1, w1) := RunTurns(c, w, steps[..n]);
      var t := TurnOf(c1, w1, steps[n].m, steps[n].env);
      (t.0, t.1)
  }

  // ---------------------------------------------------------------------------
  // Which message leads to which order
  // ---------------------------------------------------------------------------

  /** What a turn adds to the accepted orders and to the trade log: nothing, or one entry of
      the given side that carries the message's signal id and price. */
  predicate Adds(w: World, w': World, side: Side, sigId: string, price: real) {
    (w'.fills == w.fills ||
     (|w'.fills| == |w.fills| + 1 && w'.fills[..|w.fills|] == w.fills &&
      w'.fills[|w.fills|].side == side && w'.fills[|w.fills|].sigId == sigId)) &&
    (w'.trades == w.trades ||
     (|w'.trades| == |w.trades| + 1 && w'.trades[..|w.trades|] == w.trades &&
      w'.trades[|w.trades|].side == side && w'.trades[|w.trades|].price == price))
  }

  lemma UpkeepOrdersNothing(c: Loop, w: World, env: Env)
    ensures Upkeep(c, w, env).1.fills == w.fills && Upkeep(c, w, env).1.trades == w.trades
  {
  }

  /** A well-formed buy message for this symbol is answered, never by a sale; it closes no row,
      and whatever it orders and books is a buy of its signal at its price. */
  lemma BuyMessageBuys(c: Loop, w: World, m: Raw, env: Env)
    requires m.Payload? && m.symbol == SYMBOL && m.side == "buy" && m.sigId != "" && m.price.Some?
    ensures var t := TurnOf(c, w, m, env);
            t.2.Some? && !t.2.value.Sold? &&
            Upkeep(c, w, env).1.positions <= t.1.positions && Adds(w, t.1, Buy, m.sigId, m.price.value) &&
            (t.2.value.Bought? && env.order == Accepted(None) ==> env.sized == Some(t.2.value.qty))
  {
    var w1 := Upkeep(c, w, env).1;
    UpkeepOrdersNothing(c, w, env);
    SessionTables(w1, CallOf(m, env), env.clock);
    SessionFills(w1, CallOf(m, env), env.clock);
    SessionBooks(w1, CallOf(m, env), env.clock);
    if Session(w1, CallOf(m, env), env.clock).1.Bought? || Session(w1, CallOf(m, env), env.clock).1.Sold? {
      FilledQuantityIsAnswered(w1, CallOf(m, env), env.clock);
    }
  }

  /** A well-formed sell message for this symbol is answered, never by a purchase; it opens no
      row, and whatever it orders and books is a sell of its signal at its price. */
  lemma SellMessageSells(c: Loop, w: World, m: Raw, env: Env)
    requires m.Payload? && m.symbol == SYMBOL && m.side == "sell" && m.sigId != "" && m.price.Some?
    ensures var t := TurnOf(c, w, m, env);
            t.2.Some? && !t.2.value.Bought? &&
            |t.1.positions| == |Upkeep(c, w, env).1.positions| && Adds(w, t.1, Sell, m.sigId, m.price.value) &&
            (t.2.value.Sold? && env.order == Accepted(None) ==> t.2.value.qty == 0.0)
  {
    var w1 := Upkeep(c, w, env).1;
    UpkeepOrdersNothing(c, w, env);
    SessionTables(w1, CallOf(m, env), env.clock);
    SessionFills(w1, CallOf(m, env), env.clock);
    SessionBooks(w1, CallOf(m, env), env.clock);
    if Session(w1, CallOf(m, env), env.clock).1.Bought? || Session(w1, CallOf(m, env), env.clock).1.Sold? {
      FilledQuantityIsAnswered(w1, CallOf(m, env), env.clock);
    }
  }

  /** Everything else the queue delivers is answered by nothing and orders nothing: a timeout,
      an unreadable message, a price that is no number, a missing signal id, any other side. */
  lemma OtherMessageDoesNothing(c: Loop, w: World, m: Raw, env: Env)
    requires m.Payload? ==> m.price.None? || m.sigId == "" || (m.side != "buy" && m.side != "sell")
    ensures var t := TurnOf(c, w, m, env);
            t.2 == None && t.1 == Upkeep(c, w, env).1 && t.1.fills == w.fills && t.1.trades == w.trades
  {
    UpkeepOrdersNothing(c, w, env);
  }

  /** A due heartbeat is live for its whole time to live, and the next one is not due before
      an interval has passed; until then the upkeep leaves the store alone. */
  lemma DueBeatIsLive(c: Loop, w: World, env: Env, at: real)
    requires env.now <= at
    ensures var (c', w') := Upkeep(c, w, env);
            if env.now - c.lastBeat >= BEAT_INTERVAL
            then (BEAT_KEY in Sweep(w'.store, at) <==> at <= env.now + BEAT_TTL) && c'.lastBeat == env.now
            else w'.store == w.store && c'.lastBeat == c.lastBeat
  {
  }

  /** Only a due upkeep repairs the rows, under the symbol of the loop. */
  lemma RepairsWhenDue(c: Loop, w: World, env: Env)
    ensures var (c', w') := Upkeep(c, w, env);
            if env.now - c.lastReconcile >= RECONCILE_INTERVAL
            then w'.positions == RepairUnder(c.symbol, w.positions, env.obs, env.minOrder) &&
                 c'.lastReconcile == env.now
            else w'.positions == w.positions && c'.lastReconcile == c.lastReconcile
  {
  }

  /** The repair is due in turn i of a run. */
  predicate DueAt(c: Loop, w: World, steps: seq<Step>, i: nat)
    requires i < |steps|
  {
    RepairDue(RunTurns(c, w, steps[..i]).0, steps[i].env)
  }

  /** After a due repair, the loop's clock of repairs never falls behind that turn. */
  lemma {:induction false} RepairClockRises(c: Loop, w: World, steps: seq<Step>, i: nat)
    requires i < |steps| && DueAt(c, w, steps, i)
    ensures RunTurns(c, w, steps).0.lastReconcile >= steps[i].env.now
    decreases |steps|
  {
    var n := |steps| - 1;
    var (c1, w1) := RunTurns(c, w, steps[..n]);
    RepairsWhenDue(c1, w1, steps[n].env);
    if i < n {
      assert steps[..n][..i] == steps[..i];
      RepairClockRises(c, w, steps[..n], i);
    }
  }

  /** Over every run, whatever the clock does, two repairs are at least the interval apart. */
  lemma {:induction false} RepairsArePaced(c: Loop, w: World, steps: seq<Step>, i: nat, j: nat)
    requires i < j < |steps| && DueAt(c, w, steps, i) && DueAt(c, w, steps, j)
    ensures steps[j].env.now - steps[i].env.now >= RECONCILE_INTERVAL
  {
    assert steps[..j][..i] == steps[..i];
    RepairClockRises(c, w, steps[..j], i);
  }

  /** The loop takes its symbol from the last readable message, well-formed or not. */
  lemma {:induction false} SymbolFollowsLastMessage(c: Loop, w: World, steps: seq<Step>)
    ensures RunTurns(c, w, steps).0.symbol == LastSymbol(c.symbol, steps)
    decreases |steps|
  {
    if steps == [] {
    } else {
      SymbolFollowsLastMessage(c, w, steps[..|steps|-1]);
    }
  }

  function LastSymbol(initial: string, steps: seq<Step>): string {
    if steps == [] then initial
    else if steps[|steps|-1].m.Payload? then steps[|steps|-1].m.symbol
    else LastSymbol(initial, steps[..|steps|-1])
  }

  /** As long as the loop's symbol is another one, the rows of this one are left alone. */
  lemma {:induction false} ForeignSymbolKeepsRows(c: Loop, w: World, steps: seq<Step>)
    requires c.symbol != SYMBOL && c.symbol != ""
    requires forall i :: 0 <= i < |steps| ==> !steps[i].m.Payload?
    ensures RunTurns(c, w, steps).1.positions == w.positions && RunTurns(c, w, steps).0.symbol == c.symbol
    decreases |steps|
  {
    if steps == [] {
    } else {
      ForeignSymbolKeepsRows(c, w, steps[..|steps|-1]);
    }
  }

  /** A repair without a symbol that changes nothing: it could not read the rows, they hold
      next to nothing, or the first of them could not be closed. */
  predicate BlankRepairIdles(ps: seq<Position>, obs: Observation, minOrder: real) {
    obs.rowsReadRaises || QtyAgrees(VisibleQty(ps), 0.0, obs.price, minOrder) || obs.closeLimit == 0
  }

  lemma BlankBranch(localQty: real, price: real, minOrder: real)
    requires minOrder > 0.0 && !QtyAgrees(localQty, 0.0, price, minOrder)
    ensures Branch(localQty, 0.0, price, minOrder) in {OrphanClosed, DustClosed}
  {
    assert Worth(price, 0.0) == 0.0;
  }

  lemma SomethingClosed(ps: seq<Position>, obs: Observation)
    requires VisibleIds(ps) != [] && obs.closeLimit > 0
    ensures CloseSeen(ps, obs) != ps
  {
    var ids := Upto(VisibleIds(ps), obs.closeLimit);
    VisibleClosable(ps);
    CloseRowsEffect(ps, ids, obs.price);
    assert ids[0] in ids && ps[ids[0]].status == Open;
    assert CloseSeen(ps, obs)[ids[0]].status == Closed;
  }

  /** A repair under an empty symbol takes every row it sees for an orphan: it leaves the
      table alone if and only if it idles, and otherwise closes the rows seen, although the
      coins are still held. */
  lemma BlankRepairIff(ps: seq<Position>, obs: Observation, minOrder: real)
    requires minOrder > 0.0
    ensures RepairUnder("", ps, obs, minOrder) ==
            if BlankRepairIdles(ps, obs, minOrder) then ps else CloseSeen(ps, obs)
    ensures RepairUnder("", ps, obs, minOrder) == ps <==> BlankRepairIdles(ps, obs, minOrder)
  {
    var seen := obs.(exchangeQty := 0.0);
    assert CloseSeen(ps, seen) == CloseSeen(ps, obs);
    AgreementIsNoop(VisibleQty(ps), 0.0, obs.price, minOrder);
    if !obs.rowsReadRaises && !QtyAgrees(VisibleQty(ps), 0.0, obs.price, minOrder) {
      BlankBranch(VisibleQty(ps), obs.price, minOrder);
      if obs.closeLimit == 0 {
        assert Upto(VisibleIds(ps), 0) == [];
      } else {
        assert VisibleIds(ps) != [];
        SomethingClosed(ps, obs);
      }
    }
  }

  /** Rows are kept or closed, and none is opened. */
  predicate OnlyCloses(ps: seq<Position>, qs: seq<Position>) {
    |ps| == |qs| &&
    forall k :: 0 <= k < |ps| ==>
      qs[k] == ps[k] || (ps[k].status == Open && qs[k].status == Closed && qs[k].quantity == ps[k].quantity)
  }

  lemma BlankRepairOnlyCloses(ps: seq<Position>, obs: Observation, minOrder: real)
    requires minOrder > 0.0
    ensures OnlyCloses(ps, RepairUnder("", ps, obs, minOrder))
  {
    BlankRepairIff(ps, obs, minOrder);
    VisibleClosable(ps);
    CloseRowsEffect(ps, Upto(VisibleIds(ps), obs.closeLimit), obs.price);
  }

  /** What was closed stays closed. */
  lemma ClosedForGood(ps: seq<Position>, qs: seq<Position>, rs: seq<Position>)
    requires OnlyCloses(ps, qs) && OnlyCloses(qs, rs)
    ensures OnlyCloses(ps, rs) && (rs == ps ==> qs == ps)
  {
    if rs == ps {
      forall k | 0 <= k < |ps| ensures qs[k] == ps[k] {
        assert rs[k] == ps[k];
      }
    }
  }

  /** A turn in which the repair is not due or idles on the given rows. */
  predicate IdleTurn(c: Loop, ps: seq<Position>, env: Env) {
    !RepairDue(c, env) || BlankRepairIdles(ps, env.obs, env.minOrder)
  }

  lemma BlankTurn(c: Loop, w: World, m: Raw, env: Env)
    requires c.symbol == "" && !m.Payload? && env.minOrder > 0.0
    ensures var t := TurnOf(c, w, m, env);
            t.0.symbol == "" && OnlyCloses(w.positions, t.1.positions) &&
            (t.1.positions == w.positions <==> IdleTurn(c, w.positions, env))
  {
    BlankRepairIff(w.positions, env.obs, env.minOrder);
    BlankRepairOnlyCloses(w.positions, env.obs, env.minOrder);
  }

  /** In every turn of the run, the repair is not due or idles on the rows of w. */
  predicate AllIdle(c: Loop, w: World, steps: seq<Step>) {
    steps != [] ==>
      var n := |steps| - 1;
      AllIdle(c, w, steps[..n]) && IdleTurn(RunTurns(c, w, steps[..n]).0, w.positions, steps[n].env)
  }

  lemma BlankTurnAfter(c: Loop, w: World, ps: seq<Position>, m: Raw, env: Env)
    requires c.symbol == "" && !m.Payload? && env.minOrder > 0.0 && OnlyCloses(ps, w.positions)
    ensures var t := TurnOf(c, w, m, env);
            t.0.symbol == "" && OnlyCloses(ps, t.1.positions) &&
            (t.1.positions == ps <==> w.positions == ps && IdleTurn(c, ps, env))
  {
    BlankTurn(c, w, m, env);
    ClosedForGood(ps, w.positions, TurnOf(c, w, m, env).1.positions);
  }

  /** A message without a symbol is skipped, yet the loop keeps the empty symbol. Until the
      next message, rows are only ever closed, and the table stays as it is if and only if
      every turn's repair is not due or idles on it. */
  lemma {:induction false} BlankMessageLosesRowsIff(c: Loop, w: World, steps: seq<Step>)
    requires c.symbol == ""
    requires forall i :: 0 <= i < |steps| ==> !steps[i].m.Payload? && steps[i].env.minOrder > 0.0
    ensures RunTurns(c, w, steps).0.symbol == "" && OnlyCloses(w.positions, RunTurns(c, w, steps).1.positions)
    ensures RunTurns(c, w, steps).1.positions == w.positions <==> AllIdle(c, w, steps)
    decreases |steps|
  {
    if steps == [] {
    } else {
      var n := |steps| - 1;
      var (c1, w1) := RunTurns(c, w, steps[..n]);
      BlankMessageLosesRowsIff(c, w, steps[..n]);
      BlankTurnAfter(c1, w1, w.positions, steps[n].m, steps[n].env);
    }
  }

  /** The smallest such loss: one coin held at 10 in one row, a message without a symbol, and
      the repair due 300 seconds later closes the row. */
  lemma BlankMessageClosesHeldRow()
    ensures var held := [LongRow(10.0, 1.0)];
            var w := World(map[], [], [], held);
            var env := Env(300.0, Observation(1.0, 10.0, false, 1, false), 5.0,
                           None, Rejected, {}, 0, Clock(0.0, 0.0, 0.0, 0.0));
            var t := TurnOf(Loop(SYMBOL, 300.0, 300.0), w, Payload("", "", "", Some(0.0)), env);
            t.1.positions == held && OpenIds(TurnOf(t.0, t.1, Timeout, env.(now := 600.0)).1.positions) == []
  {
    var held := [LongRow(10.0, 1.0)];
    var obs := Observation(1.0, 10.0, false, 1, false);
    LongRowIsPriced(10.0, 1.0);
    assert held == [] + [LongRow(10.0, 1.0)];
    OpenedIds([], LongRow(10.0, 1.0));
    assert VisibleIds(held) == [0] && VisibleQty(held) == 1.0 by {
      SumAfterOpening([], LongRow(10.0, 1.0), []);
      assert [0] + [] == [0];
    }
    assert !QtyAgrees(1.0, 0.0, 10.0, 5.0) by { assert Abs(1.0 - 0.0) == 1.0 && Worth(10.0, 1.0) == 10.0; }
    BlankRepairIff(held, obs, 5.0);
    CloseVisibleClosesAll(held, 10.0);
    NoneOpenIds(CloseSeen(held, obs));
  }

  /** A due repair of this symbol leaves the table in agreement with what was observed
      before the message of the same turn is handled. */
  lemma DueRepairConverges(c: Loop, w: World, env: Env)
    requires c.symbol == SYMBOL && RepairDue(c, env)
    requires |OpenIds(w.positions)| < ROW_LIMIT && env.minOrder > 0.0 && env.obs.exchangeQty >= 0.0
    requires Repair(w.positions, env.obs, env.minOrder).1 != Failed
    ensures Agrees(Upkeep(c, w, env).1.positions, env.obs, env.minOrder)
  {
    RepairConverges(w.positions, env.obs, env.minOrder);
  }

  class ExecutorConsumer {
    const executor: Executor
    var symbol: string
    var lastBeat: real
    var lastReconcile: real

    constructor (executor: Executor)
      ensures this.executor == executor && View() == Loop(SYMBOL, 0.0, 0.0)
    {
      this.executor := executor;
      symbol := SYMBOL;
      lastBeat := 0.0;
      lastReconcile := 0.0;
    }

    ghost function View(): Loop
      reads this
    {
      Loop(symbol, lastBeat, lastReconcile)
    }

    method DoUpkeep(env: Env)
      modifies this, executor, executor.redis, executor.db
      ensures (View(), executor.State()) == Upkeep(old(View()), old(executor.State()), env)
    {
      if env.now - lastBeat >= BEAT_INTERVAL {
        executor.redis.SetValue(BEAT_KEY, "beat", Some(BEAT_TTL), env.now);
        lastBeat := env.now;
      }
      if env.now - lastReconcile >= RECONCILE_INTERVAL {
        var seen := ObservedUnder(symbol, env.obs);
        if seen.Some? {
          var outcome := executor.Reconcile(seen.value, env.minOrder);
        }
        lastReconcile := env.now;
      }
    }

    method OneTurn(m: Raw, env: Env) returns (result: Option<Result>)
      modifies this, executor, executor.redis, executor.db
      ensures (View(), executor.State(), result) == TurnOf(old(View()), old(executor.State()), m, env)
    {
      DoUpkeep(env);
      result := None;
      if m.Payload? {
        symbol := m.symbol;
        if m.price.Some? && m.symbol == SYMBOL && m.sigId != "" {
          if m.side == "buy" {
            var r := executor.ExecuteBuy(CallOf(m, env), env.clock);
            result := Some(r);
          } else if m.side == "sell" {
            var r := executor.ExecuteSell(CallOf(m, env), env.clock);
            result := Some(r);
          }
        }
      }
    }
  }
}
