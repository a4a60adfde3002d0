/**
 Concrete runs that show why the hypotheses of the protocol theorems are needed.
 */
module ProtocolLimits {
  import opened Prelude
  import opened RedisStore
  import opened TradeLedger
  import opened ExecutorSteps
  import opened Reconciliation
  import opened Protocol
  import opened ExecutorLaws

  const EMPTY_WORLD := World(map[], [], [], [])
  const EMPTY_SYSTEM := System(EMPTY_WORLD, 0.0, map[], [])
  const BUY_ONE := Call(BuyIntent(Some(1.0)), "s", 10.0, Accepted(Some(1.0)), {}, 0)

  lemma Cons(s: System, e: Event, rest: seq<Event>)
    requires Enabled(s, e)
    ensures After(s, [e] + rest) == After(Next(s, e), rest)
    ensures KeepsMark(s, e) ==> (MarkingRun(s, [e] + rest) <==> MarkingRun(Next(s, e), rest))
    ensures Timely(Next(s, e)) ==> (TimelyRun(s, [e] + rest) <==> TimelyRun(Next(s, e), rest))
  {
    assert ([e] + rest)[1..] == rest;
  }

  /** Running es from s is running rest from s', and if s' is timely, as timely. */
  ghost predicate Leads(s: System, es: seq<Event>, s': System, rest: seq<Event>) {
    && After(s, es) == After(s', rest)
    && (MarkingRun(s, es) <==> MarkingRun(s', rest))
    && (Timely(s') ==> (TimelyRun(s, es) <==> TimelyRun(s', rest)))
  }

  lemma LeadsOn(s0: System, es0: seq<Event>, s1: System, es1: seq<Event>, s2: System, es2: seq<Event>)
    requires Leads(s0, es0, s1, es1) && Leads(s1, es1, s2, es2) && (Timely(s2) ==> Timely(s1))
    ensures Leads(s0, es0, s2, es2)
  {
  }

  /** A system whose calls inside are still inside later was timely if it is so later. */
  lemma WasTimely(s: System, later: System)
    requires s.now <= later.now
    requires forall q :: Inside(s, q) ==> Inside(later, q) && s.procs[q].acquiredAt == later.procs[q].acquiredAt
    ensures Timely(later) ==> Timely(s)
  {
  }

  /** Three steps of a call. */
  function ThreeSteps(p: nat, at: real, rest: seq<Event>): seq<Event> {
    [Run(p, at)] + ([Run(p, at)] + ([Run(p, at)] + rest))
  }

  /** A buy on an empty world up to the moment before its order, in five events. */
  function UpToOrder(p: nat, at: real, rest: seq<Event>): seq<Event> {
    [Begin(p, BUY_ONE)] + ([Run(p, at)] + ThreeSteps(p, at, rest))
  }

  function ReadyToOrder(at: real): Local {
    Start(BUY_ONE).(pc := Place, acquiredAt := at, checkedAt := at)
  }

  function LockedWorld(w: World, at: real): World {
    w.(store := w.store[LOCK_KEY := Entry("1", Some(at + LOCK_TTL))])
  }

  /** One step of a call that is not its last one. */
  lemma SoloStep(s: System, p: nat, at: real, w': World, l': Local, rest: seq<Event>)
    requires Enabled(s, Run(p, at)) && KeepsMark(s, Run(p, at))
    requires MicroStep(s.world, s.procs[p], at) == (w', l') && l'.pc != Finished
    ensures Leads(s, [Run(p, at)] + rest, System(w', at, s.procs[p := l'], s.log), rest)
  {
    Cons(s, Run(p, at), rest);
  }

  lemma BeginStep(s: System, p: nat, rest: seq<Event>)
    requires p !in s.procs
    ensures Leads(s, [Begin(p, BUY_ONE)] + rest, s.(procs := s.procs[p := Start(BUY_ONE)]), rest)
  {
    Cons(s, Begin(p, BUY_ONE), rest);
  }

  lemma BuyEnters(w: World, at: real)
    requires Expired(w.store, LOCK_KEY, at)
    ensures MicroStep(w, Start(BUY_ONE), at) ==
            (LockedWorld(w, at), Entered(at))
  {
    assert Evict(w.store, LOCK_KEY, at)[LOCK_KEY := Entry("1", Some(at + LOCK_TTL))] == LockedWorld(w, at).store;
  }

  lemma BuyPasses(w: World, l: Local, at: real)
    requires l.call == BUY_ONE && ProcessedKey(BUY_ONE.sigId) !in w.store && VisibleIds(w.positions) == []
    ensures l.pc == CheckProcessed ==> MicroStep(w, l, at) == (w, l.(pc := ReadRows, checkedAt := at))
    ensures l.pc == ReadRows ==> MicroStep(w, l, at) == (w, l.(pc := Size))
    ensures l.pc == Size ==> MicroStep(w, l, at) == (w, l.(pc := Place))
  {
    assert w.store - {ProcessedKey(BUY_ONE.sigId)} == w.store;
  }

  function Entered(at: real): Local {
    Start(BUY_ONE).(pc := CheckProcessed, acquiredAt := at)
  }

  lemma CheckedBuyReaches(s: System, p: nat, at: real, rest: seq<Event>)
    requires s.now == at && p in s.procs && s.procs[p] == Entered(at)
    requires ProcessedKey(BUY_ONE.sigId) !in s.world.store && VisibleIds(s.world.positions) == []
    ensures Leads(s, ThreeSteps(p, at, rest), s.(procs := s.procs[p := ReadyToOrder(at)]), rest)
  {
    var l1 := Entered(at);
    var l2 := l1.(pc := ReadRows, checkedAt := at);
    var l3 := l2.(pc := Size);
    var s2 := s.(procs := s.procs[p := l2]);
    var s3 := s.(procs := s2.procs[p := l3]);
    BuyPasses(s.world, l1, at);
    BuyPasses(s.world, l2, at);
    BuyPasses(s.world, l3, at);
    var s4 := s.(procs := s.procs[p := ReadyToOrder(at)]);
    var es1, es2 := [Run(p, at)] + ([Run(p, at)] + rest), [Run(p, at)] + rest;
    SoloStep(s, p, at, s.world, l2, es1);
    SoloStep(s2, p, at, s.world, l3, es2);
    SoloStep(s3, p, at, s.world, ReadyToOrder(at), rest);
    assert s3.procs[p := ReadyToOrder(at)] == s4.procs;
    WasTimely(s2, s3);
    LeadsOn(s, ThreeSteps(p, at, rest), s2, es1, s3, es2);
    WasTimely(s3, s4);
    LeadsOn(s, ThreeSteps(p, at, rest), s3, es2, s4, rest);
  }

  lemma BegunBuyEnters(s: System, p: nat, at: real, rest: seq<Event>)
    requires s.now <= at && p in s.procs && s.procs[p] == Start(BUY_ONE) && Expired(s.world.store, LOCK_KEY, at)
    ensures Leads(s, [Run(p, at)] + rest, System(LockedWorld(s.world, at), at, s.procs[p := Entered(at)], s.log), rest)
  {
    BuyEnters(s.world, at);
    SoloStep(s, p, at, LockedWorld(s.world, at), Entered(at), rest);
  }

  function EnteredSystem(s: System, p: nat, at: real): System {
    System(LockedWorld(s.world, at), at, s.procs[p := Entered(at)], s.log)
  }

  lemma EntryReaches(s: System, p: nat, at: real, rest: seq<Event>)
    requires s.now <= at && p !in s.procs && Expired(s.world.store, LOCK_KEY, at)
    ensures Leads(s, [Begin(p, BUY_ONE)] + ([Run(p, at)] + rest), EnteredSystem(s, p, at), rest)
  {
    var s0 := s.(procs := s.procs[p := Start(BUY_ONE)]);
    var s1 := EnteredSystem(s, p, at);
    BeginStep(s, p, [Run(p, at)] + rest);
    assert s0.procs[p := Entered(at)] == s1.procs;
    BegunBuyEnters(s0, p, at, rest);
    WasTimely(s0, s1);
    LeadsOn(s, [Begin(p, BUY_ONE)] + ([Run(p, at)] + rest), s0, [Run(p, at)] + rest, s1, rest);
  }

  lemma UpToOrderReaches(s: System, p: nat, at: real, rest: seq<Event>)
    requires s.now <= at && p !in s.procs && Expired(s.world.store, LOCK_KEY, at)
    requires ProcessedKey(BUY_ONE.sigId) !in s.world.store && VisibleIds(s.world.positions) == []
    ensures Leads(s, UpToOrder(p, at, rest),
                  System(LockedWorld(s.world, at), at, s.procs[p := ReadyToOrder(at)], s.log), rest)
  {
    ProcessedKeysDiffer(BUY_ONE.sigId, BUY_ONE.sigId, SYMBOL);
    var es := ThreeSteps(p, at, rest);
    var s1 := EnteredSystem(s, p, at);
    var s2 := s1.(procs := s1.procs[p := ReadyToOrder(at)]);
    EntryReaches(s, p, at, es);
    CheckedBuyReaches(s1, p, at, rest);
    WasTimely(s1, s2);
    LeadsOn(s, UpToOrder(p, at, rest), s1, es, s2, rest);
    assert s2.procs == s.procs[p := ReadyToOrder(at)];
  }

  /** Two calls of the same buy, both checked, both place their order. */
  lemma BothOrder(s: System)
    requires s.world.fills == [] && s.now == 11.0
    requires s.procs == map[0 := ReadyToOrder(0.0), 1 := ReadyToOrder(11.0)]
    ensures var es := [Run(1, 11.0)] + ([Run(0, 11.0)] + []);
            MarkingRun(s, es) &&
            After(s, es).world.fills == [Fill("s", Buy, 11.0, 11.0), Fill("s", Buy, 0.0, 11.0)] &&
            Inside(After(s, es), 0) && Inside(After(s, es), 1)
  {
    var s3 := Next(s, Run(1, 11.0));
    Cons(s, Run(1, 11.0), [Run(0, 11.0)] + []);
    Cons(s3, Run(0, 11.0), []);
    assert After(Next(s3, Run(0, 11.0)), []) == Next(s3, Run(0, 11.0));
  }

  /** A call that outlives the lock loses its protection: a second call with the same
      signal id gets in, both order, and the signal is filled twice within the hour. No
      error and no crash is involved, only slowness. */
  lemma SlowHolderFillsTwice() returns (es: seq<Event>)
    ensures MarkingRun(EMPTY_SYSTEM, es) && !SafeRun(EMPTY_SYSTEM, es)
    ensures !FillsSpaced(After(EMPTY_SYSTEM, es).world.fills)
    ensures Inside(After(EMPTY_SYSTEM, es), 0) && Inside(After(EMPTY_SYSTEM, es), 1)
  {
    var tail := [Run(1, 11.0)] + ([Run(0, 11.0)] + []);
    es := UpToOrder(0, 0.0, UpToOrder(1, 11.0, tail));
    UpToOrderReaches(EMPTY_SYSTEM, 0, 0.0, UpToOrder(1, 11.0, tail));
    var s1 := System(LockedWorld(EMPTY_WORLD, 0.0), 0.0, map[0 := ReadyToOrder(0.0)], []);
    assert EMPTY_SYSTEM.procs[0 := ReadyToOrder(0.0)] == s1.procs;
    ProcessedKeysDiffer("s", "s", SYMBOL);
    UpToOrderReaches(s1, 1, 11.0, tail);
    var s2 := System(LockedWorld(s1.world, 11.0), 11.0, s1.procs[1 := ReadyToOrder(11.0)], []);
    BothOrder(s2);
    var fills := After(EMPTY_SYSTEM, es).world.fills;
    assert fills[0].sigId == fills[1].sigId;
    FreshSystemIsSafe(EMPTY_WORLD, 0.0);
    if SafeRun(EMPTY_SYSTEM, es) {
      AtMostOnce(EMPTY_SYSTEM, es);
    }
  }

  /** One coin on the exchange at price 10. */
  const ONE_COIN := Observation(1.0, 10.0, false, 0, false)

  /** A buy of one coin between its trade and its row, and the same after a repair. */
  function RowPending(repaired: bool): System {
    System(LockedWorld(EMPTY_WORLD, 0.0).(
             fills := [Fill("s", Buy, 0.0, 0.0)],
             trades := [NewTrade(Buy, 1.0, 10.0, None)],
             positions := if repaired then [ExchangeRow(ONE_COIN)] else []),
           0.0, map[0 := ReadyToOrder(0.0).(pc := WriteRow)],
           if repaired then [DoneRepair(ONE_COIN, 5.0)] else [])
  }

  lemma OrderAndTrade(rest: seq<Event>)
    ensures var s := System(LockedWorld(EMPTY_WORLD, 0.0), 0.0, map[0 := ReadyToOrder(0.0)], []);
            Leads(s, [Run(0, 0.0)] + ([Run(0, 0.0)] + rest), RowPending(false), rest)
  {
    var w := LockedWorld(EMPTY_WORLD, 0.0);
    var s := System(w, 0.0, map[0 := ReadyToOrder(0.0)], []);
    var w1 := w.(fills := [Fill("s", Buy, 0.0, 0.0)]);
    var l1 := ReadyToOrder(0.0).(pc := WriteTrade);
    var s1 := System(w1, 0.0, s.procs[0 := l1], []);
    assert w.fills + w1.fills == w1.fills;
    assert PlaceStep(w, ReadyToOrder(0.0), 0.0) == (w1, l1);
    SoloStep(s, 0, 0.0, w1, l1, [Run(0, 0.0)] + rest);
    assert w1.trades + RowPending(false).world.trades == RowPending(false).world.trades;
    assert WriteTradeStep(w1, l1) == (RowPending(false).world, l1.(pc := WriteRow));
    SoloStep(s1, 0, 0.0, RowPending(false).world, l1.(pc := WriteRow), rest);
    assert s1.procs[0 := l1.(pc := WriteRow)] == RowPending(false).procs;
    LeadsOn(s, [Run(0, 0.0)] + ([Run(0, 0.0)] + rest), s1, [Run(0, 0.0)] + rest, RowPending(false), rest);
  }

  lemma RepairOpensOneCoin(rest: seq<Event>)
    ensures Leads(RowPending(false), [RepairNow(ONE_COIN, 5.0)] + rest, RowPending(true), rest)
  {
    assert !OpensNothing(ONE_COIN, 5.0);
    RepairOfEmptyTable([], ONE_COIN, 5.0);
    assert [] + [ExchangeRow(ONE_COIN)] == [ExchangeRow(ONE_COIN)];
    assert Next(RowPending(false), RepairNow(ONE_COIN, 5.0)) == RowPending(true);
    Cons(RowPending(false), RepairNow(ONE_COIN, 5.0), rest);
  }

  lemma SecondRow()
    ensures var es := [Run(0, 0.0)] + [];
            MarkingRun(RowPending(true), es) && TimelyRun(RowPending(true), es) &&
            OpenIds(After(RowPending(true), es).world.positions) == [1, 0]
  {
    var s := RowPending(true);
    var row := OpenedRow(BUY_ONE);
    var s' := Next(s, Run(0, 0.0));
    assert s'.world.positions == [ExchangeRow(ONE_COIN)] + [row];
    assert Timely(s');
    Cons(s, Run(0, 0.0), []);
    OpenedIds([], ExchangeRow(ONE_COIN));
    assert [] + [ExchangeRow(ONE_COIN)] == [ExchangeRow(ONE_COIN)];
    OpenedIds([ExchangeRow(ONE_COIN)], row);
    assert After(s', []) == s';
  }

  /** The repair takes no lock. In a run that starts empty, is timely and meets no error, a
      repair between a buy's trade and its row opens a row for the new balance, and the buy
      then opens another one for the same coins. */
  lemma RepairInsideDoublesRow() returns (es: seq<Event>)
    ensures TimelyRun(EMPTY_SYSTEM, es) && SafeRun(EMPTY_SYSTEM, es) && MarkingRun(EMPTY_SYSTEM, es)
    ensures OpenIds(After(EMPTY_SYSTEM, es).world.positions) == [1, 0]
  {
    var last := [Run(0, 0.0)] + [];
    var tail := [RepairNow(ONE_COIN, 5.0)] + last;
    var order := [Run(0, 0.0)] + ([Run(0, 0.0)] + tail);
    es := UpToOrder(0, 0.0, order);
    var s1 := System(LockedWorld(EMPTY_WORLD, 0.0), 0.0, map[0 := ReadyToOrder(0.0)], []);
    assert EMPTY_SYSTEM.procs[0 := ReadyToOrder(0.0)] == s1.procs;
    UpToOrderReaches(EMPTY_SYSTEM, 0, 0.0, order);
    OrderAndTrade(tail);
    RepairOpensOneCoin(last);
    SecondRow();
    assert Timely(s1) && Timely(RowPending(false)) && Timely(RowPending(true));
    TimelyRunIsSafe(EMPTY_SYSTEM, es);
  }
}
