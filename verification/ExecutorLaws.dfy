/**
 What the executor's calls do to the two tables: the laws that hold over every run, with
 every interleaving and every failure, and their exact forms for single calls.
 */
module ExecutorLaws {
  import opened Prelude
  import opened TradeLedger
  import opened ExecutorSteps
  import opened Reconciliation
  import opened Protocol

  // ---------------------------------------------------------------------------
  // Conservation between the trade log and the positions table
  // ---------------------------------------------------------------------------

  /** The distance between the two tables: what the trade log says is invested, minus the
      cost of open rows, plus the profit realised on closed ones. */
  function Discrepancy(w: World): real {
    TotalInvested(w.trades) - (OpenCost(w.positions) - RealisedPnl(w.positions))
  }

  /** Quantity the trade log holds beyond the open rows. */
  function QtyDrift(w: World): real {
    NetQty(w.trades) - OpenQty(w.positions)
  }

  /** Any single step, failed or not, moves the discrepancy by its price times the drift
      it causes. */
  lemma StepConserves(w: World, l: Local, at: real)
    requires RowsPriced(w.positions)
    ensures var w' := MicroStep(w, l, at).0;
            RowsPriced(w'.positions) &&
            Discrepancy(w') - Discrepancy(w) == Worth(l.call.price, QtyDrift(w') - QtyDrift(w))
  {
    if l.pc == WriteTrade {
      TradeConserves(w, l);
    } else if l.pc == WriteRow {
      var w' := MicroStep(w, l, at).0;
      if WriteRow !in l.call.faults {
        RowConserves(w, w', l.call.price, RecordedQty(l.call));
      } else {
        StandingStill(w, w', l.call.price);
      }
    } else if l.pc == CloseNext {
      CloseConserves(w, l);
    } else {
      OtherStepsKeepTables(w, l, at);
      StandingStill(w, MicroStep(w, l, at).0, l.call.price);
    }
  }

  lemma OtherStepsKeepTables(w: World, l: Local, at: real)
    requires l.pc !in {WriteTrade, WriteRow, CloseNext}
    ensures var w' := MicroStep(w, l, at).0; w'.trades == w.trades && w'.positions == w.positions
  {
  }

  lemma OtherStepsKeepRows(w: World, l: Local, at: real)
    requires l.pc !in {WriteRow, CloseNext}
    ensures MicroStep(w, l, at).0.positions == w.positions
  {
  }

  lemma TradeConserves(w: World, l: Local)
    requires l.pc == WriteTrade && RowsPriced(w.positions)
    ensures var w' := WriteTradeStep(w, l).0;
            w'.positions == w.positions &&
            Discrepancy(w') - Discrepancy(w) == Worth(l.call.price, QtyDrift(w') - QtyDrift(w))
  {
    var w' := WriteTradeStep(w, l).0;
    if WriteTrade in l.call.faults {
      StandingStill(w, w', l.call.price);
    } else {
      var q := RecordedQty(l.call);
      var t := NewTrade(SideOf(l.call), q, l.call.price, None);
      assert w'.trades == w.trades + [t];
      TradeTotals(w.trades, t);
      TradeWorth(SideOf(l.call), q, l.call.price);
      TradeMovesDrift(w, w', t);
    }
  }

  lemma StandingStill(w: World, w': World, price: real)
    requires w'.trades == w.trades && w'.positions == w.positions
    ensures Discrepancy(w') - Discrepancy(w) == Worth(price, QtyDrift(w') - QtyDrift(w))
  {
    assert QtyDrift(w') - QtyDrift(w) == 0.0;
  }

  lemma TradeMovesDrift(w: World, w': World, t: Trade)
    requires w'.positions == w.positions
    requires NetQty(w'.trades) == NetQty(w.trades) + Signed(t, t.quantity)
    requires TotalInvested(w'.trades) == TotalInvested(w.trades) + Signed(t, t.dollarAmount)
    requires Signed(t, t.dollarAmount) == Worth(t.price, Signed(t, t.quantity))
    ensures Discrepancy(w') - Discrepancy(w) == Worth(t.price, QtyDrift(w') - QtyDrift(w))
  {
    assert QtyDrift(w') - QtyDrift(w) == Signed(t, t.quantity);
  }

  lemma RowConserves(w: World, w': World, price: real, q: real)
    requires RowsPriced(w.positions)
    requires w'.trades == w.trades && w'.positions == w.positions + [LongRow(price, q)]
    ensures RowsPriced(w'.positions)
    ensures Discrepancy(w') - Discrepancy(w) == Worth(price, QtyDrift(w') - QtyDrift(w))
  {
    OpenMovesBook(w.positions, price, q);
    DriftOpposesBook(w, w', price);
  }

  lemma CloseConserves(w: World, l: Local)
    requires l.pc == CloseNext && RowsPriced(w.positions)
    ensures var w' := CloseNextStep(w, l).0;
            RowsPriced(w'.positions) &&
            Discrepancy(w') - Discrepancy(w) == Worth(l.call.price, QtyDrift(w') - QtyDrift(w))
  {
    var w' := CloseNextStep(w, l).0;
    if w' != w {
      CloseMovesBook(w.positions, l.toClose[0], l.call.price);
      DriftOpposesBook(w, w', l.call.price);
    } else {
      StandingStill(w, w', l.call.price);
    }
  }

  /** When only the positions move, and the book by price times open quantity, the
      discrepancy moves by price times the drift. */
  lemma DriftOpposesBook(w: World, w': World, price: real)
    requires w'.trades == w.trades
    requires Book(w'.positions) - Book(w.positions) == Worth(price, OpenQty(w'.positions) - OpenQty(w.positions))
    ensures Discrepancy(w') - Discrepancy(w) == Worth(price, QtyDrift(w') - QtyDrift(w))
  {
    NegatedWorth(price, OpenQty(w'.positions) - OpenQty(w.positions));
  }

  /** The price an event works at. */
  function EventPrice(s: System, e: Event): real {
    match e
    case Run(p, _) => if p in s.procs then s.procs[p].call.price else 0.0
    case RepairNow(obs, _) => obs.price
    case RepairCloses(_, price) => price
    case RepairOpens(price, _) => price
    case _ => 0.0
  }

  /** Quantity of a row while it is open. */
  function RowQty(ps: seq<Position>, id: nat): real {
    if id < |ps| then QtyIfOpen(ps[id]) else 0.0
  }

  /** The quantity by which a step moves the trade log ahead of the open rows: what a trade
      records with its sign, what a row closes, and minus what a row opens. */
  function StepQty(w: World, l: Local): real {
    if l.pc == WriteTrade && WriteTrade !in l.call.faults then
      (if l.call.intent.BuyIntent? then RecordedQty(l.call) else -RecordedQty(l.call))
    else if l.pc == WriteRow && WriteRow !in l.call.faults then -RecordedQty(l.call)
    else if l.pc == CloseNext && l.toClose != [] && l.closed < l.call.closeLimit then RowQty(w.positions, l.toClose[0])
    else 0.0
  }

  /** The same for an event; a repair moves it by what it closes minus what it recreates. */
  function EventQty(s: System, e: Event): real {
    match e
    case Run(p, _) => if p in s.procs then StepQty(s.world, s.procs[p]) else 0.0
    case RepairNow(obs, minOrder) =>
      RepairClosed(s.world.positions, obs, minOrder) - RepairOpened(s.world.positions, obs, minOrder)
    case RepairCloses(id, _) => RowQty(s.world.positions, id)
    case RepairOpens(_, qty) => -qty
    case _ => 0.0
  }

  /** The exact residue of a run: price times quantity, event by event. */
  function Residue(s: System, es: seq<Event>): real
    decreases |es|
  {
    if es == [] || !Enabled(s, es[0]) then 0.0
    else Worth(EventPrice(s, es[0]), EventQty(s, es[0])) + Residue(Next(s, es[0]), es[1..])
  }

  lemma CloseRowQuantity(ps: seq<Position>, id: nat, price: real)
    ensures OpenQty(CloseRow(ps, id, price)) == OpenQty(ps) - RowQty(ps, id)
  {
    if id < |ps| && ps[id].status == Open {
      CloseRowTotals(ps, id, price);
    }
  }

  lemma OpenRowQuantity(ps: seq<Position>, price: real, qty: real)
    ensures OpenQty(ps + [LongRow(price, qty)]) == OpenQty(ps) + qty
  {
    LongRowIsPriced(price, qty);
    OpenRowTotals(ps, LongRow(price, qty));
  }

  lemma StepDrifts(w: World, l: Local, at: real)
    ensures var w' := MicroStep(w, l, at).0; QtyDrift(w') - QtyDrift(w) == StepQty(w, l)
  {
    if l.pc == WriteTrade {
      TradeTotals(w.trades, NewTrade(SideOf(l.call), RecordedQty(l.call), l.call.price, None));
    } else if l.pc == WriteRow {
      OpenRowQuantity(w.positions, l.call.price, RecordedQty(l.call));
    } else if l.pc == CloseNext {
      if l.toClose != [] {
        CloseRowQuantity(w.positions, l.toClose[0], l.call.price);
      }
    } else {
      OtherStepsKeepTables(w, l, at);
    }
  }

  lemma EventDrifts(s: System, e: Event)
    requires Enabled(s, e)
    ensures QtyDrift(Next(s, e).world) - QtyDrift(s.world) == EventQty(s, e)
  {
    var ps := s.world.positions;
    match e
    case Run(p, at) => StepDrifts(s.world, s.procs[p], at);
    case RepairNow(obs, minOrder) => RepairQuantities(ps, obs, minOrder);
    case RepairCloses(id, price) => CloseRowQuantity(ps, id, price);
    case RepairOpens(price, qty) => OpenRowQuantity(ps, price, qty);
    case Begin(_, _) =>
    case Crash(_) =>
  }

  lemma RepairConserves(w: World, obs: Observation, minOrder: real)
    requires RowsPriced(w.positions)
    ensures var w' := w.(positions := Repair(w.positions, obs, minOrder).0);
            RowsPriced(w'.positions) &&
            Discrepancy(w') - Discrepancy(w) == Worth(obs.price, QtyDrift(w') - QtyDrift(w))
  {
    var w' := w.(positions := Repair(w.positions, obs, minOrder).0);
    RepairMovesBook(w.positions, obs, minOrder);
    DriftOpposesBook(w, w', obs.price);
  }

  lemma OtherEventConserves(s: System, e: Event)
    requires Enabled(s, e) && !e.Run? && RowsPriced(s.world.positions)
    ensures var w' := Next(s, e).world;
            RowsPriced(w'.positions) &&
            Discrepancy(w') - Discrepancy(s.world) == Worth(EventPrice(s, e), QtyDrift(w') - QtyDrift(s.world))
  {
    var w, w' := s.world, Next(s, e).world;
    if e.RepairNow? {
      RepairConserves(w, e.obs, e.minOrder);
    } else if e.RepairCloses? {
      CloseMovesBook(w.positions, e.id, e.price);
      DriftOpposesBook(w, w', e.price);
    } else if e.RepairOpens? {
      OpenMovesBook(w.positions, e.price, e.qty);
      DriftOpposesBook(w, w', e.price);
    } else {
      assert w' == w;
      StandingStill(w, w, 0.0);
    }
  }

  lemma EventConserves(s: System, e: Event)
    requires Enabled(s, e) && RowsPriced(s.world.positions)
    ensures var w' := Next(s, e).world;
            RowsPriced(w'.positions) &&
            Discrepancy(w') - Discrepancy(s.world) == Worth(EventPrice(s, e), EventQty(s, e))
  {
    EventDrifts(s, e);
    if e.Run? {
      StepConserves(s.world, s.procs[e.p], e.at);
    } else {
      OtherEventConserves(s, e);
    }
  }

  lemma {:induction false} DiscrepancyGrowsByResidue(s: System, es: seq<Event>)
    requires RowsPriced(s.world.positions)
    ensures RowsPriced(After(s, es).world.positions)
    ensures Discrepancy(After(s, es).world) == Discrepancy(s.world) + Residue(s, es)
    decreases |es|
  {
    if es != [] && Enabled(s, es[0]) {
      var s' := Next(s, es[0]);
      EventConserves(s, es[0]);
      DiscrepancyGrowsByResidue(s', es[1..]);
      assert After(s, es) == After(s', es[1..]);
    }
  }

  /** Two-table conservation over every run: any number of executors, any interleaving
      with or without the lock being respected, repairs at any moment, whole or step by
      step, crashes, and every swallowed or raised database error. */
  lemma Conservation(s: System, es: seq<Event>)
    requires RowsPriced(s.world.positions)
    ensures var w' := After(s, es).world;
            RowsPriced(w'.positions) &&
            TotalInvested(w'.trades) ==
              OpenCost(w'.positions) - RealisedPnl(w'.positions) + Discrepancy(s.world) + Residue(s, es)
  {
    DiscrepancyGrowsByResidue(s, es);
  }

  // ---------------------------------------------------------------------------
  // At most one open row, always
  // ---------------------------------------------------------------------------

  /** Every open row has a positive quantity. */
  predicate OpenPositive(ps: seq<Position>) {
    forall k :: 0 <= k < |ps| && ps[k].status == Open ==> ps[k].quantity > 0.0
  }

  /** At most one open row, properly priced and of positive quantity. */
  predicate OneRow(ps: seq<Position>) {
    RowsPriced(ps) && OpenPositive(ps) && |OpenIds(ps)| <= 1
  }

  /** The exchange never reports an accepted order without a quantity. */
  predicate FillsSomething(call: Call) {
    call.order.Accepted? ==> RecordedQty(call) > 0.0
  }

  /** A buy past its check of the open rows. */
  predicate BuyCommitted(l: Local) {
    l.call.intent.BuyIntent? && l.pc in {Size, Place, WriteTrade, WriteRow}
  }

  /** A buy past that check still finds the table without open rows. */
  ghost predicate RowsGuarded(w: World, holder: Option<Local>) {
    OneRow(w.positions) &&
    (holder.Some? ==>
      (AwaitsMark(holder.value) ==> holder.value.call.order.Accepted?) &&
      (holder.value.pc == WriteRow ==> holder.value.call.intent.BuyIntent?) &&
      (BuyCommitted(holder.value) ==> OpenIds(w.positions) == []))
  }

  lemma CloseRowKeepsOneRow(ps: seq<Position>, id: nat, price: real)
    requires OneRow(ps)
    ensures OneRow(CloseRow(ps, id, price))
  {
    CloseRowOpenIds(ps, id, price);
    CloseMovesBook(ps, id, price);
  }

  lemma {:induction false} CloseRowOpenIds(ps: seq<Position>, id: nat, price: real)
    ensures |OpenIds(CloseRow(ps, id, price))| ==
            |OpenIds(ps)| - (if id < |ps| && ps[id].status == Open then 1 else 0)
    decreases |ps|
  {
    if ps == [] {
    } else {
      var n := |ps| - 1;
      var r := CloseRow(ps, id, price);
      if id < n {
        CloseRowOpenIds(ps[..n], id, price);
        assert r[..n] == CloseRow(ps[..n], id, price);
      } else {
        assert r[..n] == ps[..n];
      }
    }
  }

  lemma PositiveAppend(ps: seq<Position>, p: Position)
    requires OpenPositive(ps) && p.quantity > 0.0
    ensures OpenPositive(ps + [p])
  {
  }

  lemma OpeningKeepsOneRow(ps: seq<Position>, price: real, quantity: real)
    requires OneRow(ps) && OpenIds(ps) == [] && quantity > 0.0
    ensures OneRow(ps + [LongRow(price, quantity)])
  {
    var p := LongRow(price, quantity);
    LongRowIsPriced(price, quantity);
    PositiveAppend(ps, p);
    OpenedIds(ps, p);
  }

  lemma WriteRowKeepsRows(w: World, l: Local)
    requires l.pc == WriteRow && FillsSomething(l.call) && RowsGuarded(w, Some(l))
    ensures RowsGuarded(WriteRowStep(w, l).0, HolderAfter(WriteRowStep(w, l).1))
  {
    if WriteRow !in l.call.faults {
      OpeningKeepsOneRow(w.positions, l.call.price, RecordedQty(l.call));
    }
  }

  lemma CloseNextKeepsRows(w: World, l: Local)
    requires l.pc == CloseNext && RowsGuarded(w, Some(l))
    ensures RowsGuarded(CloseNextStep(w, l).0, HolderAfter(CloseNextStep(w, l).1))
  {
    if l.toClose != [] {
      CloseRowKeepsOneRow(w.positions, l.toClose[0], l.call.price);
    }
  }

  /** Whether a buy past its check is committed depends on the rows it read. */
  lemma OtherStepsKeepGuard(w: World, l: Local, at: real)
    requires InCriticalSection(l) && RowsGuarded(w, Some(l)) && l.pc !in {WriteRow, CloseNext}
    ensures RowsGuarded(MicroStep(w, l, at).0, HolderAfter(MicroStep(w, l, at).1))
  {
    OtherStepsKeepRows(w, l, at);
    NoneOpenIds(w.positions);
  }

  lemma StepKeepsRows(w: World, l: Local, at: real)
    requires InCriticalSection(l) && FillsSomething(l.call) && RowsGuarded(w, Some(l))
    ensures RowsGuarded(MicroStep(w, l, at).0, HolderAfter(MicroStep(w, l, at).1))
  {
    if l.pc == WriteRow {
      WriteRowKeepsRows(w, l);
    } else if l.pc == CloseNext {
      CloseNextKeepsRows(w, l);
    } else {
      OtherStepsKeepGuard(w, l, at);
    }
  }

  lemma {:induction false} CloseRowsKeepsOneRow(ps: seq<Position>, ids: seq<nat>, price: real)
    requires OneRow(ps)
    ensures OneRow(CloseRows(ps, ids, price))
    decreases |ids|
  {
    if ids == [] {
    } else {
      CloseRowKeepsOneRow(ps, ids[0], price);
      CloseRowsKeepsOneRow(CloseRow(ps, ids[0], price), ids[1..], price);
    }
  }

  /** One open row of positive quantity is a positive quantity. */
  lemma OneRowQuantity(ps: seq<Position>)
    requires OneRow(ps)
    ensures VisibleIds(ps) == OpenIds(ps)
    ensures VisibleQty(ps) == 0.0 <==> OpenIds(ps) == []
  {
    OpenIdsExact(ps);
    if OpenIds(ps) != [] {
      var k := OpenIds(ps)[0];
      assert k in OpenIds(ps) && OpenIds(ps) == [k];
      assert VisibleIds(ps) == [k];
      assert SumOver(ps, [k][1..], Quantity) == 0.0;
      assert SumOver(ps, [k], Quantity) == ps[k].quantity;
    }
  }

  lemma OpensOnlyPositive(localQty: real, exchangeQty: real, price: real, minOrder: real)
    requires minOrder > 0.0 && exchangeQty >= 0.0
    ensures var b := Branch(localQty, exchangeQty, price, minOrder);
            (Opens(b) ==> exchangeQty > 0.0) && (b == MissingOpened ==> localQty == 0.0)
  {
    if exchangeQty == 0.0 {
      assert Worth(price, exchangeQty) == 0.0;
    }
  }

  lemma ExecuteKeepsOneRow(ps: seq<Position>, obs: Observation, branch: Outcome)
    requires OneRow(ps)
    requires Opens(branch) ==> obs.exchangeQty > 0.0
    requires branch == MissingOpened ==> OpenIds(ps) == []
    ensures OneRow(Execute(ps, obs, branch).0)
  {
    if Closes(branch) {
      CloseRowsKeepsOneRow(ps, Upto(VisibleIds(ps), obs.closeLimit), obs.price);
    }
    if branch == MissingOpened {
      OpeningKeepsOneRow(ps, obs.price, obs.exchangeQty);
    } else if branch == Adjusted && obs.closeLimit >= |VisibleIds(ps)| {
      ClosedShowsNothing(ps, obs.price);
      OpeningKeepsOneRow(CloseSeen(ps, obs), obs.price, obs.exchangeQty);
    }
  }

  /** A repair, complete or cut short, never leaves a second open row. */
  lemma RepairKeepsOneRow(ps: seq<Position>, obs: Observation, minOrder: real)
    requires OneRow(ps) && minOrder > 0.0 && obs.exchangeQty >= 0.0
    ensures OneRow(Repair(ps, obs, minOrder).0)
  {
    if !obs.rowsReadRaises {
      OneRowQuantity(ps);
      OpensOnlyPositive(VisibleQty(ps), obs.exchangeQty, obs.price, minOrder);
      ExecuteKeepsOneRow(ps, obs, Branch(VisibleQty(ps), obs.exchangeQty, obs.price, minOrder));
    }
  }

  /** The observation makes a repair of a table without open rows leave it so. */
  predicate OpensNothing(obs: Observation, minOrder: real) {
    obs.rowsReadRaises || obs.createRaises || Worth(obs.price, obs.exchangeQty) < minOrder ||
    obs.exchangeQty <= TOLERANCE
  }

  lemma RepairOfEmptyTable(ps: seq<Position>, obs: Observation, minOrder: real)
    requires OpenIds(ps) == [] && minOrder > 0.0 && obs.exchangeQty >= 0.0
    ensures Repair(ps, obs, minOrder).0 == if OpensNothing(obs, minOrder) then ps else ps + [ExchangeRow(obs)]
  {
    assert VisibleQty(ps) == 0.0;
    assert Abs(0.0 - obs.exchangeQty) == obs.exchangeQty;
  }

  /** A repair between a buy's check of the open rows and its row write leaves room for that
      row if and only if it could not read the rows, could not create one, or sees less than
      a minimum order, or less than the tolerance, on the exchange. */
  lemma RepairBeforeRowIff(ps: seq<Position>, obs: Observation, minOrder: real, price: real, qty: real)
    requires OpenIds(ps) == [] && minOrder > 0.0 && obs.exchangeQty >= 0.0
    ensures OpenIds(Repair(ps, obs, minOrder).0) == [] <==> OpensNothing(obs, minOrder)
    ensures |OpenIds(Repair(ps, obs, minOrder).0 + [LongRow(price, qty)])| <= 1 <==> OpensNothing(obs, minOrder)
  {
    var r := Repair(ps, obs, minOrder).0;
    RepairOfEmptyTable(ps, obs, minOrder);
    OpenedIds(ps, ExchangeRow(obs));
    OpenedIds(r, LongRow(price, qty));
  }

  /** The same on the protocol: with a committed buy inside, a repair keeps what the buy
      relies on if and only if it opens nothing, and exactly then the buy's row will be the
      only open one. */
  lemma RepairInsideBuyIff(s: System, obs: Observation, minOrder: real)
    requires Guarded(s) && Holder(s).Some? && BuyCommitted(Holder(s).value) && RowsGuarded(s.world, Holder(s))
    requires minOrder > 0.0 && obs.exchangeQty >= 0.0
    ensures var s' := Next(s, RepairNow(obs, minOrder));
            Holder(s') == Holder(s) &&
            (RowsGuarded(s'.world, Holder(s')) <==> OpensNothing(obs, minOrder)) &&
            (|OpenIds(s'.world.positions + [OpenedRow(Holder(s).value.call)])| <= 1 <==> OpensNothing(obs, minOrder))
  {
    var s' := Next(s, RepairNow(obs, minOrder));
    var q :| Inside(s, q);
    OtherEventKeepsGuarded(s, RepairNow(obs, minOrder));
    HolderIs(s, q);
    HolderIs(s', q);
    var call := Holder(s).value.call;
    RepairBeforeRowIff(s.world.positions, obs, minOrder, call.price, RecordedQty(call));
    RepairKeepsOneRow(s.world.positions, obs, minOrder);
  }

  /** A committed buy is inside. */
  ghost predicate BuyPending(s: System) {
    Holder(s).Some? && BuyCommitted(Holder(s).value)
  }

  /** Calls that begin fill something, and repairs read sensible balances. Repairs may fall
      between the steps of calls, whole or row by row, as long as they open no row under a
      committed buy or beside an open one. */
  ghost predicate Sensible(s: System, e: Event) {
    match e
    case Begin(_, call) => FillsSomething(call)
    case RepairNow(obs, minOrder) =>
      minOrder > 0.0 && obs.exchangeQty >= 0.0 && (BuyPending(s) ==> OpensNothing(obs, minOrder))
    case RepairOpens(_, qty) => qty > 0.0 && OpenIds(s.world.positions) == [] && !BuyPending(s)
    case _ => true
  }

  ghost predicate SensibleRun(s: System, es: seq<Event>)
    decreases |es|
  {
    es != [] ==> Enabled(s, es[0]) && Sensible(s, es[0]) && SensibleRun(Next(s, es[0]), es[1..])
  }

  ghost predicate CallsFill(s: System) {
    forall p :: p in s.procs ==> FillsSomething(s.procs[p].call)
  }

  lemma RunKeepsRows(s: System, p: nat, at: real)
    requires Enabled(s, Run(p, at)) && Guarded(s) && Guarded(Next(s, Run(p, at)))
    requires CallsFill(s) && RowsGuarded(s.world, Holder(s))
    ensures RowsGuarded(Next(s, Run(p, at)).world, Holder(Next(s, Run(p, at))))
  {
    var s' := Next(s, Run(p, at));
    OthersUnaffected(s, p, at);
    if Inside(s, p) {
      HolderIs(s, p);
      StepKeepsRows(s.world, s.procs[p], at);
    } else {
      AcquireEnters(s.world, s.procs[p], at);
    }
    if q :| Inside(s', q) {
      HolderIs(s', q);
      if q != p { HolderIs(s, q); }
    } else {
      NobodyInside(s');
    }
  }

  /** What an event that is no step of a call does to the rows. */
  lemma OtherEventKeepsOneRow(s: System, e: Event)
    requires Enabled(s, e) && !e.Run? && Sensible(s, e) && OneRow(s.world.positions)
    requires BuyPending(s) ==> OpenIds(s.world.positions) == []
    ensures OneRow(Next(s, e).world.positions)
    ensures BuyPending(s) ==> OpenIds(Next(s, e).world.positions) == []
  {
    var ps := s.world.positions;
    match e
    case RepairNow(obs, minOrder) =>
      RepairKeepsOneRow(ps, obs, minOrder);
      if BuyPending(s) {
        RepairOfEmptyTable(ps, obs, minOrder);
      }
    case RepairCloses(id, price) =>
      CloseRowKeepsOneRow(ps, id, price);
      CloseRowOpenIds(ps, id, price);
    case RepairOpens(price, qty) =>
      OpeningKeepsOneRow(ps, price, qty);
    case Begin(_, _) =>
    case Crash(_) =>
  }

  lemma OtherEventKeepsRows(s: System, e: Event)
    requires Enabled(s, e) && !e.Run? && Guarded(s) && Guarded(Next(s, e)) && Sensible(s, e)
    requires RowsGuarded(s.world, Holder(s))
    ensures RowsGuarded(Next(s, e).world, Holder(Next(s, e)))
  {
    var s' := Next(s, e);
    OtherEventKeepsOneRow(s, e);
    forall q ensures Inside(s', q) ==> Inside(s, q) && s'.procs[q] == s.procs[q] {}
    if q :| Inside(s', q) {
      HolderIs(s, q);
      HolderIs(s', q);
    } else {
      NobodyInside(s');
    }
  }

  lemma NextKeepsRows(s: System, e: Event)
    requires Enabled(s, e) && Guarded(s) && EntersSafely(s, e) && Sensible(s, e)
    requires CallsFill(s) && RowsGuarded(s.world, Holder(s))
    ensures CallsFill(Next(s, e)) && RowsGuarded(Next(s, e).world, Holder(Next(s, e)))
  {
    NextKeepsGuarded(s, e);
    if e.Run? {
      RunKeepsRows(s, e.p, e.at);
    } else {
      OtherEventKeepsRows(s, e);
    }
  }

  /** In every safe run, at every moment, the symbol has at most one open row; it has a
      positive quantity and its dollar amount is entry price times quantity. Neither
      failed row writes, nor half-finished closes, nor crashes can break this. */
  lemma {:induction false} AlwaysOneRow(s: System, es: seq<Event>)
    requires Guarded(s) && SafeRun(s, es) && SensibleRun(s, es)
    requires CallsFill(s) && RowsGuarded(s.world, Holder(s))
    ensures OneRow(After(s, es).world.positions)
    decreases |es|
  {
    if es == [] {
    } else {
      NextKeepsGuarded(s, es[0]);
      NextKeepsRows(s, es[0]);
      AlwaysOneRow(Next(s, es[0]), es[1..]);
    }
  }

  /** A system without running calls whose table has at most one open row meets the
      hypotheses of this theorem. */
  lemma FreshSystemKeepsRows(w: World, now: real)
    requires OneRow(w.positions)
    ensures var s := System(w, now, map[], []);
            CallsFill(s) && RowsGuarded(s.world, Holder(s))
  {
    NobodyInside(System(w, now, map[], []));
  }
}
