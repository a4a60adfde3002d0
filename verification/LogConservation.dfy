/**
 Conservation for whole logs of calls and repairs: the residue between the two tables, in
 terms of the quantities filled, closed and recreated.
 */
module LogConservation {
  import opened Prelude
  import opened TradeLedger
  import opened ExecutorSteps
  import opened Reconciliation
  import opened Protocol
  import opened ExecutorLaws
  import opened SessionEffects

  /** The quantity of the rows a sell closes: all it sees, or those before an error. */
  function ClosedBySell(ps: seq<Position>, call: Call): real {
    if RereadRows in call.faults then 0.0 else SumOver(ps, Upto(VisibleIds(ps), call.closeLimit), Quantity)
  }

  /** The quantity by which a call that wrote its trade moves the log ahead of the rows: a
      sell by closed minus filled, a buy by what it failed to enter as a row. */
  function CallQty(ps: seq<Position>, call: Call): real {
    if call.intent.SellIntent? then ClosedBySell(ps, call) - RecordedQty(call)
    else if WriteRow in call.faults then RecordedQty(call)
    else 0.0
  }

  /** The residue of one logged entry, executed on w. */
  function EntryResidue(w: World, d: Done): real {
    match d
    case DoneCall(call, _, _) =>
      if Redo(w, d).trades == w.trades then 0.0 else Worth(call.price, CallQty(w.positions, call))
    case DoneRepair(obs, minOrder) =>
      Worth(obs.price, RepairClosed(w.positions, obs, minOrder) - RepairOpened(w.positions, obs, minOrder))
  }

  function LogResidue(w0: World, log: seq<Done>): real {
    if log == [] then 0.0 else
      var n := |log| - 1;
      LogResidue(w0, log[..n]) + EntryResidue(Replay(w0, log[..n]), log[n])
  }

  /** From ps to r the open quantity changes by so much, and the book by its worth. */
  ghost predicate RowsMove(ps: seq<Position>, r: seq<Position>, price: real, change: real) {
    RowsPriced(r) && OpenQty(r) == OpenQty(ps) + change &&
    Book(r) - Book(ps) == Worth(price, OpenQty(r) - OpenQty(ps))
  }

  lemma SellRows(ps: seq<Position>, call: Call)
    requires RowsPriced(ps)
    ensures RowsMove(ps, RowsAfterSell(ps, call), call.price, -ClosedBySell(ps, call))
  {
    if RereadRows in call.faults {
      NothingMoves(call.price, Book(ps), OpenQty(ps));
    } else {
      var ids := Upto(VisibleIds(ps), call.closeLimit);
      VisibleClosable(ps);
      CloseRowsTotals(ps, ids, call.price);
      CloseRowsMovesBook(ps, ids, call.price);
    }
  }

  lemma BuyRows(ps: seq<Position>, call: Call)
    requires RowsPriced(ps)
    ensures RowsMove(ps, RowsAfterBuy(ps, call), call.price,
                     if WriteRow in call.faults then 0.0 else RecordedQty(call))
  {
    if WriteRow in call.faults {
      NothingMoves(call.price, Book(ps), OpenQty(ps));
    } else {
      OpenMovesBook(ps, call.price, RecordedQty(call));
    }
  }

  /** The quantity a call trades, with the sign of its side. */
  function TradedQty(call: Call): real {
    if call.intent.BuyIntent? then RecordedQty(call) else -RecordedQty(call)
  }

  lemma TradedIsSigned(call: Call)
    ensures Signed(TradeOf(call), TradeOf(call).quantity) == TradedQty(call)
    ensures Signed(TradeOf(call), TradeOf(call).dollarAmount) == Worth(call.price, TradedQty(call))
  {
    TradeWorth(SideOf(call), RecordedQty(call), call.price);
  }

  lemma {:induction false} CallRows(ps: seq<Position>, call: Call)
    requires RowsPriced(ps)
    ensures RowsMove(ps, RowsAfter(ps, call), call.price, TradedQty(call) - CallQty(ps, call))
  {
    if call.intent.BuyIntent? {
      BuyRows(ps, call);
    } else {
      SellRows(ps, call);
    }
  }

  lemma {:induction false} BookedResidue(w: World, call: Call, w': World)
    requires RowsPriced(w.positions) && Booked(w, call, w')
    ensures RowsPriced(w'.positions)
    ensures Discrepancy(w') == Discrepancy(w) + Worth(call.price, CallQty(w.positions, call))
  {
    var t := TradeOf(call);
    CallRows(w.positions, call);
    TradeTotals(w.trades, t);
    TradedIsSigned(call);
    BookedMoves(call.price, TradedQty(call), OpenQty(w'.positions) - OpenQty(w.positions),
                Signed(t, t.dollarAmount), Book(w'.positions) - Book(w.positions));
  }

  lemma CallConserves(w: World, call: Call, k: Clock)
    requires RowsPriced(w.positions)
    ensures var w' := Session(w, call, k).0;
            RowsPriced(w'.positions) &&
            Discrepancy(w') - Discrepancy(w) ==
              if w'.trades == w.trades then 0.0 else Worth(call.price, CallQty(w.positions, call))
  {
    var w' := Session(w, call, k).0;
    SessionTables(w, call, k);
    if w'.trades == w.trades {
      assert Unbooked(w, w') by {
        assert |w.trades + [TradeOf(call)]| == |w.trades| + 1;
      }
    } else {
      BookedResidue(w, call, w');
    }
  }

  lemma RepairEntryConserves(w: World, obs: Observation, minOrder: real)
    requires RowsPriced(w.positions)
    ensures var w' := w.(positions := Repair(w.positions, obs, minOrder).0);
            RowsPriced(w'.positions) &&
            Discrepancy(w') - Discrepancy(w) ==
              Worth(obs.price, RepairClosed(w.positions, obs, minOrder) - RepairOpened(w.positions, obs, minOrder))
  {
    var w' := w.(positions := Repair(w.positions, obs, minOrder).0);
    RepairConserves(w, obs, minOrder);
    RepairQuantities(w.positions, obs, minOrder);
    assert QtyDrift(w') - QtyDrift(w) ==
           RepairClosed(w.positions, obs, minOrder) - RepairOpened(w.positions, obs, minOrder);
  }

  lemma EntryConserves(w: World, d: Done)
    requires RowsPriced(w.positions)
    ensures RowsPriced(Redo(w, d).positions)
    ensures Discrepancy(Redo(w, d)) == Discrepancy(w) + EntryResidue(w, d)
  {
    match d
    case DoneCall(call, k, _) =>
      CallConserves(w, call, k);
    case DoneRepair(obs, minOrder) =>
      RepairEntryConserves(w, obs, minOrder);
  }

  /** Calls and repairs executed one after the other, with every result and every error:
      the tables move apart by exactly the residues of the entries. */
  lemma {:induction false} LogConserves(w0: World, log: seq<Done>)
    requires RowsPriced(w0.positions)
    ensures RowsPriced(Replay(w0, log).positions)
    ensures Discrepancy(Replay(w0, log)) == Discrepancy(w0) + LogResidue(w0, log)
    decreases |log|
  {
    if log == [] {
    } else {
      var n := |log| - 1;
      LogConserves(w0, log[..n]);
      EntryConserves(Replay(w0, log[..n]), log[n]);
    }
  }

  /** An entry without residue: if it booked a trade, a buy entered its row, and a sell saw
      and closed every open row and was filled with exactly what was open; a repair had
      nothing to do. */
  predicate Exact(w: World, d: Done) {
    match d
    case DoneCall(call, _, _) =>
      Redo(w, d).trades != w.trades ==>
        if call.intent.BuyIntent? then WriteRow !in call.faults
        else ClosesEverything(w.positions, call) && |OpenIds(w.positions)| <= ROW_LIMIT &&
             RecordedQty(call) == OpenQty(w.positions)
    case DoneRepair(obs, minOrder) =>
      obs.rowsReadRaises || Repair(w.positions, obs, minOrder).1 in {DiffIsDust, Matching}
  }

  ghost predicate AllExact(w0: World, log: seq<Done>) {
    forall i :: 0 <= i < |log| ==> Exact(Replay(w0, log[..i]), log[i])
  }

  lemma ExactSell(ps: seq<Position>, call: Call)
    requires call.intent.SellIntent? && ClosesEverything(ps, call)
    requires |OpenIds(ps)| <= ROW_LIMIT && RecordedQty(call) == OpenQty(ps)
    ensures CallQty(ps, call) == 0.0
  {
    VisibleQtyIsOpenQty(ps);
    assert Upto(VisibleIds(ps), call.closeLimit) == VisibleIds(ps);
  }

  lemma NothingIsWorthNothing(price: real)
    ensures Worth(price, 0.0) == 0.0
  {
  }

  lemma ExactHasNoResidue(w: World, d: Done)
    requires Exact(w, d)
    ensures EntryResidue(w, d) == 0.0
  {
    match d
    case DoneCall(call, _, _) =>
      NothingIsWorthNothing(call.price);
      if Redo(w, d).trades != w.trades && call.intent.SellIntent? {
        ExactSell(w.positions, call);
      }
    case DoneRepair(obs, minOrder) =>
      NothingIsWorthNothing(obs.price);
      NoopMovesNothing(w.positions, obs, minOrder);
  }

  lemma NoopMovesNothing(ps: seq<Position>, obs: Observation, minOrder: real)
    requires obs.rowsReadRaises || Repair(ps, obs, minOrder).1 in {DiffIsDust, Matching}
    ensures RepairClosed(ps, obs, minOrder) == 0.0 && RepairOpened(ps, obs, minOrder) == 0.0
  {
  }

  lemma {:induction false} ExactLogHasNoResidue(w0: World, log: seq<Done>)
    requires AllExact(w0, log)
    ensures LogResidue(w0, log) == 0.0
    decreases |log|
  {
    if log == [] {
    } else {
      var init := log[..|log|-1];
      assert forall i :: 0 <= i < |init| ==> init[..i] == log[..i];
      ExactLogHasNoResidue(w0, init);
      ExactHasNoResidue(Replay(w0, init), log[|log|-1]);
    }
  }

  /** Two-table conservation for concurrent executors, in quantities: after every safe and
      orderly run, once nobody is inside, what the log says is invested is the cost of open
      rows minus realised profit, plus the initial distance, plus price times (closed minus
      filled) over the sells, (closed minus recreated) over the repairs and what buys failed
      to enter. If all fills are exact and the repairs find nothing to do, the tables stay
      exactly as far apart as they were. */
  lemma {:induction false} SerialConservation(w0: World, s: System, es: seq<Event>)
    requires Guarded(s) && Serial(w0, s) && RowsPriced(w0.positions)
    requires SafeRun(s, es) && OrderlyRun(s, es) && Holder(After(s, es)).None?
    ensures var s' := After(s, es);
            TotalInvested(s'.world.trades) ==
              OpenCost(s'.world.positions) - RealisedPnl(s'.world.positions) + Discrepancy(w0) + LogResidue(w0, s'.log)
    ensures AllExact(w0, After(s, es).log) ==> Discrepancy(After(s, es).world) == Discrepancy(w0)
  {
    var s' := After(s, es);
    Serialisable(w0, s, es);
    LogConserves(w0, s'.log);
    if AllExact(w0, s'.log) {
      ExactLogHasNoResidue(w0, s'.log);
    }
  }
}
