/**
 The exact effect of one uninterrupted executor call on the tables, by its result, and
 what follows for the profit it reports and for a signal that is delivered twice.
 */
module SessionEffects {
  import opened Prelude
  import opened RedisStore
  import opened TradeLedger
  import opened ExecutorSteps
  import opened Reconciliation
  import opened Protocol
  import opened ExecutorLaws

  /** The result survives the release unless the release itself raises. */
  lemma FromRelease(w: World, l: Local, k: Clock)
    requires l.pc == Release
    ensures var (w', l') := Finish(w, l, k);
            w'.trades == w.trades && w'.positions == w.positions && w'.fills == w.fills &&
            (l'.result == l.result || l'.result == Raised)
  {
    var s := MicroStep(w, l, TimeAt(k, Release));
    assert Finish(w, l, k) == Finish(s.0, s.1, k) == s;
  }

  lemma FromMark(w: World, l: Local, k: Clock)
    requires l.pc == MarkDone
    ensures var (w', l') := Finish(w, l, k);
            w'.trades == w.trades && w'.positions == w.positions && w'.fills == w.fills &&
            (l'.result == Raised || l'.result == Delivered(l.call, l.invested))
  {
    var s := MicroStep(w, l, TimeAt(k, MarkDone));
    FromRelease(s.0, s.1, k);
  }

  /** What a call that was carried out returns. */
  function Delivered(call: Call, invested: real): Result {
    if call.intent.BuyIntent? then Bought(RecordedQty(call), call.price)
    else Sold(RecordedQty(call), call.price, SalePnl(RecordedQty(call), call.price, invested))
  }

  lemma {:induction false} FromCloseNext(w: World, l: Local, k: Clock)
    requires l.pc == CloseNext && l.closed <= l.call.closeLimit
    ensures var (w', l') := Finish(w, l, k);
            w'.trades == w.trades && w'.fills == w.fills &&
            w'.positions == CloseRows(w.positions, Upto(l.toClose, l.call.closeLimit - l.closed), l.call.price) &&
            (l'.result == Raised || l'.result == Delivered(l.call, l.invested))
    decreases |l.toClose|
  {
    var s := MicroStep(w, l, TimeAt(k, CloseNext));
    var ids := Upto(l.toClose, l.call.closeLimit - l.closed);
    if s.1.pc == MarkDone {
      assert ids == [];
      FromMark(s.0, s.1, k);
    } else {
      assert ids[1..] == Upto(s.1.toClose, l.call.closeLimit - s.1.closed);
      FromCloseNext(s.0, s.1, k);
    }
  }

  /** The rows a sell leaves, if it gets as far as closing them. */
  function RowsAfterSell(ps: seq<Position>, call: Call): seq<Position> {
    if RereadRows in call.faults then ps
    else CloseRows(ps, Upto(VisibleIds(ps), call.closeLimit), call.price)
  }

  /** The rows a buy leaves, if it gets as far as opening one. */
  function RowsAfterBuy(ps: seq<Position>, call: Call): seq<Position> {
    if WriteRow in call.faults then ps else ps + [LongRow(call.price, RecordedQty(call))]
  }

  function RowsAfter(ps: seq<Position>, call: Call): seq<Position> {
    if call.intent.BuyIntent? then RowsAfterBuy(ps, call) else RowsAfterSell(ps, call)
  }

  function TradeOf(call: Call): Trade {
    NewTrade(SideOf(call), RecordedQty(call), call.price, None)
  }

  /** The call left the tables as they were. */
  predicate Unbooked(w: World, w': World) {
    w'.trades == w.trades && w'.positions == w.positions
  }

  /** The call wrote its trade and did to the rows what follows it. */
  predicate Booked(w: World, call: Call, w': World) {
    w'.trades == w.trades + [TradeOf(call)] && w'.positions == RowsAfter(w.positions, call)
  }

  lemma FromWriteTrade(w: World, l: Local, k: Clock)
    requires l.pc == WriteTrade
    ensures var (w', l') := Finish(w, l, k);
            w'.fills == w.fills &&
            (if WriteTrade in l.call.faults then Unbooked(w, w') && l'.result == Raised
             else Booked(w, l.call, w') && (l'.result == Raised || l'.result == Delivered(l.call, l.invested)))
  {
    var s := MicroStep(w, l, TimeAt(k, WriteTrade));
    assert Finish(w, l, k) == Finish(s.0, s.1, k);
    if WriteTrade in l.call.faults {
      FromRelease(s.0, s.1, k);
    } else {
      var s2 := MicroStep(s.0, s.1, TimeAt(k, s.1.pc));
      assert Finish(s.0, s.1, k) == Finish(s2.0, s2.1, k);
      if s2.1.pc == MarkDone {
        FromMark(s2.0, s2.1, k);
      } else {
        FromCloseNext(s2.0, s2.1, k);
      }
    }
  }

  /** The tables and the accepted orders after a call, by what it returned. */
  ghost predicate TablesAfter(w: World, call: Call, w': World, result: Result) {
    match result
    case Raised =>
      Unbooked(w, w') || (Booked(w, call, w') && (call.intent.BuyIntent? ==> VisibleIds(w.positions) == []))
    case Bought(_, _) =>
      call.intent.BuyIntent? && result == Delivered(call, 0.0) && VisibleIds(w.positions) == [] && Booked(w, call, w')
    case Sold(_, _, _) =>
      call.intent.SellIntent? && result == Delivered(call, VisibleInvested(w.positions)) && Booked(w, call, w')
    case _ =>
      Unbooked(w, w') && w'.fills == w.fills &&
      (result == PositionAlreadyOpen ==> call.intent.BuyIntent? && VisibleIds(w.positions) != [])
  }

  lemma FromPlace(w: World, l: Local, k: Clock)
    requires l.pc == Place
    requires l.call.intent.BuyIntent? ==> VisibleIds(w.positions) == []
    requires l.call.intent.SellIntent? ==> l.invested == VisibleInvested(w.positions)
    ensures TablesAfter(w, l.call, Finish(w, l, k).0, Finish(w, l, k).1.result)
  {
    var s := PlaceStep(w, l, TimeAt(k, Place));
    assert Finish(w, l, k) == Finish(s.0, s.1, k);
    if s.1.pc == Release {
      FromRelease(s.0, s.1, k);
    } else {
      assert s.0.trades == w.trades && s.0.positions == w.positions;
      assert s.1.call == l.call && s.1.invested == l.invested;
      FromWriteTrade(s.0, s.1, k);
    }
  }

  lemma FromReadRows(w: World, l: Local, k: Clock)
    requires l.pc == ReadRows
    ensures TablesAfter(w, l.call, Finish(w, l, k).0, Finish(w, l, k).1.result)
  {
    var s := MicroStep(w, l, TimeAt(k, ReadRows));
    assert Finish(w, l, k) == Finish(s.0, s.1, k);
    if s.1.pc == Release {
      FromRelease(s.0, s.1, k);
    } else if s.1.pc == Place {
      FromPlace(s.0, s.1, k);
    } else {
      var s2 := MicroStep(s.0, s.1, TimeAt(k, Size));
      assert Finish(s.0, s.1, k) == Finish(s2.0, s2.1, k);
      if s2.1.pc == Release {
        FromRelease(s2.0, s2.1, k);
      } else {
        FromPlace(s2.0, s2.1, k);
      }
    }
  }

  /** What a call did to the tables can be read off its result. */
  lemma SessionTables(w: World, call: Call, k: Clock)
    ensures TablesAfter(w, call, Session(w, call, k).0, Session(w, call, k).1)
  {
    var l := Start(call);
    var s := MicroStep(w, l, TimeAt(k, Acquire));
    assert Finish(w, l, k) == Finish(s.0, s.1, k);
    if s.1.pc == CheckProcessed {
      var s2 := MicroStep(s.0, s.1, TimeAt(k, CheckProcessed));
      assert Finish(s.0, s.1, k) == Finish(s2.0, s2.1, k);
      if s2.1.pc == Release {
        FromRelease(s2.0, s2.1, k);
      } else {
        FromReadRows(s2.0, s2.1, k);
      }
    }
  }

  // ---------------------------------------------------------------------------
  // The reported profit and the residue of single calls
  // ---------------------------------------------------------------------------

  /** The sell reached every row the read showed. */
  predicate ClosesEverything(ps: seq<Position>, call: Call) {
    RereadRows !in call.faults && |VisibleIds(ps)| <= call.closeLimit
  }

  /** The profit stored on rows closed at one price: price times their quantity minus
      what was invested in them. */
  lemma {:induction false} StoredProfit(ps: seq<Position>, r: seq<Position>, ids: seq<nat>, price: real)
    requires RowsPriced(ps) && |r| == |ps|
    requires forall i :: 0 <= i < |ids| ==> ids[i] < |ps| && r[ids[i]] == Marked(ps[ids[i]], price).(status := Closed)
    ensures SumOver(r, ids, PnlIfClosed) == Worth(price, SumOver(ps, ids, Quantity)) - SumOver(ps, ids, Invested)
    decreases |ids|
  {
    if ids == [] {
    } else {
      var p := ps[ids[0]];
      StoredProfit(ps, r, ids[1..], price);
      PnlSplits(price, p.entryPrice, p.quantity);
      WorthAdds(price, p.quantity, SumOver(ps, ids[1..], Quantity));
    }
  }

  /** The profit a sell reports is the profit it stored on the rows it closed, plus price
      times the difference between the quantity sold and the quantity closed: for any
      number of rows, the two are equal exactly when the fill equals the open quantity
      (or the price is zero). */
  lemma ReportedProfit(w: World, call: Call, k: Clock)
    requires RowsPriced(w.positions) && ClosesEverything(w.positions, call)
    requires Session(w, call, k).1.Sold?
    ensures var (w', result) := Session(w, call, k);
            var stored := RealisedPnl(w'.positions) - RealisedPnl(w.positions);
            result.pnl == stored + Worth(call.price, RecordedQty(call) - VisibleQty(w.positions)) &&
            (result.pnl == stored <==> call.price == 0.0 || RecordedQty(call) == VisibleQty(w.positions))
  {
    var ids := VisibleIds(w.positions);
    SessionTables(w, call, k);
    ProfitOfClosing(w.positions, call.price);
    ProfitSplits(call.price, RecordedQty(call), VisibleQty(w.positions), VisibleInvested(w.positions),
                 RealisedPnl(Session(w, call, k).0.positions) - RealisedPnl(w.positions));
  }

  lemma ProfitOfClosing(ps: seq<Position>, price: real)
    requires RowsPriced(ps)
    ensures RealisedPnl(CloseRows(ps, VisibleIds(ps), price)) ==
            RealisedPnl(ps) + Worth(price, VisibleQty(ps)) - VisibleInvested(ps)
  {
    var ids := VisibleIds(ps);
    VisibleClosable(ps);
    CloseRowsTotals(ps, ids, price);
    CloseRowsEffect(ps, ids, price);
    StoredProfit(ps, CloseRows(ps, ids, price), ids, price);
  }

  lemma ProfitSplits(price: real, filled: real, held: real, invested: real, stored: real)
    requires stored == Worth(price, held) - invested
    ensures var pnl := SalePnl(filled, price, invested);
            pnl == stored + Worth(price, filled - held) && (pnl == stored <==> price == 0.0 || filled == held)
  {
    WorthOfDifference(price, filled, held);
  }

  lemma WorthOfDifference(price: real, x: real, y: real)
    ensures Worth(price, x - y) == x * price - Worth(price, y)
    ensures Worth(price, x - y) == 0.0 <==> price == 0.0 || x == y
  {
    if price != 0.0 && x != y {
      NonZeroProduct(price, x - y);
    }
  }

  lemma NonZeroProduct(x: real, y: real)
    requires x != 0.0 && y != 0.0
    ensures x * y != 0.0
  {
  }

  /** The residue one sell adds: price times (closed minus filled quantity). The two
      tables stay as far apart as they were exactly when the fill is exact. */
  lemma SellResidue(w: World, call: Call, k: Clock)
    requires RowsPriced(w.positions) && ClosesEverything(w.positions, call)
    requires Session(w, call, k).1.Sold?
    ensures var w' := Session(w, call, k).0;
            RowsPriced(w'.positions) &&
            Discrepancy(w') == Discrepancy(w) + Worth(call.price, VisibleQty(w.positions) - RecordedQty(call)) &&
            (Discrepancy(w') == Discrepancy(w) <==> call.price == 0.0 || RecordedQty(call) == VisibleQty(w.positions))
  {
    var ids := VisibleIds(w.positions);
    var w' := Session(w, call, k).0;
    SessionTables(w, call, k);
    VisibleClosable(w.positions);
    CloseRowsTotals(w.positions, ids, call.price);
    CloseRowsMovesBook(w.positions, ids, call.price);
    SellResidueTotals(w, w', call);
  }

  /** Trade and rows together: the discrepancy moves by price times the quantity. */
  lemma BookedMoves(price: real, traded: real, rows: real, invested: real, book: real)
    requires invested == Worth(price, traded) && book == Worth(price, rows)
    ensures invested - book == Worth(price, traded - rows)
  {
    NegatedWorth(price, rows);
    WorthAdds(price, traded, -rows);
  }

  lemma SellResidueTotals(w: World, w': World, call: Call)
    requires call.intent.SellIntent? && w'.trades == w.trades + [TradeOf(call)]
    requires OpenQty(w'.positions) == OpenQty(w.positions) - VisibleQty(w.positions)
    requires Book(w'.positions) - Book(w.positions) == Worth(call.price, OpenQty(w'.positions) - OpenQty(w.positions))
    ensures Discrepancy(w') == Discrepancy(w) + Worth(call.price, VisibleQty(w.positions) - RecordedQty(call))
    ensures Discrepancy(w') == Discrepancy(w) <==> call.price == 0.0 || RecordedQty(call) == VisibleQty(w.positions)
  {
    var t, q, v := TradeOf(call), RecordedQty(call), VisibleQty(w.positions);
    TradeTotals(w.trades, t);
    TradeWorth(SideOf(call), q, call.price);
    BookedMoves(call.price, Signed(t, q), -v, Signed(t, t.dollarAmount), Book(w'.positions) - Book(w.positions));
    WorthOfDifference(call.price, v, q);
  }

  /** A buy keeps the tables together exactly when its row was written (or it was free). */
  lemma BuyResidue(w: World, call: Call, k: Clock)
    requires RowsPriced(w.positions) && Session(w, call, k).1.Bought?
    ensures var w' := Session(w, call, k).0;
            RowsPriced(w'.positions) &&
            Discrepancy(w') ==
              Discrepancy(w) + (if WriteRow in call.faults then Worth(call.price, RecordedQty(call)) else 0.0)
  {
    var w' := Session(w, call, k).0;
    SessionTables(w, call, k);
    TradeTotals(w.trades, TradeOf(call));
    OpenMovesBook(w.positions, call.price, RecordedQty(call));
    BuyBooks(w.positions, call);
  }

  lemma BuyBooks(ps: seq<Position>, call: Call)
    requires RowsPriced(ps)
    ensures Book(ps + [LongRow(call.price, RecordedQty(call))]) == Book(ps) + Worth(call.price, RecordedQty(call))
    ensures TradeOf(call).dollarAmount == Worth(call.price, RecordedQty(call))
  {
    OpenMovesBook(ps, call.price, RecordedQty(call));
  }

  // ---------------------------------------------------------------------------
  // A signal delivered twice
  // ---------------------------------------------------------------------------

  predicate Processed(store: Store, sigId: string, now: real) {
    var key := ProcessedKey(sigId);
    !Expired(store, key, now) && store[key].value != ""
  }

  /** What the end of a call does to the processed key of its signal. */
  lemma {:induction false} KeyAfter(w: World, l: Local, k: Clock)
    requires AwaitsMark(l) || l.pc == Release
    ensures var key, w' := ProcessedKey(l.call.sigId), Finish(w, l, k).0;
            if l.pc == Release || MarkDone in l.call.faults || (l.pc == WriteTrade && WriteTrade in l.call.faults)
            then (key in w'.store <==> key in w.store) && (key in w.store ==> w'.store[key] == w.store[key])
            else key in w'.store && w'.store[key] == Entry("1", Some(k.mark + PROCESSED_TTL))
    decreases Rank(l.pc), |l.toClose|
  {
    ProcessedKeysDiffer(l.call.sigId, l.call.sigId, SYMBOL);
    var s := MicroStep(w, l, TimeAt(k, l.pc));
    assert Finish(w, l, k) == Finish(s.0, s.1, k);
    if l.pc != Release {
      KeyAfter(s.0, s.1, k);
    } else {
      assert Finish(s.0, s.1, k) == s;
    }
  }

  /** A call that reached its order left its signal marked as processed for the next hour
      if and only if neither the trade write nor the mark raised. */
  lemma FilledIsMarkedIff(w: World, call: Call, k: Clock, now: real)
    requires Session(w, call, k).0.fills != w.fills
    requires k.mark <= now <= k.mark + PROCESSED_TTL
    ensures Processed(Session(w, call, k).0.store, call.sigId, now) <==>
            WriteTrade !in call.faults && MarkDone !in call.faults
  {
    var l := Start(call);
    var s := MicroStep(w, l, TimeAt(k, Acquire));
    assert Finish(w, l, k) == Finish(s.0, s.1, k);
    var s2 := MicroStep(s.0, s.1, TimeAt(k, s.1.pc));
    assert Finish(s.0, s.1, k) == Finish(s2.0, s2.1, k);
    assert s2.1.pc == ReadRows by {
      if s2.1.pc == Release { FromRelease(s2.0, s2.1, k); }
    }
    assert s2.0.store == Evict(s.0.store, ProcessedKey(call.sigId), k.check);
    assert ProcessedKey(call.sigId) in s2.0.store ==> s2.0.store[ProcessedKey(call.sigId)].value == "";
    OrderedKey(s2.0, s2.1, k);
  }

  /** From the passed check on: if the order is accepted, the key depends on the mark only. */
  lemma {:induction false} OrderedKey(w: World, l: Local, k: Clock)
    requires AwaitsOrder(l)
    requires ProcessedKey(l.call.sigId) in w.store ==> w.store[ProcessedKey(l.call.sigId)].value == ""
    requires Finish(w, l, k).0.fills != w.fills
    ensures var key, w' := ProcessedKey(l.call.sigId), Finish(w, l, k).0;
            if MarkDone in l.call.faults || WriteTrade in l.call.faults
            then key in w'.store ==> w'.store[key].value == ""
            else key in w'.store && w'.store[key] == Entry("1", Some(k.mark + PROCESSED_TTL))
    decreases Rank(l.pc)
  {
    var s := MicroStep(w, l, TimeAt(k, l.pc));
    assert Finish(w, l, k) == Finish(s.0, s.1, k);
    if s.1.pc == Release {
      FromRelease(s.0, s.1, k);
    } else if s.1.pc == WriteTrade {
      KeyAfter(s.0, s.1, k);
    } else {
      OrderedKey(s.0, s.1, k);
    }
  }

  /** A signal delivered again within the hour, to a call that gets the lock and meets no
      error, is rejected as a duplicate if and only if the first call neither failed to
      write its trade nor failed to set its mark. */
  lemma SecondDeliveryIff(w: World, call: Call, k: Clock, again: Call, k2: Clock)
    requires Session(w, call, k).0.fills != w.fills
    requires again.sigId == call.sigId && again.faults == {}
    requires Expired(Session(w, call, k).0.store, LOCK_KEY, k2.acquire)
    requires k.mark <= k2.check <= k.mark + PROCESSED_TTL
    ensures Session(Session(w, call, k).0, again, k2).1 == DuplicateSignal <==>
            WriteTrade !in call.faults && MarkDone !in call.faults
  {
    var w1 := Session(w, call, k).0;
    FilledIsMarkedIff(w, call, k, k2.check);
    ProcessedKeysDiffer(call.sigId, call.sigId, SYMBOL);
    var l := Start(again);
    var s := MicroStep(w1, l, k2.acquire);
    assert Finish(w1, l, k2) == Finish(s.0, s.1, k2);
    assert Processed(s.0.store, call.sigId, k2.check) <==> Processed(w1.store, call.sigId, k2.check);
    var s2 := MicroStep(s.0, s.1, k2.check);
    assert Finish(s.0, s.1, k2) == Finish(s2.0, s2.1, k2);
    if s2.1.pc == Release {
      var s3 := MicroStep(s2.0, s2.1, TimeAt(k2, Release));
      assert Finish(s2.0, s2.1, k2) == Finish(s3.0, s3.1, k2) == s3;
    } else {
      NeverDuplicate(s2.0, s2.1, k2);
    }
  }

  lemma {:induction false} NeverDuplicate(w: World, l: Local, k: Clock)
    requires AwaitsOrder(l) || AwaitsMark(l) || (l.pc == Release && l.result != DuplicateSignal)
    ensures Finish(w, l, k).1.result != DuplicateSignal
    decreases Rank(l.pc), |l.toClose|
  {
    var s := MicroStep(w, l, TimeAt(k, l.pc));
    assert Finish(w, l, k) == Finish(s.0, s.1, k);
    if s.1.pc != Finished {
      NeverDuplicate(s.0, s.1, k);
    }
  }

  // ---------------------------------------------------------------------------
  // What a call orders, books and answers, in the words of the call
  // ---------------------------------------------------------------------------

  /** From the passed check on, a call adds at most one fill: its own. */
  lemma {:induction false} FillsFrom(w: World, l: Local, k: Clock)
    requires AwaitsOrder(l)
    ensures var own := Fill(l.call.sigId, if l.call.intent.BuyIntent? then Buy else Sell, l.checkedAt, k.place);
            var fills := Finish(w, l, k).0.fills;
            fills == w.fills || fills == w.fills + [own]
    decreases Rank(l.pc)
  {
    var s := MicroStep(w, l, TimeAt(k, l.pc));
    assert Finish(w, l, k) == Finish(s.0, s.1, k);
    if s.1.pc == Release {
      FromRelease(s.0, s.1, k);
    } else if l.pc == Place {
      FromWriteTrade(s.0, s.1, k);
    } else {
      FillsFrom(s.0, s.1, k);
    }
  }

  /** A call adds at most one fill, for its own signal and on its own side. */
  lemma SessionFills(w: World, call: Call, k: Clock)
    ensures var own := Fill(call.sigId, if call.intent.BuyIntent? then Buy else Sell, k.check, k.place);
            var fills := Session(w, call, k).0.fills;
            fills == w.fills || fills == w.fills + [own]
  {
    var s := MicroStep(w, Start(call), TimeAt(k, Acquire));
    assert Finish(w, Start(call), k) == Finish(s.0, s.1, k);
    if s.1.pc == CheckProcessed {
      var s2 := MicroStep(s.0, s.1, TimeAt(k, CheckProcessed));
      assert Finish(s.0, s.1, k) == Finish(s2.0, s2.1, k);
      if s2.1.pc == Release {
        FromRelease(s2.0, s2.1, k);
      } else {
        FillsFrom(s2.0, s2.1, k);
      }
    }
  }

  lemma TradeFields(call: Call, q: real)
    requires q == RecordedQty(call)
    ensures TradeOf(call) == Trade(if call.intent.BuyIntent? then Buy else Sell, q, call.price, Worth(call.price, q))
  {
  }

  /** What a call books when it writes its trade at all: one trade of its side at its price,
      and rows that a buy only adds to and a sell only closes. */
  lemma SessionBooks(w: World, call: Call, k: Clock)
    ensures var w' := Session(w, call, k).0;
            w'.trades == w.trades ||
            (|w'.trades| == |w.trades| + 1 && w'.trades[..|w.trades|] == w.trades &&
             var t := w'.trades[|w.trades|];
             (t.side == Buy <==> call.intent.BuyIntent?) && t.price == call.price &&
             t.dollarAmount == Worth(t.price, t.quantity))
    ensures var ps, ps' := w.positions, Session(w, call, k).0.positions;
            if call.intent.BuyIntent? then ps <= ps'
            else |ps'| == |ps| && forall i :: 0 <= i < |ps| && ps[i].status == Closed ==> ps'[i] == ps[i]
  {
    SessionTables(w, call, k);
    TradeFields(call, RecordedQty(call));
    if call.intent.SellIntent? && RereadRows !in call.faults {
      VisibleClosable(w.positions);
      CloseRowsEffect(w.positions, Upto(VisibleIds(w.positions), call.closeLimit), call.price);
    }
  }

  /** The quantity that is booked and answered is the one the exchange reports as filled; only
      without such a report it is the one ordered, and 0 for a full sell. */
  lemma FilledQuantityIsAnswered(w: World, call: Call, k: Clock)
    requires Session(w, call, k).1.Bought? || Session(w, call, k).1.Sold?
    ensures var r := Session(w, call, k).1;
            call.order.Accepted? &&
            (call.order.filledQty.Some? && call.order.filledQty.value != 0.0 ==> r.qty == call.order.filledQty.value) &&
            (call.order.filledQty == None || call.order.filledQty == Some(0.0) ==>
               (call.intent.BuyIntent? ==> call.intent.sized == Some(r.qty)) &&
               (call.intent.SellIntent? ==> call.intent.requested == Some(r.qty) ||
                                            (call.intent.requested == None && r.qty == 0.0)))
  {
    SessionTables(w, call, k);
    AnsweredIsAccepted(w, call, k);
  }

  lemma {:induction false} AcceptedFrom(w: World, l: Local, k: Clock)
    requires AwaitsOrder(l) && (l.pc == Place && l.call.intent.BuyIntent? ==> l.call.intent.sized.Some?)
    requires Finish(w, l, k).1.result.Bought? || Finish(w, l, k).1.result.Sold?
    ensures l.call.order.Accepted? && (l.call.intent.BuyIntent? ==> l.call.intent.sized.Some?)
    decreases Rank(l.pc)
  {
    var s := MicroStep(w, l, TimeAt(k, l.pc));
    assert Finish(w, l, k) == Finish(s.0, s.1, k);
    if s.1.pc == Release {
      FromRelease(s.0, s.1, k);
    } else if l.pc != Place {
      AcceptedFrom(s.0, s.1, k);
    }
  }

  lemma AnsweredIsAccepted(w: World, call: Call, k: Clock)
    requires Session(w, call, k).1.Bought? || Session(w, call, k).1.Sold?
    ensures call.order.Accepted? && (call.intent.BuyIntent? ==> call.intent.sized.Some?)
  {
    var s := MicroStep(w, Start(call), TimeAt(k, Acquire));
    assert Finish(w, Start(call), k) == Finish(s.0, s.1, k);
    var s2 := MicroStep(s.0, s.1, TimeAt(k, s.1.pc));
    assert Finish(s.0, s.1, k) == Finish(s2.0, s2.1, k);
    if s2.1.pc == Release {
      FromRelease(s2.0, s2.1, k);
    } else {
      AcceptedFrom(s2.0, s2.1, k);
    }
  }

  /** The answered quantity is what the trade, the row of a buy and the profit of a sell are
      about: at the call's price, worth quantity times price. */
  lemma AnswerIsBooked(w: World, call: Call, k: Clock)
    requires Session(w, call, k).1.Bought? || Session(w, call, k).1.Sold?
    ensures var (w', r) := Session(w, call, k);
            var q, p := r.qty, call.price;
            r.price == p && r.Bought? == call.intent.BuyIntent? &&
            w'.trades == w.trades + [Trade(if r.Bought? then Buy else Sell, q, p, Worth(p, q))] &&
            (r.Bought? && WriteRow !in call.faults ==>
               w'.positions == w.positions + [Position(Long, p, q, Worth(p, q), p, 0.0, Open)]) &&
            (r.Bought? && WriteRow in call.faults ==> w'.positions == w.positions) &&
            (r.Sold? ==> r.pnl == Worth(p, q) - VisibleInvested(w.positions))
  {
    var q := Session(w, call, k).1.qty;
    SessionTables(w, call, k);
    assert q == RecordedQty(call);
    TradeFields(call, q);
    NewRowHasNoProfit(call.price, q);
    PnlOfSale(q, call.price, VisibleInvested(w.positions));
  }

  lemma PnlOfSale(q: real, price: real, invested: real)
    ensures SalePnl(q, price, invested) == Worth(price, q) - invested
  {
  }

  lemma NewRowHasNoProfit(price: real, quantity: real)
    ensures LongRow(price, quantity) == Position(Long, price, quantity, Worth(price, quantity), price, 0.0, Open)
  {
    assert (price - price) * quantity == 0.0;
  }

  /** The answer of a call that got the lock, as one decision list: what it meets first, an
      error included. A failing row write or read after the trade does not show in it. */
  function AnswerUnderLock(w: World, call: Call, k: Clock): Result {
    if CheckProcessed in call.faults then Raised
    else if Processed(w.store, call.sigId, k.check) then DuplicateSignal
    else if ReadRows in call.faults then Raised
    else AnswerToOrder(w, call)
  }

  function AnswerToOrder(w: World, call: Call): Result {
    if call.intent.BuyIntent? && !NoneOpen(w.positions) then PositionAlreadyOpen
    else if call.intent == BuyIntent(None) then NoSafeQty
    else if call.order.Rejected? then OrderFailed
    else if WriteTrade in call.faults || MarkDone in call.faults then Raised
    else Delivered(call, VisibleInvested(w.positions))
  }

  /** The answer of a call: without the lock it stops, and a failing release hides the rest. */
  function Answer(w: World, call: Call, k: Clock): Result {
    if Acquire in call.faults then Raised
    else if LOCK_KEY in Sweep(w.store, k.acquire) then LockFailed
    else if Release in call.faults then Raised
    else AnswerUnderLock(w, call, k)
  }

  function Released(call: Call, result: Result): Result {
    if Release in call.faults then Raised else result
  }

  lemma ReleaseKeepsResult(w: World, l: Local, k: Clock)
    requires l.pc == Release
    ensures Finish(w, l, k).1.result == Released(l.call, l.result)
  {
    var s := MicroStep(w, l, TimeAt(k, Release));
    assert Finish(w, l, k) == Finish(s.0, s.1, k) == s;
  }

  lemma {:induction false} BookingAnswers(w: World, l: Local, k: Clock)
    requires AwaitsMark(l)
    ensures Finish(w, l, k).1.result ==
            Released(l.call, if (l.pc == WriteTrade && WriteTrade in l.call.faults) || MarkDone in l.call.faults
                             then Raised else Delivered(l.call, l.invested))
    decreases Rank(l.pc), |l.toClose|
  {
    var s := MicroStep(w, l, TimeAt(k, l.pc));
    assert Finish(w, l, k) == Finish(s.0, s.1, k);
    if s.1.pc == Release {
      ReleaseKeepsResult(s.0, s.1, k);
    } else {
      BookingAnswers(s.0, s.1, k);
    }
  }

  lemma {:induction false} OrderAnswers(w: World, l: Local, k: Clock)
    requires AwaitsOrder(l)
    requires l.pc == Place && l.call.intent.SellIntent? ==> l.invested == VisibleInvested(w.positions)
    requires l.pc != ReadRows && l.call.intent.BuyIntent? ==> NoneOpen(w.positions)
    requires l.pc == Place && l.call.intent.BuyIntent? ==> l.call.intent.sized.Some?
    requires l.pc == Size ==> l.call.intent.BuyIntent?
    ensures Finish(w, l, k).1.result ==
            Released(l.call, if l.pc == ReadRows && ReadRows in l.call.faults then Raised else AnswerToOrder(w, l.call))
    decreases Rank(l.pc)
  {
    NoneOpenIds(w.positions);
    var s := MicroStep(w, l, TimeAt(k, l.pc));
    assert Finish(w, l, k) == Finish(s.0, s.1, k);
    if s.1.pc == Release {
      ReleaseKeepsResult(s.0, s.1, k);
    } else if l.pc == Place {
      BookingAnswers(s.0, s.1, k);
    } else {
      OrderAnswers(s.0, s.1, k);
    }
  }

  /** The steps of a call, whichever of them raise, run to the end, give exactly that answer. */
  lemma SessionAnswers(w: World, call: Call, k: Clock)
    ensures Session(w, call, k).1 == Answer(w, call, k)
  {
    ProcessedKeysDiffer(call.sigId, call.sigId, SYMBOL);
    var s := MicroStep(w, Start(call), k.acquire);
    assert Finish(w, Start(call), k) == Finish(s.0, s.1, k);
    if s.1.pc == CheckProcessed {
      assert Processed(s.0.store, call.sigId, k.check) <==> Processed(w.store, call.sigId, k.check);
      var s2 := MicroStep(s.0, s.1, k.check);
      assert Finish(s.0, s.1, k) == Finish(s2.0, s2.1, k);
      if s2.1.pc == Release {
        ReleaseKeepsResult(s2.0, s2.1, k);
      } else {
        OrderAnswers(s2.0, s2.1, k);
      }
    }
  }

  // ---------------------------------------------------------------------------
  // A signal filled twice
  // ---------------------------------------------------------------------------

  /** From the passed check on, a call orders exactly when it is a sell, or finds no open row. */
  lemma {:induction false} OrdersFrom(w: World, l: Local, k: Clock)
    requires AwaitsOrder(l) && ReadRows !in l.call.faults && l.call.order.Accepted?
    requires l.call.intent.BuyIntent? ==> l.call.intent.sized.Some?
    requires l.pc != ReadRows && l.call.intent.BuyIntent? ==> VisibleIds(w.positions) == []
    ensures Finish(w, l, k).0.fills != w.fills <==>
            (l.call.intent.BuyIntent? ==> VisibleIds(w.positions) == [])
    decreases Rank(l.pc)
  {
    var s := MicroStep(w, l, TimeAt(k, l.pc));
    assert Finish(w, l, k) == Finish(s.0, s.1, k);
    if s.1.pc == Release {
      FromRelease(s.0, s.1, k);
    } else if l.pc == Place {
      FromWriteTrade(s.0, s.1, k);
      assert |s.0.fills| == |w.fills| + 1;
    } else {
      OrdersFrom(s.0, s.1, k);
    }
  }

  /** A call that gets the lock, reads without error and is accepted orders if and only if
      its signal is not marked and, for a buy, no row is open. */
  lemma OrdersIff(w: World, call: Call, k: Clock)
    requires Expired(w.store, LOCK_KEY, k.acquire) && call.faults !! {Acquire, CheckProcessed, ReadRows}
    requires call.order.Accepted? && (call.intent.BuyIntent? ==> call.intent.sized.Some?)
    ensures Session(w, call, k).0.fills != w.fills <==>
            !Processed(w.store, call.sigId, k.check) &&
            (call.intent.BuyIntent? ==> VisibleIds(w.positions) == [])
  {
    ProcessedKeysDiffer(call.sigId, call.sigId, SYMBOL);
    var s := MicroStep(w, Start(call), k.acquire);
    assert Finish(w, Start(call), k) == Finish(s.0, s.1, k);
    assert Processed(s.0.store, call.sigId, k.check) <==> Processed(w.store, call.sigId, k.check);
    var s2 := MicroStep(s.0, s.1, k.check);
    assert Finish(s.0, s.1, k) == Finish(s2.0, s2.1, k);
    if s2.1.pc == Release {
      FromRelease(s2.0, s2.1, k);
    } else {
      OrdersFrom(s2.0, s2.1, k);
    }
  }

  /** What a call that ordered did to the tables. */
  lemma {:induction false} FilledFrom(w: World, l: Local, k: Clock)
    requires AwaitsOrder(l) && Finish(w, l, k).0.fills != w.fills
    requires l.pc != ReadRows && l.call.intent.BuyIntent? ==> VisibleIds(w.positions) == []
    ensures l.call.intent.BuyIntent? ==> VisibleIds(w.positions) == []
    ensures if WriteTrade in l.call.faults then Unbooked(w, Finish(w, l, k).0) else Booked(w, l.call, Finish(w, l, k).0)
    decreases Rank(l.pc)
  {
    var s := MicroStep(w, l, TimeAt(k, l.pc));
    assert Finish(w, l, k) == Finish(s.0, s.1, k);
    if s.1.pc == Release {
      FromRelease(s.0, s.1, k);
    } else if l.pc == Place {
      FromWriteTrade(s.0, s.1, k);
    } else {
      FilledFrom(s.0, s.1, k);
    }
  }

  lemma FilledTables(w: World, call: Call, k: Clock)
    requires Session(w, call, k).0.fills != w.fills
    ensures call.intent.BuyIntent? ==> VisibleIds(w.positions) == []
    ensures var w' := Session(w, call, k).0;
            if WriteTrade in call.faults then Unbooked(w, w') else Booked(w, call, w')
  {
    var s := MicroStep(w, Start(call), TimeAt(k, Acquire));
    assert Finish(w, Start(call), k) == Finish(s.0, s.1, k);
    var s2 := MicroStep(s.0, s.1, TimeAt(k, s.1.pc));
    assert Finish(s.0, s.1, k) == Finish(s2.0, s2.1, k);
    assert s2.1.pc == ReadRows by {
      if s2.1.pc == Release { FromRelease(s2.0, s2.1, k); }
    }
    FilledFrom(s2.0, s2.1, k);
  }

  /** A delivery of the same signal again, by a call that nothing stands in the way of. */
  predicate Redelivers(call: Call, again: Call) {
    again.sigId == call.sigId && again.intent.BuyIntent? == call.intent.BuyIntent? &&
    again.faults !! {Acquire, CheckProcessed, ReadRows} && again.order.Accepted? &&
    (again.intent.BuyIntent? ==> again.intent.sized.Some?)
  }

  lemma RowsAfterBuyVisible(ps: seq<Position>, call: Call)
    requires VisibleIds(ps) == []
    ensures VisibleIds(RowsAfterBuy(ps, call)) == [] <==> WriteRow in call.faults
  {
    OpenedIds(ps, LongRow(call.price, RecordedQty(call)));
  }

  /** A filled signal that is delivered again within the hour is filled a second time if and
      only if its trade was not written, or its mark was lost and, for a buy, its row, too: the
      open row of a buy stops what the lost mark lets through. */
  lemma SecondFillIff(w: World, call: Call, k: Clock, again: Call, k2: Clock)
    requires Session(w, call, k).0.fills != w.fills && Redelivers(call, again)
    requires Expired(Session(w, call, k).0.store, LOCK_KEY, k2.acquire)
    requires k.mark <= k2.check <= k.mark + PROCESSED_TTL
    ensures var w1 := Session(w, call, k).0;
            Session(w1, again, k2).0.fills != w1.fills <==>
            WriteTrade in call.faults ||
            (MarkDone in call.faults && (call.intent.BuyIntent? ==> WriteRow in call.faults))
  {
    var w1 := Session(w, call, k).0;
    FilledIsMarkedIff(w, call, k, k2.check);
    FilledTables(w, call, k);
    OrdersIff(w1, again, k2);
    if call.intent.BuyIntent? {
      RowsAfterBuyVisible(w.positions, call);
    }
  }

  // ---------------------------------------------------------------------------
  // A call that dies
  // ---------------------------------------------------------------------------

  /** A call stopped after so many steps. */
  function StepsOf(w: World, call: Call, k: Clock, n: nat): (World, Local) {
    if n == 0 then (w, Start(call)) else
      var (w1, l1) := StepsOf(w, call, k, n - 1);
      MicroStep(w1, l1, TimeAt(k, l1.pc))
  }

  /** The signal is not marked at any time, and an open row stands for a buy exactly from its
      row write on. */
  predicate Underway(w: World, l: Local) {
    (AwaitsOrder(l) || AwaitsMark(l) ==>
       ProcessedKey(l.call.sigId) in w.store ==> w.store[ProcessedKey(l.call.sigId)].value == "") &&
    (l.call.intent.BuyIntent? ==>
       (l.pc in {Size, Place, WriteTrade, WriteRow} ==> VisibleIds(w.positions) == []) &&
       (l.pc == MarkDone ==> (VisibleIds(w.positions) == [] <==> WriteRow in l.call.faults)) &&
       l.pc !in {RereadRows, CloseNext})
  }

  lemma {:induction false} StepKeepsUnderway(w: World, l: Local, at: real)
    requires Underway(w, l)
    ensures Underway(MicroStep(w, l, at).0, MicroStep(w, l, at).1)
  {
    if l.pc == WriteRow && l.call.intent.BuyIntent? {
      RowsAfterBuyVisible(w.positions, l.call);
    }
  }

  lemma {:induction false} StepsAreUnderway(w: World, call: Call, k: Clock, n: nat)
    ensures Underway(StepsOf(w, call, k, n).0, StepsOf(w, call, k, n).1)
    ensures StepsOf(w, call, k, n).1.call == call
    decreases n
  {
    if n == 0 {
    } else {
      StepsAreUnderway(w, call, k, n - 1);
      var (w1, l1) := StepsOf(w, call, k, n - 1);
      StepKeepsUnderway(w1, l1, TimeAt(k, l1.pc));
    }
  }

  /** If a call dies between its order and its mark, its signal is filled again by the next
      delivery if and only if it is a sell, or died before its row was there: the row not yet
      written, or its write failed. */
  lemma DeadCallRefillsIff(w: World, call: Call, k: Clock, n: nat, again: Call, k2: Clock)
    requires AwaitsMark(StepsOf(w, call, k, n).1) && Redelivers(call, again)
    requires Expired(StepsOf(w, call, k, n).0.store, LOCK_KEY, k2.acquire)
    ensures var (w1, l1) := StepsOf(w, call, k, n);
            Session(w1, again, k2).0.fills != w1.fills <==>
            (call.intent.BuyIntent? ==> l1.pc in {WriteTrade, WriteRow} || WriteRow in call.faults)
  {
    StepsAreUnderway(w, call, k, n);
    OrdersIff(StepsOf(w, call, k, n).0, again, k2);
  }

  // ---------------------------------------------------------------------------
  // The smallest second fill
  // ---------------------------------------------------------------------------

  /** A call that gets in and whose release does not raise leaves no lock behind. */
  lemma {:induction false} LockIsReleased(w: World, l: Local, k: Clock)
    requires InCriticalSection(l) && Release !in l.call.faults
    ensures LOCK_KEY !in Finish(w, l, k).0.store
    decreases Rank(l.pc), |l.toClose|
  {
    var s := MicroStep(w, l, TimeAt(k, l.pc));
    assert Finish(w, l, k) == Finish(s.0, s.1, k);
    if l.pc == Release {
      assert Finish(s.0, s.1, k) == s;
    } else {
      LockIsReleased(s.0, s.1, k);
    }
  }

  /** A buy on an empty system whose trade write raises, delivered again a second later, is
      filled twice. */
  lemma FailedTradeFillsTwice()
    ensures var w0 := World(map[], [], [], []);
            var call := Call(BuyIntent(Some(1.0)), "s", 10.0, Accepted(Some(1.0)), {WriteTrade}, 0);
            var w1 := Session(w0, call, Clock(0.0, 0.0, 0.0, 0.0)).0;
            var w2 := Session(w1, call.(faults := {}), Clock(1.0, 1.0, 1.0, 1.0)).0;
            w1.fills != w0.fills && w2.fills != w1.fills
  {
    var w0 := World(map[], [], [], []);
    var call := Call(BuyIntent(Some(1.0)), "s", 10.0, Accepted(Some(1.0)), {WriteTrade}, 0);
    var k, k2 := Clock(0.0, 0.0, 0.0, 0.0), Clock(1.0, 1.0, 1.0, 1.0);
    var s := MicroStep(w0, Start(call), 0.0);
    assert Finish(w0, Start(call), k) == Finish(s.0, s.1, k);
    OrdersIff(w0, call, k);
    LockIsReleased(s.0, s.1, k);
    SecondFillIff(w0, call, k, call.(faults := {}), k2);
  }
}
