/**
 The two tables the executor writes: `trades`, an append-only log of fills, and
 `positions`, whose rows are opened once and closed once. A row's id is its index, and
 rows are kept in the order they were opened.
 */
module TradeLedger {
  import opened Prelude

  datatype Side = Buy | Sell

  datatype Trade = Trade(side: Side, quantity: real, price: real, dollarAmount: real)

  datatype Kind = Long | Short

  datatype Status = Open | Closed

  datatype Position = Position(
    kind: Kind, entryPrice: real, quantity: real, dollarAmount: real,
    currentPrice: real, unrealizedPnl: real, status: Status)

  /** `get_positions` returns at most this many rows. */
  const ROW_LIMIT: nat := 200

  function CalcPnl(kind: Kind, entryPrice: real, currentPrice: real, quantity: real): real {
    if kind == Short then (entryPrice - currentPrice) * quantity
    else (currentPrice - entryPrice) * quantity
  }

  /** Price times quantity. */
  function Worth(price: real, quantity: real): real {
    price * quantity
  }

  function NewTrade(side: Side, quantity: real, price: real, dollarAmount: Option<real>): Trade {
    Trade(side, quantity, price, if dollarAmount.Some? then dollarAmount.value else quantity * price)
  }

  function NewPosition(kind: Kind, entryPrice: real, quantity: real, dollarAmount: real): Position {
    Position(kind, entryPrice, quantity, dollarAmount, entryPrice,
             CalcPnl(kind, entryPrice, entryPrice, quantity), Open)
  }

  /** The row the executor opens: long, worth entry price times quantity. */
  function LongRow(price: real, quantity: real): Position {
    NewPosition(Long, price, quantity, quantity * price)
  }

  function Marked(p: Position, price: real): Position {
    p.(currentPrice := price, unrealizedPnl := CalcPnl(p.kind, p.entryPrice, price, p.quantity))
  }

  // ---------------------------------------------------------------------------
  // Reading open rows
  // ---------------------------------------------------------------------------

  /** Ids of the open rows, newest first. */
  function OpenIds(ps: seq<Position>): (ids: seq<nat>)
    ensures forall i :: 0 <= i < |ids| ==> ids[i] < |ps|
  {
    if ps == [] then [] else
      var n := |ps| - 1;
      (if ps[n].status == Open then [n] else []) + OpenIds(ps[..n])
  }

  /** `get_positions(status="open")`: newest first, cut at the row limit. */
  function VisibleIds(ps: seq<Position>): (ids: seq<nat>)
    ensures forall i :: 0 <= i < |ids| ==> ids[i] < |ps|
  {
    var ids := OpenIds(ps);
    if |ids| <= ROW_LIMIT then ids else ids[..ROW_LIMIT]
  }

  /** The ids are exactly those of the open rows, in strictly falling order. */
  lemma {:induction false} OpenIdsExact(ps: seq<Position>)
    ensures var ids := OpenIds(ps);
            (forall k :: 0 <= k < |ps| ==> (k in ids <==> ps[k].status == Open)) &&
            (forall i, j :: 0 <= i < j < |ids| ==> ids[i] > ids[j])
    decreases |ps|
  {
    if ps == [] {
    } else {
      var n := |ps| - 1;
      OpenIdsExact(ps[..n]);
      var rest := OpenIds(ps[..n]);
      assert forall i :: 0 <= i < |rest| ==> rest[i] < n;
      assert OpenIds(ps) == (if ps[n].status == Open then [n] else []) + rest;
      forall k | 0 <= k < |ps| ensures k in OpenIds(ps) <==> ps[k].status == Open {
        assert k < n ==> ps[..n][k] == ps[k];
      }
    }
  }

  /** The read itself: of all open rows it shows the 200 newest, newest first. Every row it
      shows is open; an open row that it does not show is older than 200 open ones it shows. */
  lemma VisibleIdsExact(ps: seq<Position>)
    ensures var ids := VisibleIds(ps);
            ids <= OpenIds(ps) && |ids| == (if |OpenIds(ps)| < ROW_LIMIT then |OpenIds(ps)| else ROW_LIMIT) &&
            (forall i, j :: 0 <= i < j < |ids| ==> ids[i] > ids[j]) &&
            (forall k :: 0 <= k < |ps| ==>
               (k in ids <==> ps[k].status == Open && (|ids| < ROW_LIMIT || k >= ids[ROW_LIMIT-1])))
  {
    OpenIdsExact(ps);
    var all, ids := OpenIds(ps), VisibleIds(ps);
    forall k | 0 <= k < |ps|
      ensures k in ids <==> ps[k].status == Open && (|ids| < ROW_LIMIT || k >= ids[ROW_LIMIT-1])
    {
      if k in all {
        var i :| 0 <= i < |all| && all[i] == k;
        if |ids| == ROW_LIMIT {
          assert i < ROW_LIMIT ==> k == ids[i] && k >= ids[ROW_LIMIT-1];
          assert i >= ROW_LIMIT ==> k < all[ROW_LIMIT-1];
        }
      } else {
        assert k !in ids;
      }
    }
  }

  /** Rows seen by a read: open, distinct, and all of them unless there are more than 200. */
  predicate Closable(ps: seq<Position>, ids: seq<nat>) {
    (forall i :: 0 <= i < |ids| ==> ids[i] < |ps| && ps[ids[i]].status == Open) &&
    (forall i, j :: 0 <= i < j < |ids| ==> ids[i] != ids[j])
  }

  lemma VisibleClosable(ps: seq<Position>)
    ensures Closable(ps, VisibleIds(ps))
  {
    OpenIdsExact(ps);
    var ids := OpenIds(ps);
    assert forall i :: 0 <= i < |ids| ==> ids[i] in ids;
  }

  predicate NoneOpen(ps: seq<Position>) {
    forall k :: 0 <= k < |ps| ==> ps[k].status != Open
  }

  // ---------------------------------------------------------------------------
  // Closing rows
  // ---------------------------------------------------------------------------

  /** `close_position`: a missing or already closed row is left alone. */
  function CloseRow(ps: seq<Position>, id: nat, price: real): (r: seq<Position>)
    ensures |r| == |ps|
  {
    if id < |ps| && ps[id].status == Open then ps[id := Marked(ps[id], price).(status := Closed)] else ps
  }

  function CloseRows(ps: seq<Position>, ids: seq<nat>, price: real): (r: seq<Position>)
    ensures |r| == |ps|
    decreases |ids|
  {
    if ids == [] then ps else CloseRows(CloseRow(ps, ids[0], price), ids[1..], price)
  }

  /** Closing a list of rows closes exactly those and touches nothing else. */
  lemma {:induction false} CloseRowsEffect(ps: seq<Position>, ids: seq<nat>, price: real)
    requires Closable(ps, ids)
    ensures forall k :: 0 <= k < |ps| ==>
              CloseRows(ps, ids, price)[k] ==
              if k in ids then Marked(ps[k], price).(status := Closed) else ps[k]
    decreases |ids|
  {
    if ids == [] {
    } else {
      CloseRowsEffect(CloseRow(ps, ids[0], price), ids[1..], price);
    }
  }

  /** What closing one open row leaves: the row as it was, marked at the price, with a profit of
      quantity times the rise since its entry for a long position and times the fall for a short
      one. */
  lemma ClosedRowFields(ps: seq<Position>, id: nat, price: real)
    requires id < |ps| && ps[id].status == Open
    ensures var p, r := ps[id], CloseRow(ps, id, price)[id];
            r == Position(p.kind, p.entryPrice, p.quantity, p.dollarAmount, price, r.unrealizedPnl, Closed) &&
            r.unrealizedPnl == if p.kind == Long then Worth(price - p.entryPrice, p.quantity)
                               else Worth(p.entryPrice - price, p.quantity)
  {
  }

  /** A full close leaves no open row, provided the read was not cut at the limit. */
  lemma CloseVisibleClosesAll(ps: seq<Position>, price: real)
    requires |OpenIds(ps)| <= ROW_LIMIT
    ensures NoneOpen(CloseRows(ps, VisibleIds(ps), price))
  {
    VisibleClosable(ps);
    OpenIdsExact(ps);
    CloseRowsEffect(ps, VisibleIds(ps), price);
  }

  lemma NoneOpenIds(ps: seq<Position>)
    ensures NoneOpen(ps) <==> OpenIds(ps) == []
    ensures NoneOpen(ps) <==> VisibleIds(ps) == []
  {
    OpenIdsExact(ps);
    if OpenIds(ps) != [] {
      var k := OpenIds(ps)[0];
      assert ps[k].status == Open;
    }
  }

  // ---------------------------------------------------------------------------
  // Totals
  // ---------------------------------------------------------------------------

  function Total(ps: seq<Position>, f: Position -> real): real {
    if ps == [] then 0.0 else Total(ps[..|ps|-1], f) + f(ps[|ps|-1])
  }

  lemma {:induction false} TotalUpdate(ps: seq<Position>, k: nat, p: Position, f: Position -> real)
    requires k < |ps|
    ensures Total(ps[k := p], f) == Total(ps, f) - f(ps[k]) + f(p)
    decreases |ps|
  {
    var n := |ps| - 1;
    if k == n {
      assert ps[k := p][..n] == ps[..n];
    } else {
      assert ps[k := p][..n] == ps[..n][k := p];
      TotalUpdate(ps[..n], k, p, f);
    }
  }

  function QtyIfOpen(p: Position): real {
    if p.status == Open then p.quantity else 0.0
  }

  function CostIfOpen(p: Position): real {
    if p.status == Open then p.dollarAmount else 0.0
  }

  function PnlIfClosed(p: Position): real {
    if p.status == Closed then p.unrealizedPnl else 0.0
  }

  function OpenQty(ps: seq<Position>): real {
    Total(ps, QtyIfOpen)
  }

  function OpenCost(ps: seq<Position>): real {
    Total(ps, CostIfOpen)
  }

  function RealisedPnl(ps: seq<Position>): real {
    Total(ps, PnlIfClosed)
  }

  /** Sums over a list of row ids: `sum(... for p in rows)`. */
  function SumOver(ps: seq<Position>, ids: seq<nat>, f: Position -> real): real
    requires forall i :: 0 <= i < |ids| ==> ids[i] < |ps|
    decreases |ids|
  {
    if ids == [] then 0.0 else f(ps[ids[0]]) + SumOver(ps, ids[1..], f)
  }

  function Quantity(p: Position): real {
    p.quantity
  }

  /** `float(dollar_amount or 0) or entry_price * quantity`. */
  function Invested(p: Position): real {
    if p.dollarAmount != 0.0 then p.dollarAmount else p.entryPrice * p.quantity
  }

  function VisibleQty(ps: seq<Position>): real {
    SumOver(ps, VisibleIds(ps), Quantity)
  }

  function VisibleInvested(ps: seq<Position>): real {
    SumOver(ps, VisibleIds(ps), Invested)
  }

  /** What is invested in a single open row: the amount stored with it, or entry price times
      quantity when that is zero. */
  lemma InvestedInOneRow(ps: seq<Position>, id: nat)
    requires id < |ps| && VisibleIds(ps) == [id]
    ensures VisibleInvested(ps) == if ps[id].dollarAmount != 0.0 then ps[id].dollarAmount
                                   else Worth(ps[id].entryPrice, ps[id].quantity)
  {
    assert [id][1..] == [];
    assert SumOver(ps, [id], Invested) == Invested(ps[id]) + SumOver(ps, [], Invested);
  }

  /** Summing f over the open ids is summing f over the open rows of the table. */
  lemma {:induction false} SumOverOpenIds(ps: seq<Position>, f: Position -> real, g: Position -> real)
    requires forall p :: g(p) == if p.status == Open then f(p) else 0.0
    ensures SumOver(ps, OpenIds(ps), f) == Total(ps, g)
    decreases |ps|
  {
    if ps == [] {
    } else {
      var n := |ps| - 1;
      SumOverOpenIds(ps[..n], f, g);
      SumOverPrefix(ps, n, OpenIds(ps[..n]), f);
      if ps[n].status == Open {
        assert OpenIds(ps)[1..] == OpenIds(ps[..n]);
      } else {
        assert OpenIds(ps) == OpenIds(ps[..n]);
      }
    }
  }

  lemma {:induction false} SumOverPrefix(ps: seq<Position>, n: nat, ids: seq<nat>, f: Position -> real)
    requires n <= |ps|
    requires forall i :: 0 <= i < |ids| ==> ids[i] < n
    ensures SumOver(ps[..n], ids, f) == SumOver(ps, ids, f)
    decreases |ids|
  {
    if ids == [] {
    } else {
      SumOverPrefix(ps, n, ids[1..], f);
    }
  }

  lemma VisibleQtyIsOpenQty(ps: seq<Position>)
    requires |OpenIds(ps)| <= ROW_LIMIT
    ensures VisibleQty(ps) == OpenQty(ps)
  {
    SumOverOpenIds(ps, Quantity, QtyIfOpen);
  }

  /** A row as the executor writes it: long, and worth entry price times quantity. */
  predicate Priced(p: Position) {
    p.kind == Long && p.dollarAmount == Worth(p.entryPrice, p.quantity)
  }

  predicate RowsPriced(ps: seq<Position>) {
    forall k :: 0 <= k < |ps| ==> Priced(ps[k])
  }

  lemma LongRowIsPriced(price: real, quantity: real)
    ensures var p := LongRow(price, quantity);
            Priced(p) && p.status == Open && p.quantity == quantity && p.dollarAmount == Worth(price, quantity)
  {
  }

  // ---------------------------------------------------------------------------
  // The trade log totals of `get_current_positions`
  // ---------------------------------------------------------------------------

  function Signed(t: Trade, x: real): real {
    if t.side == Buy then x else -x
  }

  function NetQty(ts: seq<Trade>): real {
    if ts == [] then 0.0 else NetQty(ts[..|ts|-1]) + Signed(ts[|ts|-1], ts[|ts|-1].quantity)
  }

  function TotalInvested(ts: seq<Trade>): real {
    if ts == [] then 0.0 else TotalInvested(ts[..|ts|-1]) + Signed(ts[|ts|-1], ts[|ts|-1].dollarAmount)
  }

  lemma TradeTotals(ts: seq<Trade>, t: Trade)
    ensures NetQty(ts + [t]) == NetQty(ts) + Signed(t, t.quantity)
    ensures TotalInvested(ts + [t]) == TotalInvested(ts) + Signed(t, t.dollarAmount)
  {
    assert (ts + [t])[..|ts|] == ts;
  }

  /** A trade is booked at price times quantity, with the sign of its side; an amount given with
      it is kept as it is. */
  lemma TradeWorth(side: Side, quantity: real, price: real)
    ensures var t := NewTrade(side, quantity, price, None);
            Signed(t, t.dollarAmount) == Worth(price, Signed(t, t.quantity))
    ensures forall amount :: NewTrade(side, quantity, price, Some(amount)).dollarAmount == amount
  {
    NegatedWorth(price, quantity);
  }

  // ---------------------------------------------------------------------------
  // Book value: cost of open rows minus realised profit of closed rows
  // ---------------------------------------------------------------------------

  function Book(ps: seq<Position>): real {
    OpenCost(ps) - RealisedPnl(ps)
  }

  /** Opening a row at price P raises the book by P times the quantity opened. */
  lemma OpenMovesBook(ps: seq<Position>, price: real, quantity: real)
    requires RowsPriced(ps)
    ensures var r := ps + [LongRow(price, quantity)];
            RowsPriced(r) &&
            OpenQty(r) == OpenQty(ps) + quantity &&
            Book(r) - Book(ps) == Worth(price, OpenQty(r) - OpenQty(ps))
  {
    var p := LongRow(price, quantity);
    LongRowIsPriced(price, quantity);
    OpenRowTotals(ps, p);
  }

  lemma OpenRowTotals(ps: seq<Position>, p: Position)
    requires p.status == Open
    ensures var r := ps + [p];
            OpenQty(r) == OpenQty(ps) + p.quantity && OpenCost(r) == OpenCost(ps) + p.dollarAmount &&
            RealisedPnl(r) == RealisedPnl(ps)
  {
    assert (ps + [p])[..|ps|] == ps;
  }

  lemma CloseRowTotals(ps: seq<Position>, id: nat, price: real)
    requires id < |ps| && ps[id].status == Open
    ensures var r := CloseRow(ps, id, price);
            OpenQty(r) == OpenQty(ps) - ps[id].quantity &&
            OpenCost(r) == OpenCost(ps) - ps[id].dollarAmount &&
            RealisedPnl(r) == RealisedPnl(ps) + CalcPnl(ps[id].kind, ps[id].entryPrice, price, ps[id].quantity)
  {
    var q := Marked(ps[id], price).(status := Closed);
    TotalUpdate(ps, id, q, QtyIfOpen);
    TotalUpdate(ps, id, q, CostIfOpen);
    TotalUpdate(ps, id, q, PnlIfClosed);
  }

  /** Closing a row at price P lowers the book by P times its quantity, whatever the
      price it was opened at. */
  lemma CloseMovesBook(ps: seq<Position>, id: nat, price: real)
    requires RowsPriced(ps)
    ensures var r := CloseRow(ps, id, price);
            RowsPriced(r) && Book(r) - Book(ps) == Worth(price, OpenQty(r) - OpenQty(ps))
  {
    if id < |ps| && ps[id].status == Open {
      CloseRowTotals(ps, id, price);
      PnlSplits(price, ps[id].entryPrice, ps[id].quantity);
      NegatedWorth(price, ps[id].quantity);
    }
  }

  lemma PnlSplits(price: real, entry: real, quantity: real)
    ensures CalcPnl(Long, entry, price, quantity) == Worth(price, quantity) - Worth(entry, quantity)
  {
  }

  lemma NegatedWorth(price: real, quantity: real)
    ensures Worth(price, -quantity) == -Worth(price, quantity)
  {
  }

  lemma WorthAdds(price: real, x: real, y: real)
    ensures Worth(price, x) + Worth(price, y) == Worth(price, x + y)
  {
  }

  lemma NothingMoves(price: real, b: real, q: real)
    ensures b - b == Worth(price, q - q)
  {
  }

  lemma MovesCompose(price: real, b0: real, b1: real, b2: real, q0: real, q1: real, q2: real)
    requires b1 - b0 == Worth(price, q1 - q0) && b2 - b1 == Worth(price, q2 - q1)
    ensures b2 - b0 == Worth(price, q2 - q0)
  {
    WorthAdds(price, q1 - q0, q2 - q1);
  }

  /** Closing any rows at one price moves the book by that price times the change of the open
      quantity. */
  lemma {:induction false} CloseRowsMovesBook(ps: seq<Position>, ids: seq<nat>, price: real)
    requires RowsPriced(ps)
    ensures var r := CloseRows(ps, ids, price);
            RowsPriced(r) && Book(r) - Book(ps) == Worth(price, OpenQty(r) - OpenQty(ps))
    decreases |ids|
  {
    if ids == [] {
      NothingMoves(price, Book(ps), OpenQty(ps));
    } else {
      var ps1 := CloseRow(ps, ids[0], price);
      CloseMovesBook(ps, ids[0], price);
      CloseRowsMovesBook(ps1, ids[1..], price);
      var r := CloseRows(ps1, ids[1..], price);
      MovesCompose(price, Book(ps), Book(ps1), Book(r), OpenQty(ps), OpenQty(ps1), OpenQty(r));
    }
  }

  /** Closing distinct open rows removes their quantities from the open total and adds
      their price difference to the realised profit. */
  lemma {:induction false} CloseRowsTotals(ps: seq<Position>, ids: seq<nat>, price: real)
    requires Closable(ps, ids)
    ensures var r := CloseRows(ps, ids, price);
            OpenQty(r) == OpenQty(ps) - SumOver(ps, ids, Quantity) &&
            RealisedPnl(r) == RealisedPnl(ps) + SumOver(r, ids, PnlIfClosed)
    decreases |ids|
  {
    if ids == [] {
    } else {
      var ps1 := CloseRow(ps, ids[0], price);
      CloseRowTotals(ps, ids[0], price);
      CloseRowsTotals(ps1, ids[1..], price);
      SumOverAgrees(ps, ps1, ids[1..], Quantity);
      CloseRowsEffect(ps1, ids[1..], price);
      assert CloseRows(ps, ids, price)[ids[0]] == ps1[ids[0]];
    }
  }

  lemma {:induction false} SumOverAgrees(ps: seq<Position>, qs: seq<Position>, ids: seq<nat>, f: Position -> real)
    requires |ps| == |qs|
    requires forall i :: 0 <= i < |ids| ==> ids[i] < |ps| && f(ps[ids[i]]) == f(qs[ids[i]])
    ensures SumOver(ps, ids, f) == SumOver(qs, ids, f)
    decreases |ids|
  {
    if ids == [] {
    } else {
      SumOverAgrees(ps, qs, ids[1..], f);
    }
  }

  // ---------------------------------------------------------------------------
  // Repricing open rows
  // ---------------------------------------------------------------------------

  function Reprice(ps: seq<Position>, price: real): (r: seq<Position>)
    ensures |r| == |ps|
    ensures forall k :: 0 <= k < |ps| ==> r[k] == if ps[k].status == Open then Marked(ps[k], price) else ps[k]
  {
    seq(|ps|, k requires 0 <= k < |ps| => if ps[k].status == Open then Marked(ps[k], price) else ps[k])
  }

  /** Marking open rows to a new price realises nothing and moves no quantity or cost. */
  lemma {:induction false} RepriceKeepsTotals(ps: seq<Position>, price: real)
    ensures var r := Reprice(ps, price);
            OpenQty(r) == OpenQty(ps) && OpenCost(r) == OpenCost(ps) && RealisedPnl(r) == RealisedPnl(ps)
    decreases |ps|
  {
    if ps == [] {
    } else {
      var n := |ps| - 1;
      RepriceKeepsTotals(ps[..n], price);
      assert Reprice(ps, price)[..n] == Reprice(ps[..n], price);
    }
  }

  // ---------------------------------------------------------------------------
  // The database object
  // ---------------------------------------------------------------------------

  class TradeTrackerDb {
    var trades: seq<Trade>
    var positions: seq<Position>

    constructor ()
      ensures trades == [] && positions == []
    {
      trades, positions := [], [];
    }

    method AddTrade(side: Side, quantity: real, price: real, dollarAmount: Option<real>)
      modifies this`trades
      ensures trades == old(trades) + [NewTrade(side, quantity, price, dollarAmount)]
    {
      var amount := if dollarAmount.Some? then dollarAmount.value else quantity * price;
      trades := trades + [Trade(side, quantity, price, amount)];
    }

    method CreatePosition(kind: Kind, entryPrice: real, quantity: real, dollarAmount: real) returns (id: nat)
      modifies this`positions
      ensures id == |old(positions)|
      ensures positions == old(positions) + [NewPosition(kind, entryPrice, quantity, dollarAmount)]
      ensures positions[id].unrealizedPnl == 0.0
    {
      var pnl := CalcPnl(kind, entryPrice, entryPrice, quantity);
      positions := positions + [Position(kind, entryPrice, quantity, dollarAmount, entryPrice, pnl, Open)];
      id := |positions| - 1;
    }

    method GetOpenPositions() returns (ids: seq<nat>)
      ensures ids == VisibleIds(positions)
    {
      ids := VisibleIds(positions);
    }

    method ClosePosition(id: nat, closePrice: real) returns (found: bool)
      modifies this`positions
      ensures found == (id < |old(positions)| && old(positions)[id].status == Open)
      ensures positions == CloseRow(old(positions), id, closePrice)
    {
      if id >= |positions| || positions[id].status != Open {
        return false;
      }
      var p := positions[id];
      var pnl := CalcPnl(p.kind, p.entryPrice, closePrice, p.quantity);
      positions := positions[id := p.(status := Closed, currentPrice := closePrice, unrealizedPnl := pnl)];
      return true;
    }

    method UpdateOpenPositionPrices(price: real) returns (updated: nat)
      modifies this`positions
      ensures positions == Reprice(old(positions), price)
      ensures updated == |OpenIds(old(positions))|
    {
      updated := 0;
      var k := 0;
      while k < |positions|
        invariant 0 <= k <= |positions| == |old(positions)|
        invariant forall j :: 0 <= j < k ==> positions[j] == Reprice(old(positions), price)[j]
        invariant forall j :: k <= j < |positions| ==> positions[j] == old(positions)[j]
        invariant updated == |OpenIds(old(positions)[..k])|
      {
        assert old(positions)[..k+1][..k] == old(positions)[..k];
        var p := positions[k];
        if p.status == Open {
          var pnl := CalcPnl(p.kind, p.entryPrice, price, p.quantity);
          positions := positions[k := p.(currentPrice := price, unrealizedPnl := pnl)];
          updated := updated + 1;
        }
        k := k + 1;
      }
      assert old(positions)[..k] == old(positions);
    }
  }
}
