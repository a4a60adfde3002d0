/**
 The repair of the positions table against the balance the exchange reports: the
 decision function, what the executor does with each decision, and the proof that one
 repair brings the table into agreement and a second one finds nothing to do.
 */
module Reconciliation {
  import opened Prelude
  import opened TradeLedger

  const TOLERANCE := 0.000000001

  datatype Action = Noop | OpenMissingLocal | CloseOrphanLocal | AdjustQty

  function Decide(localQty: real, exchangeQty: real, tolerance: real): Action {
    if Abs(localQty - exchangeQty) <= tolerance then Noop
    else if localQty == 0.0 && exchangeQty > 0.0 then OpenMissingLocal
    else if localQty > 0.0 && exchangeQty == 0.0 then CloseOrphanLocal
    else AdjustQty
  }

  /** What one repair reads from the exchange and which of its database calls raise. A
      failed balance read shows up as quantity 0 and a failed price read as price 0. */
  datatype Observation = Observation(
    exchangeQty: real, price: real, rowsReadRaises: bool, closeLimit: nat, createRaises: bool)

  datatype Outcome =
    | DiffIsDust | Matching | OrphanClosed | MissingOpened | DustIgnored | DustClosed | Adjusted | Failed

  /** The branch that belongs to a decision; holdings below a minimum order are dust. */
  function BranchOf(action: Action, exchangeQty: real, price: real, minOrder: real): Outcome {
    match action
    case Noop => Matching
    case CloseOrphanLocal => OrphanClosed
    case OpenMissingLocal => if Worth(price, exchangeQty) < minOrder then DustIgnored else MissingOpened
    case AdjustQty => if Worth(price, exchangeQty) < minOrder then DustClosed else Adjusted
  }

  /** The branch a repair takes, from the two quantities and the price alone; `Failed`
      is never chosen here. */
  function Branch(localQty: real, exchangeQty: real, price: real, minOrder: real): Outcome {
    if Worth(price, Abs(localQty - exchangeQty)) < minOrder then DiffIsDust
    else BranchOf(Decide(localQty, exchangeQty, TOLERANCE), exchangeQty, price, minOrder)
  }

  /** The first `limit` rows of the list, or all of it when it is shorter. */
  function Upto(ids: seq<nat>, limit: nat): seq<nat> {
    if limit < |ids| then ids[..limit] else ids
  }

  function CloseSeen(ps: seq<Position>, obs: Observation): seq<Position> {
    CloseRows(ps, Upto(VisibleIds(ps), obs.closeLimit), obs.price)
  }

  /** The row that stands for what the exchange holds. */
  function ExchangeRow(obs: Observation): Position {
    LongRow(obs.price, obs.exchangeQty)
  }

  predicate Closes(branch: Outcome) {
    branch in {OrphanClosed, DustClosed, Adjusted}
  }

  predicate Opens(branch: Outcome) {
    branch in {MissingOpened, Adjusted}
  }

  /** Carries the branch out: rows are closed first, and an error ends the repair. */
  function Execute(ps: seq<Position>, obs: Observation, branch: Outcome): (seq<Position>, Outcome) {
    var ps1 := if Closes(branch) then CloseSeen(ps, obs) else ps;
    if Closes(branch) && obs.closeLimit < |VisibleIds(ps)| then (ps1, Failed)
    else if !Opens(branch) then (ps1, branch)
    else if obs.createRaises then (ps1, Failed)
    else (ps1 + [ExchangeRow(obs)], branch)
  }

  function Repair(ps: seq<Position>, obs: Observation, minOrder: real): (seq<Position>, Outcome) {
    if obs.rowsReadRaises then (ps, Failed)
    else Execute(ps, obs, Branch(VisibleQty(ps), obs.exchangeQty, obs.price, minOrder))
  }

  /** Two quantities agree: their difference is worth less than a minimum order, or lies
      within the tolerance. */
  predicate QtyAgrees(localQty: real, exchangeQty: real, price: real, minOrder: real) {
    Worth(price, Abs(localQty - exchangeQty)) < minOrder || Abs(localQty - exchangeQty) <= TOLERANCE
  }

  predicate Agrees(ps: seq<Position>, obs: Observation, minOrder: real) {
    QtyAgrees(VisibleQty(ps), obs.exchangeQty, obs.price, minOrder)
  }

  /** Row quantities are never negative. */
  predicate NonNegative(ps: seq<Position>) {
    forall k :: 0 <= k < |ps| ==> ps[k].quantity >= 0.0
  }

  lemma OpenedIds(ps: seq<Position>, p: Position)
    requires p.status == Open
    ensures OpenIds(ps + [p]) == [|ps|] + OpenIds(ps)
  {
    assert (ps + [p])[..|ps|] == ps;
  }

  lemma {:induction false} PartialSums(ps: seq<Position>, ids: seq<nat>, n: nat)
    requires NonNegative(ps) && n <= |ids|
    requires forall i :: 0 <= i < |ids| ==> ids[i] < |ps|
    ensures 0.0 <= SumOver(ps, ids[..n], Quantity) <= SumOver(ps, ids, Quantity)
    decreases |ids|
  {
    if n == 0 {
      if ids != [] {
        PartialSums(ps, ids[1..], 0);
        assert ids[1..][..0] == ids[..0];
      }
    } else {
      PartialSums(ps, ids[1..], n - 1);
      assert ids[..n][1..] == ids[1..][..n-1];
    }
  }

  /** The rows seen after one more row is opened: it comes first, and the oldest row
      falls out of a full read. */
  lemma VisibleAfterOpening(ps: seq<Position>, p: Position)
    requires p.status == Open && |OpenIds(ps)| <= ROW_LIMIT
    ensures var rest := if |OpenIds(ps)| < ROW_LIMIT then OpenIds(ps) else OpenIds(ps)[..ROW_LIMIT-1];
            VisibleIds(ps + [p]) == [|ps|] + rest
  {
    OpenedIds(ps, p);
  }

  lemma SumAfterOpening(ps: seq<Position>, p: Position, rest: seq<nat>)
    requires forall i :: 0 <= i < |rest| ==> rest[i] < |ps|
    ensures SumOver(ps + [p], [|ps|] + rest, Quantity) == p.quantity + SumOver(ps, rest, Quantity)
  {
    assert (ps + [p])[..|ps|] == ps;
    SumOverPrefix(ps + [p], |ps|, rest, Quantity);
    assert ([|ps|] + rest)[1..] == rest;
  }

  /** Opening a row while the visible rows hold nothing makes exactly its quantity visible. */
  lemma OpeningOntoNothing(ps: seq<Position>, p: Position)
    requires p.status == Open && VisibleQty(ps) == 0.0
    requires |OpenIds(ps)| < ROW_LIMIT || (|OpenIds(ps)| == ROW_LIMIT && NonNegative(ps))
    ensures VisibleQty(ps + [p]) == p.quantity
  {
    var rest := if |OpenIds(ps)| < ROW_LIMIT then OpenIds(ps) else OpenIds(ps)[..ROW_LIMIT-1];
    VisibleAfterOpening(ps, p);
    SumAfterOpening(ps, p, rest);
    if |OpenIds(ps)| == ROW_LIMIT {
      PartialSums(ps, OpenIds(ps), ROW_LIMIT - 1);
    }
  }

  lemma ClosedShowsNothing(ps: seq<Position>, price: real)
    requires |OpenIds(ps)| <= ROW_LIMIT
    ensures var r := CloseRows(ps, VisibleIds(ps), price);
            OpenIds(r) == [] && VisibleQty(r) == 0.0
  {
    CloseVisibleClosesAll(ps, price);
    NoneOpenIds(CloseRows(ps, VisibleIds(ps), price));
  }

  /** The quantity visible after a branch that met no database error. */
  lemma ExecutedQuantity(ps: seq<Position>, obs: Observation, branch: Outcome)
    requires |OpenIds(ps)| < ROW_LIMIT || (|OpenIds(ps)| == ROW_LIMIT && NonNegative(ps))
    requires branch == MissingOpened ==> VisibleQty(ps) == 0.0
    requires Execute(ps, obs, branch).1 == branch != Failed
    ensures var r := Execute(ps, obs, branch).0;
            VisibleQty(r) == if Opens(branch) then obs.exchangeQty else if Closes(branch) then 0.0 else VisibleQty(ps)
  {
    if Closes(branch) {
      ClosedShowsNothing(ps, obs.price);
    }
    if branch == MissingOpened {
      OpeningOntoNothing(ps, ExchangeRow(obs));
    } else if branch == Adjusted {
      OpeningOntoNothing(CloseSeen(ps, obs), ExchangeRow(obs));
    }
  }

  /** Why each branch ends in agreement. */
  lemma BranchAgrees(localQty: real, exchangeQty: real, price: real, minOrder: real)
    requires minOrder > 0.0 && exchangeQty >= 0.0
    ensures var b := Branch(localQty, exchangeQty, price, minOrder);
            b != Failed && (b == MissingOpened ==> localQty == 0.0) &&
            QtyAgrees(if Opens(b) then exchangeQty else if Closes(b) then 0.0 else localQty,
                      exchangeQty, price, minOrder)
  {
    if localQty == 0.0 {
      assert Abs(localQty - exchangeQty) == exchangeQty;
    }
    assert Abs(0.0 - exchangeQty) == exchangeQty;
  }

  lemma AgreementIsNoop(localQty: real, exchangeQty: real, price: real, minOrder: real)
    ensures QtyAgrees(localQty, exchangeQty, price, minOrder) <==>
            Branch(localQty, exchangeQty, price, minOrder) in {DiffIsDust, Matching}
  {
  }

  /** After one repair in which no database call raised, the table agrees with what was
      observed, from any table whose open rows fit into one read. */
  lemma RepairConverges(ps: seq<Position>, obs: Observation, minOrder: real)
    requires |OpenIds(ps)| < ROW_LIMIT || (|OpenIds(ps)| == ROW_LIMIT && NonNegative(ps))
    requires minOrder > 0.0 && obs.exchangeQty >= 0.0
    requires Repair(ps, obs, minOrder).1 != Failed
    ensures Agrees(Repair(ps, obs, minOrder).0, obs, minOrder)
  {
    var branch := Branch(VisibleQty(ps), obs.exchangeQty, obs.price, minOrder);
    BranchAgrees(VisibleQty(ps), obs.exchangeQty, obs.price, minOrder);
    ExecutedQuantity(ps, obs, branch);
  }

  /** Without agreement a position is closed or (re)opened, the latter exactly when the
      exchange holds at least a minimum order. */
  lemma BranchKeepsWorth(localQty: real, exchangeQty: real, price: real, minOrder: real)
    requires minOrder > 0.0 && exchangeQty >= 0.0 && !QtyAgrees(localQty, exchangeQty, price, minOrder)
    ensures var b := Branch(localQty, exchangeQty, price, minOrder);
            b != Failed && (b == MissingOpened ==> localQty == 0.0) &&
            (Opens(b) <==> Worth(price, exchangeQty) >= minOrder) && (!Opens(b) ==> Closes(b))
  {
    if localQty == 0.0 {
      assert Abs(localQty - exchangeQty) == exchangeQty;
    }
    if exchangeQty == 0.0 {
      assert Worth(price, exchangeQty) == 0.0;
    }
  }

  /** What a repair without errors leaves: the same table when the two quantities agree, and
      otherwise the exchange's quantity, or no position at all when the exchange holds less
      than a minimum order. */
  lemma RepairLeaves(ps: seq<Position>, obs: Observation, minOrder: real)
    requires |OpenIds(ps)| < ROW_LIMIT || (|OpenIds(ps)| == ROW_LIMIT && NonNegative(ps))
    requires minOrder > 0.0 && obs.exchangeQty >= 0.0
    requires Repair(ps, obs, minOrder).1 != Failed
    ensures var r := Repair(ps, obs, minOrder).0;
            if Agrees(ps, obs, minOrder) then r == ps
            else VisibleQty(r) == if Worth(obs.price, obs.exchangeQty) >= minOrder then obs.exchangeQty else 0.0
  {
    var localQty := VisibleQty(ps);
    var branch := Branch(localQty, obs.exchangeQty, obs.price, minOrder);
    if Agrees(ps, obs, minOrder) {
      AgreementIsNoop(localQty, obs.exchangeQty, obs.price, minOrder);
    } else {
      BranchKeepsWorth(localQty, obs.exchangeQty, obs.price, minOrder);
      ExecutedQuantity(ps, obs, branch);
    }
  }

  /** `open_missing_local` re-tests the dust value, but a difference that small never got
      past the first test. */
  lemma DustBranchUnreachable(ps: seq<Position>, obs: Observation, minOrder: real)
    ensures Repair(ps, obs, minOrder).1 != DustIgnored
  {
    var localQty := VisibleQty(ps);
    if Decide(localQty, obs.exchangeQty, TOLERANCE) == OpenMissingLocal {
      assert Abs(localQty - obs.exchangeQty) == obs.exchangeQty;
    }
    assert Branch(localQty, obs.exchangeQty, obs.price, minOrder) != DustIgnored;
  }

  /** What a repair reports: a missing position exactly when none was booked and coins are held, an
      orphan exactly when one was booked and none are; otherwise dust below a minimum order is told
      from an adjustment. */
  lemma OutcomeTells(ps: seq<Position>, obs: Observation, minOrder: real)
    requires minOrder > 0.0 && obs.exchangeQty >= 0.0 && Repair(ps, obs, minOrder).1 != Failed
    requires !Agrees(ps, obs, minOrder)
    ensures var outcome, booked := Repair(ps, obs, minOrder).1, VisibleQty(ps);
            (outcome == MissingOpened <==> booked == 0.0) &&
            (outcome == OrphanClosed <==> booked > 0.0 && obs.exchangeQty == 0.0) &&
            (outcome == DustClosed <==>
               booked != 0.0 && !(booked > 0.0 && obs.exchangeQty == 0.0) &&
               Worth(obs.price, obs.exchangeQty) < minOrder) &&
            outcome in {MissingOpened, OrphanClosed, DustClosed, Adjusted}
  {
    DustBranchUnreachable(ps, obs, minOrder);
  }

  /** A second repair on the same observation finds nothing to do and writes nothing. */
  lemma SecondRepairIsNoop(ps: seq<Position>, obs: Observation, minOrder: real)
    requires |OpenIds(ps)| < ROW_LIMIT || (|OpenIds(ps)| == ROW_LIMIT && NonNegative(ps))
    requires minOrder > 0.0 && obs.exchangeQty >= 0.0
    requires Repair(ps, obs, minOrder).1 != Failed
    ensures var r := Repair(ps, obs, minOrder).0;
            Repair(r, obs, minOrder).0 == r && Repair(r, obs, minOrder).1 in {DiffIsDust, Matching}
  {
    RepairConverges(ps, obs, minOrder);
    var r := Repair(ps, obs, minOrder).0;
    AgreementIsNoop(VisibleQty(r), obs.exchangeQty, obs.price, minOrder);
  }

  /** A repair that closes orphans really empties the table exactly when all open rows
      fit into one read: rows beyond the 200 newest are never seen. */
  lemma OrphansClosedIff(ps: seq<Position>, obs: Observation)
    requires Execute(ps, obs, OrphanClosed).1 == OrphanClosed
    ensures NoneOpen(Execute(ps, obs, OrphanClosed).0) <==> |OpenIds(ps)| <= ROW_LIMIT
  {
    var ids := VisibleIds(ps);
    if |OpenIds(ps)| <= ROW_LIMIT {
      CloseVisibleClosesAll(ps, obs.price);
    } else {
      OpenIdsExact(ps);
      VisibleClosable(ps);
      CloseRowsEffect(ps, ids, obs.price);
      var k := OpenIds(ps)[ROW_LIMIT];
      assert k in OpenIds(ps);
      assert forall i :: 0 <= i < |ids| ==> ids[i] == OpenIds(ps)[i] > k;
      assert CloseSeen(ps, obs)[k] == ps[k];
    }
  }

  /** Every repair, complete or cut short by an error, moves the book value by the price
      times the change of the open quantity. */
  lemma RepairMovesBook(ps: seq<Position>, obs: Observation, minOrder: real)
    requires RowsPriced(ps)
    ensures var r := Repair(ps, obs, minOrder).0;
            RowsPriced(r) && Book(r) - Book(ps) == Worth(obs.price, OpenQty(r) - OpenQty(ps))
  {
    if !obs.rowsReadRaises {
      var branch := Branch(VisibleQty(ps), obs.exchangeQty, obs.price, minOrder);
      ExecuteMovesBook(ps, obs, branch);
    }
  }

  lemma ExecuteMovesBook(ps: seq<Position>, obs: Observation, branch: Outcome)
    requires RowsPriced(ps)
    ensures var r := Execute(ps, obs, branch).0;
            RowsPriced(r) && Book(r) - Book(ps) == Worth(obs.price, OpenQty(r) - OpenQty(ps))
  {
    var ps1 := if Closes(branch) then CloseSeen(ps, obs) else ps;
    var ps2 := ps1 + [ExchangeRow(obs)];
    if Closes(branch) {
      CloseRowsMovesBook(ps, Upto(VisibleIds(ps), obs.closeLimit), obs.price);
    } else {
      NothingMoves(obs.price, Book(ps), OpenQty(ps));
    }
    OpenMovesBook(ps1, obs.price, obs.exchangeQty);
    MovesCompose(obs.price, Book(ps), Book(ps1), Book(ps2), OpenQty(ps), OpenQty(ps1), OpenQty(ps2));
  }

  // ---------------------------------------------------------------------------
  // The quantities a repair closes and recreates
  // ---------------------------------------------------------------------------

  function ExecuteClosed(ps: seq<Position>, obs: Observation, branch: Outcome): real {
    if Closes(branch) then SumOver(ps, Upto(VisibleIds(ps), obs.closeLimit), Quantity) else 0.0
  }

  function ExecuteOpened(ps: seq<Position>, obs: Observation, branch: Outcome): real {
    if Opens(branch) && !obs.createRaises && !(Closes(branch) && obs.closeLimit < |VisibleIds(ps)|)
    then obs.exchangeQty else 0.0
  }

  /** The quantity of the rows a repair closes. */
  function RepairClosed(ps: seq<Position>, obs: Observation, minOrder: real): real {
    if obs.rowsReadRaises then 0.0
    else ExecuteClosed(ps, obs, Branch(VisibleQty(ps), obs.exchangeQty, obs.price, minOrder))
  }

  /** The quantity of the row it recreates, if it gets that far. */
  function RepairOpened(ps: seq<Position>, obs: Observation, minOrder: real): real {
    if obs.rowsReadRaises then 0.0
    else ExecuteOpened(ps, obs, Branch(VisibleQty(ps), obs.exchangeQty, obs.price, minOrder))
  }

  lemma ExecuteQuantities(ps: seq<Position>, obs: Observation, branch: Outcome)
    ensures OpenQty(Execute(ps, obs, branch).0) ==
            OpenQty(ps) - ExecuteClosed(ps, obs, branch) + ExecuteOpened(ps, obs, branch)
  {
    if Closes(branch) {
      VisibleClosable(ps);
      CloseRowsTotals(ps, Upto(VisibleIds(ps), obs.closeLimit), obs.price);
    }
    var ps1 := if Closes(branch) then CloseSeen(ps, obs) else ps;
    LongRowIsPriced(obs.price, obs.exchangeQty);
    OpenRowTotals(ps1, ExchangeRow(obs));
  }

  /** A repair, complete or cut short, changes the open quantity by what it recreates minus
      what it closes. */
  lemma RepairQuantities(ps: seq<Position>, obs: Observation, minOrder: real)
    ensures OpenQty(Repair(ps, obs, minOrder).0) ==
            OpenQty(ps) - RepairClosed(ps, obs, minOrder) + RepairOpened(ps, obs, minOrder)
  {
    if !obs.rowsReadRaises {
      ExecuteQuantities(ps, obs, Branch(VisibleQty(ps), obs.exchangeQty, obs.price, minOrder));
    }
  }
}
