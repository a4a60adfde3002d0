/**
 One buy or sell call of the executor as a program of atomic steps: between two steps
 the real code awaits, so other executors may run. `MicroStep` is the single definition
 of what a step does; `Finish` runs the remaining steps of a call without interruption.
 */
module ExecutorSteps {
  import opened Prelude
  import opened RedisStore
  import opened TradeLedger

  const SYMBOL := "BTCUSDT"
  const LOCK_KEY := LOCK_PREFIX + SYMBOL
  const LOCK_TTL := 10.0
  const PROCESSED_TTL := 3600.0

  /** Program points of `execute_buy` and `execute_sell`. */
  datatype Pc =
    | Acquire | CheckProcessed | ReadRows | Size | Place | WriteTrade | WriteRow
    | RereadRows | CloseNext | MarkDone | Release | Finished

  /** A buy carries the answer of the order sizing, a sell the optional quantity asked for. */
  datatype Intent = BuyIntent(sized: Option<real>) | SellIntent(requested: Option<real>)

  /** What the exchange answers to the order. */
  datatype Order = Rejected | Accepted(filledQty: Option<real>)

  /** A call together with everything its environment will answer. A step in `faults`
      raises; `closeLimit` is the number of `close_position` calls that succeed before
      one of them raises. */
  datatype Call = Call(intent: Intent, sigId: string, price: real, order: Order, faults: set<Pc>, closeLimit: nat)

  datatype Result =
    | LockFailed | DuplicateSignal | PositionAlreadyOpen | NoSafeQty | OrderFailed | Raised
    | Bought(qty: real, price: real)
    | Sold(qty: real, price: real, pnl: real)

  /** An order the exchange accepted, with the instants of the idempotency check before
      it and of the order itself. */
  datatype Fill = Fill(sigId: string, side: Side, checkedAt: real, placedAt: real)

  datatype World = World(store: Store, fills: seq<Fill>, trades: seq<Trade>, positions: seq<Position>)

  /** The local variables of a running call. */
  datatype Local = Local(
    call: Call, pc: Pc, acquiredAt: real, checkedAt: real, placedAt: real, markedAt: real,
    invested: real, toClose: seq<nat>, closed: nat, result: Result)

  /** Clock readings of the timed steps of one call. */
  datatype Clock = Clock(acquire: real, check: real, place: real, mark: real)

  function Start(call: Call): Local {
    Local(call, Acquire, 0.0, 0.0, 0.0, 0.0, 0.0, [], 0, Raised)
  }

  function SideOf(call: Call): Side {
    if call.intent.BuyIntent? then Buy else Sell
  }

  /** `filled_qty or float(qty)`. */
  function RecordedQty(call: Call): real {
    if call.order.Accepted? && Truthy(call.order.filledQty) then call.order.filledQty.value
    else match call.intent
         case BuyIntent(sized) => if sized.Some? then sized.value else 0.0
         case SellIntent(requested) => if requested.Some? then requested.value else 0.0
  }

  /** The profit a sell reports. */
  function SalePnl(qty: real, price: real, invested: real): real {
    qty * price - invested
  }

  function Quit(l: Local, result: Result): Local {
    l.(pc := Release, result := result)
  }

  function AcquireStep(w: World, l0: Local, at: real): (World, Local)
    requires l0.pc == Acquire
  {
    var l := l0.(acquiredAt := at);
    if Acquire in l.call.faults then (w, l.(pc := Finished, result := Raised)) else
      var (store, reply) := Apply(w.store, AcquireLock(LOCK_KEY, LOCK_TTL, at), at);
      if reply.Acquired? && reply.ok
      then (w.(store := store), l.(pc := CheckProcessed))
      else (w.(store := store), l.(pc := Finished, result := LockFailed))
  }

  function CheckStep(w: World, l0: Local, at: real): (World, Local)
    requires l0.pc == CheckProcessed
  {
    var l := l0.(checkedAt := at);
    if CheckProcessed in l.call.faults then (w, Quit(l, Raised)) else
      var (store, reply) := Apply(w.store, Get(ProcessedKey(l.call.sigId)), at);
      if reply.Value? && reply.found.Some? && reply.found.value != ""
      then (w.(store := store), Quit(l, DuplicateSignal))
      else (w.(store := store), l.(pc := ReadRows))
  }

  function ReadRowsStep(w: World, l: Local): (World, Local)
    requires l.pc == ReadRows
  {
    if ReadRows in l.call.faults then (w, Quit(l, Raised))
    else if l.call.intent.SellIntent? then (w, l.(pc := Place, invested := VisibleInvested(w.positions)))
    else if VisibleIds(w.positions) != [] then (w, Quit(l, PositionAlreadyOpen))
    else (w, l.(pc := Size))
  }

  function SizeStep(w: World, l: Local): (World, Local)
    requires l.pc == Size
  {
    if l.call.intent.BuyIntent? && l.call.intent.sized.None? then (w, Quit(l, NoSafeQty))
    else (w, l.(pc := Place))
  }

  function PlaceStep(w: World, l0: Local, at: real): (World, Local)
    requires l0.pc == Place
  {
    var l := l0.(placedAt := at);
    if l.call.order.Rejected? then (w, Quit(l, OrderFailed))
    else (w.(fills := w.fills + [Fill(l.call.sigId, SideOf(l.call), l.checkedAt, at)]), l.(pc := WriteTrade))
  }

  function WriteTradeStep(w: World, l: Local): (World, Local)
    requires l.pc == WriteTrade
  {
    if WriteTrade in l.call.faults then (w, Quit(l, Raised))
    else (w.(trades := w.trades + [NewTrade(SideOf(l.call), RecordedQty(l.call), l.call.price, None)]),
          l.(pc := if l.call.intent.BuyIntent? then WriteRow else RereadRows))
  }

  /** The row a filled buy opens. */
  function OpenedRow(call: Call): Position {
    LongRow(call.price, RecordedQty(call))
  }

  /** A failing row write is logged and forgotten: the call goes on either way. */
  function WriteRowStep(w: World, l: Local): (World, Local)
    requires l.pc == WriteRow
  {
    var w1 := if WriteRow in l.call.faults then w else w.(positions := w.positions + [OpenedRow(l.call)]);
    (w1, l.(pc := MarkDone))
  }

  function RereadRowsStep(w: World, l: Local): (World, Local)
    requires l.pc == RereadRows
  {
    if RereadRows in l.call.faults then (w, l.(pc := MarkDone))
    else (w, l.(pc := CloseNext, toClose := VisibleIds(w.positions), closed := 0))
  }

  function CloseNextStep(w: World, l: Local): (World, Local)
    requires l.pc == CloseNext
  {
    if l.toClose == [] || l.closed >= l.call.closeLimit then (w, l.(pc := MarkDone, toClose := []))
    else (w.(positions := CloseRow(w.positions, l.toClose[0], l.call.price)),
          l.(toClose := l.toClose[1..], closed := l.closed + 1))
  }

  function MarkStep(w: World, l0: Local, at: real): (World, Local)
    requires l0.pc == MarkDone
  {
    var l := l0.(markedAt := at);
    if MarkDone in l.call.faults then (w, Quit(l, Raised)) else
      var store := Apply(w.store, Set(ProcessedKey(l.call.sigId), "1", Some(PROCESSED_TTL)), at).0;
      var q, p := RecordedQty(l.call), l.call.price;
      (w.(store := store),
       Quit(l, if l.call.intent.BuyIntent? then Bought(q, p) else Sold(q, p, SalePnl(q, p, l.invested))))
  }

  /** `finally: release_lock` deletes the key without looking who holds it. */
  function ReleaseStep(w: World, l: Local): (World, Local)
    requires l.pc == Release
  {
    if Release in l.call.faults then (w, l.(pc := Finished, result := Raised))
    else (w.(store := w.store - {LOCK_KEY}), l.(pc := Finished))
  }

  function MicroStep(w: World, l: Local, at: real): (r: (World, Local))
    ensures r.1.call == l.call
    ensures l.pc != Finished ==>
              Rank(r.1.pc) < Rank(l.pc) || (r.1.pc == l.pc && |r.1.toClose| < |l.toClose|)
  {
    match l.pc
    case Acquire => AcquireStep(w, l, at)
    case CheckProcessed => CheckStep(w, l, at)
    case ReadRows => ReadRowsStep(w, l)
    case Size => SizeStep(w, l)
    case Place => PlaceStep(w, l, at)
    case WriteTrade => WriteTradeStep(w, l)
    case WriteRow => WriteRowStep(w, l)
    case RereadRows => RereadRowsStep(w, l)
    case CloseNext => CloseNextStep(w, l)
    case MarkDone => MarkStep(w, l, at)
    case Release => ReleaseStep(w, l)
    case Finished => (w, l)
  }

  function TimeAt(k: Clock, pc: Pc): real {
    match pc
    case Acquire => k.acquire
    case CheckProcessed => k.check
    case Place => k.place
    case MarkDone => k.mark
    case _ => 0.0
  }

  function Rank(pc: Pc): nat {
    match pc
    case Acquire => 11
    case CheckProcessed => 10
    case ReadRows => 9
    case Size => 8
    case Place => 7
    case WriteTrade => 6
    case WriteRow => 5
    case RereadRows => 4
    case CloseNext => 3
    case MarkDone => 2
    case Release => 1
    case Finished => 0
  }

  /** Runs a call to its end with nobody interfering. */
  function Finish(w: World, l: Local, k: Clock): (World, Local)
    decreases Rank(l.pc), |l.toClose|
  {
    if l.pc == Finished then (w, l) else
      var (w1, l1) := MicroStep(w, l, TimeAt(k, l.pc));
      Finish(w1, l1, k)
  }

  /** The call as one atomic operation on the world. */
  function Session(w: World, call: Call, k: Clock): (World, Result) {
    var (w1, l1) := Finish(w, Start(call), k);
    (w1, l1.result)
  }

  predicate InCriticalSection(l: Local) {
    l.pc != Acquire && l.pc != Finished
  }
}
