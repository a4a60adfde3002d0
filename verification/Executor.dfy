/** The executor object: the order calls and the repair of the positions table. */
module ExecutorService {
  import opened Prelude
  import opened RedisStore
  import opened TradeLedger
  import opened ExecutorSteps
  import opened Reconciliation

  class Executor {
    const redis: InMemoryRedis
    const db: TradeTrackerDb
    /** Orders the exchange accepted, as an outside observer sees them. */
    ghost var fills: seq<Fill>

    constructor (redis: InMemoryRedis, db: TradeTrackerDb)
      ensures this.redis == redis && this.db == db && fills == []
    {
      this.redis := redis;
      this.db := db;
      this.fills := [];
    }

    ghost function State(): World
      reads this, redis, db
    {
      World(redis.store, fills, db.trades, db.positions)
    }

    /** The calling convention of the guarded bodies below: the lock has just been taken. */
    ghost predicate Entered(l: Local, call: Call) {
      l.pc == CheckProcessed && l.call == call
    }

    method ExecuteBuy(call: Call, clock: Clock) returns (result: Result)
      requires call.intent.BuyIntent?
      modifies this, redis, db
      ensures (State(), result) == Session(old(State()), call, clock)
    {
      ghost var l := Start(call);
      if Acquire in call.faults {
        l := AcquireStep(State(), l, clock.acquire).1;
        assert Finish(old(State()), Start(call), clock) == Finish(State(), l, clock);
        return Raised;
      }
      var locked := redis.TryAcquireLock(LOCK_KEY, LOCK_TTL, clock.acquire, clock.acquire);
      l := AcquireStep(old(State()), l, clock.acquire).1;
      assert Finish(old(State()), Start(call), clock) == Finish(State(), l, clock);
      if !locked {
        return LockFailed;
      }
      result, l := BuyUnderLock(call, clock, l);
      if Release in call.faults {
        return Raised;
      }
      redis.ReleaseLock(LOCK_KEY);
    }

    /** The body of the `try` block of `execute_buy`. */
    method BuyUnderLock(call: Call, clock: Clock, ghost l0: Local) returns (result: Result, ghost l: Local)
      requires call.intent.BuyIntent? && Entered(l0, call)
      modifies this, redis, db
      ensures l.pc == Release && l.result == result && l.call == call
      ensures Finish(State(), l, clock) == Finish(old(State()), l0, clock)
    {
      l := l0;
      if CheckProcessed in call.faults {
        return Raised, CheckStep(State(), l, clock.check).1;
      }
      ghost var w := State();
      var processed := redis.IsProcessed(call.sigId, clock.check);
      l := CheckStep(w, l, clock.check).1;
      if processed {
        return DuplicateSignal, l;
      }
      assert Finish(State(), l, clock) == Finish(old(State()), l0, clock);
      if ReadRows in call.faults {
        return Raised, Quit(l, Raised);
      }
      var open := db.GetOpenPositions();
      l := ReadRowsStep(State(), l).1;
      if open != [] {
        return PositionAlreadyOpen, l;
      }
      assert Finish(State(), l, clock) == Finish(old(State()), l0, clock);
      l := SizeStep(State(), l).1;
      if call.intent.sized.None? {
        return NoSafeQty, l;
      }
      assert Finish(State(), l, clock) == Finish(old(State()), l0, clock);
      result, l := OrderBuy(call, clock, l);
    }

    method OrderBuy(call: Call, clock: Clock, ghost l0: Local) returns (result: Result, ghost l: Local)
      requires call.intent.BuyIntent? && l0.pc == Place && l0.call == call
      modifies this, redis, db
      ensures l.pc == Release && l.result == result && l.call == call
      ensures Finish(State(), l, clock) == Finish(old(State()), l0, clock)
    {
      l := PlaceStep(State(), l0, clock.place).1;
      if call.order.Rejected? {
        return OrderFailed, l;
      }
      fills := fills + [Fill(call.sigId, Buy, l0.checkedAt, clock.place)];
      assert Finish(State(), l, clock) == Finish(old(State()), l0, clock);
      result, l := RecordBuy(call, clock, l);
    }

    /** What follows an accepted buy order: the trade, the row, the processed mark. */
    method RecordBuy(call: Call, clock: Clock, ghost l0: Local) returns (result: Result, ghost l: Local)
      requires call.intent.BuyIntent? && l0.pc == WriteTrade && l0.call == call
      modifies redis, db
      ensures l.pc == Release && l.result == result && l.call == call
      ensures Finish(State(), l, clock) == Finish(old(State()), l0, clock)
    {
      l := l0;
      var filled := RecordedQty(call);
      if WriteTrade in call.faults {
        return Raised, Quit(l, Raised);
      }
      db.AddTrade(Buy, filled, call.price, None);
      l := WriteTradeStep(State(), l).1;
      assert Finish(State(), l, clock) == Finish(old(State()), l0, clock);
      ghost var w := State();
      if WriteRow !in call.faults {
        var id := db.CreatePosition(Long, call.price, filled, filled * call.price);
      }
      ghost var next := WriteRowStep(w, l);
      if WriteRow !in call.faults {
        assert OpenedRow(l.call) == NewPosition(Long, call.price, filled, filled * call.price);
        assert next.0.positions == db.positions;
      }
      assert next.0 == State();
      l := next.1;
      assert Finish(State(), l, clock) == Finish(old(State()), l0, clock);
      var marked;
      marked, l := SetMark(call, clock, l);
      if !marked {
        return Raised, l;
      }
      result := Bought(filled, call.price);
    }

    method SetMark(call: Call, clock: Clock, ghost l0: Local) returns (marked: bool, ghost l: Local)
      requires l0.pc == MarkDone && l0.call == call
      modifies redis
      ensures marked <==> MarkDone !in call.faults
      ensures l == MarkStep(old(State()), l0, clock.mark).1
      ensures Finish(State(), l, clock) == Finish(old(State()), l0, clock)
    {
      l := MarkStep(State(), l0, clock.mark).1;
      if MarkDone in call.faults {
        return false, l;
      }
      redis.MarkProcessed(call.sigId, PROCESSED_TTL, clock.mark);
      return true, l;
    }

    method ExecuteSell(call: Call, clock: Clock) returns (result: Result)
      requires call.intent.SellIntent?
      modifies this, redis, db
      ensures (State(), result) == Session(old(State()), call, clock)
    {
      ghost var l := Start(call);
      if Acquire in call.faults {
        l := AcquireStep(State(), l, clock.acquire).1;
        assert Finish(old(State()), Start(call), clock) == Finish(State(), l, clock);
        return Raised;
      }
      var locked := redis.TryAcquireLock(LOCK_KEY, LOCK_TTL, clock.acquire, clock.acquire);
      l := AcquireStep(old(State()), l, clock.acquire).1;
      assert Finish(old(State()), Start(call), clock) == Finish(State(), l, clock);
      if !locked {
        return LockFailed;
      }
      result, l := SellUnderLock(call, clock, l);
      if Release in call.faults {
        return Raised;
      }
      redis.ReleaseLock(LOCK_KEY);
    }

    /** The body of the `try` block of `execute_sell`. */
    method SellUnderLock(call: Call, clock: Clock, ghost l0: Local) returns (result: Result, ghost l: Local)
      requires call.intent.SellIntent? && Entered(l0, call)
      modifies this, redis, db
      ensures l.pc == Release && l.result == result && l.call == call
      ensures Finish(State(), l, clock) == Finish(old(State()), l0, clock)
    {
      l := l0;
      if CheckProcessed in call.faults {
        return Raised, CheckStep(State(), l, clock.check).1;
      }
      ghost var w := State();
      var processed := redis.IsProcessed(call.sigId, clock.check);
      l := CheckStep(w, l, clock.check).1;
      if processed {
        return DuplicateSignal, l;
      }
      assert Finish(State(), l, clock) == Finish(old(State()), l0, clock);
      if ReadRows in call.faults {
        return Raised, Quit(l, Raised);
      }
      var before := db.GetOpenPositions();
      var invested := SumOver(db.positions, before, Invested);
      l := ReadRowsStep(State(), l).1;
      assert Finish(State(), l, clock) == Finish(old(State()), l0, clock);
      result, l := OrderSell(call, clock, invested, l);
    }

    method OrderSell(call: Call, clock: Clock, invested: real, ghost l0: Local) returns (result: Result, ghost l: Local)
      requires call.intent.SellIntent? && l0.pc == Place && l0.call == call && l0.invested == invested
      modifies this, redis, db
      ensures l.pc == Release && l.result == result && l.call == call
      ensures Finish(State(), l, clock) == Finish(old(State()), l0, clock)
    {
      l := PlaceStep(State(), l0, clock.place).1;
      if call.order.Rejected? {
        return OrderFailed, l;
      }
      fills := fills + [Fill(call.sigId, Sell, l0.checkedAt, clock.place)];
      assert Finish(State(), l, clock) == Finish(old(State()), l0, clock);
      result, l := RecordSell(call, clock, invested, l);
    }

    /** What follows an accepted sell order: the trade, the rows, the processed mark. */
    method RecordSell(call: Call, clock: Clock, invested: real, ghost l0: Local)
      returns (result: Result, ghost l: Local)
      requires call.intent.SellIntent? && l0.pc == WriteTrade && l0.call == call && l0.invested == invested
      modifies redis, db
      ensures l.pc == Release && l.result == result && l.call == call
      ensures Finish(State(), l, clock) == Finish(old(State()), l0, clock)
    {
      l := l0;
      var filled := RecordedQty(call);
      if WriteTrade in call.faults {
        return Raised, Quit(l, Raised);
      }
      db.AddTrade(Sell, filled, call.price, None);
      l := WriteTradeStep(State(), l).1;
      assert Finish(State(), l, clock) == Finish(old(State()), l0, clock);
      l := CloseOpenRows(call, clock, l);
      var marked;
      marked, l := SetMark(call, clock, l);
      if !marked {
        return Raised, l;
      }
      result := Sold(filled, call.price, SalePnl(filled, call.price, invested));
    }

    /** The inner `try` block of `execute_sell`: closes the open rows one by one and
        swallows a database error. */
    method CloseOpenRows(call: Call, clock: Clock, ghost l0: Local) returns (ghost l: Local)
      requires l0.pc == RereadRows && l0.call == call
      modifies db
      ensures l.pc == MarkDone && l == l0.(pc := MarkDone, toClose := l.toClose, closed := l.closed)
      ensures db.trades == old(db.trades)
      ensures Finish(State(), l, clock) == Finish(old(State()), l0, clock)
    {
      l := l0;
      if RereadRows in call.faults {
        l := l.(pc := MarkDone);
        return;
      }
      var open := db.GetOpenPositions();
      l := RereadRowsStep(State(), l).1;
      var i := 0;
      while i < |open| && i < call.closeLimit
        invariant 0 <= i <= |open| && i <= call.closeLimit
        invariant l == l0.(pc := CloseNext, toClose := open[i..], closed := i)
        invariant db.trades == old(db.trades)
        invariant Finish(State(), l, clock) == Finish(old(State()), l0, clock)
      {
        ghost var w := State();
        var found := db.ClosePosition(open[i], call.price);
        assert l.toClose[0] == open[i] && l.toClose[1..] == open[i+1..];
        assert CloseNextStep(w, l) == (State(), l.(toClose := open[i+1..], closed := i + 1));
        l := CloseNextStep(w, l).1;
        i := i + 1;
      }
      l := CloseNextStep(State(), l).1;
    }

    /** Brings the positions table in line with the exchange; takes no lock. */
    method Reconcile(obs: Observation, minOrder: real) returns (outcome: Outcome)
      modifies db
      ensures (db.positions, outcome) == Repair(old(db.positions), obs, minOrder)
      ensures db.trades == old(db.trades)
    {
      if obs.rowsReadRaises {
        return Failed;
      }
      var open := db.GetOpenPositions();
      var localQty := SumOver(db.positions, open, Quantity);
      if Worth(obs.price, Abs(localQty - obs.exchangeQty)) < minOrder {
        return DiffIsDust;
      }
      outcome := CarryOut(open, obs, minOrder, Decide(localQty, obs.exchangeQty, TOLERANCE));
    }

    /** The branches of the repair, once the difference is too large to ignore. */
    method CarryOut(open: seq<nat>, obs: Observation, minOrder: real, action: Action) returns (outcome: Outcome)
      requires open == VisibleIds(db.positions)
      modifies db
      ensures (db.positions, outcome) ==
              Execute(old(db.positions), obs, BranchOf(action, obs.exchangeQty, obs.price, minOrder))
      ensures db.trades == old(db.trades)
    {
      match action {
        case Noop =>
          outcome := Matching;
        case CloseOrphanLocal =>
          outcome := CloseOrphans(open, obs);
        case OpenMissingLocal =>
          var dustValue := Worth(obs.price, obs.exchangeQty);
          if dustValue < minOrder {
            return DustIgnored;
          }
          outcome := OpenExchangeRow(obs, dustValue, MissingOpened);
        case AdjustQty =>
          var dustValue := Worth(obs.price, obs.exchangeQty);
          outcome := ReplaceRows(open, obs, dustValue, dustValue < minOrder);
      }
    }

    method CloseOrphans(open: seq<nat>, obs: Observation) returns (outcome: Outcome)
      requires open == VisibleIds(db.positions)
      modifies db
      ensures (db.positions, outcome) == Execute(old(db.positions), obs, OrphanClosed)
      ensures db.trades == old(db.trades)
    {
      var ok := CloseEach(open, obs);
      outcome := if ok then OrphanClosed else Failed;
    }

    /** `adjust_qty`: closes every row seen and, unless the balance is dust, opens one row
        for what the exchange holds. */
    method ReplaceRows(open: seq<nat>, obs: Observation, dustValue: real, dust: bool) returns (outcome: Outcome)
      requires open == VisibleIds(db.positions) && dustValue == Worth(obs.price, obs.exchangeQty)
      modifies db
      ensures (db.positions, outcome) == Execute(old(db.positions), obs, if dust then DustClosed else Adjusted)
      ensures db.trades == old(db.trades)
    {
      var ok := CloseEach(open, obs);
      if !ok {
        return Failed;
      }
      if dust {
        return DustClosed;
      }
      outcome := OpenExchangeRow(obs, dustValue, Adjusted);
    }

    method CloseEach(open: seq<nat>, obs: Observation) returns (ok: bool)
      modifies db
      ensures db.positions == CloseRows(old(db.positions), Upto(open, obs.closeLimit), obs.price)
      ensures ok <==> |open| <= obs.closeLimit
      ensures db.trades == old(db.trades)
    {
      var i := 0;
      while i < |open|
        invariant 0 <= i <= |open| && i <= obs.closeLimit
        invariant db.trades == old(db.trades)
        invariant CloseRows(old(db.positions), Upto(open, obs.closeLimit), obs.price) ==
                  CloseRows(db.positions, Upto(open, obs.closeLimit)[i..], obs.price)
      {
        if i == obs.closeLimit {
          return false;
        }
        var found := db.ClosePosition(open[i], obs.price);
        i := i + 1;
      }
      return true;
    }

    method OpenExchangeRow(obs: Observation, dollarAmount: real, done: Outcome) returns (outcome: Outcome)
      requires dollarAmount == Worth(obs.price, obs.exchangeQty)
      modifies db
      ensures outcome == if obs.createRaises then Failed else done
      ensures db.positions == if obs.createRaises then old(db.positions) else old(db.positions) + [ExchangeRow(obs)]
      ensures db.trades == old(db.trades)
    {
      if obs.createRaises {
        return Failed;
      }
      var id := db.CreatePosition(Long, obs.price, obs.exchangeQty, dollarAmount);
      assert NewPosition(Long, obs.price, obs.exchangeQty, dollarAmount) == ExchangeRow(obs);
      outcome := done;
    }
  }
}
