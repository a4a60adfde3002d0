/**
 Funding-rate arbitrage: long spot against a short perpetual of the same size. Both legs
 are market orders that can be refused one by one, so the protocol orders the perpetual
 first and rolls it back when the spot order fails. Quantities are counted in ticks of the
 symbol's precision, in which every order is placed.
 */
module FundingArb {
  import opened Prelude
  import opened RedisStore

  // ---------------------------------------------------------------------------
  // The decision
  // ---------------------------------------------------------------------------

  datatype Params = Params(
    entryThreshold: real, exitThreshold: real, lookback: nat,
    maxNotional: real, maxBasisPct: real, marginSafety: real)

  const DEFAULTS := Params(0.0001, 0.00003, 3, 30.0, 1.0, 0.3)

  datatype Signal = OpenSignal | CloseSignal | EmergencyClose | Hold

  datatype Reason =
    | NoFundingData | BasisDivergence | MarginLow | BelowExit | Negative | Collecting | AboveEntry | Waiting

  datatype Decision = Decision(signal: Signal, reason: Reason, avgFunding: real)

  function SumRates(rates: seq<real>): real {
    if rates == [] then 0.0 else SumRates(rates[..|rates|-1]) + rates[|rates|-1]
  }

  function Lookback(p: Params, rates: seq<real>): nat {
    if p.lookback < |rates| then p.lookback else |rates|
  }

  function Average(p: Params, rates: seq<real>): real
    requires Lookback(p, rates) > 0
  {
    SumRates(rates[..Lookback(p, rates)]) / (Lookback(p, rates) as real)
  }

  function BasisPct(spot: real, perp: real): real {
    if spot > 0.0 then (perp - spot) / spot * 100.0 else 0.0
  }

  function Decide(
    p: Params, rates: seq<real>, spot: real, perp: real, inPosition: bool, margin: Option<real>): Decision
  {
    if Lookback(p, rates) == 0 then Decision(Hold, NoFundingData, 0.0) else
    var avg := Average(p, rates);
    if inPosition then
      if Abs(BasisPct(spot, perp)) > p.maxBasisPct then Decision(EmergencyClose, BasisDivergence, avg)
      else if margin.Some? && margin.value < p.marginSafety then Decision(EmergencyClose, MarginLow, avg)
      else if avg < p.exitThreshold then Decision(CloseSignal, BelowExit, avg)
      else if avg < 0.0 then Decision(CloseSignal, Negative, avg)
      else Decision(Hold, Collecting, avg)
    else if avg >= p.entryThreshold then Decision(OpenSignal, AboveEntry, avg)
    else Decision(Hold, Waiting, avg)
  }

  /** A position is never opened on top of one that is seen, and only a position that is
      seen is closed. */
  lemma DecisionFitsPosition(
    p: Params, rates: seq<real>, spot: real, perp: real, inPosition: bool, margin: Option<real>)
    ensures var d := Decide(p, rates, spot, perp, inPosition, margin);
            (d.signal == OpenSignal ==> !inPosition) && (d.signal in {CloseSignal, EmergencyClose} ==> inPosition)
  {
  }

  // ---------------------------------------------------------------------------
  // The two-leg orders
  // ---------------------------------------------------------------------------

  /** What the account holds, in ticks, with the history of what went wrong: spot that
      could not be sold after its short was bought back, and shorts that could not be
      rolled back after their spot order failed. */
  datatype Account = Account(spot: int, short: int, unsold: int, unrolled: int)

  /** The exchange's answers during one cycle; a failed position read looks flat. */
  datatype Replies = Replies(statusRead: bool, closeRead: bool, perpOk: bool, spotOk: bool, rollbackOk: bool)

  datatype Result =
    | LockFailed | QtyTooSmall | PerpShortFailed | SpotBuyFailed | Opened(qty: int)
    | NoPerpPosition | PerpCloseFailed | SpotSellFailed | Closed(qty: int)

  /** Whole ticks that fit into the notional; none when the price is not positive. */
  function CalcQty(p: Params, price: real, ticksPerUnit: nat): Option<nat> {
    if price <= 0.0 then None else
      var ticks := (p.maxNotional / price * ticksPerUnit as real).Floor;
      if ticks <= 0 then None else Some(ticks)
  }

  function OpenLegs(a: Account, qty: Option<nat>, r: Replies): (Account, Result) {
    if qty.None? then (a, QtyTooSmall)
    else if !r.perpOk then (a, PerpShortFailed)
    else if r.spotOk then (a.(short := a.short + qty.value, spot := a.spot + qty.value), Opened(qty.value))
    else if r.rollbackOk then (a, SpotBuyFailed)
    else (a.(short := a.short + qty.value, unrolled := a.unrolled + qty.value), SpotBuyFailed)
  }

  function SeenShort(a: Account, read: bool): int {
    if read then a.short else 0
  }

  function CloseLegs(a: Account, r: Replies): (Account, Result) {
    var size := SeenShort(a, r.closeRead);
    if size <= 0 then (a, NoPerpPosition)
    else if !r.perpOk then (a, PerpCloseFailed)
    else if r.spotOk then (a.(short := a.short - size, spot := a.spot - size), Closed(size))
    else (a.(short := a.short - size, unsold := a.unsold + size), SpotSellFailed)
  }

  /** What one cycle observes. */
  datatype Input = Input(
    enabled: bool, tickerOk: bool, spot: real, perp: real, funding: real, margin: Option<real>,
    lockFree: bool, replies: Replies)

  function CycleDecision(p: Params, a: Account, i: Input): Decision {
    Decide(p, [i.funding], i.spot, i.perp, SeenShort(a, i.replies.statusRead) > 0, i.margin)
  }

  /** One cycle: read, decide, execute. */
  function Cycle(p: Params, ticksPerUnit: nat, a: Account, i: Input): (Account, Option<Result>) {
    if !i.enabled || !i.tickerOk then (a, None) else
    match CycleDecision(p, a, i).signal
    case Hold => (a, None)
    case OpenSignal =>
      if !i.lockFree then (a, Some(LockFailed)) else
      var (a', r) := OpenLegs(a, CalcQty(p, i.spot, ticksPerUnit), i.replies);
      (a', Some(r))
    case _ =>
      if !i.lockFree then (a, Some(LockFailed)) else
      var (a', r) := CloseLegs(a, i.replies);
      (a', Some(r))
  }

  function RunCycles(p: Params, ticksPerUnit: nat, a: Account, inputs: seq<Input>): Account {
    if inputs == [] then a else
      Cycle(p, ticksPerUnit, RunCycles(p, ticksPerUnit, a, inputs[..|inputs|-1]), inputs[|inputs|-1]).0
  }

  // ---------------------------------------------------------------------------
  // Exposure
  // ---------------------------------------------------------------------------

  /** Spot that is not hedged by the short. */
  function Exposure(a: Account): int {
    a.spot - a.short
  }

  lemma CycleKeepsExposure(p: Params, ticksPerUnit: nat, a: Account, i: Input)
    ensures var a' := Cycle(p, ticksPerUnit, a, i).0;
            Exposure(a') - Exposure(a) == (a'.unsold - a.unsold) - (a'.unrolled - a.unrolled) &&
            a'.unsold >= a.unsold && a'.unrolled >= a.unrolled &&
            (a.short >= 0 ==> a'.short >= 0)
  {
  }

  /** Over every run, with every refusal and every failed read: at each cycle boundary the
      unhedged spot is what could not be sold minus the shorts that could not be rolled
      back. So the account is delta-neutral exactly when these two sums are equal, and in
      particular in every run without such failures. */
  lemma {:induction false} ExposureLaw(p: Params, ticksPerUnit: nat, a: Account, inputs: seq<Input>)
    requires a == Account(0, 0, 0, 0)
    ensures var b := RunCycles(p, ticksPerUnit, a, inputs);
            Exposure(b) == b.unsold - b.unrolled && b.unsold >= 0 && b.unrolled >= 0 && b.short >= 0 &&
            (Exposure(b) == 0 <==> b.unsold == b.unrolled)
    decreases |inputs|
  {
    if inputs == [] {
    } else {
      var n := |inputs| - 1;
      ExposureLaw(p, ticksPerUnit, a, inputs[..n]);
      CycleKeepsExposure(p, ticksPerUnit, RunCycles(p, ticksPerUnit, a, inputs[..n]), inputs[n]);
    }
  }

  /** The most ticks any of the cycles could order. */
  predicate QtyAtMost(p: Params, ticksPerUnit: nat, inputs: seq<Input>, bound: nat) {
    forall i :: 0 <= i < |inputs| ==>
      var q := CalcQty(p, inputs[i].spot, ticksPerUnit);
      q.Some? ==> q.value <= bound
  }

  /** If positions are read correctly when a cycle decides, no second position is ever
      opened on top of one: the short stays within the size of a single order. */
  lemma {:induction false} NoSecondPosition(p: Params, ticksPerUnit: nat, a: Account, inputs: seq<Input>, bound: nat)
    requires a == Account(0, 0, 0, 0)
    requires forall i :: 0 <= i < |inputs| ==> inputs[i].replies.statusRead
    requires QtyAtMost(p, ticksPerUnit, inputs, bound)
    ensures 0 <= RunCycles(p, ticksPerUnit, a, inputs).short <= bound
    decreases |inputs|
  {
    if inputs == [] {
    } else {
      var n := |inputs| - 1;
      NoSecondPosition(p, ticksPerUnit, a, inputs[..n], bound);
      var b := RunCycles(p, ticksPerUnit, a, inputs[..n]);
      DecisionFitsPosition(p, [inputs[n].funding], inputs[n].spot, inputs[n].perp,
                           SeenShort(b, inputs[n].replies.statusRead) > 0, inputs[n].margin);
    }
  }

  /** Funding inside the dead band between the thresholds, with basis and margin in order. */
  predicate InDeadBand(p: Params, i: Input) {
    p.exitThreshold <= i.funding < p.entryThreshold && 0.0 <= i.funding &&
    Abs(BasisPct(i.spot, i.perp)) <= p.maxBasisPct && (i.margin.Some? ==> i.margin.value >= p.marginSafety)
  }

  lemma SingleRateIsAverage(p: Params, rate: real)
    requires p.lookback >= 1
    ensures Lookback(p, [rate]) == 1 && Average(p, [rate]) == rate
  {
    assert Lookback(p, [rate]) == 1;
    assert [rate][..1] == [rate] && [rate][..0] == [];
    assert SumRates([rate]) == SumRates([]) + rate == rate;
    assert Average(p, [rate]) == rate / (1 as real);
  }

  /** The orders of an opening cycle leave a short behind: the perpetual order is accepted and
      is not rolled back. */
  predicate LeavesShort(r: Replies) {
    r.perpOk && (r.spotOk || !r.rollbackOk)
  }

  /** A cycle adds to an existing short if and only if it could not read the position, saw
      funding at the entry threshold, got the lock and a quantity, and its orders left a short. */
  lemma StackingIff(p: Params, ticksPerUnit: nat, a: Account, i: Input)
    requires a.short > 0
    ensures Cycle(p, ticksPerUnit, a, i).0.short > a.short <==>
            i.enabled && i.tickerOk && !i.replies.statusRead && p.lookback > 0 && i.funding >= p.entryThreshold &&
            i.lockFree && CalcQty(p, i.spot, ticksPerUnit).Some? && LeavesShort(i.replies)
  {
    DecisionFitsPosition(p, [i.funding], i.spot, i.perp, SeenShort(a, i.replies.statusRead) > 0, i.margin);
    if p.lookback > 0 {
      SingleRateIsAverage(p, i.funding);
    }
  }

  /** Hysteresis over runs: as long as funding stays in the dead band nothing is traded,
      whether a position is open or not and whether it can be read or not. */
  lemma {:induction false} DeadBandIsQuiet(p: Params, ticksPerUnit: nat, a: Account, inputs: seq<Input>)
    requires p.lookback >= 1
    requires forall i :: 0 <= i < |inputs| ==> InDeadBand(p, inputs[i])
    ensures RunCycles(p, ticksPerUnit, a, inputs) == a
    decreases |inputs|
  {
    if inputs == [] {
    } else {
      var n := |inputs| - 1;
      DeadBandIsQuiet(p, ticksPerUnit, a, inputs[..n]);
      SingleRateIsAverage(p, inputs[n].funding);
      assert InDeadBand(p, inputs[n]);
    }
  }

  /** The perpetual's distance from the spot price in percent of the spot price. */
  lemma BasisIsPercent(spot: real, perp: real)
    ensures spot > 0.0 ==> BasisPct(spot, perp) * spot == 100.0 * (perp - spot)
    ensures spot <= 0.0 ==> BasisPct(spot, perp) == 0.0
  {
    if spot > 0.0 {
      var q := (perp - spot) / spot;
      assert q * spot == perp - spot;
      assert (q * 100.0) * spot == 100.0 * (q * spot);
    }
  }

  /** What an open position must not go on with. */
  predicate MustClose(p: Params, i: Input) {
    BasisPct(i.spot, i.perp) > p.maxBasisPct || -BasisPct(i.spot, i.perp) > p.maxBasisPct ||
    (i.margin.Some? && i.margin.value < p.marginSafety) ||
    i.funding < p.exitThreshold || i.funding < 0.0
  }

  /** A position is reduced if and only if basis, margin or funding demand it, it can be read
      twice, the lock is free and the perpetual order is accepted; it is then closed as a whole,
      and the same spot quantity is sold or recorded as unsold. */
  lemma ClosesIff(p: Params, ticksPerUnit: nat, a: Account, i: Input)
    requires a.short > 0 && p.lookback > 0
    ensures var a' := Cycle(p, ticksPerUnit, a, i).0;
            (a'.short < a.short <==>
               i.enabled && i.tickerOk && i.replies.statusRead && i.replies.closeRead && i.lockFree &&
               i.replies.perpOk && MustClose(p, i)) &&
            (a'.short < a.short ==>
               a'.short == 0 && a'.unrolled == a.unrolled &&
               (if i.replies.spotOk then a'.spot == a.spot - a.short && a'.unsold == a.unsold
                else a'.spot == a.spot && a'.unsold == a.unsold + a.short))
  {
    SingleRateIsAverage(p, i.funding);
  }

  /** A flat account opens if and only if funding is at the entry threshold, lock and quantity are
      there and the orders leave a short; the short is then the quantity, and the spot bought is
      the same or, after a refused order and a refused rollback, none. */
  lemma OpensIff(p: Params, ticksPerUnit: nat, a: Account, i: Input)
    requires a.short == 0
    ensures var (a', qty) := (Cycle(p, ticksPerUnit, a, i).0, CalcQty(p, i.spot, ticksPerUnit));
            (a'.short != 0 <==>
               i.enabled && i.tickerOk && p.lookback > 0 && i.funding >= p.entryThreshold && i.lockFree &&
               qty.Some? && LeavesShort(i.replies)) &&
            (a'.short != 0 ==>
               a'.short == qty.value && a'.unsold == a.unsold &&
               (if i.replies.spotOk then a'.spot == a.spot + qty.value && a'.unrolled == a.unrolled
                else a'.spot == a.spot && a'.unrolled == a.unrolled + qty.value))
  {
    if p.lookback > 0 {
      SingleRateIsAverage(p, i.funding);
    }
  }

  /** A cycle reports what it did: an opened quantity is on both legs afterwards, a closed one on
      neither, and every other answer but two leaves the account as it was. */
  lemma ReportsWhatItDid(p: Params, ticksPerUnit: nat, a: Account, i: Input)
    ensures var (a', r) := Cycle(p, ticksPerUnit, a, i);
            match r
            case None => a' == a
            case Some(Opened(q)) => a' == a.(short := a.short + q, spot := a.spot + q)
            case Some(Closed(q)) => a' == a.(short := a.short - q, spot := a.spot - q) && q == a.short
            case Some(SpotBuyFailed) => a'.spot == a.spot && (i.replies.rollbackOk ==> a' == a)
            case Some(SpotSellFailed) => a'.spot == a.spot && a'.short == 0
            case Some(_) => a' == a
  {
  }

  /** A decision on one rate gives its true reason, and the first of those that apply. */
  lemma ReasonTells(p: Params, rate: real, spot: real, perp: real, inPosition: bool, margin: Option<real>)
    requires p.lookback > 0
    ensures var d := Decide(p, [rate], spot, perp, inPosition, margin);
            var apart := BasisPct(spot, perp) > p.maxBasisPct || -BasisPct(spot, perp) > p.maxBasisPct;
            d.avgFunding == rate &&
            match d.reason
            case NoFundingData => false
            case BasisDivergence => d.signal == EmergencyClose && inPosition && apart
            case MarginLow => d.signal == EmergencyClose && inPosition && !apart && margin.value < p.marginSafety
            case BelowExit => d.signal == CloseSignal && inPosition && !apart && rate < p.exitThreshold
            case Negative => d.signal == CloseSignal && inPosition && !apart && p.exitThreshold <= rate < 0.0
            case Collecting => d.signal == Hold && inPosition && rate >= p.exitThreshold && rate >= 0.0
            case AboveEntry => d.signal == OpenSignal && !inPosition && rate >= p.entryThreshold
            case Waiting => d.signal == Hold && !inPosition && rate < p.entryThreshold
  {
    SingleRateIsAverage(p, rate);
  }

  /** Only the newest rates count, as many as the lookback says. */
  lemma OlderRatesAreIgnored(p: Params, rates: seq<real>, older: seq<real>, spot: real, perp: real,
                             inPosition: bool, margin: Option<real>)
    requires |rates| >= p.lookback
    ensures Decide(p, rates + older, spot, perp, inPosition, margin) == Decide(p, rates, spot, perp, inPosition, margin)
  {
    assert (rates + older)[..p.lookback] == rates[..p.lookback];
  }

  /** There is an order size exactly when the notional pays for at least one tick. */
  lemma CalcQtyIff(p: Params, price: real, ticksPerUnit: nat)
    ensures CalcQty(p, price, ticksPerUnit).Some? <==>
            price > 0.0 && p.maxNotional * ticksPerUnit as real >= price
  {
    if price > 0.0 {
      var units, t := p.maxNotional / price, ticksPerUnit as real;
      var exact := units * t;
      assert units * price == p.maxNotional;
      assert exact * price == p.maxNotional * t;
      AtLeastOne(exact, price, p.maxNotional * ticksPerUnit as real);
    }
  }

  lemma AtLeastOne(x: real, price: real, worth: real)
    requires price > 0.0 && x * price == worth
    ensures x.Floor > 0 <==> worth >= price
  {
    if x >= 1.0 {
      assert (x - 1.0) * price >= 0.0;
    } else {
      assert (1.0 - x) * price > 0.0;
    }
  }

  /** The order size is the largest number of ticks worth at most the notional. */
  lemma CalcQtyIsLargest(p: Params, price: real, ticksPerUnit: nat)
    requires price > 0.0 && ticksPerUnit >= 1 && CalcQty(p, price, ticksPerUnit).Some?
    ensures var q := CalcQty(p, price, ticksPerUnit).value;
            q > 0 &&
            q as real * price <= p.maxNotional * ticksPerUnit as real < (q + 1) as real * price
  {
    var units := p.maxNotional / price;
    var q := CalcQty(p, price, ticksPerUnit).value;
    var exact := units * ticksPerUnit as real;
    assert units * price == p.maxNotional;
    assert q as real <= exact < (q + 1) as real;
    ProductsSwap(units, ticksPerUnit as real, price);
    PriceKeepsOrder(q as real, exact, price);
    PriceKeepsOrder(exact, (q + 1) as real, price);
  }

  lemma ProductsSwap(x: real, y: real, z: real)
    ensures (x * y) * z == (x * z) * y
  {
  }

  lemma PriceKeepsOrder(x: real, y: real, price: real)
    requires price > 0.0 && x <= y
    ensures x * price <= y * price
    ensures x < y ==> x * price < y * price
  {
    assert (y - x) * price >= 0.0;
    if x < y { assert (y - x) * price > 0.0; }
  }

  // ---------------------------------------------------------------------------
  // The executor and the consumer
  // ---------------------------------------------------------------------------

  const LOCK_NAME := "lock:funding_arb:BTCUSDT"
  const ARB_LOCK_TTL := 15.0

  /** The account at the exchange: an order either executes in full or is refused. The
      two ghost counters are an observer's record of what went wrong. */
  class Exchange {
    var spot: int
    var short: int
    ghost var unsold: int
    ghost var unrolled: int

    constructor ()
      ensures View() == Account(0, 0, 0, 0)
    {
      spot, short, unsold, unrolled := 0, 0, 0, 0;
    }

    ghost function View(): Account
      reads this
    {
      Account(spot, short, unsold, unrolled)
    }

    method PlacePerp(delta: int, accepted: bool) returns (ok: bool)
      modifies this
      ensures ok == accepted
      ensures View() == if ok then old(View()).(short := old(short) + delta) else old(View())
    {
      ok := accepted;
      if ok { short := short + delta; }
    }

    method PlaceSpot(delta: int, accepted: bool) returns (ok: bool)
      modifies this
      ensures ok == accepted
      ensures View() == if ok then old(View()).(spot := old(spot) + delta) else old(View())
    {
      ok := accepted;
      if ok { spot := spot + delta; }
    }

    ghost method Record(unsoldNow: int, unrolledNow: int)
      modifies this
      ensures View() == old(View()).(unsold := old(unsold) + unsoldNow, unrolled := old(unrolled) + unrolledNow)
    {
      unsold, unrolled := unsold + unsoldNow, unrolled + unrolledNow;
    }

    /** A failed read returns nothing, which the callers take for size 0. */
    method ReadShort(readable: bool) returns (size: int)
      ensures size == SeenShort(View(), readable)
    {
      size := if readable then short else 0;
    }
  }

  class FundingArbExecutor {
    const redis: InMemoryRedis
    const exchange: Exchange
    const params: Params
    const ticksPerUnit: nat

    constructor (redis: InMemoryRedis, exchange: Exchange, params: Params, ticksPerUnit: nat)
      ensures this.redis == redis && this.exchange == exchange
      ensures this.params == params && this.ticksPerUnit == ticksPerUnit
    {
      this.redis := redis;
      this.exchange := exchange;
      this.params := params;
      this.ticksPerUnit := ticksPerUnit;
    }

    /** The lock decides whether the legs are traded at all, and is gone afterwards. */
    method OpenPosition(spotPrice: real, r: Replies, now: real) returns (result: Result)
      modifies redis, exchange
      ensures (exchange.View(), result) ==
              if LOCK_NAME in Sweep(old(redis.store), now) then (old(exchange.View()), LockFailed)
              else OpenLegs(old(exchange.View()), CalcQty(params, spotPrice, ticksPerUnit), r)
      ensures LOCK_NAME !in Sweep(old(redis.store), now) ==> redis.store == old(redis.store) - {LOCK_NAME}
    {
      var locked := redis.TryAcquireLock(LOCK_NAME, ARB_LOCK_TTL, now, now);
      if !locked {
        return LockFailed;
      }
      result := BuyBothLegs(spotPrice, r);
      redis.ReleaseLock(LOCK_NAME);
    }

    method BuyBothLegs(spotPrice: real, r: Replies) returns (result: Result)
      modifies exchange
      ensures (exchange.View(), result) ==
              OpenLegs(old(exchange.View()), CalcQty(params, spotPrice, ticksPerUnit), r)
    {
      var qty := CalcQty(params, spotPrice, ticksPerUnit);
      if qty.None? {
        return QtyTooSmall;
      }
      var perpOk := exchange.PlacePerp(qty.value, r.perpOk);
      if !perpOk {
        return PerpShortFailed;
      }
      var spotOk := exchange.PlaceSpot(qty.value, r.spotOk);
      if !spotOk {
        var undo := -(qty.value as int);
        var rolledBack := exchange.PlacePerp(undo, r.rollbackOk);
        if !rolledBack {
          exchange.Record(0, qty.value);
        }
        return SpotBuyFailed;
      }
      return Opened(qty.value);
    }

    method ClosePosition(r: Replies, now: real) returns (result: Result)
      modifies redis, exchange
      ensures (exchange.View(), result) ==
              if LOCK_NAME in Sweep(old(redis.store), now) then (old(exchange.View()), LockFailed)
              else CloseLegs(old(exchange.View()), r)
      ensures LOCK_NAME !in Sweep(old(redis.store), now) ==> redis.store == old(redis.store) - {LOCK_NAME}
    {
      var locked := redis.TryAcquireLock(LOCK_NAME, ARB_LOCK_TTL, now, now);
      if !locked {
        return LockFailed;
      }
      result := SellBothLegs(r);
      redis.ReleaseLock(LOCK_NAME);
    }

    method SellBothLegs(r: Replies) returns (result: Result)
      modifies exchange
      ensures (exchange.View(), result) == CloseLegs(old(exchange.View()), r)
    {
      var size := exchange.ReadShort(r.closeRead);
      if size <= 0 {
        return NoPerpPosition;
      }
      var perpOk := exchange.PlacePerp(-size, r.perpOk);
      if !perpOk {
        return PerpCloseFailed;
      }
      var spotOk := exchange.PlaceSpot(-size, r.spotOk);
      if !spotOk {
        exchange.Record(size, 0);
        return SpotSellFailed;
      }
      return Closed(size);
    }
  }

  class FundingArbConsumer {
    const executor: FundingArbExecutor
    var cycleCount: nat

    constructor (executor: FundingArbExecutor)
      ensures this.executor == executor && cycleCount == 0
    {
      this.executor := executor;
      cycleCount := 0;
    }

    /** `_cycle`: whether the lock is free is what the store says at this moment. */
    method OneCycle(i: Input, now: real) returns (result: Option<Result>)
      requires i.lockFree == (LOCK_NAME !in Sweep(executor.redis.store, now))
      modifies this, executor.redis, executor.exchange
      ensures cycleCount == old(cycleCount) + 1
      ensures (executor.exchange.View(), result) ==
              Cycle(executor.params, executor.ticksPerUnit, old(executor.exchange.View()), i)
    {
      cycleCount := cycleCount + 1;
      result := None;
      if !i.enabled || !i.tickerOk {
        return;
      }
      var size := executor.exchange.ReadShort(i.replies.statusRead);
      var d := Decide(executor.params, [i.funding], i.spot, i.perp, size > 0, i.margin);
      if d.signal == OpenSignal {
        var r := executor.OpenPosition(i.spot, i.replies, now);
        result := Some(r);
      } else if d.signal != Hold {
        var r := executor.ClosePosition(i.replies, now);
        result := Some(r);
      }
    }
  }
}
