/**
 Order sizing: how much to buy or sell, always rounded down to whole ticks, and the value
 checks an order passes before it is sent.
 */
module Sizing {
  import opened Prelude

  datatype Limits = Limits(maxTrade: real, minOrder: real, positionPct: real)

  function Precision(symbol: string): nat {
    if symbol == "BTCUSDT" then 6
    else if symbol == "XRPUSDT" then 2
    else if symbol == "SOLUSDT" then 4
    else 6
  }

  function Pow10(p: nat): (r: nat)
    ensures r >= 1
  {
    if p == 0 then 1 else 10 * Pow10(p - 1)
  }

  /** `floor(qty * 10^p)`: the number of whole ticks in a quantity. */
  function Ticks(qty: real, factor: nat): int {
    (qty * factor as real).Floor
  }

  /** The quantity of so many ticks. */
  function Quantity(ticks: int, factor: nat): real
    requires factor >= 1
  {
    ticks as real / factor as real
  }

  function OrderValue(qty: real, price: real): real {
    qty * price
  }

  /** The money a buy may use: the smaller of balance and cap, times the position share. */
  function AllowedAmount(l: Limits, usdt: real): real {
    Min(usdt, l.maxTrade) * (l.positionPct / 100.0)
  }

  /** `calculate_safe_order_size(symbol, "Buy")`, in ticks. */
  function BuyTicks(l: Limits, price: real, usdt: real, factor: nat): Option<int> {
    if price <= 0.0 then None
    else if Min(usdt, l.maxTrade) < l.minOrder then None
    else if AllowedAmount(l, usdt) < l.minOrder then None
    else Some(Ticks(AllowedAmount(l, usdt) / price, factor))
  }

  /** `calculate_safe_order_size(symbol, "Sell")`, in ticks: everything available. */
  function SellTicks(price: real, available: real, factor: nat): Option<int> {
    if price <= 0.0 || available <= 0.0 then None else Some(Ticks(available, factor))
  }

  datatype Check = Accepted | AboveMaximum | BelowMinimum

  /** The last checks of `place_order` before an order is sent. */
  function CheckOrder(l: Limits, buy: bool, qty: real, price: real): Check {
    var value := OrderValue(qty, price);
    if buy && value > l.maxTrade then AboveMaximum
    else if value < l.minOrder then BelowMinimum
    else Accepted
  }

  lemma FloorBounds(x: real)
    ensures x.Floor as real <= x < x.Floor as real + 1.0
  {
  }

  /** Rounding down loses less than one tick. */
  lemma TicksBounds(qty: real, factor: nat)
    requires factor >= 1
    ensures var t := Ticks(qty, factor);
            Quantity(t, factor) <= qty < Quantity(t, factor) + 1.0 / factor as real
  {
    var t, f := Ticks(qty, factor), factor as real;
    FloorBounds(qty * f);
    DivisionMonotone(t as real, qty * f, f);
    DivisionMonotone(qty * f, t as real + 1.0, f);
    assert qty * f / f == qty;
    assert (t as real + 1.0) / f == t as real / f + 1.0 / f;
  }

  lemma ValueMonotone(x: real, y: real, price: real)
    requires price > 0.0
    ensures x <= y ==> OrderValue(x, price) <= OrderValue(y, price)
    ensures x < y ==> OrderValue(x, price) < OrderValue(y, price)
  {
    if x <= y { assert (y - x) * price >= 0.0; }
    if x < y { assert (y - x) * price > 0.0; }
  }

  lemma OneTickMore(q: real, factor: nat, price: real)
    requires factor >= 1
    ensures OrderValue(q + 1.0 / factor as real, price) == OrderValue(q, price) + price / factor as real
  {
    var tick := 1.0 / factor as real;
    assert tick * price == price / factor as real;
  }

  lemma ValueOfQuotient(amount: real, price: real)
    requires price > 0.0
    ensures OrderValue(amount / price, price) == amount
  {
  }

  /** A computed buy spends at most the allowed amount, and falls short of it by less than
      one tick at the price. */
  lemma BuySpend(l: Limits, price: real, usdt: real, factor: nat)
    requires factor >= 1 && BuyTicks(l, price, usdt, factor).Some?
    ensures var q := Quantity(BuyTicks(l, price, usdt, factor).value, factor);
            var allowed := AllowedAmount(l, usdt);
            OrderValue(q, price) <= allowed < OrderValue(q, price) + price / factor as real
  {
    var allowed := AllowedAmount(l, usdt);
    var q := Quantity(BuyTicks(l, price, usdt, factor).value, factor);
    TicksBounds(allowed / price, factor);
    ValueOfQuotient(allowed, price);
    ValueMonotone(q, allowed / price, price);
    ValueMonotone(allowed / price, q + 1.0 / factor as real, price);
    OneTickMore(q, factor, price);
  }

  /** A non-negative share of the smaller amount is the smaller of the two shares. */
  lemma ShareOfSmaller(usdt: real, cap: real, share: real)
    requires share >= 0.0
    ensures Min(usdt, cap) * share <= usdt * share && Min(usdt, cap) * share <= cap * share
    ensures Min(usdt, cap) * share == usdt * share || Min(usdt, cap) * share == cap * share
  {
    if usdt <= cap {
      assert (cap - usdt) * share >= 0.0;
    } else {
      assert (usdt - cap) * share >= 0.0;
    }
  }

  /** What is spent stays within both limits, and one tick more would leave one of them. */
  ghost predicate SpendsWithin(onBalance: real, onCap: real, spent: real, tickValue: real) {
    spent <= onBalance && spent <= onCap && (onBalance < spent + tickValue || onCap < spent + tickValue)
  }

  lemma SpentAndAllowed(spent: real, usdt: real, cap: real, share: real, tickValue: real)
    requires share >= 0.0 && spent <= Min(usdt, cap) * share < spent + tickValue
    ensures SpendsWithin(usdt * share, cap * share, spent, tickValue)
  {
    ShareOfSmaller(usdt, cap, share);
  }

  /** The quantity of a computed buy is the largest number of ticks whose value is within the
      share of the balance and within the share of the cap. */
  lemma BuyStaysWithin(l: Limits, price: real, usdt: real, factor: nat)
    requires factor >= 1 && l.positionPct >= 0.0 && BuyTicks(l, price, usdt, factor).Some?
    ensures var share := l.positionPct / 100.0;
            SpendsWithin(usdt * share, l.maxTrade * share,
                         OrderValue(Quantity(BuyTicks(l, price, usdt, factor).value, factor), price),
                         price / factor as real)
  {
    BuySpend(l, price, usdt, factor);
    SpentAndAllowed(OrderValue(Quantity(BuyTicks(l, price, usdt, factor).value, factor), price),
                    usdt, l.maxTrade, l.positionPct / 100.0, price / factor as real);
  }

  /** A buy is sized exactly for a positive price when balance and cap reach the minimum,
      both as they are and after the position share is applied. */
  lemma BuySizedIff(l: Limits, price: real, usdt: real, factor: nat)
    requires l.positionPct >= 0.0
    ensures BuyTicks(l, price, usdt, factor).Some? <==>
            price > 0.0 && usdt >= l.minOrder && l.maxTrade >= l.minOrder &&
            usdt * (l.positionPct / 100.0) >= l.minOrder && l.maxTrade * (l.positionPct / 100.0) >= l.minOrder
  {
    ShareOfSmaller(usdt, l.maxTrade, l.positionPct / 100.0);
  }

  lemma AllowedWithinCap(l: Limits, usdt: real)
    requires 0.0 <= l.positionPct <= 100.0 && 0.0 <= Min(usdt, l.maxTrade)
    ensures AllowedAmount(l, usdt) <= l.maxTrade
  {
    var share := l.positionPct / 100.0;
    assert Min(usdt, l.maxTrade) * share <= Min(usdt, l.maxTrade) * 1.0;
  }

  lemma CheckBounds(l: Limits, qty: real, price: real, allowed: real)
    requires OrderValue(qty, price) <= allowed <= l.maxTrade
    ensures CheckOrder(l, true, qty, price) != AboveMaximum
    ensures CheckOrder(l, true, qty, price) == Accepted <==> OrderValue(qty, price) >= l.minOrder
  {
  }

  /** With a position share of at most 100 percent, the order checks never reject a
      computed buy for exceeding the maximum at the price it was computed with. */
  lemma BuyNeverAboveMaximum(l: Limits, price: real, usdt: real, factor: nat)
    requires factor >= 1 && BuyTicks(l, price, usdt, factor).Some?
    requires 0.0 <= l.positionPct <= 100.0 && l.minOrder >= 0.0
    ensures CheckOrder(l, true, Quantity(BuyTicks(l, price, usdt, factor).value, factor), price) != AboveMaximum
  {
    BuySpend(l, price, usdt, factor);
    AllowedWithinCap(l, usdt);
    CheckBounds(l, Quantity(BuyTicks(l, price, usdt, factor).value, factor), price, AllowedAmount(l, usdt));
  }

  /** It is accepted exactly when rounding down left at least the minimum; one tick of
      slack above the minimum is enough for that. */
  lemma BuyAcceptedIff(l: Limits, price: real, usdt: real, factor: nat)
    requires factor >= 1 && BuyTicks(l, price, usdt, factor).Some?
    requires 0.0 <= l.positionPct <= 100.0 && l.minOrder >= 0.0
    ensures var q := Quantity(BuyTicks(l, price, usdt, factor).value, factor);
            (CheckOrder(l, true, q, price) == Accepted <==> OrderValue(q, price) >= l.minOrder) &&
            (AllowedAmount(l, usdt) >= l.minOrder + price / factor as real ==> CheckOrder(l, true, q, price) == Accepted)
  {
    BuySpend(l, price, usdt, factor);
    AllowedWithinCap(l, usdt);
    CheckBounds(l, Quantity(BuyTicks(l, price, usdt, factor).value, factor), price, AllowedAmount(l, usdt));
  }

  lemma TicksNonNegative(qty: real, factor: nat)
    requires qty >= 0.0
    ensures Ticks(qty, factor) >= 0
  {
    assert qty * factor as real >= 0.0;
  }

  lemma BuyTicksNonNegative(l: Limits, price: real, usdt: real, factor: nat)
    requires l.minOrder >= 0.0 && BuyTicks(l, price, usdt, factor).Some?
    ensures BuyTicks(l, price, usdt, factor).value >= 0
  {
    DivisionMonotone(0.0, AllowedAmount(l, usdt), price);
    TicksNonNegative(AllowedAmount(l, usdt) / price, factor);
  }

  // ---------------------------------------------------------------------------
  // Dust
  // ---------------------------------------------------------------------------

  /** The part of a balance that is less than a tick. */
  function Residual(balance: real, factor: nat): real
    requires factor >= 1
  {
    balance - Quantity(Ticks(balance, factor), factor)
  }

  /** A buy that was filled with so many ticks, or an attempt to sell everything. */
  datatype Trading = BuyFill(ticks: nat) | SellAll(price: real)

  /** The sell is sized, passes the checks and is carried out. */
  predicate Sells(l: Limits, factor: nat, balance: real, e: Trading)
    requires factor >= 1
  {
    e.SellAll? && SellTicks(e.price, balance, factor).Some? &&
    CheckOrder(l, false, Quantity(SellTicks(e.price, balance, factor).value, factor), e.price) == Accepted
  }

  /** The coin balance after one order, with exact fills; a refused sell changes nothing. */
  function AfterTrade(l: Limits, factor: nat, balance: real, e: Trading): real
    requires factor >= 1
  {
    if e.BuyFill? then balance + Quantity(e.ticks, factor)
    else if Sells(l, factor, balance, e) then balance - Quantity(SellTicks(e.price, balance, factor).value, factor)
    else balance
  }

  function AfterTrades(l: Limits, factor: nat, balance: real, es: seq<Trading>): real
    requires factor >= 1
  {
    if es == [] then balance else AfterTrade(l, factor, AfterTrades(l, factor, balance, es[..|es|-1]), es[|es|-1])
  }

  lemma ResidualRange(balance: real, factor: nat)
    requires factor >= 1
    ensures 0.0 <= Residual(balance, factor) < 1.0 / factor as real
  {
    TicksBounds(balance, factor);
  }

  lemma FloorOfSum(x: real, k: int)
    ensures (x + k as real).Floor == x.Floor + k
  {
  }

  /** Adding or removing whole ticks does not touch the part below a tick. */
  lemma WholeTicksPassThrough(balance: real, ticks: int, factor: nat)
    requires factor >= 1
    ensures Residual(balance + Quantity(ticks, factor), factor) == Residual(balance, factor)
    ensures Ticks(balance + Quantity(ticks, factor), factor) == Ticks(balance, factor) + ticks
  {
    var f, t := factor as real, Ticks(balance, factor);
    var q := Quantity(ticks, factor);
    assert q * f == ticks as real;
    assert (balance + q) * f == balance * f + q * f;
    FloorOfSum(balance * f, ticks);
    assert Ticks(balance + q, factor) == t + ticks;
    QuantitiesAdd(t, ticks, factor);
  }

  lemma QuantitiesAdd(a: int, b: int, factor: nat)
    requires factor >= 1
    ensures Quantity(a + b, factor) == Quantity(a, factor) + Quantity(b, factor)
  {
    assert (a + b) as real == a as real + b as real;
  }

  lemma OppositeTicks(ticks: int, factor: nat)
    requires factor >= 1
    ensures Quantity(-ticks, factor) == -Quantity(ticks, factor)
  {
    QuantitiesAdd(ticks, -ticks, factor);
    assert Quantity(0, factor) == 0.0;
  }

  /** One order moves the balance by whole ticks only: a buy by those filled, a sell by all. */
  lemma TradeKeepsResidual(l: Limits, factor: nat, balance: real, e: Trading)
    requires factor >= 1
    ensures var after := AfterTrade(l, factor, balance, e);
            Residual(after, factor) == Residual(balance, factor) &&
            Ticks(after, factor) == (if e.BuyFill? then Ticks(balance, factor) + e.ticks
                                     else if Sells(l, factor, balance, e) then 0 else Ticks(balance, factor)) &&
            (Sells(l, factor, balance, e) ==> after == Residual(balance, factor))
  {
    if e.BuyFill? {
      WholeTicksPassThrough(balance, e.ticks, factor);
    } else if Sells(l, factor, balance, e) {
      WholeTicksPassThrough(balance, -Ticks(balance, factor), factor);
      OppositeTicks(Ticks(balance, factor), factor);
    }
  }

  /** Dust never accumulates: over every sequence of filled buys and attempted full sells
      with exact fills, the part of the balance below one tick is exactly the one of the
      starting balance, and every successful sell leaves exactly that part, in [0, tick). */
  lemma {:induction false} DustIsConserved(l: Limits, factor: nat, balance: real, es: seq<Trading>)
    requires factor >= 1
    ensures var after := AfterTrades(l, factor, balance, es);
            Residual(after, factor) == Residual(balance, factor) &&
            (es != [] && Sells(l, factor, AfterTrades(l, factor, balance, es[..|es|-1]), es[|es|-1]) ==>
               after == Residual(balance, factor) && 0.0 <= after < 1.0 / factor as real)
    decreases |es|
  {
    if es == [] {
    } else {
      var n := |es| - 1;
      DustIsConserved(l, factor, balance, es[..n]);
      TradeKeepsResidual(l, factor, AfterTrades(l, factor, balance, es[..n]), es[n]);
      ResidualRange(balance, factor);
    }
  }
}
