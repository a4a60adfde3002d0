/**
 Quantities as text: printing a number of ticks with a fixed number of decimals, reading
 such a text back, and the trailing-zero stripping used when a position is restored.
 */
module QuantityText {
  import opened Prelude
  import opened Sizing

  function Digit(d: nat): char
    requires d < 10
  {
    '0' + d as char
  }

  predicate IsDigit(c: char) {
    '0' <= c <= '9'
  }

  function DigitValue(c: char): nat
    requires IsDigit(c)
  {
    (c - '0') as nat
  }

  /** n without its last p decimal digits. */
  function Whole(n: nat, p: nat): nat {
    if p == 0 then n else Whole(n / 10, p - 1)
  }

  /** The number made of the last p decimal digits of n. */
  function Frac(n: nat, p: nat): nat {
    if p == 0 then 0 else Frac(n / 10, p - 1) * 10 + n % 10
  }

  /** The last p decimal digits of n, leading zeros included. */
  function Padded(n: nat, p: nat): string {
    if p == 0 then "" else Padded(n / 10, p - 1) + [Digit(n % 10)]
  }

  /** The decimal digits of n without leading zeros, at least one. */
  function Plain(n: nat): (s: string)
    ensures s != ""
  {
    if n < 10 then [Digit(n)] else Plain(n / 10) + [Digit(n % 10)]
  }

  /** `f"{qty:.{p}f}"` for a quantity of so many ticks of 10^-p. */
  function Print(ticks: nat, p: nat): string {
    if p == 0 then Plain(ticks)
    else Plain(Whole(ticks, p)) + "." + Padded(ticks, p)
  }

  // ---------------------------------------------------------------------------
  // Reading
  // ---------------------------------------------------------------------------

  predicate AllDigits(s: string) {
    forall i :: 0 <= i < |s| ==> IsDigit(s[i])
  }

  function NatValue(s: string): nat
    requires AllDigits(s)
  {
    if s == "" then 0 else NatValue(s[..|s|-1]) * 10 + DigitValue(s[|s|-1])
  }

  /** Position of the first point, or the length of the text. */
  function PointAt(s: string): (i: nat)
    ensures i <= |s|
    ensures i < |s| ==> s[i] == '.'
    ensures forall k :: 0 <= k < i ==> s[k] != '.'
  {
    if s == "" then 0 else if s[0] == '.' then 0 else 1 + PointAt(s[1..])
  }

  /** The number with this integer part and these fraction digits. */
  function Decimal(whole: nat, frac: nat, digits: nat): real {
    whole as real + frac as real / Pow10(digits) as real
  }

  /** `float(s)` for texts of digits with at most one point; None for anything else. */
  function Parse(s: string): Option<real> {
    var i := PointAt(s);
    if i == |s| then (if s != "" && AllDigits(s) then Some(NatValue(s) as real) else None)
    else
      var whole, frac := s[..i], s[i+1..];
      if AllDigits(whole) && AllDigits(frac) && |whole| + |frac| > 0
      then Some(Decimal(NatValue(whole), NatValue(frac), |frac|))
      else None
  }

  // ---------------------------------------------------------------------------
  // Round trip
  // ---------------------------------------------------------------------------

  lemma {:induction false} PaddedValue(n: nat, p: nat)
    ensures |Padded(n, p)| == p && AllDigits(Padded(n, p)) && NatValue(Padded(n, p)) == Frac(n, p)
    decreases p
  {
    if p == 0 {
    } else {
      PaddedValue(n / 10, p - 1);
      assert Padded(n, p)[..p-1] == Padded(n / 10, p - 1);
    }
  }

  lemma {:induction false} PlainValue(n: nat)
    ensures AllDigits(Plain(n)) && NatValue(Plain(n)) == n
    decreases n
  {
    if n < 10 {
      assert Plain(n)[..0] == "";
    } else {
      PlainValue(n / 10);
      assert Plain(n)[..|Plain(n)|-1] == Plain(n / 10);
    }
  }

  lemma {:induction false} PointAfterDigits(whole: string, rest: string)
    requires AllDigits(whole)
    ensures PointAt(whole + rest) == |whole| + PointAt(rest)
    decreases |whole|
  {
    if whole == "" {
      assert whole + rest == rest;
    } else {
      PointAfterDigits(whole[1..], rest);
      assert (whole + rest)[1..] == whole[1..] + rest;
      assert (whole + rest)[0] == whole[0];
    }
  }

  /** The value of a text that consists of digits, a point and digits. */
  lemma {:induction false} ParseParts(whole: string, frac: string)
    requires AllDigits(whole) && AllDigits(frac) && whole != ""
    ensures Parse(whole + "." + frac) == Some(Decimal(NatValue(whole), NatValue(frac), |frac|))
  {
    var s := whole + "." + frac;
    assert s == whole + ("." + frac);
    assert PointAt("." + frac) == 0;
    PointAfterDigits(whole, "." + frac);
    assert PointAt(s) == |whole| < |s|;
    assert s[..|whole|] == whole && s[|whole|+1..] == frac;
  }

  lemma ParsePlain(whole: string)
    requires AllDigits(whole) && whole != ""
    ensures Parse(whole) == Some(NatValue(whole) as real)
  {
    PointAfterDigits(whole, "");
    assert whole + "" == whole;
  }

  lemma {:induction false} WholeAndFrac(n: nat, p: nat)
    ensures n == Whole(n, p) * Pow10(p) + Frac(n, p)
    decreases p
  {
    if p == 0 {
    } else {
      WholeAndFrac(n / 10, p - 1);
      AppendDigit(n / 10, n % 10, Whole(n / 10, p - 1), Pow10(p - 1), Frac(n / 10, p - 1));
    }
  }

  lemma AppendDigit(n: nat, digit: nat, w: nat, d: nat, r: nat)
    requires n == w * d + r
    ensures n * 10 + digit == w * (10 * d) + (r * 10 + digit)
  {
    assert w * (10 * d) == 10 * (w * d);
  }

  lemma SplitTicks(ticks: nat, p: nat)
    ensures Decimal(Whole(ticks, p), Frac(ticks, p), p) == Sizing.Quantity(ticks, Pow10(p))
  {
    WholeAndFrac(ticks, p);
    SplitQuotient(ticks, Whole(ticks, p), Frac(ticks, p), Pow10(p));
  }

  lemma SplitQuotient(n: nat, w: nat, r: nat, d: nat)
    requires d >= 1 && n == w * d + r
    ensures w as real + r as real / d as real == n as real / d as real
  {
    var q := r as real / d as real;
    assert q * d as real == r as real;
    assert (w as real + q) * d as real == w as real * d as real + r as real;
    assert (w * d) as real == w as real * d as real;
  }

  lemma NoFraction(w: nat)
    ensures Decimal(w, 0, 0) == w as real
    ensures Sizing.Quantity(w, Pow10(0)) == w as real
  {
  }

  /** Every printed quantity reads back as exactly the same number, at every precision. */
  lemma RoundTrip(ticks: nat, p: nat)
    ensures Parse(Print(ticks, p)) == Some(Sizing.Quantity(ticks, Pow10(p)))
  {
    PlainValue(Whole(ticks, p));
    SplitTicks(ticks, p);
    if p == 0 {
      ParsePlain(Plain(ticks));
      NoFraction(ticks);
    } else {
      PaddedValue(ticks, p);
      ParseParts(Plain(Whole(ticks, p)), Padded(ticks, p));
    }
  }

  // ---------------------------------------------------------------------------
  // Stripping
  // ---------------------------------------------------------------------------

  /** `s.rstrip(c)`. */
  function StripRight(s: string, c: char): string {
    if s != "" && s[|s|-1] == c then StripRight(s[..|s|-1], c) else s
  }

  /** `s.rstrip("0").rstrip(".")`. */
  function Strip(s: string): string {
    StripRight(StripRight(s, '0'), '.')
  }

  /** The fraction digits without their trailing zeros. */
  function Trimmed(frac: string): string {
    StripRight(frac, '0')
  }

  lemma {:induction false} TrimmedValue(frac: string)
    requires AllDigits(frac)
    ensures AllDigits(Trimmed(frac)) && |Trimmed(frac)| <= |frac|
    ensures forall w :: Decimal(w, NatValue(frac), |frac|) == Decimal(w, NatValue(Trimmed(frac)), |Trimmed(frac)|)
    decreases |frac|
  {
    if frac != "" && frac[|frac|-1] == '0' {
      var rest := frac[..|frac|-1];
      TrimmedValue(rest);
      TenfoldQuotient(NatValue(rest), Pow10(|rest|));
    }
  }

  lemma TenfoldQuotient(n: nat, d: nat)
    requires d >= 1
    ensures (n * 10) as real / (10 * d) as real == n as real / d as real
  {
    var q := n as real / d as real;
    assert q * d as real == n as real;
    assert q * (10 * d) as real == (n * 10) as real;
  }

  /** With a point in front of them, only fraction zeros are stripped. */
  lemma {:induction false} StripAfterPoint(head: string, frac: string)
    ensures StripRight(head + "." + frac, '0') == head + "." + Trimmed(frac)
    decreases |frac|
  {
    var s := head + "." + frac;
    if frac == "" {
      assert s[|s|-1] == '.';
    } else if frac[|frac|-1] == '0' {
      assert s[..|s|-1] == head + "." + frac[..|frac|-1];
      StripAfterPoint(head, frac[..|frac|-1]);
    } else {
      assert s[|s|-1] == frac[|frac|-1];
    }
  }

  lemma NoPointToStrip(s: string)
    requires s != "" && IsDigit(s[|s|-1])
    ensures StripRight(s, '.') == s
  {
  }

  lemma {:induction false} TrimmedEndsInNonZero(frac: string)
    requires AllDigits(frac)
    ensures Trimmed(frac) != "" ==> IsDigit(Trimmed(frac)[|Trimmed(frac)|-1])
    decreases |frac|
  {
    if frac != "" && frac[|frac|-1] == '0' {
      TrimmedEndsInNonZero(frac[..|frac|-1]);
    }
  }

  /** What stripping leaves of digits, point, digits: the integer part untouched, the
      fraction without trailing zeros, and the point only if a fraction is left. */
  lemma StripParts(whole: string, frac: string)
    requires AllDigits(whole) && AllDigits(frac) && whole != ""
    ensures Strip(whole + "." + frac) == if Trimmed(frac) == "" then whole else whole + "." + Trimmed(frac)
  {
    StripAfterPoint(whole, frac);
    TrimmedEndsInNonZero(frac);
    var s := whole + "." + Trimmed(frac);
    if Trimmed(frac) == "" {
      assert s == whole + ".";
      assert s[..|s|-1] == whole;
      NoPointToStrip(whole);
    } else {
      assert s[|s|-1] == Trimmed(frac)[|Trimmed(frac)|-1];
      NoPointToStrip(s);
    }
  }

  /** Stripping preserves the value for every precision p > 0 and removes no zero of the
      integer part. */
  lemma StripPreservesValue(ticks: nat, p: nat)
    requires p > 0
    ensures Parse(Strip(Print(ticks, p))) == Some(Sizing.Quantity(ticks, Pow10(p)))
    ensures Plain(Whole(ticks, p)) <= Strip(Print(ticks, p))
  {
    var whole, frac := Plain(Whole(ticks, p)), Padded(ticks, p);
    PlainValue(Whole(ticks, p));
    PaddedValue(ticks, p);
    StripParts(whole, frac);
    TrimmedValue(frac);
    SplitTicks(ticks, p);
    if Trimmed(frac) == "" {
      ParsePlain(whole);
      NoFraction(NatValue(whole));
    } else {
      ParseParts(whole, Trimmed(frac));
    }
  }

  lemma PlainLastDigit(n: nat)
    ensures Plain(n)[|Plain(n)|-1] == Digit(n % 10)
    ensures n >= 10 ==> Plain(n)[..|Plain(n)|-1] == Plain(n / 10)
  {
  }

  lemma {:induction false} StripPlain(n: nat)
    ensures StripRight(Plain(n), '0') == (if n == 0 then "" else Plain(WithoutZeros(n)))
    decreases n
  {
    PlainLastDigit(n);
    if n >= 10 && n % 10 == 0 {
      StripPlain(n / 10);
    } else if n == 0 {
      assert Plain(0)[..0] == "";
    } else {
      assert Digit(n % 10) != '0';
    }
  }

  /** n without its trailing decimal zeros. */
  function WithoutZeros(n: nat): (r: nat)
    ensures n > 0 ==> 0 < r <= n
    ensures n > 0 && n % 10 == 0 ==> r < n
  {
    if n >= 10 && n % 10 == 0 then WithoutZeros(n / 10) else n
  }

  /** The condition p > 0 is needed: without decimals there is no point to stop at, and
      stripping keeps the value exactly when the number does not end in zero. */
  lemma StripWithoutPointIff(ticks: nat)
    ensures Parse(Strip(Print(ticks, 0))) == Some(ticks as real) <==> ticks % 10 != 0
  {
    StripPlain(ticks);
    if ticks == 0 {
      assert Strip(Print(0, 0)) == "";
    } else {
      var r := WithoutZeros(ticks);
      PlainValue(r);
      NoPointToStrip(Plain(r));
      ParsePlain(Plain(r));
    }
  }

  // ---------------------------------------------------------------------------
  // From the sizing to the order
  // ---------------------------------------------------------------------------

  /** Python's fixed-point format of a possibly negative number of ticks. */
  function Formatted(ticks: int, p: nat): string {
    if ticks < 0 then "-" + Print(-ticks, p) else Print(ticks, p)
  }

  /** `calculate_safe_order_size`: the text of the quantity to order, if any. */
  function OrderSize(l: Limits, symbol: string, buy: bool, price: real, usdt: real, available: real): Option<string> {
    var p := Precision(symbol);
    var ticks := if buy then BuyTicks(l, price, usdt, Pow10(p)) else SellTicks(price, available, Pow10(p));
    if ticks.None? then None else Some(Formatted(ticks.value, p))
  }

  lemma FormattedRoundTrip(ticks: int, p: nat)
    requires ticks >= 0
    ensures Parse(Formatted(ticks, p)) == Some(Sizing.Quantity(ticks, Pow10(p)))
  {
    RoundTrip(ticks, p);
  }

  /** The text of a buy, read back by the order call at the same price, spends at most the
      allowed amount, falls short of it by less than one tick, and is never refused for
      exceeding the maximum. */
  lemma BuyTextIsSafe(l: Limits, symbol: string, price: real, usdt: real, available: real)
    requires 0.0 <= l.positionPct <= 100.0 && l.minOrder >= 0.0
    requires OrderSize(l, symbol, true, price, usdt, available).Some?
    ensures var q := Parse(OrderSize(l, symbol, true, price, usdt, available).value);
            var allowed := AllowedAmount(l, usdt);
            q.Some? && CheckOrder(l, true, q.value, price) != AboveMaximum &&
            OrderValue(q.value, price) <= allowed &&
            allowed < OrderValue(q.value, price) + price / Pow10(Precision(symbol)) as real
  {
    var p := Precision(symbol);
    var factor := Pow10(p);
    BuySpend(l, price, usdt, factor);
    BuyNeverAboveMaximum(l, price, usdt, factor);
    BuyTicksNonNegative(l, price, usdt, factor);
    FormattedRoundTrip(BuyTicks(l, price, usdt, factor).value, p);
  }

  /** The text of a sell, read back, never exceeds what is available and leaves less than
      one tick of it. */
  lemma SellTextIsCovered(l: Limits, symbol: string, price: real, usdt: real, available: real)
    requires OrderSize(l, symbol, false, price, usdt, available).Some?
    ensures var q := Parse(OrderSize(l, symbol, false, price, usdt, available).value);
            q.Some? && 0.0 <= q.value <= available < q.value + 1.0 / Pow10(Precision(symbol)) as real
  {
    var p := Precision(symbol);
    var ticks := Ticks(available, Pow10(p));
    TicksBounds(available, Pow10(p));
    TicksNonNegative(available, Pow10(p));
    DivisionMonotone(0.0, ticks as real, Pow10(p) as real);
    FormattedRoundTrip(ticks, p);
  }

  /** Whether there is a text at all, in terms of the arguments: a buy needs balance and cap to
      reach the minimum before and after the position share, a sell only something to sell. */
  lemma OrderSizedIff(l: Limits, symbol: string, buy: bool, price: real, usdt: real, available: real)
    requires l.positionPct >= 0.0
    ensures OrderSize(l, symbol, true, price, usdt, available).Some? <==>
            price > 0.0 && usdt >= l.minOrder && l.maxTrade >= l.minOrder &&
            usdt * (l.positionPct / 100.0) >= l.minOrder && l.maxTrade * (l.positionPct / 100.0) >= l.minOrder
    ensures OrderSize(l, symbol, false, price, usdt, available).Some? <==> price > 0.0 && available > 0.0
  {
    BuySizedIff(l, price, usdt, Pow10(Precision(symbol)));
  }

  /** The text of a buy, read back, is worth at most the position share of the balance and at
      most that of the cap, and less than one tick below at least one of the two. */
  lemma BuyTextStaysWithin(l: Limits, symbol: string, price: real, usdt: real, available: real)
    requires l.positionPct >= 0.0 && l.minOrder >= 0.0
    requires OrderSize(l, symbol, true, price, usdt, available).Some?
    ensures var q := Parse(OrderSize(l, symbol, true, price, usdt, available).value);
            var share := l.positionPct / 100.0;
            q.Some? && SpendsWithin(usdt * share, l.maxTrade * share, OrderValue(q.value, price),
                                    price / Pow10(Precision(symbol)) as real)
  {
    var p := Precision(symbol);
    BuyStaysWithin(l, price, usdt, Pow10(p));
    BuyTicksNonNegative(l, price, usdt, Pow10(p));
    FormattedRoundTrip(BuyTicks(l, price, usdt, Pow10(p)).value, p);
  }

  /** A text passes the last checks, made at the price seen then, exactly when it is worth the
      minimum and, in a buy only, no more than the maximum. */
  lemma TextAcceptedIff(
    l: Limits, symbol: string, buy: bool, price: real, usdt: real, available: real, later: real)
    requires l.minOrder >= 0.0 && OrderSize(l, symbol, buy, price, usdt, available).Some?
    ensures var q := Parse(OrderSize(l, symbol, buy, price, usdt, available).value);
            q.Some? &&
            (CheckOrder(l, buy, q.value, later) == Accepted <==>
             q.value * later >= l.minOrder && (buy ==> q.value * later <= l.maxTrade))
  {
    var p := Precision(symbol);
    if buy {
      BuyTicksNonNegative(l, price, usdt, Pow10(p));
      FormattedRoundTrip(BuyTicks(l, price, usdt, Pow10(p)).value, p);
    } else {
      SellTextIsCovered(l, symbol, price, usdt, available);
    }
  }

  /** A text has as many decimals as the exchange takes for the symbol: two for XRP, four for
      SOL, six for any other. */
  lemma DecimalsOfSymbol(l: Limits, symbol: string, buy: bool, price: real, usdt: real, available: real)
    requires l.minOrder >= 0.0 && OrderSize(l, symbol, buy, price, usdt, available).Some?
    ensures var text := OrderSize(l, symbol, buy, price, usdt, available).value;
            |text| == PointAt(text) + 1 + (if symbol == "XRPUSDT" then 2 else if symbol == "SOLUSDT" then 4 else 6)
  {
    var p := Precision(symbol);
    var ticks := if buy then BuyTicks(l, price, usdt, Pow10(p)).value else Ticks(available, Pow10(p));
    if buy {
      BuyTicksNonNegative(l, price, usdt, Pow10(p));
    } else {
      TicksNonNegative(available, Pow10(p));
    }
    var whole, frac := Plain(Whole(ticks, p)), Padded(ticks, p);
    PlainValue(Whole(ticks, p));
    PaddedValue(ticks, p);
    PointAfterDigits(whole, "." + frac);
    assert whole + "." + frac == whole + ("." + frac);
  }
}
