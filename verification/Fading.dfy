/**
 Exponentially fading averages in closed form: each step keeps a share 1 - w of what is
 there and adds the share w of the new value.
 */
module Fading {

  function Keep(w: real): real {
    1.0 - w
  }

  /** What is left of a value after n steps. */
  function Fade(w: real, n: nat): real {
    if n == 0 then 1.0 else Fade(w, n - 1) * Keep(w)
  }

  /** What a value contributes when it comes in. */
  function Entry(x: real, w: real): real {
    w * x
  }

  /** The values xs[from..i], each faded since it came in. */
  function Faded(xs: seq<real>, from: nat, i: nat, w: real): real
    requires from <= i + 1 <= |xs|
    decreases i + 1 - from
  {
    if from == i + 1 then 0.0
    else Entry(xs[from], w) * Fade(w, i - from) + Faded(xs, from + 1, i, w)
  }

  /** A first value at index `start`, and everything since, at index i. */
  function Closed(first: real, xs: seq<real>, start: nat, i: nat, w: real): real
    requires start <= i < |xs|
  {
    first * Fade(w, i - start) + Faded(xs, start + 1, i, w)
  }

  /** One step on from a value. */
  function Onwards(prev: real, x: real, w: real): real {
    prev * Keep(w) + Entry(x, w)
  }

  /** A sum of a faded weight and a rest, one step on. */
  lemma OneStepOn(x: real, weight: real, faded: real, rest: real, keep: real, entry: real)
    requires x == weight * faded + rest
    ensures x * keep + entry == weight * (faded * keep) + (rest * keep + entry)
  {
  }

  lemma LastEntry(xs: seq<real>, i: nat, w: real)
    requires 1 <= i < |xs|
    ensures Faded(xs, i, i, w) == Onwards(Faded(xs, i, i - 1, w), xs[i], w)
  {
    assert Faded(xs, i + 1, i, w) == 0.0 && Fade(w, 0) == 1.0;
    assert Faded(xs, i, i - 1, w) == 0.0;
  }

  lemma {:induction false} FadedStep(xs: seq<real>, from: nat, i: nat, w: real)
    requires 1 <= i && from <= i < |xs|
    ensures Faded(xs, from, i, w) == Onwards(Faded(xs, from, i - 1, w), xs[i], w)
    decreases i - from
  {
    if from == i {
      LastEntry(xs, i, w);
    } else {
      var e, f, rest := Entry(xs[from], w), Fade(w, i - 1 - from), Faded(xs, from + 1, i - 1, w);
      FadedStep(xs, from + 1, i, w);
      assert Fade(w, i - from) == f * Keep(w);
      OneStepOn(e * f + rest, e, f, rest, Keep(w), Entry(xs[i], w));
    }
  }

  lemma ClosedStart(first: real, xs: seq<real>, start: nat, w: real)
    requires start < |xs|
    ensures Closed(first, xs, start, start, w) == first
  {
    assert Fade(w, 0) == 1.0 && Faded(xs, start + 1, start, w) == 0.0;
  }

  lemma {:induction false} ClosedStep(first: real, xs: seq<real>, start: nat, i: nat, w: real)
    requires start < i < |xs|
    ensures Closed(first, xs, start, i, w) == Onwards(Closed(first, xs, start, i - 1, w), xs[i], w)
  {
    var f, rest := Fade(w, i - 1 - start), Faded(xs, start + 1, i - 1, w);
    FadedStep(xs, start + 1, i, w);
    assert Fade(w, i - start) == f * Keep(w);
    OneStepOn(Closed(first, xs, start, i - 1, w), first, f, rest, Keep(w), Entry(xs[i], w));
  }

  lemma {:induction false} FadedPrefix(xs: seq<real>, n: nat, from: nat, i: nat, w: real)
    requires from <= i + 1 <= n <= |xs|
    ensures Faded(xs[..n], from, i, w) == Faded(xs, from, i, w)
    decreases i + 1 - from
  {
    if from == i + 1 {
    } else {
      FadedPrefix(xs, n, from + 1, i, w);
    }
  }
}
