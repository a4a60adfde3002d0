/**
 The bounded message queue between services. Two adapters implement it: an in-memory
 queue that drops its oldest message before a push that would overflow it, and a Redis
 list that is pushed (LPUSH) and trimmed (LTRIM) in two separate steps, between which
 other clients may push, trim and pop. Both are shown to be one and the same
 "keep the newest 200, first in first out" queue.
 */
module SignalQueue {
  import opened Prelude

  const MAX_LEN: nat := 200

  // ---------------------------------------------------------------------------
  // The queue, oldest message first
  // ---------------------------------------------------------------------------

  function Push<T>(q: seq<T>, x: T): seq<T> {
    if |q| >= MAX_LEN then q[1..] + [x] else q + [x]
  }

  datatype Op<T> = PushOp(x: T) | PopOp

  /** Everything that happened to a queue since it was created. `fates` tells, for each
      message that left the queue and in the order they left, whether it was popped
      (true) or dropped by an overflow (false). */
  datatype History<T> = History(queue: seq<T>, pushed: seq<T>, popped: seq<T>, dropped: seq<T>, fates: seq<bool>)

  function Empty<T>(): History<T> {
    History([], [], [], [], [])
  }

  function Step<T>(h: History<T>, op: Op<T>): History<T> {
    match op
    case PushOp(x) =>
      var h1 := h.(queue := Push(h.queue, x), pushed := h.pushed + [x]);
      if |h.queue| >= MAX_LEN then h1.(dropped := h.dropped + [h.queue[0]], fates := h.fates + [false]) else h1
    case PopOp =>
      if h.queue == [] then h
      else h.(queue := h.queue[1..], popped := h.popped + [h.queue[0]], fates := h.fates + [true])
  }

  function Run<T>(h: History<T>, ops: seq<Op<T>>): History<T> {
    if ops == [] then h else Step(Run(h, ops[..|ops|-1]), ops[|ops|-1])
  }

  // ---------------------------------------------------------------------------
  // Order and conservation
  // ---------------------------------------------------------------------------

  /** The messages whose recorded fate is `popped`, in order. */
  function WithFate<T>(xs: seq<T>, fates: seq<bool>, popped: bool): seq<T>
    requires |xs| == |fates|
  {
    if xs == [] then [] else
      var n := |xs| - 1;
      WithFate(xs[..n], fates[..n], popped) + (if fates[n] == popped then [xs[n]] else [])
  }

  /** The messages that left: all pushes except those still queued. */
  function Departed<T>(h: History<T>): seq<T>
    requires |h.queue| <= |h.pushed|
  {
    h.pushed[..|h.pushed| - |h.queue|]
  }

  ghost predicate Conserved<T>(h: History<T>) {
    && |h.queue| <= MAX_LEN
    && |h.pushed| == |h.fates| + |h.queue|
    && h.pushed == Departed(h) + h.queue
    && h.popped == WithFate(Departed(h), h.fates, true)
    && h.dropped == WithFate(Departed(h), h.fates, false)
  }

  lemma WithFateAppend<T>(xs: seq<T>, fates: seq<bool>, x: T, fate: bool, popped: bool)
    requires |xs| == |fates|
    ensures WithFate(xs + [x], fates + [fate], popped) ==
            WithFate(xs, fates, popped) + (if fate == popped then [x] else [])
  {
    assert (xs + [x])[..|xs|] == xs && (fates + [fate])[..|xs|] == fates;
  }

  /** One message leaves the front, and possibly one arrives at the back. */
  lemma DepartureConserves<T>(h: History<T>, h': History<T>, fate: bool, arrival: seq<T>)
    requires Conserved(h) && h.queue != [] && |arrival| <= 1
    requires h'.queue == h.queue[1..] + arrival && h'.pushed == h.pushed + arrival
    requires h'.fates == h.fates + [fate]
    requires h'.popped == h.popped + (if fate then [h.queue[0]] else [])
    requires h'.dropped == h.dropped + (if fate then [] else [h.queue[0]])
    ensures Conserved(h')
  {
    var x := h.queue[0];
    WithFateAppend(Departed(h), h.fates, x, fate, true);
    WithFateAppend(Departed(h), h.fates, x, fate, false);
    assert Departed(h') == Departed(h) + [x];
    assert h'.pushed == Departed(h') + h'.queue;
  }

  lemma StepConserves<T>(h: History<T>, op: Op<T>)
    requires Conserved(h)
    ensures Conserved(Step(h, op))
  {
    var h' := Step(h, op);
    match op
    case PushOp(x) =>
      if |h.queue| >= MAX_LEN {
        DepartureConserves(h, h', false, [x]);
      } else {
        assert Departed(h') == Departed(h);
        assert h'.pushed == Departed(h') + h'.queue;
      }
    case PopOp =>
      if h.queue != [] {
        assert h.queue[1..] + [] == h.queue[1..] && h.pushed + [] == h.pushed && h.dropped + [] == h.dropped;
        DepartureConserves(h, h', true, []);
      }
  }

  /** Over every run: at any time the queue holds exactly the newest pushes, at most 200
      of them; every older push left exactly once, popped or dropped, in push order. */
  lemma {:induction false} RunConserves<T>(ops: seq<Op<T>>)
    ensures Conserved(Run(Empty(), ops))
  {
    if ops == [] {
    } else {
      RunConserves<T>(ops[..|ops|-1]);
      StepConserves(Run(Empty<T>(), ops[..|ops|-1]), ops[|ops|-1]);
    }
  }

  /** pushed = popped + queued + dropped. */
  lemma RunCounts<T>(ops: seq<Op<T>>)
    ensures var h := Run(Empty(), ops);
            |h.pushed| == |h.popped| + |h.dropped| + |h.queue| &&
            multiset(h.pushed) == multiset(h.popped) + multiset(h.dropped) + multiset(h.queue)
  {
    var h := Run(Empty<T>(), ops);
    RunConserves(ops);
    FatesPartition(Departed(h), h.fates);
    assert multiset(h.pushed) == multiset(Departed(h)) + multiset(h.queue);
  }

  lemma {:induction false} FatesPartition<T>(xs: seq<T>, fates: seq<bool>)
    requires |xs| == |fates|
    ensures |xs| == |WithFate(xs, fates, true)| + |WithFate(xs, fates, false)|
    ensures multiset(xs) == multiset(WithFate(xs, fates, true)) + multiset(WithFate(xs, fates, false))
    decreases |xs|
  {
    if xs == [] {
    } else {
      var n := |xs| - 1;
      var popped, dropped := WithFate(xs[..n], fates[..n], true), WithFate(xs[..n], fates[..n], false);
      FatesPartition(xs[..n], fates[..n]);
      assert xs == xs[..n] + [xs[n]];
      if fates[n] {
        assert WithFate(xs, fates, true) == popped + [xs[n]] && WithFate(xs, fates, false) == dropped + [] == dropped;
      } else {
        assert WithFate(xs, fates, true) == popped + [] == popped && WithFate(xs, fates, false) == dropped + [xs[n]];
      }
    }
  }

  // ---------------------------------------------------------------------------
  // The Redis list: LPUSH, LTRIM 0 199 and BRPOP as separate atomic steps
  // ---------------------------------------------------------------------------

  /** The list keeps its newest message at index 0. */
  datatype ListOp<T> = LPush(x: T) | LTrim | BRPop

  datatype ListHistory<T> = ListHistory(list: seq<T>, pushed: seq<T>, popped: seq<T>, untrimmed: nat)

  function ListEmpty<T>(): ListHistory<T> {
    ListHistory([], [], [], 0)
  }

  /** `untrimmed` counts the LPUSHes since the last LTRIM. */
  function ListStep<T>(h: ListHistory<T>, op: ListOp<T>): ListHistory<T> {
    match op
    case LPush(x) => h.(list := [x] + h.list, pushed := h.pushed + [x], untrimmed := h.untrimmed + 1)
    case LTrim => h.(list := if |h.list| > MAX_LEN then h.list[..MAX_LEN] else h.list, untrimmed := 0)
    case BRPop =>
      if h.list == [] then h
      else h.(list := h.list[..|h.list|-1], popped := h.popped + [h.list[|h.list|-1]])
  }

  function ListRun<T>(ops: seq<ListOp<T>>): ListHistory<T> {
    if ops == [] then ListEmpty() else ListStep(ListRun(ops[..|ops|-1]), ops[|ops|-1])
  }

  function OldestFirst<T>(list: seq<T>): (r: seq<T>)
    ensures |r| == |list|
    ensures forall i :: 0 <= i < |list| ==> r[i] == list[|list| - 1 - i]
  {
    seq(|list|, i requires 0 <= i < |list| => list[|list| - 1 - i])
  }

  /** The oldest 200 of a sequence kept oldest first, and what lies beyond them. */
  function Window<T>(s: seq<T>): seq<T> {
    if |s| <= MAX_LEN then s else s[..MAX_LEN]
  }

  function Beyond<T>(s: seq<T>): seq<T> {
    if |s| <= MAX_LEN then [] else s[MAX_LEN..]
  }

  /** The queue a list stands for: its 200 oldest messages. Newer ones belong to pushes
      that are still between their LPUSH and the next LTRIM. */
  function Visible<T>(list: seq<T>): seq<T> {
    Window(OldestFirst(list))
  }

  function Pending<T>(list: seq<T>): seq<T> {
    Beyond(OldestFirst(list))
  }

  function PushAll<T>(xs: seq<T>): (ops: seq<Op<T>>)
    ensures |ops| == |xs| && forall i :: 0 <= i < |xs| ==> ops[i] == PushOp(xs[i])
  {
    seq(|xs|, i requires 0 <= i < |xs| => PushOp(xs[i]))
  }

  /** The queue operations that take effect at one list step: a push takes effect at its
      LPUSH when there is room, and otherwise at the pop or trim that makes room. */
  function EffectOf<T>(list: seq<T>, op: ListOp<T>): seq<Op<T>> {
    match op
    case LPush(x) => if |list| < MAX_LEN then [PushOp(x)] else []
    case LTrim => PushAll(Pending(list))
    case BRPop => [PopOp] + (if |list| > MAX_LEN then [PushOp(Pending(list)[0])] else [])
  }

  function Linearised<T>(ops: seq<ListOp<T>>): seq<Op<T>> {
    if ops == [] then [] else
      var n := |ops| - 1;
      Linearised(ops[..n]) + EffectOf(ListRun(ops[..n]).list, ops[n])
  }

  lemma {:induction false} RunConcat<T>(h: History<T>, a: seq<Op<T>>, b: seq<Op<T>>)
    ensures Run(h, a + b) == Run(Run(h, a), b)
    decreases |b|
  {
    if b == [] {
      assert a + b == a;
    } else {
      assert (a + b)[..|a + b| - 1] == a + b[..|b|-1];
      RunConcat(h, a, b[..|b|-1]);
    }
  }

  /** Pushing xs one by one onto a full queue leaves the newest 200. */
  lemma {:induction false} PushAllOntoFull<T>(h: History<T>, xs: seq<T>)
    requires |h.queue| == MAX_LEN
    ensures var r := Run(h, PushAll(xs));
            r.queue == (h.queue + xs)[|xs|..] && r.popped == h.popped && r.pushed == h.pushed + xs
    decreases |xs|
  {
    if xs == [] {
      assert PushAll(xs) == [];
      assert h.queue + xs == h.queue;
      assert h.pushed + xs == h.pushed;
    } else {
      var n := |xs| - 1;
      PushAllOntoFull(h, xs[..n]);
      assert PushAll(xs)[..n] == PushAll(xs[..n]);
      assert h.pushed + xs == h.pushed + xs[..n] + [xs[n]];
      assert (h.queue + xs)[|xs|..] == (h.queue + xs[..n])[n..][1..] + [xs[n]];
    }
  }

  /** The link between a list and the queue history it stands for. */
  ghost predicate Simulates<T>(c: ListHistory<T>, a: History<T>) {
    && a.queue == Visible(c.list)
    && a.popped == c.popped
    && c.pushed == a.pushed + Pending(c.list)
    && |Pending(c.list)| <= c.untrimmed
  }

  lemma LPushSimulates<T>(c: ListHistory<T>, a: History<T>, x: T)
    requires Simulates(c, a)
    ensures Simulates(ListStep(c, LPush(x)), Run(a, EffectOf(c.list, LPush(x))))
  {
    var c' := ListStep(c, LPush(x));
    assert OldestFirst(c'.list) == OldestFirst(c.list) + [x];
    var ops := EffectOf(c.list, LPush(x));
    if |c.list| < MAX_LEN {
      assert ops[..0] == [];
      assert Run(a, ops) == Step(a, PushOp(x));
      assert c.pushed == a.pushed;
    } else {
      assert Pending(c'.list) == Pending(c.list) + [x];
      assert Visible(c'.list) == Visible(c.list);
    }
  }

  lemma LTrimSimulates<T>(c: ListHistory<T>, a: History<T>)
    requires Simulates(c, a)
    ensures Simulates(ListStep(c, LTrim), Run(a, EffectOf(c.list, LTrim)))
  {
    var c' := ListStep(c, LTrim);
    var extra := Pending(c.list);
    if |c.list| > MAX_LEN {
      PushAllOntoFull(a, extra);
      assert OldestFirst(c.list) == Visible(c.list) + extra;
      assert OldestFirst(c'.list) == OldestFirst(c.list)[|extra|..];
    } else {
      assert PushAll(extra) == [];
    }
  }

  lemma PopThenPush<T>(a: History<T>, x: T)
    ensures Run(a, [PopOp]) == Step(a, PopOp)
    ensures Run(a, [PopOp, PushOp(x)]) == Step(Step(a, PopOp), PushOp(x))
  {
    var one, two := [PopOp], [PopOp, PushOp(x)];
    assert one[..0] == [];
    assert two[..1] == one;
  }

  /** Popping moves the window of the oldest 200 one message on. */
  lemma PopShiftsWindow<T>(s: seq<T>)
    requires |s| > MAX_LEN
    ensures Window(s[1..]) == Window(s)[1..] + [s[MAX_LEN]]
    ensures Beyond(s) == [s[MAX_LEN]] + Beyond(s[1..])
  {
  }

  lemma PopOldest<T>(list: seq<T>)
    requires list != []
    ensures OldestFirst(list[..|list|-1]) == OldestFirst(list)[1..]
    ensures OldestFirst(list)[0] == list[|list|-1]
  {
  }

  lemma PushOntoPopped<T>(a: History<T>, x: T)
    requires |a.queue| == MAX_LEN
    ensures Run(a, [PopOp, PushOp(x)]) ==
            History(a.queue[1..] + [x], a.pushed + [x], a.popped + [a.queue[0]], a.dropped, a.fates + [true])
  {
    PopThenPush(a, x);
  }

  lemma BRPopFullSimulates<T>(c: ListHistory<T>, a: History<T>)
    requires Simulates(c, a) && |c.list| > MAX_LEN
    ensures Simulates(ListStep(c, BRPop), Run(a, EffectOf(c.list, BRPop)))
  {
    var s := OldestFirst(c.list);
    PopShiftsWindow(s);
    PopOldest(c.list);
    PushOntoPopped(a, s[MAX_LEN]);
    assert EffectOf(c.list, BRPop) == [PopOp, PushOp(s[MAX_LEN])];
    assert a.pushed + Beyond(s) == a.pushed + [s[MAX_LEN]] + Beyond(s[1..]);
  }

  lemma BRPopSimulates<T>(c: ListHistory<T>, a: History<T>)
    requires Simulates(c, a)
    ensures Simulates(ListStep(c, BRPop), Run(a, EffectOf(c.list, BRPop)))
  {
    if |c.list| > MAX_LEN {
      BRPopFullSimulates(c, a);
    } else if c.list == [] {
      assert EffectOf(c.list, BRPop)[..0] == [];
    } else {
      var c' := ListStep(c, BRPop);
      PopThenPush(a, c.list[0]);
      assert EffectOf(c.list, BRPop) == [PopOp];
      assert OldestFirst(c'.list) == OldestFirst(c.list)[1..];
    }
  }

  /** Any interleaving of LPUSH, LTRIM and BRPOP by any number of clients behaves like
      atomic pushes and pops on the drop-oldest queue: the same messages are popped in the
      same order, pushes keep their order, and a push whose effect is still outstanding
      was LPUSHed after the last LTRIM, so its own trim is still to come. */
  lemma {:induction false} RedisListLinearises<T>(ops: seq<ListOp<T>>)
    ensures Simulates(ListRun(ops), Run(Empty(), Linearised(ops)))
    decreases |ops|
  {
    if ops == [] {
      assert OldestFirst<T>([]) == [];
    } else {
      var n := |ops| - 1;
      RedisListLinearises<T>(ops[..n]);
      var c := ListRun<T>(ops[..n]);
      RunConcat(Empty<T>(), Linearised(ops[..n]), EffectOf(c.list, ops[n]));
      var a := Run(Empty<T>(), Linearised(ops[..n]));
      match ops[n]
      case LPush(x) => LPushSimulates(c, a, x);
      case LTrim => LTrimSimulates(c, a);
      case BRPop => BRPopSimulates(c, a);
    }
  }

  /** Conservation on the Redis list itself, whatever the interleaving: the list holds the
      newest pushes, every older push left exactly once, in push order, and those that
      were popped came out in exactly that order. */
  lemma RedisListConserves<T>(ops: seq<ListOp<T>>)
    ensures var c := ListRun(ops);
            exists left: seq<T>, fates: seq<bool> ::
              |left| == |fates| && c.pushed == left + OldestFirst(c.list) && c.popped == WithFate(left, fates, true)
  {
    var c := ListRun<T>(ops);
    var a := Run(Empty<T>(), Linearised(ops));
    RedisListLinearises<T>(ops);
    RunConserves<T>(Linearised(ops));
    assert OldestFirst(c.list) == Visible(c.list) + Pending(c.list);
    assert c.pushed == Departed(a) + OldestFirst(c.list);
    assert c.popped == WithFate(Departed(a), a.fates, true);
  }

  /** Once the list has been trimmed it is the queue, and never longer than 200. */
  lemma TrimmedListIsQueue<T>(ops: seq<ListOp<T>>)
    requires ListRun(ops).untrimmed == 0
    ensures OldestFirst(ListRun(ops).list) == Run(Empty(), Linearised(ops)).queue
    ensures |ListRun(ops).list| <= MAX_LEN
  {
    RedisListLinearises<T>(ops);
  }

  // ---------------------------------------------------------------------------
  // The in-memory queue object
  // ---------------------------------------------------------------------------

  class InMemoryQueue<T> {
    var items: seq<T>

    constructor ()
      ensures items == []
    {
      items := [];
    }

    method QueuePush(x: T)
      requires |items| <= MAX_LEN
      modifies this
      ensures items == Push(old(items), x) && |items| <= MAX_LEN
      ensures items[|items|-1] == x
      ensures items == if |old(items)| < MAX_LEN then old(items) + [x] else old(items)[1..] + [x]
    {
      if |items| >= MAX_LEN {
        items := items[1..];
      }
      items := items + [x];
    }

    method QueuePop() returns (r: Option<T>)
      modifies this
      ensures r == (if old(items) == [] then None else Some(old(items)[0]))
      ensures old(items) == (if r.Some? then [r.value] else []) + items
    {
      if items == [] {
        return None;
      }
      r := Some(items[0]);
      items := items[1..];
    }
  }
}
