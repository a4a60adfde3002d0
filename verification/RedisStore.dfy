/**
 The in-memory Redis adapter: a key-value store whose keys expire lazily (an expired
 entry stays in the dictionary until an operation touches its key), with the
 SETNX-style lock on top. The reference it is compared with is a store that drops
 every key at the very moment it expires.
 */
module RedisStore {
  import opened Prelude

  datatype Entry = Entry(value: string, expiry: Option<real>)

  type Store = map<string, Entry>

  /** One call on the adapter. `ex` is the optional time to live of `set`; `later` is
      the second clock reading that `acquire_lock` makes when it writes the key. */
  datatype Op =
    | Get(key: string)
    | Set(key: string, value: string, ex: Option<real>)
    | Delete(key: string)
    | AcquireLock(key: string, ttl: real, later: real)

  datatype Reply = Value(found: Option<string>) | Done | Acquired(ok: bool)

  predicate Expired(s: Store, key: string, now: real) {
    key !in s || (s[key].expiry.Some? && now > s[key].expiry.value)
  }

  function Evict(s: Store, key: string, now: real): Store {
    if Expired(s, key, now) then s - {key} else s
  }

  /** `if ex`: a missing or zero time to live means the key never expires. */
  function Deadline(ex: Option<real>, now: real): Option<real> {
    if Truthy(ex) then Some(now + ex.value) else None
  }

  function Lookup(s: Store, key: string): Option<string> {
    if key in s then Some(s[key].value) else None
  }

  /** What each adapter method does to the dictionary, and what it returns. */
  function Apply(s: Store, op: Op, now: real): (Store, Reply) {
    match op
    case Get(key) =>
      var s1 := Evict(s, key, now);
      (s1, Value(Lookup(s1, key)))
    case Set(key, value, ex) =>
      (s[key := Entry(value, Deadline(ex, now))], Done)
    case Delete(key) =>
      (s - {key}, Done)
    case AcquireLock(key, ttl, later) =>
      var s1 := Evict(s, key, now);
      if key in s1 then (s1, Acquired(false))
      else (s1[key := Entry("1", Some(later + ttl))], Acquired(true))
  }

  // ---------------------------------------------------------------------------
  // Reference: a store without expired keys
  // ---------------------------------------------------------------------------

  /** The entries that are still alive at `now`. */
  function Sweep(s: Store, now: real): Store {
    map key | key in s && !Expired(s, key, now) :: s[key]
  }

  /** The same calls on a store that forgets a key the moment it expires: no entry is
      ever tested for expiry by the call itself. */
  function EagerApply(m: Store, op: Op, now: real): (Store, Reply) {
    match op
    case Get(key) => (m, Value(Lookup(m, key)))
    case Set(key, value, ex) => (m[key := Entry(value, Deadline(ex, now))], Done)
    case Delete(key) => (m - {key}, Done)
    case AcquireLock(key, ttl, later) =>
      if key in m then (m, Acquired(false))
      else (m[key := Entry("1", Some(later + ttl))], Acquired(true))
  }

  datatype Timed = Timed(now: real, op: Op)

  function LastReading(t: Timed): real {
    if t.op.AcquireLock? then t.op.later else t.now
  }

  /** Clock readings never go backwards, neither between calls nor inside one. */
  predicate Monotone(ops: seq<Timed>, start: real) {
    ops != [] ==>
      start <= ops[0].now <= LastReading(ops[0]) && Monotone(ops[1..], LastReading(ops[0]))
  }

  function EndOf(ops: seq<Timed>, start: real): real {
    if ops == [] then start else EndOf(ops[1..], LastReading(ops[0]))
  }

  function RunLazy(s: Store, ops: seq<Timed>): (Store, seq<Reply>)
    decreases |ops|
  {
    if ops == [] then (s, []) else
      var (s1, reply) := Apply(s, ops[0].op, ops[0].now);
      var (s2, replies) := RunLazy(s1, ops[1..]);
      (s2, [reply] + replies)
  }

  function RunEager(m: Store, ops: seq<Timed>): (Store, seq<Reply>)
    decreases |ops|
  {
    if ops == [] then (m, []) else
      var (m1, reply) := EagerApply(Sweep(m, ops[0].now), ops[0].op, ops[0].now);
      var (m2, replies) := RunEager(m1, ops[1..]);
      (m2, [reply] + replies)
  }

  /** One call: the lazy and the eager store answer alike and stay alike. */
  lemma StepAgrees(s: Store, op: Op, now: real)
    ensures var m := Sweep(s, now);
            Apply(s, op, now).1 == EagerApply(m, op, now).1 &&
            forall t :: now <= t ==> Sweep(Apply(s, op, now).0, t) == Sweep(EagerApply(m, op, now).0, t)
  {
    var m := Sweep(s, now);
    forall t | now <= t
      ensures Sweep(Apply(s, op, now).0, t) == Sweep(EagerApply(m, op, now).0, t)
    {
      var s' := Apply(s, op, now).0;
      var m' := EagerApply(m, op, now).0;
      forall key ensures key in Sweep(s', t) <==> key in Sweep(m', t) {
        assert key in m ==> m[key] == s[key];
      }
    }
  }

  /** Over every sequence of calls with a monotone clock, lazy eviction cannot be
      told apart from immediate expiry: the replies are equal, and so are the live
      entries at every later instant. */
  lemma {:induction false} LazyRefinesEager(s: Store, m: Store, ops: seq<Timed>, start: real)
    requires Monotone(ops, start)
    requires forall t :: start <= t ==> Sweep(s, t) == Sweep(m, t)
    ensures RunLazy(s, ops).1 == RunEager(m, ops).1
    ensures forall t :: EndOf(ops, start) <= t ==> Sweep(RunLazy(s, ops).0, t) == Sweep(RunEager(m, ops).0, t)
    decreases |ops|
  {
    if ops == [] {
    } else {
      var op, now := ops[0].op, ops[0].now;
      StepAgrees(s, op, now);
      assert Sweep(s, now) == Sweep(m, now);
      LazyRefinesEager(Apply(s, op, now).0, EagerApply(Sweep(m, now), op, now).0, ops[1..], LastReading(ops[0]));
    }
  }

  // ---------------------------------------------------------------------------
  // What a caller sees
  // ---------------------------------------------------------------------------

  /** A value that is set is found until its time to live has passed, and for ever without one
      (or with one of zero); a deleted one is not. */
  lemma SetThenGet(s: Store, key: string, value: string, ex: Option<real>, at: real, now: real)
    ensures Apply(Apply(s, Set(key, value, ex), at).0, Get(key), now).1 ==
            Value(if ex.Some? && ex.value != 0.0 && now > at + ex.value then None else Some(value))
    ensures Apply(Apply(s, Delete(key), at).0, Get(key), now).1 == Value(None)
  {
  }

  /** A key that was locked can be locked again exactly after its time to live or a deletion,
      which any caller may make. */
  lemma LockExcludes(s: Store, key: string, ttl: real, at: real, later: real, ttl2: real, now: real, later2: real)
    requires Apply(s, AcquireLock(key, ttl, later), at).1 == Acquired(true)
    ensures var held := Apply(s, AcquireLock(key, ttl, later), at).0;
            Apply(held, AcquireLock(key, ttl2, later2), now).1 == Acquired(now > later + ttl) &&
            Apply(Apply(held, Delete(key), now).0, AcquireLock(key, ttl2, later2), now).1 == Acquired(true)
  {
  }

  /** A call neither changes nor evicts any key but its own. */
  lemma OtherKeysStay(s: Store, op: Op, key: string, now: real)
    requires key != op.key
    ensures Lookup(Apply(s, op, now).0, key) == Lookup(s, key)
  {
  }

  // ---------------------------------------------------------------------------
  // Facts about the lock and the idempotency keys used by the executor
  // ---------------------------------------------------------------------------

  /** A key that was written with deadline `d` is live at `now` as long as now <= d. */
  predicate LiveUntil(s: Store, key: string, d: real) {
    key in s && s[key].expiry.Some? && s[key].expiry.value >= d
  }

  const LOCK_PREFIX := "lock:executor:"
  const PROCESSED_PREFIX := "processed:"

  function ProcessedKey(sigId: string): string {
    PROCESSED_PREFIX + sigId
  }

  lemma ProcessedKeysDiffer(a: string, b: string, symbol: string)
    ensures ProcessedKey(a) == ProcessedKey(b) ==> a == b
    ensures ProcessedKey(a) != LOCK_PREFIX + symbol
  {
    assert a == ProcessedKey(a)[|PROCESSED_PREFIX|..];
    assert b == ProcessedKey(b)[|PROCESSED_PREFIX|..];
    assert ProcessedKey(a)[0] == 'p' && (LOCK_PREFIX + symbol)[0] == 'l';
  }

  // ---------------------------------------------------------------------------
  // The adapter object
  // ---------------------------------------------------------------------------

  class InMemoryRedis {
    var store: Store

    constructor ()
      ensures store == map[]
    {
      store := map[];
    }

    method EvictKey(key: string, now: real)
      modifies this
      ensures store == Evict(old(store), key, now)
      ensures Sweep(store, now) == Sweep(old(store), now)
    {
      if key !in store || (store[key].expiry.Some? && now > store[key].expiry.value) {
        store := store - {key};
      }
    }

    method GetValue(key: string, default: Option<string>, now: real) returns (r: Option<string>)
      modifies this
      ensures store == Apply(old(store), Get(key), now).0
      ensures r == if key in Sweep(old(store), now) then Some(old(store)[key].value) else default
      ensures Sweep(store, now) == Sweep(old(store), now)
    {
      EvictKey(key, now);
      r := if key in store then Some(store[key].value) else default;
    }

    method SetValue(key: string, value: string, ex: Option<real>, now: real)
      modifies this
      ensures store == Apply(old(store), Set(key, value, ex), now).0
    {
      var deadline := if ex.Some? && ex.value != 0.0 then Some(now + ex.value) else None;
      store := store[key := Entry(value, deadline)];
    }

    method DeleteKey(key: string)
      modifies this
      ensures store == old(store) - {key}
    {
      store := store - {key};
    }

    /** The caller gets the lock exactly when no live entry holds the key. */
    method TryAcquireLock(key: string, ttl: real, now: real, later: real) returns (ok: bool)
      requires now <= later
      modifies this
      ensures ok == (key !in Sweep(old(store), now))
      ensures (store, Acquired(ok)) == Apply(old(store), AcquireLock(key, ttl, later), now)
      ensures ok ==> forall t :: later <= t <= later + ttl ==> key in Sweep(store, t)
    {
      EvictKey(key, now);
      if key in store {
        return false;
      }
      store := store[key := Entry("1", Some(later + ttl))];
      return true;
    }

    /** Release removes the key whoever wrote it: the entry carries no owner. */
    method ReleaseLock(key: string)
      modifies this
      ensures store == old(store) - {key}
    {
      store := store - {key};
    }

    method MarkProcessed(sigId: string, ttl: real, now: real)
      modifies this
      ensures store == Apply(old(store), Set(ProcessedKey(sigId), "1", Some(ttl)), now).0
    {
      SetValue(ProcessedKey(sigId), "1", Some(ttl), now);
    }

    method IsProcessed(sigId: string, now: real) returns (r: bool)
      modifies this
      ensures store == Evict(old(store), ProcessedKey(sigId), now)
      ensures r <==> ProcessedKey(sigId) in Sweep(old(store), now) && old(store)[ProcessedKey(sigId)].value != ""
    {
      var v := GetValue(ProcessedKey(sigId), None, now);
      r := v.Some? && v.value != "";
    }
  }
}
