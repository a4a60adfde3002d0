/**
 Several executors working on one symbol at the same time. Every event lets one call
 take one atomic step; between steps any other call may run and time may pass. The lock
 carries no owner and is deleted unconditionally, so nothing here is safe by itself: the
 properties hold for runs in which no call enters while another one, inside, has outlived
 the lock's time to live, and exclusion fails exactly without that.
 */
module Protocol {
  import opened Prelude
  import opened RedisStore
  import opened TradeLedger
  import opened ExecutorSteps
  import opened Reconciliation

  /** A call that ran to its end, with the clock readings it made. */
  datatype Done = DoneCall(call: Call, clock: Clock, result: Result) | DoneRepair(obs: Observation, minOrder: real)

  /** `log` remembers the calls that entered the critical section, in the order they left it. */
  datatype System = System(world: World, now: real, procs: map<nat, Local>, log: seq<Done>)

  /** `RepairNow` is a whole repair. The repair takes no lock and awaits between its
      database calls, so its single calls may also come one by one, between the steps of
      other calls: `RepairCloses` is one row closed, `RepairOpens` one row opened. */
  datatype Event =
    | Begin(p: nat, call: Call)
    | Run(p: nat, at: real)
    | Crash(p: nat)
    | RepairNow(obs: Observation, minOrder: real)
    | RepairCloses(id: nat, price: real)
    | RepairOpens(price: real, qty: real)

  predicate Inside(s: System, p: nat) {
    p in s.procs && InCriticalSection(s.procs[p])
  }

  predicate Enabled(s: System, e: Event) {
    match e
    case Begin(p, _) => !Inside(s, p) && (p in s.procs ==> s.procs[p].pc == Finished)
    case Run(p, at) => p in s.procs && s.procs[p].pc != Finished && s.now <= at
    case Crash(p) => p in s.procs
    case _ => true
  }

  function ClockOf(l: Local): Clock {
    Clock(l.acquiredAt, l.checkedAt, l.placedAt, l.markedAt)
  }

  function RunOne(s: System, p: nat, at: real): System
    requires p in s.procs
  {
    var l := s.procs[p];
    var (w', l') := MicroStep(s.world, l, at);
    System(w', at, s.procs[p := l'],
           if InCriticalSection(l) && l'.pc == Finished
           then s.log + [DoneCall(l.call, ClockOf(l'), l'.result)] else s.log)
  }

  function Next(s: System, e: Event): System
    requires Enabled(s, e)
  {
    match e
    case Begin(p, call) => s.(procs := s.procs[p := Start(call)])
    case Run(p, at) => RunOne(s, p, at)
    case Crash(p) => s.(procs := s.procs - {p})
    case RepairNow(obs, minOrder) =>
      s.(world := s.world.(positions := Repair(s.world.positions, obs, minOrder).0),
         log := s.log + [DoneRepair(obs, minOrder)])
    case RepairCloses(id, price) =>
      s.(world := s.world.(positions := CloseRow(s.world.positions, id, price)))
    case RepairOpens(price, qty) =>
      s.(world := s.world.(positions := s.world.positions + [LongRow(price, qty)]))
  }

  /** No call has been in its critical section for longer than the lock lives. */
  ghost predicate Timely(s: System) {
    forall p :: Inside(s, p) ==> s.now <= s.procs[p].acquiredAt + LOCK_TTL
  }

  /** A run: enabled events only, and timely after every one of them. */
  ghost predicate TimelyRun(s: System, es: seq<Event>)
    decreases |es|
  {
    es != [] ==> Enabled(s, es[0]) && Timely(Next(s, es[0])) && TimelyRun(Next(s, es[0]), es[1..])
  }

  function After(s: System, es: seq<Event>): System
    decreases |es|
  {
    if es == [] || !Enabled(s, es[0]) then s else After(Next(s, es[0]), es[1..])
  }

  // ---------------------------------------------------------------------------
  // Mutual exclusion
  // ---------------------------------------------------------------------------

  ghost predicate Exclusive(s: System) {
    forall p, q :: Inside(s, p) && Inside(s, q) ==> p == q
  }

  /** Whoever is inside wrote the lock entry that is there now. */
  ghost predicate HoldsLock(s: System) {
    forall p :: Inside(s, p) ==>
      LOCK_KEY in s.world.store &&
      s.world.store[LOCK_KEY].expiry == Some(s.procs[p].acquiredAt + LOCK_TTL)
  }

  ghost predicate Guarded(s: System) {
    Exclusive(s) && HoldsLock(s)
  }

  /** Steps other than acquire and release leave the lock entry alone. */
  lemma StepKeepsLockEntry(w: World, l: Local, at: real)
    requires InCriticalSection(l) && l.pc != Release
    ensures var w' := MicroStep(w, l, at).0;
            (LOCK_KEY in w'.store <==> LOCK_KEY in w.store) &&
            (LOCK_KEY in w.store ==> w'.store[LOCK_KEY] == w.store[LOCK_KEY])
    ensures MicroStep(w, l, at).1.acquiredAt == l.acquiredAt
    ensures InCriticalSection(MicroStep(w, l, at).1)
  {
    ProcessedKeysDiffer(l.call.sigId, l.call.sigId, SYMBOL);
  }

  lemma AcquireEnters(w: World, l: Local, at: real)
    requires l.pc == Acquire
    ensures var (w', l') := MicroStep(w, l, at);
            InCriticalSection(l') <==> Acquire !in l.call.faults && Expired(w.store, LOCK_KEY, at)
    ensures var (w', l') := MicroStep(w, l, at);
            InCriticalSection(l') ==> l'.acquiredAt == at && LOCK_KEY in w'.store &&
                                      w'.store[LOCK_KEY].expiry == Some(at + LOCK_TTL)
    ensures !InCriticalSection(MicroStep(w, l, at).1) ==> MicroStep(w, l, at).0 == w
  {
  }

  /** A step of one call leaves all other calls where they are. */
  lemma OthersUnaffected(s: System, p: nat, at: real)
    requires Enabled(s, Run(p, at))
    ensures var s' := Next(s, Run(p, at));
            (forall q :: q != p ==> (Inside(s', q) <==> Inside(s, q)) && (Inside(s, q) ==> s'.procs[q] == s.procs[q]))
  {
  }

  /** A call that acquires finds nobody inside who has outlived the lock. */
  ghost predicate EntersSafely(s: System, e: Event) {
    e.Run? && e.p in s.procs && s.procs[e.p].pc == Acquire && Acquire !in s.procs[e.p].call.faults ==>
      forall q :: Inside(s, q) ==> e.at <= s.procs[q].acquiredAt + LOCK_TTL
  }

  lemma TimelyEntersSafely(s: System, e: Event)
    requires Enabled(s, e) && Timely(Next(s, e))
    ensures EntersSafely(s, e)
  {
    if e.Run? && s.procs[e.p].pc == Acquire {
      OthersUnaffected(s, e.p, e.at);
      forall q | Inside(s, q) ensures e.at <= s.procs[q].acquiredAt + LOCK_TTL {
        assert q != e.p && Inside(Next(s, e), q);
      }
    }
  }

  lemma EnteringKeepsGuarded(s: System, p: nat, at: real)
    requires Enabled(s, Run(p, at)) && Guarded(s) && EntersSafely(s, Run(p, at)) && s.procs[p].pc == Acquire
    ensures Guarded(Next(s, Run(p, at)))
  {
    AcquireEnters(s.world, s.procs[p], at);
    OthersUnaffected(s, p, at);
  }

  lemma StayingKeepsGuarded(s: System, p: nat, at: real)
    requires Enabled(s, Run(p, at)) && Guarded(s) && Inside(s, p)
    ensures Guarded(Next(s, Run(p, at)))
  {
    OthersUnaffected(s, p, at);
    assert forall q :: Inside(s, q) ==> q == p;
    if s.procs[p].pc != Release {
      StepKeepsLockEntry(s.world, s.procs[p], at);
    }
  }

  lemma OtherEventKeepsGuarded(s: System, e: Event)
    requires Enabled(s, e) && Guarded(s) && !e.Run?
    ensures Guarded(Next(s, e))
  {
    var s' := Next(s, e);
    forall q ensures Inside(s', q) ==> Inside(s, q) && s'.procs[q] == s.procs[q] {}
  }

  lemma NextKeepsGuarded(s: System, e: Event)
    requires Enabled(s, e) && Guarded(s) && EntersSafely(s, e)
    ensures Guarded(Next(s, e))
  {
    if !e.Run? {
      OtherEventKeepsGuarded(s, e);
    } else if s.procs[e.p].pc == Acquire {
      EnteringKeepsGuarded(s, e.p, e.at);
    } else {
      StayingKeepsGuarded(s, e.p, e.at);
    }
  }

  lemma UnsafeEntryBreaksExclusion(s: System, e: Event)
    requires Enabled(s, e) && Guarded(s) && !EntersSafely(s, e)
    ensures !Exclusive(Next(s, e))
  {
    var q :| Inside(s, q) && e.at > s.procs[q].acquiredAt + LOCK_TTL;
    AcquireEnters(s.world, s.procs[e.p], e.at);
    OthersUnaffected(s, e.p, e.at);
    assert Inside(Next(s, e), q) && Inside(Next(s, e), e.p) && q != e.p;
  }

  /** One event out of a guarded system keeps exclusion if and only if it is not the entry
      of a call while another one, inside, has outlived the lock. */
  lemma ExclusionIff(s: System, e: Event)
    requires Enabled(s, e) && Guarded(s)
    ensures Exclusive(Next(s, e)) <==> EntersSafely(s, e)
  {
    if EntersSafely(s, e) {
      NextKeepsGuarded(s, e);
    } else {
      UnsafeEntryBreaksExclusion(s, e);
    }
  }

  /** The run is enabled, and exclusion holds at every moment of it. */
  ghost predicate ExclusiveThroughout(s: System, es: seq<Event>)
    decreases |es|
  {
    Exclusive(s) && (es != [] ==> Enabled(s, es[0]) && ExclusiveThroughout(Next(s, es[0]), es[1..]))
  }

  /** An enabled run in which every entry is safe. */
  ghost predicate SafeRun(s: System, es: seq<Event>)
    decreases |es|
  {
    es != [] ==> Enabled(s, es[0]) && EntersSafely(s, es[0]) && SafeRun(Next(s, es[0]), es[1..])
  }

  /** Exclusion holds throughout a run if and only if no call ever enters while another one
      is still inside after the lock's time to live. */
  lemma {:induction false} ExclusionThroughoutIff(s: System, es: seq<Event>)
    requires Guarded(s)
    ensures ExclusiveThroughout(s, es) <==> SafeRun(s, es)
    decreases |es|
  {
    if es == [] {
    } else if Enabled(s, es[0]) {
      ExclusionIff(s, es[0]);
      if EntersSafely(s, es[0]) {
        NextKeepsGuarded(s, es[0]);
        ExclusionThroughoutIff(Next(s, es[0]), es[1..]);
      } else {
        assert !ExclusiveThroughout(Next(s, es[0]), es[1..]);
      }
    }
  }

  /** A run in which no call outlives the lock has safe entries only. */
  lemma {:induction false} TimelyRunIsSafe(s: System, es: seq<Event>)
    requires TimelyRun(s, es)
    ensures SafeRun(s, es)
    decreases |es|
  {
    if es == [] {
    } else {
      TimelyEntersSafely(s, es[0]);
      TimelyRunIsSafe(Next(s, es[0]), es[1..]);
    }
  }

  /** In every safe run at most one call is between acquire and release, and the lock
      entry is always its own. */
  lemma {:induction false} MutualExclusion(s: System, es: seq<Event>)
    requires Guarded(s) && SafeRun(s, es)
    ensures Guarded(After(s, es))
    decreases |es|
  {
    if es == [] {
    } else {
      NextKeepsGuarded(s, es[0]);
      MutualExclusion(Next(s, es[0]), es[1..]);
    }
  }

  /** The lock entry of the call inside disappears only by that call's own release. */
  lemma OnlyHolderReleases(s: System, e: Event, p: nat)
    requires Enabled(s, e) && Guarded(s) && EntersSafely(s, e) && Inside(s, p)
    requires LOCK_KEY !in Next(s, e).world.store ||
             Next(s, e).world.store[LOCK_KEY] != s.world.store[LOCK_KEY]
    ensures e.Run? && e.p == p && s.procs[p].pc == Release
  {
    if e.Run? {
      var l := s.procs[e.p];
      if e.p != p {
        assert Inside(Next(s, e), p) && Next(s, e).procs[p] == s.procs[p];
        assert !Inside(s, e.p);
        AcquireEnters(s.world, l, e.at);
      } else if l.pc != Release {
        StepKeepsLockEntry(s.world, l, e.at);
      }
    }
  }

  // ---------------------------------------------------------------------------
  // At most one fill per signal id and hour
  // ---------------------------------------------------------------------------

  /** Between the accepted order and the processed mark. */
  predicate AwaitsMark(l: Local) {
    l.pc in {WriteTrade, WriteRow, RereadRows, CloseNext, MarkDone}
  }

  /** Between the idempotency check and the order. */
  predicate AwaitsOrder(l: Local) {
    l.pc in {ReadRows, Size, Place}
  }

  /** The mark is not lost: neither the trade write nor the mark itself raises, and the
      process does not die in between. Errors anywhere else are harmless. */
  predicate KeepsMark(s: System, e: Event) {
    match e
    case Run(p, at) =>
      p in s.procs ==> !(s.procs[p].pc in {WriteTrade, MarkDone} && s.procs[p].pc in s.procs[p].call.faults)
    case Crash(p) => p in s.procs ==> !AwaitsMark(s.procs[p])
    case _ => true
  }

  ghost predicate MarkingRun(s: System, es: seq<Event>)
    decreases |es|
  {
    es != [] ==> Enabled(s, es[0]) && KeepsMark(s, es[0]) && MarkingRun(Next(s, es[0]), es[1..])
  }

  /** The call inside the critical section, if there is one. */
  ghost function Holder(s: System): Option<Local> {
    if p :| Inside(s, p) then Some(s.procs[p]) else None
  }

  /** The processed key of a fill is live for an hour after the order. */
  predicate Marked1h(store: Store, f: Fill) {
    LiveUntil(store, ProcessedKey(f.sigId), f.placedAt + PROCESSED_TTL) &&
    store[ProcessedKey(f.sigId)].value != ""
  }

  predicate WillMark(holder: Option<Local>, f: Fill) {
    holder.Some? && AwaitsMark(holder.value) && holder.value.call.sigId == f.sigId
  }

  /** Every fill younger than an hour is marked, or the call inside is about to mark it. */
  ghost predicate Remembered(w: World, now: real, holder: Option<Local>) {
    forall f :: f in w.fills ==>
      f.placedAt <= now &&
      (now <= f.placedAt + PROCESSED_TTL ==> Marked1h(w.store, f) || WillMark(holder, f))
  }

  /** A call that is about to order checked after every earlier fill of its signal had
      been forgotten. */
  ghost predicate Fresh(w: World, holder: Option<Local>) {
    holder.Some? && AwaitsOrder(holder.value) ==>
      forall f :: f in w.fills && f.sigId == holder.value.call.sigId ==>
        holder.value.checkedAt > f.placedAt + PROCESSED_TTL
  }

  /** Two fills of one signal id are more than an hour apart. */
  ghost predicate FillsSpaced(fills: seq<Fill>) {
    forall i, j :: 0 <= i < j < |fills| && fills[i].sigId == fills[j].sigId ==>
      fills[j].checkedAt > fills[i].placedAt + PROCESSED_TTL
  }

  ghost predicate Idempotent(w: World, now: real, holder: Option<Local>) {
    Remembered(w, now, holder) && Fresh(w, holder) && FillsSpaced(w.fills)
  }

  function HolderAfter(l: Local): Option<Local> {
    if InCriticalSection(l) then Some(l) else None
  }

  lemma CheckKeepsIdempotent(w: World, l: Local, now: real, at: real)
    requires l.pc == CheckProcessed && now <= at && Idempotent(w, now, Some(l))
    ensures Idempotent(CheckStep(w, l, at).0, at, HolderAfter(CheckStep(w, l, at).1))
  {
    var (w', l') := CheckStep(w, l, at);
    forall f | f in w.fills ensures at <= f.placedAt + PROCESSED_TTL ==> Marked1h(w'.store, f) {
      if at <= f.placedAt + PROCESSED_TTL {
        assert Marked1h(w.store, f);
        assert !Expired(w.store, ProcessedKey(f.sigId), at);
        ProcessedKeysDiffer(f.sigId, l.call.sigId, SYMBOL);
      }
    }
  }

  lemma PlaceKeepsIdempotent(w: World, l: Local, now: real, at: real)
    requires l.pc == Place && now <= at && Idempotent(w, now, Some(l))
    ensures Idempotent(PlaceStep(w, l, at).0, at, HolderAfter(PlaceStep(w, l, at).1))
  {
    var (w', l') := PlaceStep(w, l, at);
    if l'.pc == WriteTrade {
      forall f | f in w'.fills
        ensures at <= f.placedAt + PROCESSED_TTL ==> Marked1h(w'.store, f) || WillMark(Some(l'), f)
        ensures f.placedAt <= at
      {
        assert f in w.fills || f == w'.fills[|w.fills|];
      }
    }
  }

  lemma MarkKeepsIdempotent(w: World, l: Local, now: real, at: real)
    requires l.pc == MarkDone && MarkDone !in l.call.faults
    requires now <= at && Idempotent(w, now, Some(l))
    ensures Idempotent(MarkStep(w, l, at).0, at, HolderAfter(MarkStep(w, l, at).1))
  {
    var (w', l') := MarkStep(w, l, at);
    forall f | f in w.fills ensures at <= f.placedAt + PROCESSED_TTL ==> Marked1h(w'.store, f) {
      if at <= f.placedAt + PROCESSED_TTL {
        ProcessedKeysDiffer(f.sigId, l.call.sigId, SYMBOL);
      }
    }
  }

  /** Steps that touch neither the keys nor the fills. */
  lemma PlainStep(w: World, l: Local, at: real)
    requires InCriticalSection(l) && l.pc !in {CheckProcessed, Place, MarkDone, Release}
    requires !(l.pc == WriteTrade && WriteTrade in l.call.faults)
    ensures var (w', l') := MicroStep(w, l, at);
            w'.store == w.store && w'.fills == w.fills && l'.checkedAt == l.checkedAt && InCriticalSection(l') &&
            (AwaitsMark(l) ==> AwaitsMark(l')) && (AwaitsOrder(l') ==> AwaitsOrder(l))
  {
  }

  lemma ReleaseKeepsIdempotent(w: World, l: Local, now: real, at: real)
    requires l.pc == Release && now <= at && Idempotent(w, now, Some(l))
    ensures Idempotent(ReleaseStep(w, l).0, at, None)
  {
    forall f | f in w.fills { ProcessedKeysDiffer(f.sigId, f.sigId, SYMBOL); }
  }

  lemma StepKeepsIdempotent(w: World, l: Local, now: real, at: real)
    requires InCriticalSection(l) && now <= at && Idempotent(w, now, Some(l))
    requires !(l.pc in {WriteTrade, MarkDone} && l.pc in l.call.faults)
    ensures Idempotent(MicroStep(w, l, at).0, at, HolderAfter(MicroStep(w, l, at).1))
  {
    if l.pc == CheckProcessed {
      CheckKeepsIdempotent(w, l, now, at);
    } else if l.pc == Place {
      PlaceKeepsIdempotent(w, l, now, at);
    } else if l.pc == MarkDone {
      MarkKeepsIdempotent(w, l, now, at);
    } else if l.pc == Release {
      ReleaseKeepsIdempotent(w, l, now, at);
    } else {
      PlainStep(w, l, at);
    }
  }

  lemma AcquireKeepsIdempotent(w: World, l: Local, now: real, at: real)
    requires l.pc == Acquire && now <= at && Idempotent(w, now, None)
    ensures Idempotent(MicroStep(w, l, at).0, at, HolderAfter(MicroStep(w, l, at).1))
  {
    forall f | f in w.fills { ProcessedKeysDiffer(f.sigId, f.sigId, SYMBOL); }
  }

  lemma HolderIs(s: System, p: nat)
    requires Exclusive(s) && Inside(s, p)
    ensures Holder(s) == Some(s.procs[p])
  {
  }

  lemma NextKeepsIdempotent(s: System, e: Event)
    requires Enabled(s, e) && Guarded(s) && EntersSafely(s, e) && KeepsMark(s, e)
    requires Idempotent(s.world, s.now, Holder(s))
    ensures var s' := Next(s, e); Idempotent(s'.world, s'.now, Holder(s'))
  {
    var s' := Next(s, e);
    NextKeepsGuarded(s, e);
    match e
    case Run(p, at) =>
      var l := s.procs[p];
      forall q | q != p ensures Inside(s', q) <==> Inside(s, q) {}
      if Inside(s, p) {
        HolderIs(s, p);
        StepKeepsIdempotent(s.world, l, s.now, at);
        if Inside(s', p) { HolderIs(s', p); } else { assert forall q :: !Inside(s', q); }
      } else if q :| Inside(s, q) {
        HolderIs(s, q);
        AcquireEnters(s.world, l, at);
        assert Inside(s', q) && !Inside(s', p);
        HolderIs(s', q);
      } else {
        AcquireKeepsIdempotent(s.world, l, s.now, at);
        if Inside(s', p) { HolderIs(s', p); } else { assert forall q :: !Inside(s', q); }
      }
    case Crash(p) =>
      forall q ensures Inside(s', q) <==> Inside(s, q) && q != p {}
      if q :| Inside(s', q) {
        HolderIs(s, q);
        HolderIs(s', q);
      } else if Inside(s, p) {
        HolderIs(s, p);
      }
    case _ =>
      forall q ensures (Inside(s', q) <==> Inside(s, q)) && (Inside(s, q) ==> s'.procs[q] == s.procs[q]) {}
      if q :| Inside(s, q) {
        HolderIs(s, q);
        HolderIs(s', q);
      }
  }

  /** Over every safe run in which no processed mark is lost, each signal id is filled
      at most once while its processed key lives: a second fill of the same id was
      checked more than an hour after the first order. */
  lemma {:induction false} AtMostOnce(s: System, es: seq<Event>)
    requires Guarded(s) && Idempotent(s.world, s.now, Holder(s))
    requires SafeRun(s, es) && MarkingRun(s, es)
    ensures FillsSpaced(After(s, es).world.fills)
    ensures Idempotent(After(s, es).world, After(s, es).now, Holder(After(s, es)))
    decreases |es|
  {
    if es == [] {
    } else {
      NextKeepsGuarded(s, es[0]);
      NextKeepsIdempotent(s, es[0]);
      AtMostOnce(Next(s, es[0]), es[1..]);
    }
  }

  // ---------------------------------------------------------------------------
  // Serialisability
  // ---------------------------------------------------------------------------

  /** One logged entry, executed as a single atomic operation. */
  function Redo(w: World, d: Done): World {
    match d
    case DoneCall(call, clock, _) => Session(w, call, clock).0
    case DoneRepair(obs, minOrder) => w.(positions := Repair(w.positions, obs, minOrder).0)
  }

  /** The calls and repairs of a log, executed one after the other. */
  function Replay(w0: World, log: seq<Done>): World {
    if log == [] then w0 else Redo(Replay(w0, log[..|log|-1]), log[|log|-1])
  }

  /** Every logged call returned what the atomic execution returns at its place. */
  ghost predicate ResultsMatch(w0: World, log: seq<Done>) {
    forall i :: 0 <= i < |log| && log[i].DoneCall? ==>
      log[i].result == Session(Replay(w0, log[..i]), log[i].call, log[i].clock).1
  }

  /** A clock that made the readings the call has made so far. */
  predicate Extends(k: Clock, l: Local) {
    (Rank(l.pc) < Rank(Acquire) ==> k.acquire == l.acquiredAt) &&
    (Rank(l.pc) < Rank(CheckProcessed) ==> k.check == l.checkedAt) &&
    (Rank(l.pc) < Rank(Place) ==> k.place == l.placedAt) &&
    (Rank(l.pc) < Rank(MarkDone) ==> k.mark == l.markedAt)
  }

  /** Finishing the call from here gives what the whole call gives on w0. */
  ghost predicate OnTrack(w0: World, w: World, l: Local) {
    forall k :: Extends(k, l) ==> Finish(w, l, k) == Finish(w0, Start(l.call), k)
  }

  ghost predicate Serial(w0: World, s: System) {
    && ResultsMatch(w0, s.log)
    && (Holder(s).None? ==> s.world == Replay(w0, s.log))
    && (Holder(s).Some? ==> OnTrack(Replay(w0, s.log), s.world, Holder(s).value))
    && StartsFresh(s)
  }

  /** A call that has not acquired yet has done nothing yet. */
  ghost predicate StartsFresh(s: System) {
    forall p :: p in s.procs && s.procs[p].pc == Acquire ==> s.procs[p] == Start(s.procs[p].call)
  }

  lemma StepStaysOnTrack(w0: World, w: World, l: Local, at: real)
    requires l.pc != Finished && OnTrack(w0, w, l)
    ensures OnTrack(w0, MicroStep(w, l, at).0, MicroStep(w, l, at).1)
  {
    var (w', l') := MicroStep(w, l, at);
    forall k | Extends(k, l') ensures Finish(w', l', k) == Finish(w0, Start(l'.call), k) {
      ReadingsAreKept(w, l, at, k);
      assert Finish(w, l, k) == Finish(w', l', k);
    }
  }

  /** A step only adds to the readings made, and depends on the clock only by its own. */
  lemma ReadingsAreKept(w: World, l: Local, at: real, k: Clock)
    requires l.pc != Finished && Extends(k, MicroStep(w, l, at).1)
    ensures Extends(k, l)
    ensures MicroStep(w, l, TimeAt(k, l.pc)) == MicroStep(w, l, at)
  {
  }

  lemma {:induction false} LogAppend(w0: World, log: seq<Done>, d: Done)
    requires ResultsMatch(w0, log)
    requires d.DoneCall? ==> d.result == Session(Replay(w0, log), d.call, d.clock).1
    ensures ResultsMatch(w0, log + [d])
    ensures Replay(w0, log + [d]) == Redo(Replay(w0, log), d)
  {
    var log' := log + [d];
    assert log'[..|log|] == log;
    forall i | 0 <= i < |log'| && log'[i].DoneCall?
      ensures log'[i].result == Session(Replay(w0, log'[..i]), log'[i].call, log'[i].clock).1
    {
      assert log'[..i] == log[..i];
    }
  }

  /** Events that serialise: no call dies inside, and the table is only repaired as a
      whole, while no call is inside (the repair takes no lock). */
  ghost predicate Orderly(s: System, e: Event) {
    match e
    case Crash(p) => !Inside(s, p)
    case RepairNow(_, _) => Holder(s).None?
    case RepairCloses(_, _) => false
    case RepairOpens(_, _) => false
    case _ => true
  }

  ghost predicate OrderlyRun(s: System, es: seq<Event>)
    decreases |es|
  {
    es != [] ==> Enabled(s, es[0]) && Orderly(s, es[0]) && OrderlyRun(Next(s, es[0]), es[1..])
  }

  lemma NobodyInside(s: System)
    requires forall q :: !Inside(s, q)
    ensures Holder(s) == None
  {
  }

  lemma {:induction false} InsideStepKeepsSerial(w0: World, s: System, p: nat, at: real)
    requires Enabled(s, Run(p, at)) && Guarded(s) && Guarded(Next(s, Run(p, at))) && Serial(w0, s)
    requires Inside(s, p) && Inside(Next(s, Run(p, at)), p)
    ensures Serial(w0, Next(s, Run(p, at)))
  {
    HolderIs(s, p);
    HolderIs(Next(s, Run(p, at)), p);
    StepStaysOnTrack(Replay(w0, s.log), s.world, s.procs[p], at);
  }

  /** A call that leaves the critical section has done what its atomic execution does. */
  lemma LastStepIsWholeCall(w0: World, w: World, l: Local, at: real)
    requires l.pc != Finished && OnTrack(w0, w, l) && MicroStep(w, l, at).1.pc == Finished
    ensures var (w', l') := MicroStep(w, l, at);
            Session(w0, l.call, ClockOf(l')) == (w', l'.result)
  {
    var (w', l') := MicroStep(w, l, at);
    var k := ClockOf(l');
    StepStaysOnTrack(w0, w, l, at);
    assert Extends(k, l');
    assert Finish(w', l', k) == (w', l');
  }

  lemma {:induction false} LeavingKeepsSerial(w0: World, s: System, p: nat, at: real)
    requires Enabled(s, Run(p, at)) && Guarded(s) && Serial(w0, s)
    requires Inside(s, p) && s.procs[p].pc == Release
    ensures Serial(w0, Next(s, Run(p, at)))
  {
    var s' := Next(s, Run(p, at));
    var l, l' := s.procs[p], s'.procs[p];
    HolderIs(s, p);
    OthersUnaffected(s, p, at);
    NobodyInside(s');
    assert StartsFresh(s');
    LastStepIsWholeCall(Replay(w0, s.log), s.world, l, at);
    LogAppend(w0, s.log, DoneCall(l.call, ClockOf(l'), l'.result));
  }

  lemma {:induction false} AcquireKeepsSerial(w0: World, s: System, p: nat, at: real)
    requires Enabled(s, Run(p, at)) && Guarded(s) && Guarded(Next(s, Run(p, at))) && !Inside(s, p) && Serial(w0, s)
    ensures Serial(w0, Next(s, Run(p, at)))
  {
    var s' := Next(s, Run(p, at));
    AcquireEnters(s.world, s.procs[p], at);
    OthersUnaffected(s, p, at);
    if q :| Inside(s, q) {
      HolderIs(s, q);
      assert Inside(s', q);
      HolderIs(s', q);
    } else if Inside(s', p) {
      HolderIs(s', p);
      StepStaysOnTrack(s.world, s.world, s.procs[p], at);
    } else {
      NobodyInside(s');
    }
  }

  lemma {:induction false} RunKeepsSerial(w0: World, s: System, p: nat, at: real)
    requires Enabled(s, Run(p, at)) && Guarded(s) && EntersSafely(s, Run(p, at)) && Serial(w0, s)
    ensures Serial(w0, Next(s, Run(p, at)))
  {
    NextKeepsGuarded(s, Run(p, at));
    if Inside(s, p) && Inside(Next(s, Run(p, at)), p) {
      InsideStepKeepsSerial(w0, s, p, at);
    } else if Inside(s, p) {
      LeavingKeepsSerial(w0, s, p, at);
    } else {
      AcquireKeepsSerial(w0, s, p, at);
    }
  }

  lemma {:induction false} OtherEventKeepsSerial(w0: World, s: System, e: Event)
    requires Enabled(s, e) && !e.Run? && Guarded(s) && Guarded(Next(s, e)) && Orderly(s, e) && Serial(w0, s)
    ensures Serial(w0, Next(s, e))
  {
    var s' := Next(s, e);
    forall q ensures (Inside(s', q) <==> Inside(s, q)) && (Inside(s, q) ==> s'.procs[q] == s.procs[q]) {}
    if q :| Inside(s, q) {
      HolderIs(s, q);
      HolderIs(s', q);
    } else {
      NobodyInside(s');
    }
    if e.RepairNow? {
      LogAppend(w0, s.log, DoneRepair(e.obs, e.minOrder));
    }
  }

  lemma {:induction false} NextKeepsSerial(w0: World, s: System, e: Event)
    requires Enabled(s, e) && Guarded(s) && EntersSafely(s, e) && Orderly(s, e) && Serial(w0, s)
    ensures Serial(w0, Next(s, e))
  {
    NextKeepsGuarded(s, e);
    if e.Run? {
      RunKeepsSerial(w0, s, e.p, e.at);
    } else {
      OtherEventKeepsSerial(w0, s, e);
    }
  }

  /** Every safe and orderly run is serialisable: once nobody is inside, the tables, the
      key store and the fills are what the logged calls produce when executed one after
      the other, each as a single uninterrupted operation, with the same results. Calls
      that failed to get the lock left no trace. */
  lemma {:induction false} Serialisable(w0: World, s: System, es: seq<Event>)
    requires Guarded(s) && Serial(w0, s)
    requires SafeRun(s, es) && OrderlyRun(s, es)
    ensures Serial(w0, After(s, es))
    decreases |es|
  {
    if es == [] {
    } else {
      NextKeepsGuarded(s, es[0]);
      NextKeepsSerial(w0, s, es[0]);
      Serialisable(w0, Next(s, es[0]), es[1..]);
    }
  }

  /** A system in which nothing has been filled and nobody is inside meets the hypotheses of
      the theorems about exclusion, fills and serialisability. */
  lemma FreshSystemIsSafe(w: World, now: real)
    requires w.fills == []
    ensures var s := System(w, now, map[], []);
            Guarded(s) && Idempotent(w, now, Holder(s)) && Serial(w, s)
  {
    NobodyInside(System(w, now, map[], []));
  }
}
