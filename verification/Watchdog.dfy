/**
 Heartbeats and their watchdog: a consumer renews a key with a time to live, the watchdog
 alerts when the key is gone, at most once per threshold, and reports the recovery.
 */
module Heartbeats {
  import opened Prelude
  import opened RedisStore

  datatype Service = Collector | Strategy | ExecutorService

  const SERVICES := [Collector, Strategy, ExecutorService]

  function Threshold(s: Service): real {
    match s
    case Collector => 120.0
    case Strategy => 180.0
    case ExecutorService => 300.0
  }

  datatype Notice = Alert(service: Service, at: real) | Recovery(service: Service, at: real, elapsed: real)

  /** The watchdog's memory: time of the last alert per service, 0 after a recovery. */
  type Memory = map<Service, real>

  function LastAlert(m: Memory, s: Service): real {
    if s in m then m[s] else 0.0
  }

  /** One service in one check; `alive` tells whether its heartbeat key exists. */
  function CheckService(m: Memory, s: Service, alive: bool, now: real): (Memory, seq<Notice>) {
    if !alive then
      if now - LastAlert(m, s) >= Threshold(s) then (m[s := now], [Alert(s, now)]) else (m, [])
    else if LastAlert(m, s) > 0.0 then (m[s := 0.0], [Recovery(s, now, now - m[s])])
    else (m, [])
  }

  /** One pass over the services; `alive` is the set of services with a heartbeat. */
  function CheckAll(m: Memory, services: seq<Service>, alive: set<Service>, now: real): (Memory, seq<Notice>) {
    if services == [] then (m, []) else
      var n := |services| - 1;
      var (m1, out) := CheckAll(m, services[..n], alive, now);
      var (m2, more) := CheckService(m1, services[n], services[n] in alive, now);
      (m2, out + more)
  }

  class Watchdog {
    var lastAlert: Memory

    constructor ()
      ensures lastAlert == map[]
    {
      lastAlert := map[];
    }

    method CheckOnce(alive: set<Service>, now: real) returns (notices: seq<Notice>)
      modifies this
      ensures (lastAlert, notices) == CheckAll(old(lastAlert), SERVICES, alive, now)
      ensures forall s :: Notified(notices, s) ==> s in SERVICES
    {
      notices := [];
      var i := 0;
      while i < |SERVICES|
        invariant 0 <= i <= |SERVICES|
        invariant (lastAlert, notices) == CheckAll(old(lastAlert), SERVICES[..i], alive, now)
        invariant forall s :: Notified(notices, s) ==> s in SERVICES
      {
        assert SERVICES[..i+1][..i] == SERVICES[..i];
        var service := SERVICES[i];
        if service !in alive {
          if now - LastAlert(lastAlert, service) >= Threshold(service) {
            notices := notices + [Alert(service, now)];
            lastAlert := lastAlert[service := now];
          } else {
            notices := notices + [];
          }
        } else if service in lastAlert && lastAlert[service] > 0.0 {
          notices := notices + [Recovery(service, now, now - lastAlert[service])];
          lastAlert := lastAlert[service := 0.0];
        } else {
          notices := notices + [];
        }
        i := i + 1;
      }
      assert SERVICES[..i] == SERVICES;
    }

    /** The endless loop, for so many rounds. */
    method Watch(passes: seq<Pass>) returns (notices: seq<Notice>)
      modifies this
      ensures (lastAlert, notices) == Passes(old(lastAlert), SERVICES, passes)
    {
      notices := [];
      var i := 0;
      while i < |passes|
        invariant 0 <= i <= |passes|
        invariant (lastAlert, notices) == Passes(old(lastAlert), SERVICES, passes[..i])
      {
        assert passes[..i+1][..i] == passes[..i];
        var more := CheckOnce(passes[i].alive, passes[i].now);
        notices := notices + more;
        i := i + 1;
      }
      assert passes[..i] == passes;
    }
  }

  ghost predicate Notified(notices: seq<Notice>, s: Service) {
    exists k :: 0 <= k < |notices| && notices[k].service == s
  }

  // ---------------------------------------------------------------------------
  // Runs of checks for one service
  // ---------------------------------------------------------------------------

  /** One look at one service. */
  datatype Look = Look(alive: bool, now: real)

  function Looks(m: Memory, s: Service, looks: seq<Look>): (Memory, seq<Notice>) {
    if looks == [] then (m, []) else
      var n := |looks| - 1;
      var (m1, out) := Looks(m, s, looks[..n]);
      var (m2, more) := CheckService(m1, s, looks[n].alive, looks[n].now);
      (m2, out + more)
  }

  /** The notices about one service. */
  function About(notices: seq<Notice>, s: Service): seq<Notice> {
    if notices == [] then [] else
      var n := |notices| - 1;
      About(notices[..n], s) + (if notices[n].service == s then [notices[n]] else [])
  }

  lemma {:induction false} AboutConcat(a: seq<Notice>, b: seq<Notice>, s: Service)
    ensures About(a + b, s) == About(a, s) + About(b, s)
    decreases |b|
  {
    if b == [] {
      assert a + b == a;
    } else {
      var n := |b| - 1;
      assert (a + b)[..|a + b| - 1] == a + b[..n];
      AboutConcat(a, b[..n], s);
    }
  }

  /** A look at one service neither touches nor mentions another one. */
  lemma OtherServiceUntouched(m: Memory, t: Service, s: Service, alive: bool, now: real)
    requires t != s
    ensures LastAlert(CheckService(m, t, alive, now).0, s) == LastAlert(m, s)
    ensures |CheckService(m, t, alive, now).1| <= 1 && About(CheckService(m, t, alive, now).1, s) == []
  {
  }

  /** A look at a service depends only on that service's last alert. */
  lemma OwnAlertDecides(m1: Memory, m: Memory, s: Service, alive: bool, now: real)
    requires LastAlert(m1, s) == LastAlert(m, s)
    ensures var (after1, out1) := CheckService(m1, s, alive, now);
            var (after, out) := CheckService(m, s, alive, now);
            LastAlert(after1, s) == LastAlert(after, s) && out1 == out == About(out, s) && |out| <= 1
  {
    var out := CheckService(m, s, alive, now).1;
    if out != [] {
      assert out == [out[0]] && out[..0] == [];
    }
  }

  lemma OnlyInInit(services: seq<Service>, s: Service)
    requires services != [] && s != services[|services|-1]
    ensures s in services <==> s in services[..|services|-1]
  {
    assert services == services[..|services|-1] + [services[|services|-1]];
  }

  /** The watchdog looks at each service separately: a whole check changes a service's
      memory, and says about it, exactly what a look at it alone would. */
  lemma {:induction false} ServicesAreIndependent(
    m: Memory, services: seq<Service>, alive: set<Service>, now: real, s: Service)
    requires Distinct(services)
    ensures var (m', out) := CheckAll(m, services, alive, now);
            LastAlert(m', s) ==
              (if s in services then LastAlert(CheckService(m, s, s in alive, now).0, s) else LastAlert(m, s)) &&
            About(out, s) == (if s in services then CheckService(m, s, s in alive, now).1 else [])
    decreases |services|
  {
    if services == [] {
    } else {
      var n := |services| - 1;
      var t := services[n];
      ServicesAreIndependent(m, services[..n], alive, now, s);
      var (m1, out) := CheckAll(m, services[..n], alive, now);
      if t == s {
        OwnAlertDecides(m1, m, s, t in alive, now);
      } else {
        OtherServiceUntouched(m1, t, s, t in alive, now);
        OnlyInInit(services, s);
      }
      AboutConcat(out, CheckService(m1, t, t in alive, now).1, s);
    }
  }

  // ---------------------------------------------------------------------------
  // Runs of whole passes
  // ---------------------------------------------------------------------------

  /** One pass over all services: those with a heartbeat, and the clock. */
  datatype Pass = Pass(alive: set<Service>, now: real)

  function Passes(m: Memory, services: seq<Service>, passes: seq<Pass>): (Memory, seq<Notice>) {
    if passes == [] then (m, []) else
      var n := |passes| - 1;
      var (m1, out) := Passes(m, services, passes[..n]);
      var (m2, more) := CheckAll(m1, services, passes[n].alive, passes[n].now);
      (m2, out + more)
  }

  /** What the passes see of one service. */
  function LooksOf(passes: seq<Pass>, s: Service): (r: seq<Look>)
    ensures |r| == |passes|
    ensures forall i :: 0 <= i < |passes| ==> r[i] == Look(s in passes[i].alive, passes[i].now)
  {
    seq(|passes|, i requires 0 <= i < |passes| => Look(s in passes[i].alive, passes[i].now))
  }

  predicate Distinct(services: seq<Service>) {
    forall i, j :: 0 <= i < j < |services| ==> services[i] != services[j]
  }

  /** A run of passes says about a service, and remembers of it, what looks at it alone do. */
  lemma {:induction false} PassesAreLooks(m: Memory, services: seq<Service>, passes: seq<Pass>, s: Service)
    requires Distinct(services) && s in services
    ensures LastAlert(Passes(m, services, passes).0, s) == LastAlert(Looks(m, s, LooksOf(passes, s)).0, s)
    ensures About(Passes(m, services, passes).1, s) == Looks(m, s, LooksOf(passes, s)).1
    decreases |passes|
  {
    if passes == [] {
    } else {
      var n := |passes| - 1;
      var p := passes[n];
      var (m1, out) := Passes(m, services, passes[..n]);
      var alone := Looks(m, s, LooksOf(passes[..n], s)).0;
      assert LooksOf(passes, s)[..n] == LooksOf(passes[..n], s);
      PassesAreLooks(m, services, passes[..n], s);
      ServicesAreIndependent(m1, services, p.alive, p.now, s);
      OwnAlertDecides(m1, alone, s, s in p.alive, p.now);
      AboutConcat(out, CheckAll(m1, services, p.alive, p.now).1, s);
    }
  }

  lemma EveryServiceIsChecked(s: Service)
    ensures s in SERVICES && Distinct(SERVICES)
  {
    assert SERVICES[0] == Collector && SERVICES[1] == Strategy && SERVICES[2] == ExecutorService;
  }

  /** Notices about one service in the order they are sent: after an alert comes either the
      next alert, at least a threshold later, or the recovery that answers it; a recovery
      is only sent in answer to an alert that no earlier recovery answered. */
  ghost predicate WellPaced(s: Service, notices: seq<Notice>) {
    (notices != [] ==> notices[0].Alert?) &&
    forall k :: 0 < k < |notices| ==>
      (notices[k].Alert? && notices[k-1].Alert? ==> notices[k].at - notices[k-1].at >= Threshold(s)) &&
      (notices[k].Recovery? ==> notices[k-1].Alert? && notices[k].elapsed == notices[k].at - notices[k-1].at)
  }

  /** The memory after a list of notices. */
  function MemoryOf(notices: seq<Notice>): real {
    if notices == [] || notices[|notices|-1].Recovery? then 0.0 else notices[|notices|-1].at
  }

  lemma LookKeepsPace(s: Service, m: Memory, out: seq<Notice>, look: Look)
    requires WellPaced(s, out) && LastAlert(m, s) == MemoryOf(out)
    ensures var (m', more) := CheckService(m, s, look.alive, look.now);
            WellPaced(s, out + more) && LastAlert(m', s) == MemoryOf(out + more)
  {
    var (m', more) := CheckService(m, s, look.alive, look.now);
    if more == [] {
      assert out + more == out;
    } else {
      var all := out + more;
      assert |more| == 1 && all[|all|-1] == more[0];
      assert forall k :: 0 <= k < |out| ==> all[k] == out[k];
    }
  }

  lemma {:induction false} LooksArePaced(s: Service, looks: seq<Look>)
    ensures var (m, out) := Looks(map[], s, looks);
            WellPaced(s, out) && LastAlert(m, s) == MemoryOf(out)
    decreases |looks|
  {
    if looks == [] {
    } else {
      var n := |looks| - 1;
      LooksArePaced(s, looks[..n]);
      var (m, out) := Looks(map[], s, looks[..n]);
      LookKeepsPace(s, m, out, looks[n]);
    }
  }

  /** Over every run of passes, whatever the heartbeats and the clock do, and for every
      service, alerts within one outage are at least the threshold apart and every recovery
      answers an alert. */
  lemma AlertsArePaced(passes: seq<Pass>, s: Service)
    ensures WellPaced(s, About(Passes(map[], SERVICES, passes).1, s))
  {
    EveryServiceIsChecked(s);
    PassesAreLooks(map[], SERVICES, passes, s);
    LooksArePaced(s, LooksOf(passes, s));
  }

  /** The last alert that no recovery has answered; 0 when there is none. */
  function Unanswered(notices: seq<Notice>): real {
    if notices == [] then 0.0 else
    match notices[|notices|-1]
    case Alert(_, at) => at
    case Recovery(_, _, _) => 0.0
  }

  /** What the next look sends after these notices. */
  function Sent(before: seq<Notice>, look: Look, s: Service): seq<Notice> {
    var since := look.now - Unanswered(before);
    if !look.alive then
      if since >= (if s.Collector? then 120.0 else if s.Strategy? then 180.0 else 300.0)
      then [Alert(s, look.now)] else []
    else if Unanswered(before) > 0.0 then [Recovery(s, look.now, since)] else []
  }

  lemma {:induction false} NextLook(looks: seq<Look>, look: Look, s: Service)
    ensures var before := Looks(map[], s, looks).1;
            Looks(map[], s, looks + [look]).1 == before + Sent(before, look, s)
  {
    LooksArePaced(s, looks);
    assert (looks + [look])[..|looks|] == looks;
  }

  /** What one more pass sends about a service, after every run of passes. A missing key is
      alerted exactly when the service's threshold (two, three and five minutes) has passed
      since the last unanswered alert; a key that is there is reported exactly when an alert
      is unanswered. */
  lemma {:induction false} NextNotice(passes: seq<Pass>, p: Pass, s: Service)
    ensures var before := About(Passes(map[], SERVICES, passes).1, s);
            About(Passes(map[], SERVICES, passes + [p]).1, s) == before + Sent(before, Look(s in p.alive, p.now), s)
  {
    EveryServiceIsChecked(s);
    PassesAreLooks(map[], SERVICES, passes, s);
    PassesAreLooks(map[], SERVICES, passes + [p], s);
    var looks := LooksOf(passes, s);
    assert LooksOf(passes + [p], s) == looks + [Look(s in p.alive, p.now)];
    NextLook(looks, Look(s in p.alive, p.now), s);
  }

  // ---------------------------------------------------------------------------
  // A healthy consumer
  // ---------------------------------------------------------------------------

  /** A consumer iteration reads the clock once and beats when the last beat is an interval
      old; the beat itself is written a little later. A check is a pass of the watchdog, which
      finds the keys of some other services, too. */
  datatype Moment = Iteration(now: real, written: real) | Check(now: real, others: set<Service>)

  /** `lastBeat` is the reading of the iteration that last beat (0 before the first beat),
      `lastIteration` the reading of the latest iteration. */
  datatype Consumer = Consumer(store: Store, beaten: bool, lastBeat: real, lastIteration: real)

  const BEAT_INTERVAL := 60.0

  function HeartbeatKey(s: Service): string {
    match s
    case Collector => "hb:collector"
    case Strategy => "hb:strategy"
    case ExecutorService => "hb:executor"
  }

  function After(c: Consumer, s: Service, ttl: real, e: Moment): Consumer {
    match e
    case Iteration(now, written) =>
      if now - c.lastBeat >= BEAT_INTERVAL
      then Consumer(Apply(c.store, Set(HeartbeatKey(s), "beat", Some(ttl)), written).0, true, now, now)
      else c.(lastIteration := now)
    case Check(now, _) => c.(store := Apply(c.store, Get(HeartbeatKey(s)), now).0)
  }

  function AfterAll(c: Consumer, s: Service, ttl: real, es: seq<Moment>): Consumer {
    if es == [] then c else After(AfterAll(c, s, ttl, es[..|es|-1]), s, ttl, es[|es|-1])
  }

  /** Iterations take at most d: from the reading of one iteration to the end of the next
      one's beat, and to any check in between. */
  ghost predicate Prompt(c: Consumer, d: real, e: Moment) {
    match e
    case Iteration(now, written) => c.lastIteration <= now <= written <= c.lastIteration + d
    case Check(now, _) => c.lastIteration <= now <= c.lastIteration + d
  }

  ghost predicate PromptRun(c: Consumer, s: Service, ttl: real, d: real, es: seq<Moment>) {
    forall i :: 0 <= i < |es| ==> Prompt(AfterAll(c, s, ttl, es[..i]), d, es[i])
  }

  /** After the first beat the key's deadline lies a whole iteration ahead of the point at
      which the next beat is due. */
  ghost predicate Fresh(c: Consumer, s: Service, ttl: real) {
    c.beaten ==>
      LiveUntil(c.store, HeartbeatKey(s), c.lastBeat + ttl) &&
      c.lastIteration - c.lastBeat < BEAT_INTERVAL
  }

  lemma MomentKeepsFresh(c: Consumer, s: Service, ttl: real, d: real, e: Moment)
    requires Fresh(c, s, ttl) && Prompt(c, d, e) && BEAT_INTERVAL + d <= ttl && ttl > 0.0
    ensures Fresh(After(c, s, ttl, e), s, ttl)
    ensures c.beaten ==> After(c, s, ttl, e).beaten
  {
  }

  /** If every iteration takes at most d and interval + d fits into the time to live, the
      heartbeat key never expires after the first beat: every later check finds it, so
      the watchdog is never told that the service is gone. */
  lemma {:induction false} HealthyConsumerStaysAlive(c: Consumer, s: Service, ttl: real, d: real, es: seq<Moment>)
    requires Fresh(c, s, ttl) && BEAT_INTERVAL + d <= ttl && ttl > 0.0
    requires PromptRun(c, s, ttl, d, es)
    ensures Fresh(AfterAll(c, s, ttl, es), s, ttl)
    ensures forall i :: 0 <= i < |es| && es[i].Check? && AfterAll(c, s, ttl, es[..i]).beaten ==>
              HeartbeatKey(s) in Sweep(AfterAll(c, s, ttl, es[..i]).store, es[i].now)
    decreases |es|
  {
    if es == [] {
    } else {
      var n := |es| - 1;
      var init := es[..n];
      assert forall i :: 0 <= i <= n ==> init[..i] == es[..i];
      HealthyConsumerStaysAlive(c, s, ttl, d, init);
      MomentKeepsFresh(AfterAll(c, s, ttl, init), s, ttl, d, es[n]);
      forall i | 0 <= i < |es| && es[i].Check? && AfterAll(c, s, ttl, es[..i]).beaten
        ensures HeartbeatKey(s) in Sweep(AfterAll(c, s, ttl, es[..i]).store, es[i].now)
      {
        if i == n {
          assert Prompt(AfterAll(c, s, ttl, es[..n]), d, es[n]);
        } else {
          assert init[i] == es[i];
        }
      }
    }
  }

  /** The watchdog's passes after the first beat. */
  function PassesSeen(c: Consumer, s: Service, ttl: real, es: seq<Moment>): seq<Pass> {
    if es == [] then [] else
      var n := |es| - 1;
      var before := AfterAll(c, s, ttl, es[..n]);
      PassesSeen(c, s, ttl, es[..n]) +
      (if es[n].Check? && before.beaten then [PassAt(before, s, es[n])] else [])
  }

  function PassAt(c: Consumer, s: Service, e: Moment): Pass
    requires e.Check?
  {
    Pass(if HeartbeatKey(s) in Sweep(c.store, e.now) then e.others + {s} else e.others - {s}, e.now)
  }

  /** What a check after the first beat adds to them: a pass at its time that finds this service
      exactly when the key is live then, and of the others those it is told. */
  lemma {:induction false} NextPassSeen(
    c: Consumer, s: Service, ttl: real, es: seq<Moment>, now: real, others: set<Service>)
    ensures var at := AfterAll(c, s, ttl, es);
            var seen := PassesSeen(c, s, ttl, es + [Check(now, others)]);
            if !at.beaten then seen == PassesSeen(c, s, ttl, es)
            else |seen| == |PassesSeen(c, s, ttl, es)| + 1 && PassesSeen(c, s, ttl, es) <= seen &&
                 seen[|seen|-1].now == now && (seen[|seen|-1].alive - {s}) == others - {s} &&
                 (s in seen[|seen|-1].alive <==> Apply(at.store, Get(HeartbeatKey(s)), now).1 != Value(None))
  {
    assert (es + [Check(now, others)])[..|es|] == es;
  }

  lemma {:induction false} PassesFindKey(c: Consumer, s: Service, ttl: real, es: seq<Moment>)
    requires forall i :: 0 <= i < |es| && es[i].Check? && AfterAll(c, s, ttl, es[..i]).beaten ==>
               HeartbeatKey(s) in Sweep(AfterAll(c, s, ttl, es[..i]).store, es[i].now)
    ensures forall k :: 0 <= k < |PassesSeen(c, s, ttl, es)| ==> s in PassesSeen(c, s, ttl, es)[k].alive
    decreases |es|
  {
    if es == [] {
    } else {
      var init := es[..|es|-1];
      assert forall i :: 0 <= i <= |init| ==> init[..i] == es[..i];
      PassesFindKey(c, s, ttl, init);
    }
  }

  lemma {:induction false} AliveMeansNoAlert(m: Memory, s: Service, looks: seq<Look>)
    requires forall k :: 0 <= k < |looks| ==> looks[k].alive
    ensures forall k :: 0 <= k < |Looks(m, s, looks).1| ==> !Looks(m, s, looks).1[k].Alert?
    decreases |looks|
  {
    if looks == [] {
    } else {
      AliveMeansNoAlert(m, s, looks[..|looks|-1]);
    }
  }

  /** Consumer and watchdog together: a consumer whose iterations are prompt never causes
      an alert after its first beat, however the watchdog's passes fall and whatever they find
      of the other services. */
  lemma HealthyConsumerIsNeverReported(c: Consumer, m: Memory, s: Service, ttl: real, d: real, es: seq<Moment>)
    requires Fresh(c, s, ttl) && BEAT_INTERVAL + d <= ttl && ttl > 0.0
    requires PromptRun(c, s, ttl, d, es)
    ensures var notices := About(Passes(m, SERVICES, PassesSeen(c, s, ttl, es)).1, s);
            forall k :: 0 <= k < |notices| ==> !notices[k].Alert?
  {
    var passes := PassesSeen(c, s, ttl, es);
    HealthyConsumerStaysAlive(c, s, ttl, d, es);
    PassesFindKey(c, s, ttl, es);
    EveryServiceIsChecked(s);
    PassesAreLooks(m, SERVICES, passes, s);
    AliveMeansNoAlert(m, s, LooksOf(passes, s));
  }

  // ---------------------------------------------------------------------------
  // The bound is exact
  // ---------------------------------------------------------------------------

  /** A consumer at its first iteration, an interval after the clock's origin. */
  const AT_START := Consumer(map[], false, 0.0, BEAT_INTERVAL)

  /** The consumer after its first beat, at a later iteration that is not due for the next. */
  function Waiting(s: Service, ttl: real, at: real): Consumer {
    Consumer(map[HeartbeatKey(s) := Entry("beat", Some(BEAT_INTERVAL + ttl))], true, BEAT_INTERVAL, at)
  }

  /** A prompt run from the start up to an iteration at the given time. */
  ghost predicate WaitsUntil(es: seq<Moment>, s: Service, ttl: real, d: real, at: real) {
    PromptRun(AT_START, s, ttl, d, es) && AfterAll(AT_START, s, ttl, es) == Waiting(s, ttl, at)
  }

  lemma OneMoreMoment(es: seq<Moment>, s: Service, ttl: real, d: real, e: Moment)
    requires PromptRun(AT_START, s, ttl, d, es) && Prompt(AfterAll(AT_START, s, ttl, es), d, e)
    ensures PromptRun(AT_START, s, ttl, d, es + [e])
    ensures AfterAll(AT_START, s, ttl, es + [e]) == After(AfterAll(AT_START, s, ttl, es), s, ttl, e)
  {
    assert (es + [e])[..|es|] == es;
    forall i | 0 <= i < |es + [e]| ensures Prompt(AfterAll(AT_START, s, ttl, (es + [e])[..i]), d, (es + [e])[i]) {
      assert i < |es| ==> (es + [e])[..i] == es[..i];
    }
  }

  lemma FirstBeat(s: Service, ttl: real, d: real) returns (es: seq<Moment>)
    requires ttl > 0.0 && d > 0.0
    ensures WaitsUntil(es, s, ttl, d, BEAT_INTERVAL)
  {
    es := [] + [Iteration(BEAT_INTERVAL, BEAT_INTERVAL)];
    OneMoreMoment([], s, ttl, d, Iteration(BEAT_INTERVAL, BEAT_INTERVAL));
  }

  /** Prompt iterations reach any time before the next beat is due. */
  lemma {:induction false} IterateUntil(s: Service, ttl: real, d: real, at: real, steps: nat) returns (es: seq<Moment>)
    requires ttl > 0.0 && d > 0.0 && BEAT_INTERVAL <= at < 2.0 * BEAT_INTERVAL
    requires at <= BEAT_INTERVAL + Span(steps, d)
    ensures WaitsUntil(es, s, ttl, d, at)
    decreases steps
  {
    if steps == 0 {
      es := FirstBeat(s, ttl, d);
    } else {
      var before := Max(BEAT_INTERVAL, at - d);
      es := IterateUntil(s, ttl, d, before, steps - 1);
      OneMoreMoment(es, s, ttl, d, Iteration(at, at));
      es := es + [Iteration(at, at)];
    }
  }

  /** The time that so many iterations of length d take. */
  function Span(steps: nat, d: real): (r: real)
    ensures d >= 0.0 ==> r >= 0.0
  {
    if steps == 0 then 0.0 else Span(steps - 1, d) + d
  }

  lemma {:induction false} SpanIsProduct(steps: nat, d: real)
    ensures Span(steps, d) == steps as real * d
    decreases steps
  {
    if steps == 0 {
    } else {
      SpanIsProduct(steps - 1, d);
    }
  }

  lemma EnoughSteps(d: real) returns (steps: nat)
    requires d > 0.0
    ensures Span(steps, d) >= BEAT_INTERVAL
  {
    var q := BEAT_INTERVAL / d;
    PositiveQuotient(BEAT_INTERVAL, d);
    steps := q.Floor + 1;
    SpanIsProduct(steps, d);
    assert q * d == BEAT_INTERVAL;
    assert (steps as real - q) * d >= 0.0;
  }

  /** As soon as interval plus d exceeds the time to live, however small d is, a prompt run
      exists in which a pass misses the key of a consumer that is alive. */
  lemma TightInterval(s: Service, ttl: real, d: real) returns (es: seq<Moment>, pass: Moment)
    requires 0.0 < ttl < BEAT_INTERVAL + d && d > 0.0
    ensures pass.Check? && PromptRun(AT_START, s, ttl, d, es + [pass])
    ensures AfterAll(AT_START, s, ttl, es).beaten
    ensures HeartbeatKey(s) !in Sweep(AfterAll(AT_START, s, ttl, es).store, pass.now)
  {
    var wait := if ttl < d then 0.0 else (ttl - d + BEAT_INTERVAL) / 2.0;
    var steps := EnoughSteps(d);
    es := IterateUntil(s, ttl, d, BEAT_INTERVAL + wait, steps);
    pass := Check(BEAT_INTERVAL + wait + d, {});
    OneMoreMoment(es, s, ttl, d, pass);
  }

  /** No pass of any prompt run misses the key after the first beat. */
  ghost predicate NeverMissed(s: Service, ttl: real, d: real) {
    forall es, pass: Moment ::
      pass.Check? && PromptRun(AT_START, s, ttl, d, es + [pass]) && AfterAll(AT_START, s, ttl, es).beaten ==>
        HeartbeatKey(s) in Sweep(AfterAll(AT_START, s, ttl, es).store, pass.now)
  }

  /** A consumer with prompt iterations is never missed if and only if beat interval plus
      iteration bound fit into the time to live. */
  lemma NeverMissedIff(s: Service, ttl: real, d: real)
    requires ttl > 0.0 && d > 0.0
    ensures NeverMissed(s, ttl, d) <==> BEAT_INTERVAL + d <= ttl
  {
    if BEAT_INTERVAL + d <= ttl {
      forall es, pass: Moment |
        pass.Check? && PromptRun(AT_START, s, ttl, d, es + [pass]) && AfterAll(AT_START, s, ttl, es).beaten
        ensures HeartbeatKey(s) in Sweep(AfterAll(AT_START, s, ttl, es).store, pass.now)
      {
        HealthyConsumerStaysAlive(AT_START, s, ttl, d, es + [pass]);
        assert (es + [pass])[..|es|] == es && (es + [pass])[|es|] == pass;
      }
    } else {
      var es, pass := TightInterval(s, ttl, d);
    }
  }
}
