/**
 Whole runs of calls made through the breaker. A run starts calls and lets their
 timers and promises fire in any order and any number of times; each call
 settles once. The state carries what an observer would write down, and the
 lemmas hold in every reachable state.
 */
module GuardedCalls {
  import opened EventRing
  import opened RollingWindow
  import opened Breaker

  /** What can happen to an admitted call: its timer fires, or its promise settles. */
  datatype Signal = TimerFires | Resolves | Rejects(looksLikeTimeout: bool)

  function OutcomeOf(g: Signal): Outcome {
    match g
    case TimerFires => Timeout
    case Resolves => Success
    case Rejects(looksLikeTimeout) => if looksLikeTimeout then Timeout else RedisError
  }

  datatype Step =
    | Start(now: nat, jitter: int)
    | Fire(call: nat, signal: Signal, latency: nat, now: nat, jitter: int)

  /**
   What an observer writes down: the settled flag of each admitted call, how many
   acquires there were, the calls in release order, the release log, and the
   admissions and releases of the latest HALF_OPEN episode.
   */
  datatype Notes = Notes(
    settled: seq<bool>,
    acquires: nat,
    released: seq<nat>,
    log: seq<Event>,
    admits: nat,
    episode: seq<Outcome>)

  datatype Sys<!S> = Sys(m: Machine<S>, clock: nat, notes: Notes)

  function Init(c: Config): Sys<Stats> {
    Sys(Initial(c), 0, Notes([], 0, [], [], 0, []))
  }

  predicate Runnable<S>(m: Machine<S>) {
    InRange(m.core.config) && |m.ring| > 0
  }

  /** The clock does not run backwards and the jitter is one the breaker can draw. */
  predicate Allowed<S>(s: Sys<S>, step: Step) {
    s.clock <= step.now && JitterOk(s.m.core.config, step.jitter)
  }

  /** A call that has not settled; a signal of any other call changes nothing. */
  predicate IsPending(o: Notes, i: nat) {
    i < |o.settled| && !o.settled[i]
  }

  function NoteStart(o: Notes, before: Core, after: Core, v: Verdict): Notes {
    var one := if v == Admitted then 1 else 0;
    var newEpisode := before.state == Open && after.state == HalfOpen;
    Notes(if v == Admitted then o.settled + [false] else o.settled,
          o.acquires + 1, o.released, o.log,
          if newEpisode then one else o.admits + one,
          if newEpisode then [] else o.episode)
  }

  function NoteRelease(o: Notes, before: Core, i: nat, e: Event): Notes
    requires IsPending(o, i)
  {
    Notes(o.settled[i := true], o.acquires, o.released + [i], o.log + [e], o.admits,
          if before.state == HalfOpen then o.episode + [e.outcome] else o.episode)
  }

  function Next<S>(s: Sys<S>, step: Step): (r: Sys<S>)
    requires Runnable(s.m)
    ensures Runnable(r.m) && r.m.core.config == s.m.core.config && r.m.detect == s.m.detect && r.clock == step.now
  {
    match step
    case Start(now, jitter) =>
      var (core, v) := Acquire(s.m.core, now, jitter);
      Sys(s.m.(core := core), now, NoteStart(s.notes, s.m.core, core, v))
    case Fire(i, signal, latency, now, jitter) =>
      if !IsPending(s.notes, i) then s.(clock := now)
      else
        Sys(Release(s.m, OutcomeOf(signal), latency, now, jitter), now,
            NoteRelease(s.notes, s.m.core, i, Event(now / 1000, OutcomeOf(signal), latency)))
  }

  /** A run never changes the configuration or the detector. */
  function Exec<S>(s: Sys<S>, steps: seq<Step>): (r: Sys<S>)
    requires Runnable(s.m)
    ensures Runnable(r.m) && r.m.core.config == s.m.core.config && r.m.detect == s.m.detect
    decreases steps
  {
    if steps == [] then s else Exec(Next(s, steps[0]), steps[1..])
  }

  predicate Legal<S>(s: Sys<S>, steps: seq<Step>)
    requires Runnable(s.m)
    decreases steps
  {
    steps == [] || (Allowed(s, steps[0]) && Legal(Next(s, steps[0]), steps[1..]))
  }

  // ---- What holds in every reachable state ----

  function Pending(settled: seq<bool>): nat {
    if settled == [] then 0
    else Pending(settled[..|settled| - 1]) + (if settled[|settled| - 1] then 0 else 1)
  }

  function Max(a: int, b: int): int {
    if a > b then a else b
  }

  /** Conservation: nothing acquired is lost or counted twice. */
  predicate Accounts(m: Core, o: Notes) {
    && m.inflight == Pending(o.settled)
    && o.acquires == m.totals.rejected + m.totals.requests + m.inflight
    && m.totals.requests == m.totals.success + m.totals.errors + m.totals.timeouts
    && m.totals.requests == |o.released| == |o.log|
    && 0 <= m.inflight <= Max(m.config.maxInflight, m.config.halfOpenProbes)
  }

  /** Each admitted call is released at most once, and exactly when it has settled. */
  ghost predicate ReleasedOnce(o: Notes) {
    && (forall a, b | 0 <= a < b < |o.released| :: o.released[a] != o.released[b])
    && (forall i: nat :: i in o.released <==> i < |o.settled| && o.settled[i])
  }

  /** The ring is the replay of the release log, which is in clock order. */
  ghost predicate RingIsLog<S>(t: Tally<S>, n: int, ring: seq<Bucket<S>>, log: seq<Event>, clock: nat) {
    && 0 < n
    && ring == Replay(t, n, log)
    && Ordered(log)
    && UpTo(log, clock / 1000)
  }

  /** Failures at the end of the log, back to the last success. */
  function TrailingFailures(log: seq<Event>): nat {
    if log == [] || log[|log| - 1].outcome.Success? then 0
    else TrailingFailures(log[..|log| - 1]) + 1
  }

  function TrailingTimeouts(log: seq<Event>): nat {
    if log == [] || log[|log| - 1].outcome.Success? then 0
    else TrailingTimeouts(log[..|log| - 1]) + (if log[|log| - 1].outcome.Timeout? then 1 else 0)
  }

  /** The fast detector: while CLOSED, the trailing failures and timeouts are below their thresholds. */
  predicate FastDetector(m: Core, log: seq<Event>) {
    && m.consecutiveFail == TrailingFailures(log)
    && m.consecutiveTimeout == TrailingTimeouts(log)
    && (m.state == Closed ==>
        && TrailingFailures(log) < m.config.consecutiveFailOpen
        && TrailingTimeouts(log) < m.config.consecutiveTimeoutOpen)
  }

  predicate AllSuccess(outcomes: seq<Outcome>) {
    forall i | 0 <= i < |outcomes| :: outcomes[i] == Success
  }

  /** While HALF_OPEN: within the probe budget, and nothing but successes so far. */
  predicate Probing(m: Core, o: Notes) {
    m.state == HalfOpen ==>
      && o.admits == m.probesDispatched <= m.config.halfOpenProbes
      && |o.episode| == m.halfOpenSuccesses
      && AllSuccess(o.episode)
  }

  predicate Timed(m: Core, clock: nat) {
    && (m.state == Open ==>
        && m.openedAtMs <= clock
        && m.config.openCooldownMs <= m.cooldownMs <= m.config.openCooldownMs + m.config.cooldownJitterMs)
    && (m.state == HalfOpen ==> m.halfOpenStartedAtMs <= clock)
  }

  /** The counters are the counts of the release log. */
  predicate Tallied(t: Totals, log: seq<Event>) {
    && t.success == CountIf(log, HasOutcome(Success))
    && t.errors == CountIf(log, HasOutcome(RedisError))
    && t.timeouts == CountIf(log, HasOutcome(Timeout))
  }

  /** Every trip but one that is still open has been followed by a HALF_OPEN episode. */
  predicate Episodes(m: Core) {
    m.totals.trips == m.totals.halfOpens + if m.state == Open then 1 else 0
  }

  ghost predicate Good<S>(s: Sys<S>) {
    && Runnable(s.m)
    && Accounts(s.m.core, s.notes)
    && Tallied(s.m.core.totals, s.notes.log)
    && Episodes(s.m.core)
    && ReleasedOnce(s.notes)
    && RingIsLog(s.m.detect.tally, s.m.core.config.windowSecs, s.m.ring, s.notes.log, s.clock)
    && FastDetector(s.m.core, s.notes.log)
    && Probing(s.m.core, s.notes)
    && Timed(s.m.core, s.clock)
  }

  lemma InitGood(c: Config)
    ensures Good(Init(c))
  {
  }

  // ---- One acquire ----

  lemma AdmitOne(settled: seq<bool>)
    ensures Pending(settled + [false]) == Pending(settled) + 1
  {
    assert (settled + [false])[..|settled|] == settled;
  }

  /** An acquire takes one slot or counts one rejection, and never exceeds the larger limit. */
  lemma AcquireTotals(m: Core, now: nat, jitter: int)
    ensures var (r, v) := Acquire(m, now, jitter);
            && r.config == m.config
            && r.inflight == m.inflight + (if v == Admitted then 1 else 0)
            && r.totals.rejected == m.totals.rejected + (if v == Admitted then 0 else 1)
            && r.totals.requests == m.totals.requests
            && r.totals.success == m.totals.success
            && r.totals.errors == m.totals.errors
            && r.totals.timeouts == m.totals.timeouts
            && (v == Admitted ==> m.inflight < Max(m.config.maxInflight, m.config.halfOpenProbes))
  {
  }

  lemma AcquireAccounts(m: Core, o: Notes, now: nat, jitter: int)
    requires Accounts(m, o)
    ensures var (r, v) := Acquire(m, now, jitter); Accounts(r, NoteStart(o, m, r, v))
  {
    AcquireTotals(m, now, jitter);
    AdmitOne(o.settled);
  }

  lemma AcquireOnce(m: Core, o: Notes, now: nat, jitter: int)
    requires ReleasedOnce(o)
    ensures var (r, v) := Acquire(m, now, jitter); ReleasedOnce(NoteStart(o, m, r, v))
  {
    assert forall j: nat :: j in o.released ==> j < |o.settled|;
  }

  lemma AcquireFast(m: Core, log: seq<Event>, now: nat, jitter: int)
    requires FastDetector(m, log)
    ensures FastDetector(Acquire(m, now, jitter).0, log)
  {
  }

  lemma AcquireEpisodes(m: Core, now: nat, jitter: int)
    requires Episodes(m)
    ensures Episodes(Acquire(m, now, jitter).0)
  {
  }

  /** Why a call was admitted or turned away. */
  lemma VerdictReasons(m: Core, now: nat, jitter: int)
    ensures var v := Acquire(m, now, jitter).1;
            var cooled := m.state == Open && now >= m.openedAtMs + m.cooldownMs;
            var probing := m.state == HalfOpen && now < m.halfOpenStartedAtMs + m.config.halfOpenMaxMs
                           && m.probesDispatched < m.config.halfOpenProbes;
            var rested := cooled && m.config.halfOpenMaxMs > 0 && m.config.halfOpenProbes > 0;
            && (v == Admitted <==>
                || (m.state == Closed && m.inflight < m.config.maxInflight)
                || ((rested || probing) && m.inflight < m.config.halfOpenProbes))
            && (v == ConcurrencyRejected <==>
                || (m.state == Closed && m.inflight >= m.config.maxInflight)
                || ((rested || probing) && m.inflight >= m.config.halfOpenProbes))
            && (v == CircuitOpen <==> m.state != Closed && !rested && !probing)
  {
  }

  /** A trip starts its cooldown now, for the configured time and the jitter drawn. */
  lemma TripSetsDeadline<S>(s: Sys<S>, step: Step)
    requires Runnable(s.m) && s.m.core.state != Open && Next(s, step).m.core.state == Open
    ensures Next(s, step).m.core.openedAtMs == step.now
    ensures Next(s, step).m.core.cooldownMs == s.m.core.config.openCooldownMs + step.jitter
  {
  }

  /** A call that settles while the circuit is OPEN, however late, neither closes it nor moves its deadline. */
  lemma StragglersIgnored<S>(s: Sys<S>, step: Step)
    requires Runnable(s.m) && s.m.core.state == Open && step.Fire?
    ensures SameOpening(s.m.core, Next(s, step).m.core)
  {
  }

  lemma AcquireProbing(m: Core, o: Notes, now: nat, jitter: int)
    requires InRange(m.config) && Probing(m, o)
    ensures var (r, v) := Acquire(m, now, jitter); Probing(r, NoteStart(o, m, r, v))
  {
  }

  lemma AcquireTimed(m: Core, clock: nat, now: nat, jitter: int)
    requires InRange(m.config) && Timed(m, clock) && clock <= now && JitterOk(m.config, jitter)
    ensures Timed(Acquire(m, now, jitter).0, now)
  {
  }

  lemma LogLater(log: seq<Event>, clock: nat, now: nat)
    requires UpTo(log, clock / 1000) && clock <= now
    ensures UpTo(log, now / 1000)
  {
  }

  lemma AcquireGood<S>(s: Sys<S>, now: nat, jitter: int)
    requires Good(s) && s.clock <= now && JitterOk(s.m.core.config, jitter)
    ensures Good(Next(s, Start(now, jitter)))
  {
    AcquireAccounts(s.m.core, s.notes, now, jitter);
    AcquireOnce(s.m.core, s.notes, now, jitter);
    AcquireTotals(s.m.core, now, jitter);
    AcquireEpisodes(s.m.core, now, jitter);
    AcquireFast(s.m.core, s.notes.log, now, jitter);
    AcquireProbing(s.m.core, s.notes, now, jitter);
    AcquireTimed(s.m.core, s.clock, now, jitter);
    LogLater(s.notes.log, s.clock, now);
  }

  // ---- One release ----

  lemma {:induction false} SettleOne(settled: seq<bool>, i: nat)
    requires i < |settled| && !settled[i]
    ensures Pending(settled) > 0
    ensures Pending(settled[i := true]) == Pending(settled) - 1
  {
    var k := |settled| - 1;
    assert settled[i := true][..k] == if i < k then settled[..k][i := true] else settled[..k];
    if i < k {
      SettleOne(settled[..k], i);
    }
  }

  /** A release frees exactly one slot, so the floor at zero never acts. */
  lemma ReleaseAccounts(m: Core, o: Notes, i: nat, e: Event, now: nat, jitter: int, h: Health)
    requires InRange(m.config) && Accounts(m, o) && IsPending(o, i)
    ensures var r := ReleaseCore(m, e.outcome, now, jitter, h);
            Accounts(r, NoteRelease(o, m, i, e)) && r.inflight == m.inflight - 1
  {
    SettleOne(o.settled, i);
  }

  lemma ReleaseOnce(m: Core, o: Notes, i: nat, e: Event)
    requires ReleasedOnce(o) && IsPending(o, i)
    ensures ReleasedOnce(NoteRelease(o, m, i, e))
  {
    var r := NoteRelease(o, m, i, e);
    assert i !in o.released;
    assert forall j: nat :: j in r.released <==> j in o.released || j == i;
  }

  lemma ReleaseFast(m: Core, log: seq<Event>, e: Event, now: nat, jitter: int, h: Health)
    requires InRange(m.config) && FastDetector(m, log)
    ensures FastDetector(ReleaseCore(m, e.outcome, now, jitter, h), log + [e])
  {
    assert (log + [e])[..|log|] == log;
  }

  lemma ReleaseTallied(m: Core, log: seq<Event>, e: Event, now: nat, jitter: int, h: Health)
    requires Tallied(m.totals, log)
    ensures Tallied(ReleaseCore(m, e.outcome, now, jitter, h).totals, log + [e])
  {
    assert (log + [e])[..|log|] == log;
  }

  lemma ReleaseEpisodes(m: Core, outcome: Outcome, now: nat, jitter: int, h: Health)
    requires Episodes(m)
    ensures Episodes(ReleaseCore(m, outcome, now, jitter, h))
  {
  }

  /** A release always finds a slot to free, so the guard against negative counts never acts. */
  lemma GuardNeverActs<S>(s: Sys<S>, i: nat)
    requires Good(s) && IsPending(s.notes, i)
    ensures s.m.core.inflight >= 1 && Free(s.m.core).inflight == s.m.core.inflight - 1
  {
    SettleOne(s.notes.settled, i);
  }

  lemma ReleaseProbing(m: Core, o: Notes, i: nat, e: Event, now: nat, jitter: int, h: Health)
    requires Probing(m, o) && IsPending(o, i)
    ensures Probing(ReleaseCore(m, e.outcome, now, jitter, h), NoteRelease(o, m, i, e))
  {
  }

  lemma ReleaseTimed(m: Core, clock: nat, outcome: Outcome, now: nat, jitter: int, h: Health)
    requires InRange(m.config) && Timed(m, clock) && clock <= now && JitterOk(m.config, jitter)
    ensures Timed(ReleaseCore(m, outcome, now, jitter, h), now)
  {
  }

  lemma ReleaseRing<S>(t: Tally<S>, n: nat, ring: seq<Bucket<S>>, log: seq<Event>, clock: nat, e: Event, now: nat)
    requires RingIsLog(t, n, ring, log, clock) && clock <= now && e.ts == now / 1000
    ensures RingIsLog(t, n, Record(t, ring, e), log + [e], now)
  {
    LogLater(log, clock, now);
    assert (log + [e])[..|log|] == log;
    forall i | 0 <= i < |log| ensures log[i].ts <= e.ts {
      assert log[i] in log;
    }
  }

  lemma ReleaseGood<S>(s: Sys<S>, i: nat, signal: Signal, latency: nat, now: nat, jitter: int)
    requires Good(s) && s.clock <= now && JitterOk(s.m.core.config, jitter) && IsPending(s.notes, i)
    ensures Good(Next(s, Fire(i, signal, latency, now, jitter)))
  {
    var e := Event(now / 1000, OutcomeOf(signal), latency);
    var m, o := s.m.core, s.notes;
    var ring := Record(s.m.detect.tally, s.m.ring, e);
    var h := Judge(s.m.detect, m.config.windowSecs, ring, now);
    ReleaseAccounts(m, o, i, e, now, jitter, h);
    ReleaseOnce(m, o, i, e);
    ReleaseTallied(m, o.log, e, now, jitter, h);
    ReleaseEpisodes(m, e.outcome, now, jitter, h);
    ReleaseFast(m, o.log, e, now, jitter, h);
    ReleaseProbing(m, o, i, e, now, jitter, h);
    ReleaseTimed(m, s.clock, e.outcome, now, jitter, h);
    ReleaseRing(s.m.detect.tally, m.config.windowSecs, s.m.ring, o.log, s.clock, e, now);
  }

  // ---- Whole runs ----

  lemma StepGood<S>(s: Sys<S>, step: Step)
    requires Good(s) && Allowed(s, step)
    ensures Good(Next(s, step))
  {
    match step
    case Start(now, jitter) => AcquireGood(s, now, jitter);
    case Fire(i, signal, latency, now, jitter) =>
      if IsPending(s.notes, i) {
        ReleaseGood(s, i, signal, latency, now, jitter);
      } else {
        LogLater(s.notes.log, s.clock, now);
      }
  }

  lemma {:induction false} ExecGood<S>(s: Sys<S>, steps: seq<Step>)
    requires Good(s) && Legal(s, steps)
    ensures Good(Exec(s, steps))
    decreases steps
  {
    if steps != [] {
      StepGood(s, steps[0]);
      ExecGood(Next(s, steps[0]), steps[1..]);
    }
  }

  /** Everything above, for every configuration and every legal run. */
  lemma EveryRunGood(c: Config, steps: seq<Step>)
    requires Legal(Init(c), steps)
    ensures Good(Exec(Init(c), steps))
  {
    InitGood(c);
    ExecGood(Init(c), steps);
  }

  // ---- Cooling down ----

  predicate SameOpening(a: Core, b: Core) {
    && a.state == Open && b.state == Open
    && a.openedAtMs == b.openedAtMs && a.cooldownMs == b.cooldownMs
  }

  /**
   No leak: from a trip until openedAt + cooldown, whatever happens, no call is
   admitted, the breaker stays OPEN, and stragglers do not move the deadline.
   */
  lemma {:induction false} NoAdmissionWhileCooling<S>(s: Sys<S>, steps: seq<Step>)
    requires Runnable(s.m) && s.m.core.state == Open
    requires forall k | 0 <= k < |steps| :: steps[k].now < s.m.core.openedAtMs + s.m.core.cooldownMs
    ensures var r := Exec(s, steps);
            SameOpening(s.m.core, r.m.core) && |r.notes.settled| == |s.notes.settled|
    decreases steps
  {
    if steps != [] {
      StaysOpen(s, steps[0]);
      NoAdmissionWhileCooling(Next(s, steps[0]), steps[1..]);
    }
  }

  lemma StaysOpen<S>(s: Sys<S>, step: Step)
    requires Runnable(s.m) && s.m.core.state == Open
    requires step.now < s.m.core.openedAtMs + s.m.core.cooldownMs
    ensures var r := Next(s, step);
            SameOpening(s.m.core, r.m.core) && |r.notes.settled| == |s.notes.settled|
  {
  }

  // ---- Recovery ----

  /** When the next acquire can change something: now, or at the pending deadline. */
  function NextDeadline(m: Core, now: nat): int {
    match m.state
    case Closed => now
    case Open => Max(now, m.openedAtMs + m.cooldownMs)
    case HalfOpen =>
      if m.probesDispatched < m.config.halfOpenProbes then now
      else Max(now, m.halfOpenStartedAtMs + m.config.halfOpenMaxMs)
  }

  /**
   No wedge: from every reachable non-CLOSED state with nothing in flight, acquires
   made at the deadlines get a probe admitted, on the second one at the latest,
   within halfOpenMaxMs + openCooldownMs + cooldownJitterMs.
   */
  lemma ProbeWithinBound<S>(s: Sys<S>, now: nat, j1: int, j2: int)
    requires Good(s) && s.m.core.state != Closed && s.m.core.inflight == 0 && s.clock <= now
    requires JitterOk(s.m.core.config, j1)
    ensures var c := s.m.core.config;
            var bound := now + c.halfOpenMaxMs + c.openCooldownMs + c.cooldownJitterMs;
            var t1 := NextDeadline(s.m.core, now);
            var (m1, v1) := Acquire(s.m.core, t1, j1);
            && now <= t1 <= bound
            && (v1 != Admitted ==>
                var t2 := NextDeadline(m1, t1);
                Acquire(m1, t2, j2).1 == Admitted && t1 <= t2 <= bound)
  {
  }

  /** ... in every run of every configuration. */
  lemma NeverWedges(c: Config, steps: seq<Step>, now: nat, j1: int, j2: int)
    requires Legal(Init(c), steps) && JitterOk(Clamp(c), j1)
    requires var s := Exec(Init(c), steps); s.m.core.state != Closed && s.m.core.inflight == 0 && s.clock <= now
    ensures var m, k := Exec(Init(c), steps).m.core, Clamp(c);
            var bound := now + k.halfOpenMaxMs + k.openCooldownMs + k.cooldownJitterMs;
            var t1 := NextDeadline(m, now);
            var (m1, v1) := Acquire(m, t1, j1);
            && now <= t1 <= bound
            && (v1 != Admitted ==>
                var t2 := NextDeadline(m1, t1);
                Acquire(m1, t2, j2).1 == Admitted && t1 <= t2 <= bound)
  {
    EveryRunGood(c, steps);
    ProbeWithinBound(Exec(Init(c), steps), now, j1, j2);
  }

  // ---- The detectors see the log ----

  /** The events of the last `w` seconds before and including second `now`. */
  function LastSeconds(now: nat, w: int): Event -> bool {
    (e: Event) => now - w < e.ts
  }

  /** After a release, the detector judges exactly the log's last windowSecs seconds. */
  lemma JudgesLastSeconds<S(!new)>(s: Sys<S>, e: Event, now: nat)
    requires Lawful(s.m.detect.tally) && Good(s) && s.clock <= now && e.ts == now / 1000
    ensures var w := s.m.core.config.windowSecs;
            var seen := Summary(s.m.detect.tally, Pick(s.notes.log + [e], LastSeconds(e.ts, w)));
            Judge(s.m.detect, w, Record(s.m.detect.tally, s.m.ring, e), now)
            == Health(s.m.detect.degraded(seen), s.m.detect.recovered(seen))
  {
    var w: nat := s.m.core.config.windowSecs;
    var log := s.notes.log;
    ReleaseRing(s.m.detect.tally, w, s.m.ring, log, s.clock, e, now);
    AggregateAfterRecord(s.m.detect.tally, w, log, e);
    PickSame(log + [e], (x: Event) => e.ts - w < x.ts, LastSeconds(e.ts, w));
  }

  /**
   A release while CLOSED opens the circuit exactly when the trailing failures or
   timeouts of the log reach a threshold, or the events of the last windowSecs
   seconds are degraded.
   */
  lemma OpensExactlyWhen<S(!new)>(s: Sys<S>, i: nat, signal: Signal, latency: nat, now: nat, jitter: int)
    requires Lawful(s.m.detect.tally) && Good(s) && s.m.core.state == Closed && IsPending(s.notes, i)
    requires s.clock <= now
    ensures var r := Next(s, Fire(i, signal, latency, now, jitter));
            var c, log := s.m.core.config, r.notes.log;
            r.m.core.state == Open <==>
              || TrailingFailures(log) >= c.consecutiveFailOpen
              || TrailingTimeouts(log) >= c.consecutiveTimeoutOpen
              || s.m.detect.degraded(Summary(s.m.detect.tally, Pick(log, LastSeconds(now / 1000, c.windowSecs))))
  {
    var e := Event(now / 1000, OutcomeOf(signal), latency);
    JudgesLastSeconds(s, e, now);
    CoreOpens(s.m.core, s.notes.log, e, now, jitter,
              Judge(s.m.detect, s.m.core.config.windowSecs, Record(s.m.detect.tally, s.m.ring, e), now));
  }

  /** ... in every run of every configuration, with the breaker's own detector. */
  lemma RunOpensExactlyWhen(c: Config, steps: seq<Step>, i: nat, signal: Signal, latency: nat, now: nat, jitter: int)
    requires Legal(Init(c), steps)
    requires var s := Exec(Init(c), steps); s.m.core.state == Closed && IsPending(s.notes, i) && s.clock <= now
    ensures var r := Next(Exec(Init(c), steps), Fire(i, signal, latency, now, jitter));
            var k, log := Clamp(c), r.notes.log;
            r.m.core.state == Open <==>
              || TrailingFailures(log) >= k.consecutiveFailOpen
              || TrailingTimeouts(log) >= k.consecutiveTimeoutOpen
              || DetectorOf(k).degraded(Summary(TALLY, Pick(log, LastSeconds(now / 1000, k.windowSecs))))
  {
    EveryRunGood(c, steps);
    TallyLawful();
    OpensExactlyWhen(Exec(Init(c), steps), i, signal, latency, now, jitter);
  }

  lemma TrailingSnoc(log: seq<Event>, e: Event)
    ensures TrailingFailures(log + [e]) == if e.outcome.Success? then 0 else TrailingFailures(log) + 1
    ensures TrailingTimeouts(log + [e])
         == if e.outcome.Success? then 0 else TrailingTimeouts(log) + if e.outcome.Timeout? then 1 else 0
  {
    assert (log + [e])[..|log|] == log;
  }

  lemma ReleaseOpens(m: Core, outcome: Outcome, now: nat, jitter: int, h: Health)
    requires m.state == Closed
    ensures ReleaseCore(m, outcome, now, jitter, h).state == Open <==>
              || (!outcome.Success? && m.consecutiveFail + 1 >= m.config.consecutiveFailOpen)
              || (outcome.Timeout? && m.consecutiveTimeout + 1 >= m.config.consecutiveTimeoutOpen)
              || h.degraded
  {
  }

  lemma CoreOpens(m: Core, log: seq<Event>, e: Event, now: nat, jitter: int, h: Health)
    requires FastDetector(m, log) && m.state == Closed
    ensures ReleaseCore(m, e.outcome, now, jitter, h).state == Open <==>
              || TrailingFailures(log + [e]) >= m.config.consecutiveFailOpen
              || TrailingTimeouts(log + [e]) >= m.config.consecutiveTimeoutOpen
              || h.degraded
  {
    TrailingSnoc(log, e);
    ReleaseOpens(m, e.outcome, now, jitter, h);
  }

  /** An episode that ends in CLOSED saw only successes, enough of them, and a recovered window. */
  lemma RecoveryEarned<S(!new)>(s: Sys<S>, i: nat, signal: Signal, latency: nat, now: nat, jitter: int)
    requires Lawful(s.m.detect.tally) && Good(s) && s.m.core.state == HalfOpen && IsPending(s.notes, i)
    requires s.clock <= now
    requires Next(s, Fire(i, signal, latency, now, jitter)).m.core.state == Closed
    ensures var r := Next(s, Fire(i, signal, latency, now, jitter));
            var c := s.m.core.config;
            && AllSuccess(r.notes.episode)
            && c.recoverySuccesses <= |r.notes.episode|
            && r.notes.admits <= c.halfOpenProbes
            && s.m.detect.recovered(Summary(s.m.detect.tally, Pick(r.notes.log, LastSeconds(now / 1000, c.windowSecs))))
  {
    JudgesLastSeconds(s, Event(now / 1000, OutcomeOf(signal), latency), now);
  }

  lemma ReleaseCloses(m: Core, outcome: Outcome, now: nat, jitter: int, h: Health)
    requires m.state == HalfOpen
    ensures var r := ReleaseCore(m, outcome, now, jitter, h).state;
            && (r == Closed <==>
                outcome.Success? && m.halfOpenSuccesses + 1 >= m.config.recoverySuccesses && h.recovered)
            && (r == Open <==> !outcome.Success?)
  {
  }

  /**
   A release while HALF_OPEN closes the circuit if and only if it is a success, the
   episode has then seen recoverySuccesses outcomes, and the events of the last
   windowSecs seconds are recovered; it reopens the circuit if and only if it is not
   a success.
   */
  lemma ClosesExactlyWhen<S(!new)>(s: Sys<S>, i: nat, signal: Signal, latency: nat, now: nat, jitter: int)
    requires Lawful(s.m.detect.tally) && Good(s) && s.m.core.state == HalfOpen && IsPending(s.notes, i)
    requires s.clock <= now
    ensures var r := Next(s, Fire(i, signal, latency, now, jitter));
            var c, log := s.m.core.config, r.notes.log;
            && (r.m.core.state == Closed <==>
                && signal.Resolves? && |r.notes.episode| >= c.recoverySuccesses
                && s.m.detect.recovered(Summary(s.m.detect.tally, Pick(log, LastSeconds(now / 1000, c.windowSecs)))))
            && (r.m.core.state == Open <==> !signal.Resolves?)
  {
    var e := Event(now / 1000, OutcomeOf(signal), latency);
    JudgesLastSeconds(s, e, now);
    ReleaseCloses(s.m.core, e.outcome, now, jitter,
                  Judge(s.m.detect, s.m.core.config.windowSecs, Record(s.m.detect.tally, s.m.ring, e), now));
  }

  /** ... in every run of every configuration, with the breaker's own detector. */
  lemma RunClosesExactlyWhen(c: Config, steps: seq<Step>, i: nat, signal: Signal, latency: nat, now: nat, jitter: int)
    requires Legal(Init(c), steps)
    requires var s := Exec(Init(c), steps); s.m.core.state == HalfOpen && IsPending(s.notes, i) && s.clock <= now
    ensures var r := Next(Exec(Init(c), steps), Fire(i, signal, latency, now, jitter));
            var k, log := Clamp(c), r.notes.log;
            && (r.m.core.state == Closed <==>
                && signal.Resolves? && |r.notes.episode| >= k.recoverySuccesses
                && DetectorOf(k).recovered(Summary(TALLY, Pick(log, LastSeconds(now / 1000, k.windowSecs)))))
            && (r.m.core.state == Open <==> !signal.Resolves?)
  {
    EveryRunGood(c, steps);
    TallyLawful();
    ClosesExactlyWhen(Exec(Init(c), steps), i, signal, latency, now, jitter);
  }

  /** Nothing but a release can close a HALF_OPEN breaker, and nothing but an acquire can leave OPEN. */
  lemma OnlyWayOut<S>(s: Sys<S>, step: Step)
    requires Runnable(s.m) && Next(s, step).m.core.state != s.m.core.state
    ensures match s.m.core.state
            case Closed => step.Fire? && IsPending(s.notes, step.call) && Next(s, step).m.core.state == Open
            case Open => step.Start? && step.now >= s.m.core.openedAtMs + s.m.core.cooldownMs
            case HalfOpen => Next(s, step).m.core.state == Closed ==> step.Fire? && IsPending(s.notes, step.call)
  {
  }
}
