/**
 The Redis circuit breaker: the CLOSED / OPEN / HALF_OPEN machine as a function
 of its whole state, and the class that runs it in place. The clock and the
 random jitter are arguments.
 */
module Breaker {
  import opened EventRing
  import opened RollingWindow

  datatype Config = Config(
    windowSecs: int,
    minSamples: int,
    consecutiveFailOpen: int,
    consecutiveTimeoutOpen: int,
    errorRateOpen: real,
    timeoutRateOpen: real,
    p99UsOpen: int,
    p99UsRecovery: real,
    errorRateRecovery: real,
    openCooldownMs: int,
    cooldownJitterMs: int,
    halfOpenProbes: int,
    recoverySuccesses: int,
    maxInflight: int,
    halfOpenMaxMs: int,
    operationTimeoutMs: int)

  function Clip(lo: int, hi: int, x: int): (y: int)
    requires lo <= hi
    ensures lo <= y <= hi && (lo <= x <= hi ==> y == x) && (x < lo ==> y == lo) && (x > hi ==> y == hi)
  {
    var m := if x < lo then lo else x;
    if m > hi then hi else m
  }

  function ClipReal(lo: real, hi: real, x: real): (y: real)
    requires lo <= hi
    ensures lo <= y <= hi && (lo <= x <= hi ==> y == x) && (x < lo ==> y == lo) && (x > hi ==> y == hi)
  {
    var m := if x < lo then lo else x;
    if m > hi then hi else m
  }

  /** The ranges every running breaker may rely on, recovery within the probe budget included. */
  predicate InRange(c: Config) {
    && 1 <= c.windowSecs <= 60
    && 5 <= c.minSamples <= 1_000
    && 1 <= c.consecutiveFailOpen <= 100
    && 1 <= c.consecutiveTimeoutOpen <= 100
    && 0.0 <= c.errorRateOpen <= 1.0
    && 0.0 <= c.timeoutRateOpen <= 1.0
    && 1_000 <= c.p99UsOpen <= 60_000_000
    && 1_000.0 <= c.p99UsRecovery <= 60_000_000.0
    && 0.0 <= c.errorRateRecovery <= 1.0
    && 100 <= c.openCooldownMs <= 300_000
    && 0 <= c.cooldownJitterMs <= 60_000
    && 1 <= c.recoverySuccesses <= c.halfOpenProbes <= 20
    && 1 <= c.maxInflight <= 10_000
    && 1_000 <= c.halfOpenMaxMs <= 600_000
    && 100 <= c.operationTimeoutMs <= 60_000
  }

  /** Every configuration is brought into range, and one in range is left alone. */
  function Clamp(c: Config): (r: Config)
    ensures InRange(r)
    ensures InRange(c) ==> r == c
  {
    var probes := Clip(1, 20, c.halfOpenProbes);
    var successes := Clip(1, 20, c.recoverySuccesses);
    Config(
      Clip(1, 60, c.windowSecs),
      Clip(5, 1_000, c.minSamples),
      Clip(1, 100, c.consecutiveFailOpen),
      Clip(1, 100, c.consecutiveTimeoutOpen),
      ClipReal(0.0, 1.0, c.errorRateOpen),
      ClipReal(0.0, 1.0, c.timeoutRateOpen),
      Clip(1_000, 60_000_000, c.p99UsOpen),
      ClipReal(1_000.0, 60_000_000.0, c.p99UsRecovery),
      ClipReal(0.0, 1.0, c.errorRateRecovery),
      Clip(100, 300_000, c.openCooldownMs),
      Clip(0, 60_000, c.cooldownJitterMs),
      probes,
      if successes > probes then probes else successes,
      Clip(1, 10_000, c.maxInflight),
      Clip(1_000, 600_000, c.halfOpenMaxMs),
      Clip(100, 60_000, c.operationTimeoutMs))
  }

  /** `y` is the value of the range nearest to `x`. */
  predicate Nearest(lo: int, hi: int, x: int, y: int) {
    y == if x < lo then lo else if x > hi then hi else x
  }

  predicate NearestReal(lo: real, hi: real, x: real, y: real) {
    y == if x < lo then lo else if x > hi then hi else x
  }

  /** Each setting goes to the nearest value of its range, and recovery to no more than the probe budget. */
  lemma ClampNearest(c: Config)
    ensures var r := Clamp(c);
            && Nearest(1, 60, c.windowSecs, r.windowSecs) && Nearest(5, 1_000, c.minSamples, r.minSamples)
            && Nearest(1, 100, c.consecutiveFailOpen, r.consecutiveFailOpen)
            && Nearest(1, 100, c.consecutiveTimeoutOpen, r.consecutiveTimeoutOpen)
            && NearestReal(0.0, 1.0, c.errorRateOpen, r.errorRateOpen)
            && NearestReal(0.0, 1.0, c.timeoutRateOpen, r.timeoutRateOpen)
            && Nearest(1_000, 60_000_000, c.p99UsOpen, r.p99UsOpen)
            && NearestReal(1_000.0, 60_000_000.0, c.p99UsRecovery, r.p99UsRecovery)
            && NearestReal(0.0, 1.0, c.errorRateRecovery, r.errorRateRecovery)
            && Nearest(100, 300_000, c.openCooldownMs, r.openCooldownMs)
            && Nearest(0, 60_000, c.cooldownJitterMs, r.cooldownJitterMs)
            && Nearest(1, 20, c.halfOpenProbes, r.halfOpenProbes)
            && Nearest(1, r.halfOpenProbes, c.recoverySuccesses, r.recoverySuccesses)
            && Nearest(1, 10_000, c.maxInflight, r.maxInflight)
            && Nearest(1_000, 600_000, c.halfOpenMaxMs, r.halfOpenMaxMs)
            && Nearest(100, 60_000, c.operationTimeoutMs, r.operationTimeoutMs)
  {
  }

  // ---- Health of a window ----

  function ErrorRate(s: Stats): real {
    if s.total == 0 then 0.0 else s.errors as real / s.total as real
  }

  function TimeoutRate(s: Stats): real {
    if s.total == 0 then 0.0 else s.timeouts as real / s.total as real
  }

  /** The statistical detector: enough samples, and one of the three signals too high. */
  predicate Degraded(c: Config, s: Stats) {
    && s.total >= c.minSamples
    && (ErrorRate(s) >= c.errorRateOpen || TimeoutRate(s) >= c.timeoutRateOpen || Percentile(s, 99) >= c.p99UsOpen)
  }

  predicate Recovered(c: Config, s: Stats) {
    Percentile(s, 99) as real <= c.p99UsRecovery && ErrorRate(s) <= c.errorRateRecovery
  }

  lemma RateAtLeast(n: nat, total: nat, rate: real)
    requires total > 0
    ensures n as real / total as real >= rate <==> n as real >= rate * total as real
    ensures n as real / total as real <= rate <==> n as real <= rate * total as real
  {
    var q := n as real / total as real;
    assert q * total as real == n as real;
    Scaled(q, rate, total as real);
  }

  lemma Scaled(a: real, b: real, t: real)
    requires t > 0.0
    ensures a >= b <==> a * t >= b * t
    ensures a <= b <==> a * t <= b * t
  {
  }

  /** `n` out of `total` is at least, or at most, the given share. */
  predicate AtLeastShare(n: nat, total: nat, share: real) {
    n as real >= share * total as real
  }

  predicate AtMostShare(n: nat, total: nat, share: real) {
    n as real <= share * total as real
  }

  lemma RatesMean(s: Stats, share: real)
    requires s.total > 0
    ensures ErrorRate(s) >= share <==> AtLeastShare(s.errors, s.total, share)
    ensures ErrorRate(s) <= share <==> AtMostShare(s.errors, s.total, share)
    ensures TimeoutRate(s) >= share <==> AtLeastShare(s.timeouts, s.total, share)
  {
    RateAtLeast(s.errors, s.total, share);
    RateAtLeast(s.timeouts, s.total, share);
  }

  lemma DegradedCounts(c: Config, s: Stats)
    requires s.total > 0
    ensures Degraded(c, s) <==>
              && s.total >= c.minSamples
              && (|| AtLeastShare(s.errors, s.total, c.errorRateOpen)
                  || AtLeastShare(s.timeouts, s.total, c.timeoutRateOpen)
                  || Percentile(s, 99) >= c.p99UsOpen)
    ensures Recovered(c, s) <==>
              Percentile(s, 99) as real <= c.p99UsRecovery && AtMostShare(s.errors, s.total, c.errorRateRecovery)
  {
    RatesMean(s, c.errorRateOpen);
    RatesMean(s, c.timeoutRateOpen);
    RatesMean(s, c.errorRateRecovery);
  }

  /**
   What the detector's two judgements mean for the events themselves, given their
   exact 99th percentile: enough events with too many errors, too many timeouts or
   the percentile in too high a band; few enough errors and the percentile in a
   low enough one.
   */
  lemma JudgementsMean(c: Config, log: seq<Event>, p99: nat)
    requires log != [] && NearestRank(log, Target(|log|, 99), p99)
    ensures Degraded(c, Summary(TALLY, log)) <==>
              && |log| >= c.minSamples
              && (|| AtLeastShare(CountIf(log, HasOutcome(RedisError)), |log|, c.errorRateOpen)
                  || AtLeastShare(CountIf(log, HasOutcome(Timeout)), |log|, c.timeoutRateOpen)
                  || BandBound(Band(p99)) >= c.p99UsOpen)
    ensures Recovered(c, Summary(TALLY, log)) <==>
              && BandBound(Band(p99)) as real <= c.p99UsRecovery
              && AtMostShare(CountIf(log, HasOutcome(RedisError)), |log|, c.errorRateRecovery)
  {
    OutcomesCounted(log);
    PercentileBrackets(log, 99, p99);
    DegradedCounts(c, Summary(TALLY, log));
  }

  /**
   What a machine watches and how it judges it. The machine itself works with any
   tally and any two judgements; `DetectorOf` is the source's own.
   */
  datatype Detector<!S> = Detector(tally: Tally<S>, degraded: S -> bool, recovered: S -> bool)

  function DetectorOf(c: Config): Detector<Stats> {
    Detector(TALLY, (s: Stats) => Degraded(c, s), (s: Stats) => Recovered(c, s))
  }

  // ---- The machine ----

  datatype State = Closed | Open | HalfOpen

  datatype Verdict = Admitted | CircuitOpen | ConcurrencyRejected

  datatype Totals = Totals(
    requests: nat, success: nat, errors: nat, timeouts: nat,
    trips: nat, halfOpens: nat, rejected: nat)

  /** Everything but the window: the part of the state that decides admissions. */
  datatype Core = Core(
    config: Config,
    state: State,
    openedAtMs: int,
    cooldownMs: int,
    consecutiveFail: nat,
    consecutiveTimeout: nat,
    probesDispatched: nat,
    halfOpenSuccesses: nat,
    halfOpenStartedAtMs: int,
    inflight: int,
    totals: Totals)

  datatype Machine<!S> = Machine(core: Core, detect: Detector<S>, ring: seq<Bucket<S>>)

  function InitialCore(config: Config): Core {
    Core(config, Closed, 0, 0, 0, 0, 0, 0, 0, 0, Totals(0, 0, 0, 0, 0, 0, 0))
  }

  function Initial(c: Config): Machine<Stats> {
    Machine(InitialCore(Clamp(c)), DetectorOf(Clamp(c)), Empty(TALLY, RingSize(Clamp(c).windowSecs)))
  }

  /** floor(random * cooldownJitterMs), for some random in [0, 1). */
  predicate JitterOk(c: Config, jitter: int) {
    0 <= jitter && (jitter < c.cooldownJitterMs || jitter == 0)
  }

  function Reject(m: Core): Core {
    m.(totals := m.totals.(rejected := m.totals.rejected + 1))
  }

  function Trip(m: Core, now: int, jitter: int): Core {
    if m.state == Open then m
    else m.(state := Open, openedAtMs := now, cooldownMs := m.config.openCooldownMs + jitter,
            totals := m.totals.(trips := m.totals.trips + 1))
  }

  function Acquire(m: Core, now: int, jitter: int): (Core, Verdict) {
    match m.state
    case Closed =>
      if m.inflight >= m.config.maxInflight then (Reject(m), ConcurrencyRejected)
      else (m.(inflight := m.inflight + 1), Admitted)
    case Open =>
      if now - m.openedAtMs >= m.cooldownMs then
        AcquireHalfOpen(
          m.(state := HalfOpen, probesDispatched := 0, halfOpenSuccesses := 0, halfOpenStartedAtMs := now,
             totals := m.totals.(halfOpens := m.totals.halfOpens + 1)),
          now, jitter)
      else (Reject(m), CircuitOpen)
    case HalfOpen => AcquireHalfOpen(m, now, jitter)
  }

  function AcquireHalfOpen(m: Core, now: int, jitter: int): (Core, Verdict) {
    if now - m.halfOpenStartedAtMs >= m.config.halfOpenMaxMs then
      (Reject(if m.state == HalfOpen then Trip(m, now, jitter) else m), CircuitOpen)
    else if m.probesDispatched >= m.config.halfOpenProbes then (Reject(m), CircuitOpen)
    else if m.inflight >= m.config.halfOpenProbes then (Reject(m), ConcurrencyRejected)
    else (m.(probesDispatched := m.probesDispatched + 1, inflight := m.inflight + 1), Admitted)
  }

  /** What the detector says of the window. */
  datatype Health = Health(degraded: bool, recovered: bool)

  function Judge<S>(d: Detector<S>, windowSecs: int, ring: seq<Bucket<S>>, now: nat): Health
    requires windowSecs >= 0
  {
    var s := Aggregate(d.tally, ring, now / 1000, windowSecs);
    Health(d.degraded(s), d.recovered(s))
  }

  function CheckStatistical(m: Core, now: nat, jitter: int, h: Health): Core {
    if h.degraded then Trip(m, now, jitter) else m
  }

  /** The bookkeeping common to every release. */
  function Free(m: Core): (r: Core)
    ensures r.inflight >= 0 && (m.inflight >= 1 ==> r.inflight == m.inflight - 1)
  {
    m.(inflight := if m.inflight - 1 > 0 then m.inflight - 1 else 0,
       totals := m.totals.(requests := m.totals.requests + 1))
  }

  function OnSuccess(r: Core, now: nat, jitter: int, h: Health): Core {
    var s := r.(consecutiveFail := 0, consecutiveTimeout := 0,
                totals := r.totals.(success := r.totals.success + 1));
    if s.state == HalfOpen then
      var p := s.(halfOpenSuccesses := s.halfOpenSuccesses + 1);
      if p.halfOpenSuccesses >= p.config.recoverySuccesses && h.recovered then p.(state := Closed) else p
    else CheckStatistical(s, now, jitter, h)
  }

  function OnTimeout(r: Core, now: nat, jitter: int, h: Health): Core {
    var s := r.(consecutiveFail := r.consecutiveFail + 1, consecutiveTimeout := r.consecutiveTimeout + 1,
                totals := r.totals.(timeouts := r.totals.timeouts + 1));
    if s.state == HalfOpen
       || s.consecutiveTimeout >= s.config.consecutiveTimeoutOpen
       || s.consecutiveFail >= s.config.consecutiveFailOpen
    then Trip(s, now, jitter) else CheckStatistical(s, now, jitter, h)
  }

  function OnError(r: Core, now: nat, jitter: int, h: Health): Core {
    var s := r.(consecutiveFail := r.consecutiveFail + 1,
                totals := r.totals.(errors := r.totals.errors + 1));
    if s.state == HalfOpen || s.consecutiveFail >= s.config.consecutiveFailOpen
    then Trip(s, now, jitter) else CheckStatistical(s, now, jitter, h)
  }

  /** A release, given what the detector says of the window that now holds it. */
  function ReleaseCore(m: Core, outcome: Outcome, now: nat, jitter: int, h: Health): Core {
    match outcome
    case Success => OnSuccess(Free(m), now, jitter, h)
    case Timeout => OnTimeout(Free(m), now, jitter, h)
    case RedisError => OnError(Free(m), now, jitter, h)
  }

  function Release<S>(m: Machine<S>, outcome: Outcome, latency: nat, now: nat, jitter: int): Machine<S>
    requires |m.ring| > 0 && m.core.config.windowSecs >= 0
  {
    var ring := Record(m.detect.tally, m.ring, Event(now / 1000, outcome, latency));
    var h := Judge(m.detect, m.core.config.windowSecs, ring, now);
    Machine(ReleaseCore(m.core, outcome, now, jitter, h), m.detect, ring)
  }

  // ---- The breaker object ----

  class CircuitBreaker {
    const config: Config
    var state: State
    var openedAtMs: int
    var cooldownMs: int
    var consecutiveFail: nat
    var consecutiveTimeout: nat
    var probesDispatched: nat
    var halfOpenSuccesses: nat
    var halfOpenStartedAtMs: int
    var inflight: int
    const window: Window
    var totals: Totals

    ghost predicate Valid() {
      InRange(config) && window.Valid()
    }

    /** The object's state as a value. */
    ghost function CoreView(): Core
      reads this
    {
      Core(config, state, openedAtMs, cooldownMs, consecutiveFail, consecutiveTimeout,
           probesDispatched, halfOpenSuccesses, halfOpenStartedAtMs, inflight, totals)
    }

    ghost function View(): Machine<Stats>
      reads this, window.buckets
    {
      Machine(CoreView(), DetectorOf(config), window.buckets[..])
    }

    ghost function JudgeView(now: nat): Health
      requires Valid()
      reads this, window.buckets
    {
      Judge(DetectorOf(config), config.windowSecs, window.buckets[..], now)
    }

    constructor (c: Config)
      ensures Valid() && fresh(window) && fresh(window.buckets)
      ensures View() == Initial(c)
    {
      config := Clamp(c);
      state := Closed;
      openedAtMs, cooldownMs, consecutiveFail, consecutiveTimeout := 0, 0, 0, 0;
      probesDispatched, halfOpenSuccesses, halfOpenStartedAtMs, inflight := 0, 0, 0, 0;
      totals := Totals(0, 0, 0, 0, 0, 0, 0);
      window := new Window(Clamp(c).windowSecs);
    }

    method TryAcquire(now: int, jitter: int) returns (v: Verdict)
      requires Valid()
      modifies this
      ensures (CoreView(), v) == Acquire(old(CoreView()), now, jitter)
    {
      if state == Closed {
        if inflight >= config.maxInflight {
          totals := totals.(rejected := totals.rejected + 1);
          return ConcurrencyRejected;
        }
        inflight := inflight + 1;
        return Admitted;
      }
      if state == Open {
        if now - openedAtMs >= cooldownMs {
          state := HalfOpen;
          probesDispatched := 0;
          halfOpenSuccesses := 0;
          halfOpenStartedAtMs := now;
          totals := totals.(halfOpens := totals.halfOpens + 1);
          v := TryAcquireHalfOpen(now, jitter);
          return;
        }
        totals := totals.(rejected := totals.rejected + 1);
        return CircuitOpen;
      }
      v := TryAcquireHalfOpen(now, jitter);
    }

    method TryAcquireHalfOpen(now: int, jitter: int) returns (v: Verdict)
      requires Valid()
      modifies this
      ensures (CoreView(), v) == AcquireHalfOpen(old(CoreView()), now, jitter)
    {
      if now - halfOpenStartedAtMs >= config.halfOpenMaxMs {
        if state == HalfOpen {
          TripOpen(now, jitter);
        }
        totals := totals.(rejected := totals.rejected + 1);
        return CircuitOpen;
      }
      if probesDispatched >= config.halfOpenProbes {
        totals := totals.(rejected := totals.rejected + 1);
        return CircuitOpen;
      }
      if inflight >= config.halfOpenProbes {
        totals := totals.(rejected := totals.rejected + 1);
        return ConcurrencyRejected;
      }
      probesDispatched := probesDispatched + 1;
      inflight := inflight + 1;
      return Admitted;
    }

    method TripOpen(now: int, jitter: int)
      requires Valid()
      modifies this
      ensures CoreView() == Trip(old(CoreView()), now, jitter)
    {
      var effectiveCooldown := config.openCooldownMs + jitter;
      if state != Open {
        state := Open;
        openedAtMs := now;
        cooldownMs := effectiveCooldown;
        totals := totals.(trips := totals.trips + 1);
      }
    }

    method CheckStatisticalOpen(now: nat, jitter: int)
      requires Valid()
      modifies this
      ensures CoreView() == CheckStatistical(old(CoreView()), now, jitter, JudgeView(now))
    {
      var stats := window.AggregateWindow(now / 1000, config.windowSecs);
      if stats.total < config.minSamples {
        return;
      }
      var p99 := PercentileUs(stats, 99);
      if ErrorRate(stats) >= config.errorRateOpen
         || TimeoutRate(stats) >= config.timeoutRateOpen
         || p99 >= config.p99UsOpen {
        TripOpen(now, jitter);
      }
    }

    method ReleaseCall(outcome: Outcome, latency: nat, now: nat, jitter: int)
      requires Valid()
      modifies this, window.buckets
      ensures View() == Release(old(View()), outcome, latency, now, jitter)
    {
      inflight := if inflight - 1 > 0 then inflight - 1 else 0;
      window.RecordEvent(outcome, latency, now / 1000);
      totals := totals.(requests := totals.requests + 1);
      assert CoreView() == Free(old(CoreView()));
      match outcome
      case Success => ReleaseSuccess(now, jitter);
      case Timeout => ReleaseTimeout(now, jitter);
      case RedisError => ReleaseError(now, jitter);
    }

    method ReleaseSuccess(now: nat, jitter: int)
      requires Valid()
      modifies this
      ensures CoreView() == OnSuccess(old(CoreView()), now, jitter, JudgeView(now))
    {
      totals := totals.(success := totals.success + 1);
      consecutiveFail := 0;
      consecutiveTimeout := 0;
      if state == HalfOpen {
        halfOpenSuccesses := halfOpenSuccesses + 1;
        if halfOpenSuccesses >= config.recoverySuccesses {
          var stats := window.AggregateWindow(now / 1000, config.windowSecs);
          var p99 := PercentileUs(stats, 99);
          if p99 as real <= config.p99UsRecovery && ErrorRate(stats) <= config.errorRateRecovery {
            state := Closed;
          }
        }
      } else {
        CheckStatisticalOpen(now, jitter);
      }
    }

    method ReleaseTimeout(now: nat, jitter: int)
      requires Valid()
      modifies this
      ensures CoreView() == OnTimeout(old(CoreView()), now, jitter, JudgeView(now))
    {
      totals := totals.(timeouts := totals.timeouts + 1);
      consecutiveFail := consecutiveFail + 1;
      consecutiveTimeout := consecutiveTimeout + 1;
      if state == HalfOpen {
        TripOpen(now, jitter);
      } else if consecutiveTimeout >= config.consecutiveTimeoutOpen || consecutiveFail >= config.consecutiveFailOpen {
        TripOpen(now, jitter);
      } else {
        CheckStatisticalOpen(now, jitter);
      }
    }

    method ReleaseError(now: nat, jitter: int)
      requires Valid()
      modifies this
      ensures CoreView() == OnError(old(CoreView()), now, jitter, JudgeView(now))
    {
      totals := totals.(errors := totals.errors + 1);
      consecutiveFail := consecutiveFail + 1;
      if state == HalfOpen {
        TripOpen(now, jitter);
      } else if consecutiveFail >= config.consecutiveFailOpen {
        TripOpen(now, jitter);
      } else {
        CheckStatisticalOpen(now, jitter);
      }
    }
  }
}
