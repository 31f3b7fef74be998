/**
 The breaker's counters and detectors in terms of what happened to the calls: timers
 that fired and promises that resolved or rejected. A signal counts when it is the
 first one of its call.
 */
module CallSignals {
  import opened EventRing
  import opened RollingWindow
  import opened Breaker
  import opened GuardedCalls

  /** The signals that settled a call, in the order of the run. */
  function Settling<S>(s: Sys<S>, steps: seq<Step>): seq<Signal>
    requires Runnable(s.m)
    decreases steps
  {
    if steps == [] then []
    else Effect(s, steps[0]) + Settling(Next(s, steps[0]), steps[1..])
  }

  /** The call ran out of time: its timer fired, or its rejection says so. */
  predicate TimedOut(g: Signal) {
    g.TimerFires? || (g.Rejects? && g.looksLikeTimeout)
  }

  predicate Failed(g: Signal) {
    g.Rejects? && !g.looksLikeTimeout
  }

  function CountSignals(gs: seq<Signal>, p: Signal -> bool): nat {
    if gs == [] then 0 else CountSignals(gs[..|gs| - 1], p) + if p(gs[|gs| - 1]) then 1 else 0
  }

  /** Signals of each kind since the last call that resolved. */
  function SinceResolved(gs: seq<Signal>, p: Signal -> bool): nat {
    if gs == [] || gs[|gs| - 1].Resolves? then 0
    else SinceResolved(gs[..|gs| - 1], p) + if p(gs[|gs| - 1]) then 1 else 0
  }

  /** The log records of each signal what became of its call. */
  predicate Records(e: Event, g: Signal) {
    && (e.outcome == Success <==> g.Resolves?)
    && (e.outcome == Timeout <==> TimedOut(g))
    && (e.outcome == RedisError <==> Failed(g))
  }

  predicate Matches(log: seq<Event>, gs: seq<Signal>) {
    |log| == |gs| && forall i | 0 <= i < |log| :: Records(log[i], gs[i])
  }

  /** The signal of a step, if it settles a call. */
  function Effect<S>(s: Sys<S>, step: Step): seq<Signal> {
    if step.Fire? && IsPending(s.notes, step.call) then [step.signal] else []
  }

  lemma StepMatches<S>(s: Sys<S>, step: Step, before: seq<Signal>)
    requires Runnable(s.m) && Matches(s.notes.log, before)
    ensures Matches(Next(s, step).notes.log, before + Effect(s, step))
  {
    if step.Fire? && IsPending(s.notes, step.call) {
      var e := Event(step.now / 1000, OutcomeOf(step.signal), step.latency);
      assert Next(s, step).notes.log == s.notes.log + [e];
    } else {
      assert before + [] == before;
    }
  }

  lemma Assoc(a: seq<Signal>, b: seq<Signal>, c: seq<Signal>)
    ensures a + b + c == a + (b + c)
  {
  }

  lemma {:induction false} RunMatches<S>(s: Sys<S>, steps: seq<Step>, before: seq<Signal>)
    requires Runnable(s.m) && Matches(s.notes.log, before)
    ensures Matches(Exec(s, steps).notes.log, before + Settling(s, steps))
    decreases steps
  {
    if steps == [] {
      assert before + [] == before;
    } else {
      var t, one := Next(s, steps[0]), Effect(s, steps[0]);
      StepMatches(s, steps[0], before);
      RunMatches(t, steps[1..], before + one);
      Assoc(before, one, Settling(t, steps[1..]));
    }
  }

  lemma {:induction false} CountsMatch(log: seq<Event>, gs: seq<Signal>)
    requires Matches(log, gs)
    ensures CountIf(log, HasOutcome(Success)) == CountSignals(gs, (g: Signal) => g.Resolves?)
    ensures CountIf(log, HasOutcome(Timeout)) == CountSignals(gs, TimedOut)
    ensures CountIf(log, HasOutcome(RedisError)) == CountSignals(gs, Failed)
  {
    if log != [] {
      var k := |log| - 1;
      assert Records(log[k], gs[k]);
      CountsMatch(log[..k], gs[..k]);
    }
  }

  lemma {:induction false} RunsMatch(log: seq<Event>, gs: seq<Signal>)
    requires Matches(log, gs)
    ensures TrailingTimeouts(log) == SinceResolved(gs, TimedOut)
    ensures TrailingFailures(log) == SinceResolved(gs, (g: Signal) => true)
  {
    if log != [] {
      var k := |log| - 1;
      assert Records(log[k], gs[k]);
      RunsMatch(log[..k], gs[..k]);
    }
  }

  /** The signals that settled the calls of a run. */
  function Signals(c: Config, steps: seq<Step>): seq<Signal> {
    Settling(Init(c), steps)
  }

  lemma SignalsMatch(c: Config, steps: seq<Step>)
    requires Legal(Init(c), steps)
    ensures Matches(Exec(Init(c), steps).notes.log, Signals(c, steps))
  {
    RunMatches(Init(c), steps, []);
    assert [] + Signals(c, steps) == Signals(c, steps);
  }

  /**
   In every run: timeoutsTotal counts the calls that timed out by their timer or by a
   rejection that looks like a timeout, errorsTotal those rejected otherwise, and
   successTotal those that resolved, each call by its first signal.
   */
  lemma TotalsCountSignals(c: Config, steps: seq<Step>)
    requires Legal(Init(c), steps)
    ensures var t, gs := Exec(Init(c), steps).m.core.totals, Signals(c, steps);
            && t.timeouts == CountSignals(gs, TimedOut)
            && t.errors == CountSignals(gs, Failed)
            && t.success == CountSignals(gs, (g: Signal) => g.Resolves?)
  {
    EveryRunGood(c, steps);
    SignalsMatch(c, steps);
    CountsMatch(Exec(Init(c), steps).notes.log, Signals(c, steps));
  }

  /**
   In every run: while the circuit is CLOSED, fewer than consecutiveTimeoutOpen calls
   have timed out and fewer than consecutiveFailOpen have failed in any way since the
   last one that resolved.
   */
  lemma ClosedMeansFewFailures(c: Config, steps: seq<Step>)
    requires Legal(Init(c), steps) && Exec(Init(c), steps).m.core.state == Closed
    ensures SinceResolved(Signals(c, steps), TimedOut) < Clamp(c).consecutiveTimeoutOpen
    ensures SinceResolved(Signals(c, steps), (g: Signal) => true) < Clamp(c).consecutiveFailOpen
  {
    EveryRunGood(c, steps);
    SignalsMatch(c, steps);
    RunsMatch(Exec(Init(c), steps).notes.log, Signals(c, steps));
  }

  // ---- Timers in a row ----

  /** Each step is the timer of a call that is still pending. */
  predicate TimersFire<S>(s: Sys<S>, steps: seq<Step>)
    requires Runnable(s.m)
    decreases steps
  {
    steps == []
    || (&& steps[0].Fire? && steps[0].signal.TimerFires? && IsPending(s.notes, steps[0].call)
        && TimersFire(Next(s, steps[0]), steps[1..]))
  }

  lemma {:induction false} TimersCounted<S>(s: Sys<S>, steps: seq<Step>)
    requires Runnable(s.m) && TimersFire(s, steps)
    ensures TrailingTimeouts(Exec(s, steps).notes.log) == TrailingTimeouts(s.notes.log) + |steps|
    decreases steps
  {
    if steps != [] {
      TimersCounted(Next(s, steps[0]), steps[1..]);
      TrailingSnoc(s.notes.log, Event(steps[0].now / 1000, Timeout, steps[0].latency));
    }
  }

  lemma {:induction false} FiresNeverProbe<S>(s: Sys<S>, steps: seq<Step>)
    requires Runnable(s.m) && s.m.core.state != HalfOpen && TimersFire(s, steps)
    ensures Exec(s, steps).m.core.state != HalfOpen
    decreases steps
  {
    if steps != [] {
      FiresNeverProbe(Next(s, steps[0]), steps[1..]);
    }
  }

  /** consecutiveTimeoutOpen timers in a row leave a CLOSED breaker OPEN, whatever came before. */
  lemma TimersOpen(c: Config, before: seq<Step>, timers: seq<Step>)
    requires Legal(Init(c), before) && Legal(Exec(Init(c), before), timers)
    requires Exec(Init(c), before).m.core.state == Closed && TimersFire(Exec(Init(c), before), timers)
    requires |timers| >= Clamp(c).consecutiveTimeoutOpen
    ensures Exec(Exec(Init(c), before), timers).m.core.state == Open
  {
    var s := Exec(Init(c), before);
    EveryRunGood(c, before);
    ExecGood(s, timers);
    TimersCounted(s, timers);
    FiresNeverProbe(s, timers);
  }
}
