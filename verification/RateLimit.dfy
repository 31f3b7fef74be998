/**
 The lock-free window counter of one rate-limit bucket: a 64-bit word holding a
 second and a count, changed only by compare-and-exchange. Checks and saturation
 writes of any number of threads interleave at every load and every exchange.
 */
module RateLimit {
  import opened Prelude

  const HALF: nat := 0x1_0000_0000

  // ---- The packed word ----

  function Ts(word: nat): nat {
    word / HALF
  }

  function Count(word: nat): nat {
    word % HALF
  }

  /** `(ts << 32) | count`; a count of 2^32 falls onto the lowest bit of the second. */
  function Pack(ts: nat, count: nat): nat
    requires count <= HALF
  {
    if count < HALF then ts * HALF + count else (if ts % 2 == 0 then ts + 1 else ts) * HALF
  }

  lemma PackSplits(ts: nat, count: nat)
    requires count < HALF
    ensures Ts(Pack(ts, count)) == ts && Count(Pack(ts, count)) == count
  {
  }

  /** The word of a saturation write keeps its two halves apart exactly when the limit is below 2^32 - 1. */
  lemma SaturationFits(ts: nat, limit: nat)
    requires limit < HALF
    ensures (Ts(Pack(ts, limit + 1)) == ts && Count(Pack(ts, limit + 1)) == limit + 1) <==> limit < HALF - 1
  {
  }

  /** What a check in second `now` wants to write over `word`; None when the window is used up. */
  function Proposal(word: nat, now: nat, limit: nat): Option<nat>
    requires limit < HALF
  {
    if Ts(word) != now then Some(Pack(now, 1))
    else if Count(word) >= limit then None
    else Some(Pack(now, Count(word) + 1))
  }

  // ---- One check, with the writes of other threads that get in its way ----

  /** `others[i]` is what the word has become when the i-th exchange is attempted. */
  function Race(word: nat, now: nat, limit: nat, others: seq<nat>): (bool, nat)
    requires limit < HALF
    decreases |others|
  {
    var p := Proposal(word, now, limit);
    if p.None? then (false, word)
    else if others == [] || others[0] == word then (true, p.value)
    else Race(others[0], now, limit, others[1..])
  }

  class Bucket {
    var word: nat

    constructor ()
      ensures word == 0
    {
      word := 0;
    }

    /** The check's retry loop; before each exchange another thread may have changed the word. */
    method CheckRateLimit(maxRps: nat, user: Option<string>, now: nat, others: seq<nat>) returns (allowed: bool)
      modifies this
      ensures maxRps == 0 || user.None? || user.value == "" ==> allowed && word == old(word)
      ensures maxRps != 0 && user.Some? && user.value != "" ==>
                (allowed, word) == Race(old(word), now, maxRps % HALF, others)
    {
      if maxRps == 0 || user.None? || user.value == "" {
        return true;
      }
      var limit := maxRps % HALF;
      var current := word;
      var i := 0;
      assert others[0..] == others;
      while true
        invariant 0 <= i <= |others| && word == current
        invariant Race(current, now, limit, others[i..]) == Race(old(word), now, limit, others)
        decreases |others| - i
      {
        var proposal := Proposal(current, now, limit);
        if proposal.None? {
          return false;
        }
        if i < |others| {
          word := others[i];
        } else {
          word := current;
        }
        if word == current {
          word := proposal.value;
          return true;
        }
        current := word;
        assert others[i..][1..] == others[i + 1..];
        i := i + 1;
      }
    }
  }

  /** An admitted check leaves its own second with a count it was entitled to; a refused one saw the window used up. */
  lemma {:induction false} RaceOutcome(word: nat, now: nat, limit: nat, others: seq<nat>)
    requires limit < HALF
    ensures var (allowed, w) := Race(word, now, limit, others);
            && Ts(w) == now
            && (allowed ==> Count(w) == 1 || 1 < Count(w) <= limit)
            && (!allowed ==> Count(w) >= limit && (w == word || w in others))
    decreases |others|
  {
    var p := Proposal(word, now, limit);
    if p.Some? {
      if others == [] || others[0] == word {
        PackSplits(now, if Ts(word) != now then 1 else Count(word) + 1);
      } else {
        RaceOutcome(others[0], now, limit, others[1..]);
      }
    }
  }

  // ---- Any number of threads ----

  datatype Op =
    | Checking(now: nat, current: nat)
    | Saturating(ts: nat, current: nat)

  /** A successful write: the second it wrote and the second it replaced. */
  datatype Write = Admit(ts: nat, was: nat) | Saturate(ts: nat, was: nat)

  datatype System = System(word: nat, ops: map<nat, Op>, log: seq<Write>)

  datatype Action =
    | Begin(thread: nat, now: nat)           // a check loads the word
    | BeginSaturate(thread: nat, ts: nat)    // the sync thread loads the word
    | Try(thread: nat, spurious: bool)       // decide and attempt the exchange

  function TryCheck(s: System, t: nat, now: nat, current: nat, spurious: bool, limit: nat): System
    requires limit < HALF
  {
    var p := Proposal(current, now, limit);
    if p.None? then s.(ops := s.ops - {t})
    else if s.word == current && !spurious
    then System(p.value, s.ops - {t}, s.log + [Admit(now, Ts(s.word))])
    else s.(ops := s.ops[t := Checking(now, s.word)])
  }

  function TrySaturate(s: System, t: nat, ts: nat, current: nat, limit: nat): System
    requires limit < HALF
  {
    if s.word == current
    then System(Pack(ts, limit + 1), s.ops - {t}, s.log + [Saturate(ts, Ts(s.word))])
    else s.(ops := s.ops - {t})
  }

  function Next(s: System, a: Action, limit: nat): System
    requires limit < HALF
  {
    match a
    case Begin(t, now) => if t in s.ops then s else s.(ops := s.ops[t := Checking(now, s.word)])
    case BeginSaturate(t, ts) => if t in s.ops then s else s.(ops := s.ops[t := Saturating(ts, s.word)])
    case Try(t, spurious) =>
      if t !in s.ops then s
      else match s.ops[t]
        case Checking(now, current) => TryCheck(s, t, now, current, spurious, limit)
        case Saturating(ts, current) => TrySaturate(s, t, ts, current, limit)
  }

  function Exec(s: System, actions: seq<Action>, limit: nat): System
    requires limit < HALF
    decreases |actions|
  {
    if actions == [] then s else Exec(Next(s, actions[0], limit), actions[1..], limit)
  }

  function Idle(word: nat): System {
    System(word, map[], [])
  }

  // ---- Counting ----

  function Admitted(log: seq<Write>, second: nat): nat {
    if log == [] then 0
    else Admitted(log[..|log| - 1], second)
         + if log[|log| - 1].Admit? && log[|log| - 1].ts == second then 1 else 0
  }

  /** How often the word has entered a second, counting where it started. */
  function Entries(log: seq<Write>, start: nat, second: nat): nat {
    if log == [] then if start == second then 1 else 0
    else Entries(log[..|log| - 1], start, second)
         + if log[|log| - 1].ts == second && log[|log| - 1].was != second then 1 else 0
  }

  function Min(a: nat, b: nat): nat {
    if a < b then a else b
  }

  /** What a second may have admitted by now: the limit for each past entry, the count for the present one. */
  ghost predicate Within(word: nat, log: seq<Write>, start: nat, second: nat, limit: nat) {
    if Ts(word) == second
    then Entries(log, start, second) >= 1
         && Admitted(log, second) <= limit * (Entries(log, start, second) - 1) + Min(Count(word), limit)
    else Admitted(log, second) <= limit * Entries(log, start, second)
  }

  lemma LogSnoc(log: seq<Write>, w: Write, start: nat, second: nat)
    ensures Admitted(log + [w], second) == Admitted(log, second) + if w.Admit? && w.ts == second then 1 else 0
    ensures Entries(log + [w], start, second)
         == Entries(log, start, second) + if w.ts == second && w.was != second then 1 else 0
  {
    assert (log + [w])[..|log|] == log;
  }

  lemma EntriesStep(limit: nat, e: nat)
    requires e >= 1
    ensures limit * e == limit * (e - 1) + limit
  {
  }

  /** A write by a check keeps the account of every second. */
  lemma AdmitWithin(word: nat, log: seq<Write>, start: nat, second: nat, limit: nat, now: nat)
    requires 1 <= limit < HALF && Within(word, log, start, second, limit) && Proposal(word, now, limit).Some?
    ensures Within(Proposal(word, now, limit).value, log + [Admit(now, Ts(word))], start, second, limit)
  {
    LogSnoc(log, Admit(now, Ts(word)), start, second);
    PackSplits(now, if Ts(word) != now then 1 else Count(word) + 1);
    if Ts(word) == second {
      EntriesStep(limit, Entries(log, start, second));
    }
  }

  lemma SaturateWithin(word: nat, log: seq<Write>, start: nat, second: nat, limit: nat, ts: nat)
    requires 1 <= limit < HALF - 1 && Within(word, log, start, second, limit)
    ensures Within(Pack(ts, limit + 1), log + [Saturate(ts, Ts(word))], start, second, limit)
  {
    LogSnoc(log, Saturate(ts, Ts(word)), start, second);
    PackSplits(ts, limit + 1);
    if Ts(word) == second {
      EntriesStep(limit, Entries(log, start, second));
    }
  }

  lemma StepWithin(s: System, a: Action, start: nat, second: nat, limit: nat)
    requires 1 <= limit < HALF - 1 && Within(s.word, s.log, start, second, limit)
    ensures var t := Next(s, a, limit); Within(t.word, t.log, start, second, limit)
  {
    if a.Try? && a.thread in s.ops {
      match s.ops[a.thread]
      case Checking(now, current) =>
        if Proposal(current, now, limit).Some? && s.word == current {
          AdmitWithin(s.word, s.log, start, second, limit, now);
        }
      case Saturating(ts, current) =>
        if s.word == current {
          SaturateWithin(s.word, s.log, start, second, limit, ts);
        }
    }
  }

  lemma {:induction false} ExecWithin(s: System, actions: seq<Action>, start: nat, second: nat, limit: nat)
    requires 1 <= limit < HALF - 1 && Within(s.word, s.log, start, second, limit)
    ensures var t := Exec(s, actions, limit); Within(t.word, t.log, start, second, limit)
    decreases |actions|
  {
    if actions != [] {
      StepWithin(s, actions[0], start, second, limit);
      ExecWithin(Next(s, actions[0], limit), actions[1..], start, second, limit);
    }
  }

  // ---- Main results ----

  /** In every interleaving a second admits at most the limit for each time the word entered it. */
  lemma AdmittedPerEntry(word: nat, actions: seq<Action>, second: nat, limit: nat)
    requires 1 <= limit < HALF - 1
    ensures var t := Exec(Idle(word), actions, limit);
            Admitted(t.log, second) <= limit * Entries(t.log, Ts(word), second)
  {
    ExecWithin(Idle(word), actions, Ts(word), second, limit);
    var t := Exec(Idle(word), actions, limit);
    if Ts(t.word) == second {
      EntriesStep(limit, Entries(t.log, Ts(word), second));
    }
  }

  /** Committed windows do not go back. */
  predicate Forward(log: seq<Write>) {
    forall i | 0 <= i < |log| :: log[i].was <= log[i].ts
  }

  lemma StepExtends(s: System, a: Action, limit: nat)
    requires limit < HALF
    ensures s.log <= Next(s, a, limit).log
  {
  }

  lemma {:induction false} ExecExtends(s: System, actions: seq<Action>, limit: nat)
    requires limit < HALF
    ensures s.log <= Exec(s, actions, limit).log
    decreases |actions|
  {
    if actions != [] {
      StepExtends(s, actions[0], limit);
      ExecExtends(Next(s, actions[0], limit), actions[1..], limit);
    }
  }

  // ---- Refusals are earned ----

  /** Without saturation writes, a word of this second counts no more than the second has admitted. */
  predicate Earned(word: nat, log: seq<Write>, second: nat) {
    Ts(word) == second ==> Count(word) <= Admitted(log, second)
  }

  predicate OpEarned(op: Op, log: seq<Write>, second: nat) {
    op.Checking? && Earned(op.current, log, second)
  }

  ghost predicate AllEarned(s: System, second: nat) {
    Earned(s.word, s.log, second) && forall t | t in s.ops :: OpEarned(s.ops[t], s.log, second)
  }

  predicate NoSaturation(actions: seq<Action>) {
    forall i | 0 <= i < |actions| :: !actions[i].BeginSaturate?
  }

  lemma AdmitEarned(word: nat, log: seq<Write>, second: nat, limit: nat, now: nat)
    requires limit < HALF && Earned(word, log, second) && Proposal(word, now, limit).Some?
    ensures Earned(Proposal(word, now, limit).value, log + [Admit(now, Ts(word))], second)
    ensures Admitted(log, second) <= Admitted(log + [Admit(now, Ts(word))], second)
  {
    LogSnoc(log, Admit(now, Ts(word)), 0, second);
    PackSplits(now, if Ts(word) != now then 1 else Count(word) + 1);
  }

  lemma StepEarned(s: System, a: Action, second: nat, limit: nat)
    requires limit < HALF && AllEarned(s, second) && !a.BeginSaturate?
    ensures AllEarned(Next(s, a, limit), second)
  {
    if a.Try? && a.thread in s.ops {
      assert OpEarned(s.ops[a.thread], s.log, second);
      var op := s.ops[a.thread];
      if Proposal(op.current, op.now, limit).Some? && s.word == op.current && !a.spurious {
        AdmitEarned(s.word, s.log, second, limit, op.now);
        forall t | t in s.ops ensures OpEarned(s.ops[t], s.log + [Admit(op.now, Ts(s.word))], second) {
          assert OpEarned(s.ops[t], s.log, second);
        }
      }
    }
  }

  lemma {:induction false} ExecEarned(s: System, actions: seq<Action>, second: nat, limit: nat)
    requires limit < HALF && AllEarned(s, second) && NoSaturation(actions)
    ensures AllEarned(Exec(s, actions, limit), second)
    decreases |actions|
  {
    if actions != [] {
      assert !actions[0].BeginSaturate?;
      StepEarned(s, actions[0], second, limit);
      ExecEarned(Next(s, actions[0], limit), actions[1..], second, limit);
    }
  }

  /**
   A check is refused only when its second has admitted the whole limit, in every
   interleaving without saturation writes on a word that was not in that second before.
   */
  lemma RefusedOnlyWhenFull(word: nat, actions: seq<Action>, limit: nat, t: nat)
    requires limit < HALF && NoSaturation(actions)
    ensures var s := Exec(Idle(word), actions, limit);
            t in s.ops && s.ops[t].Checking? && s.ops[t].now != Ts(word)
            && Proposal(s.ops[t].current, s.ops[t].now, limit).None? ==>
              Admitted(s.log, s.ops[t].now) >= limit
  {
    var s := Exec(Idle(word), actions, limit);
    if t in s.ops && s.ops[t].Checking? && s.ops[t].now != Ts(word) {
      ExecEarned(Idle(word), actions, s.ops[t].now, limit);
      assert OpEarned(s.ops[t], s.log, s.ops[t].now);
    }
  }

  // ---- Windows that go back ----

  function STALE_CHECK(): seq<Action> {
    [Begin(1, 6), Try(1, false), Begin(2, 5), Try(2, false), Begin(3, 6), Try(3, false)]
  }

  function LATE_SATURATION(): seq<Action> {
    [Begin(1, 6), Try(1, false), BeginSaturate(2, 5), Try(2, false), Begin(3, 6), Try(3, false)]
  }

  lemma ExecSix(s: System, a: seq<Action>, limit: nat)
    requires |a| == 6 && limit < HALF
    ensures Exec(s, a, limit)
         == var s2 := Next(Next(s, a[0], limit), a[1], limit);
            var s4 := Next(Next(s2, a[2], limit), a[3], limit);
            Next(Next(s4, a[4], limit), a[5], limit)
  {
    var s2 := Next(Next(s, a[0], limit), a[1], limit);
    var s4 := Next(Next(s2, a[2], limit), a[3], limit);
    assert a[1..][1..] == a[2..] && a[2..][1..] == a[3..] && a[3..][1..] == a[4..];
    assert a[4..][1..] == a[5..] && a[5..][1..] == [];
    assert Exec(s2, a[2..], limit) == Exec(s4, a[4..], limit);
    var s5 := Next(s4, a[4], limit);
    assert Exec(s5, a[5..], limit) == Next(s5, a[5], limit);
    assert Exec(s4, a[4..], limit) == Next(s5, a[5], limit);
  }

  /** With a limit of 1, a check that still carries the previous second lets a second one through. */
  lemma StaleCheckReopens()
    ensures Admitted(Exec(Idle(0), STALE_CHECK(), 1).log, 6) == 2
  {
    var a := STALE_CHECK();
    ExecSix(Idle(0), a, 1);
    var s := Next(Next(Idle(0), a[0], 1), a[1], 1);
    PackSplits(6, 1);
    PackSplits(5, 1);
    assert s.log == [Admit(6, 0)];
    var t := Next(Next(s, a[2], 1), a[3], 1);
    assert t.log == [Admit(6, 0), Admit(5, 6)];
    var u := Next(Next(t, a[4], 1), a[5], 1);
    LogSnoc([], Admit(6, 0), 0, 6);
    LogSnoc([Admit(6, 0)], Admit(5, 6), 0, 6);
    LogSnoc(t.log, Admit(6, 5), 0, 6);
  }

  /** A saturation write that arrives after its second also reopens the current one. */
  lemma LateSaturationReopens()
    ensures Admitted(Exec(Idle(0), LATE_SATURATION(), 1).log, 6) == 2
  {
    var a := LATE_SATURATION();
    ExecSix(Idle(0), a, 1);
    var s := Next(Next(Idle(0), a[0], 1), a[1], 1);
    PackSplits(6, 1);
    PackSplits(5, 2);
    assert s.log == [Admit(6, 0)];
    var t := Next(Next(s, a[2], 1), a[3], 1);
    assert t.log == [Admit(6, 0), Saturate(5, 6)];
    var u := Next(Next(t, a[4], 1), a[5], 1);
    LogSnoc([], Admit(6, 0), 0, 6);
    LogSnoc([Admit(6, 0)], Saturate(5, 6), 0, 6);
    LogSnoc(t.log, Admit(6, 5), 0, 6);
  }
}
