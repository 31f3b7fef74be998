/**
 The check's retry loop against the transition system: what the loop returns and
 writes is what the steps of its thread do, with the writes of others in between.
 */
module RateRace {
  import opened RateLimit

  /**
   Thread `t` tries until it is done; before an exchange the word becomes the next of
   `others`, which is what other threads have made of it by then.
   */
  function Contend(s: System, t: nat, limit: nat, others: seq<nat>): System
    requires limit < HALF
    decreases |others|
  {
    if t !in s.ops || !s.ops[t].Checking? then s
    else if others == [] || Proposal(s.ops[t].current, s.ops[t].now, limit).None? then Next(s, Try(t, false), limit)
    else Contend(Next(s.(word := others[0]), Try(t, false), limit), t, limit, others[1..])
  }

  /** The word on which the check was decided: the last one it saw. */
  function Decisive(word: nat, now: nat, limit: nat, others: seq<nat>): nat
    requires limit < HALF
    decreases |others|
  {
    if Proposal(word, now, limit).None? || others == [] || others[0] == word then word
    else Decisive(others[0], now, limit, others[1..])
  }

  lemma {:induction false} LoopIsRun(s: System, t: nat, now: nat, limit: nat, others: seq<nat>)
    requires limit < HALF && t in s.ops && s.ops[t] == Checking(now, s.word)
    ensures var u := Contend(s, t, limit, others);
            var (allowed, word) := Race(s.word, now, limit, others);
            var d := Decisive(s.word, now, limit, others);
            && u.word == word && u.ops == s.ops - {t}
            && u.log == if allowed then s.log + [Admit(now, Ts(d))] else s.log
    decreases |others|
  {
    if Proposal(s.word, now, limit).Some? && others != [] {
      var v := s.(word := others[0]);
      var next := Next(v, Try(t, false), limit);
      if others[0] == s.word {
        assert v == s && t !in next.ops;
      } else {
        assert next == v.(ops := s.ops[t := Checking(now, others[0])]);
        assert next.ops - {t} == s.ops - {t};
        LoopIsRun(next, t, now, limit, others[1..]);
      }
    }
  }

  /**
   The verdict and the word of a check are those of a run of the transition system:
   the check begins, fails its exchange on each word that others put in its way, and
   in the end is refused or admitted. Being admitted is exactly one admission in its
   own second on the log.
   */
  lemma CheckIsRun(s: System, t: nat, now: nat, limit: nat, others: seq<nat>)
    requires limit < HALF && t !in s.ops
    ensures var u := Contend(Next(s, Begin(t, now), limit), t, limit, others);
            var (allowed, word) := Race(s.word, now, limit, others);
            && u.word == word && u.ops == s.ops
            && u.log == if allowed then s.log + [Admit(now, Ts(Decisive(s.word, now, limit, others)))] else s.log
  {
    var loaded := Next(s, Begin(t, now), limit);
    LoopIsRun(loaded, t, now, limit, others);
    assert loaded.ops - {t} == s.ops;
  }

  /**
   What an admitted check leaves: the count of its second is one more than on the word
   it replaced, and one if that was of another second. A refused check leaves the word
   on which the second was used up.
   */
  lemma {:induction false} CheckCounts(word: nat, now: nat, limit: nat, others: seq<nat>)
    requires limit < HALF
    ensures var (allowed, w) := Race(word, now, limit, others);
            var d := Decisive(word, now, limit, others);
            && (allowed <==> Ts(d) != now || Count(d) < limit)
            && (allowed ==> Ts(w) == now && Count(w) == (if Ts(d) == now then Count(d) + 1 else 1))
            && (!allowed ==> w == d)
    decreases |others|
  {
    var p := Proposal(word, now, limit);
    if p.Some? {
      if others == [] || others[0] == word {
        PackSplits(now, if Ts(word) != now then 1 else Count(word) + 1);
      } else {
        CheckCounts(others[0], now, limit, others[1..]);
      }
    }
  }

  /** A step changes the word only by an exchange over the very word its thread had loaded. */
  lemma WritesOnlyOverLoaded(s: System, a: Action, limit: nat)
    requires limit < HALF && Next(s, a, limit).word != s.word
    ensures a.Try? && a.thread in s.ops && s.ops[a.thread].current == s.word
    ensures |Next(s, a, limit).log| == |s.log| + 1
  {
  }

  /** A check whose exchange fails, if only spuriously, writes nothing and goes on with the word as it is now. */
  lemma FailedExchangeReloads(s: System, t: nat, limit: nat, spurious: bool)
    requires limit < HALF && t in s.ops && s.ops[t].Checking? && Proposal(s.ops[t].current, s.ops[t].now, limit).Some?
    requires spurious || s.ops[t].current != s.word
    ensures Next(s, Try(t, spurious), limit) == s.(ops := s.ops[t := Checking(s.ops[t].now, s.word)])
  {
  }

  /**
   A saturation write is attempted once: it puts one more than the limit into its second
   if the word has not changed since its load, and nothing otherwise.
   */
  lemma SaturationWrites(s: System, t: nat, limit: nat, spurious: bool)
    requires limit < HALF - 1 && t in s.ops && s.ops[t].Saturating?
    ensures var u := Next(s, Try(t, spurious), limit);
            && u.ops == s.ops - {t}
            && if s.ops[t].current == s.word
               then Ts(u.word) == s.ops[t].ts && Count(u.word) == limit + 1
                    && u.log == s.log + [Saturate(s.ops[t].ts, Ts(s.word))]
               else u.word == s.word && u.log == s.log
  {
    PackSplits(s.ops[t].ts, limit + 1);
  }
}
