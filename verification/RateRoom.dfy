/**
 How many more calls a second can admit. `Room` is read off the bucket's word, and
 it is exact: no continuation whose windows do not go back admits more, and some
 continuation admits that many.
 */
module RateRoom {
  import opened RateLimit

  /** What the word leaves of a second, as long as windows do not go back. */
  function Room(word: nat, second: nat, limit: nat): nat {
    if Ts(word) > second then 0
    else if Ts(word) == second then limit - Min(Count(word), limit)
    else limit
  }

  /** The later log extends the earlier one by writes that do not go back. */
  predicate ForwardSince(earlier: seq<Write>, later: seq<Write>) {
    earlier <= later && Forward(later[|earlier|..])
  }

  // ---- No more than the room ----

  lemma AdmitRoom(word: nat, log: seq<Write>, second: nat, limit: nat, now: nat)
    requires 1 <= limit < HALF && Proposal(word, now, limit).Some? && Ts(word) <= now
    ensures var log' := log + [Admit(now, Ts(word))];
            && Admitted(log', second) >= Admitted(log, second)
            && Admitted(log', second) + Room(Proposal(word, now, limit).value, second, limit)
               <= Admitted(log, second) + Room(word, second, limit)
  {
    LogSnoc(log, Admit(now, Ts(word)), 0, second);
    PackSplits(now, if Ts(word) != now then 1 else Count(word) + 1);
  }

  lemma SaturateRoom(word: nat, log: seq<Write>, second: nat, limit: nat, ts: nat)
    requires 1 <= limit < HALF - 1 && Ts(word) <= ts
    ensures Admitted(log + [Saturate(ts, Ts(word))], second) == Admitted(log, second)
    ensures Room(Pack(ts, limit + 1), second, limit) <= Room(word, second, limit)
  {
    LogSnoc(log, Saturate(ts, Ts(word)), 0, second);
    PackSplits(ts, limit + 1);
  }

  lemma LastForward(log: seq<Write>, w: Write)
    requires ForwardSince(log, log + [w])
    ensures w.was <= w.ts
  {
    assert (log + [w])[|log|..] == [w];
    assert [w][0] == w;
  }

  lemma StepRoom(s: System, a: Action, second: nat, limit: nat)
    requires 1 <= limit < HALF - 1 && ForwardSince(s.log, Next(s, a, limit).log)
    ensures var t := Next(s, a, limit);
            && Admitted(t.log, second) >= Admitted(s.log, second)
            && Admitted(t.log, second) + Room(t.word, second, limit)
               <= Admitted(s.log, second) + Room(s.word, second, limit)
  {
    if a.Try? && a.thread in s.ops {
      match s.ops[a.thread]
      case Checking(now, current) =>
        if Proposal(current, now, limit).Some? && s.word == current && !a.spurious {
          LastForward(s.log, Admit(now, Ts(s.word)));
          AdmitRoom(s.word, s.log, second, limit, now);
        }
      case Saturating(ts, current) =>
        if s.word == current {
          LastForward(s.log, Saturate(ts, Ts(s.word)));
          SaturateRoom(s.word, s.log, second, limit, ts);
        }
    }
  }

  lemma ForwardSplit(a: seq<Write>, b: seq<Write>, c: seq<Write>)
    requires a <= b && b <= c && ForwardSince(a, c)
    ensures ForwardSince(a, b) && ForwardSince(b, c)
  {
    var late := c[|a|..];
    assert forall i | 0 <= i < |b| - |a| :: b[|a|..][i] == late[i];
    assert forall i | 0 <= i < |c| - |b| :: c[|b|..][i] == late[i + |b| - |a|];
  }

  /** A continuation whose windows do not go back admits at most the room. */
  lemma {:induction false} AtMostRoom(s: System, actions: seq<Action>, second: nat, limit: nat)
    requires 1 <= limit < HALF - 1 && ForwardSince(s.log, Exec(s, actions, limit).log)
    ensures var t := Exec(s, actions, limit);
            && Admitted(t.log, second) >= Admitted(s.log, second)
            && Admitted(t.log, second) + Room(t.word, second, limit)
               <= Admitted(s.log, second) + Room(s.word, second, limit)
    decreases |actions|
  {
    if actions != [] {
      var t := Next(s, actions[0], limit);
      StepExtends(s, actions[0], limit);
      ExecExtends(t, actions[1..], limit);
      ForwardSplit(s.log, t.log, Exec(s, actions, limit).log);
      StepRoom(s, actions[0], second, limit);
      AtMostRoom(t, actions[1..], second, limit);
    }
  }

  // ---- The room can be used up ----

  /** `n` checks of second `now` by thread `t`, one after another. */
  function Burst(t: nat, now: nat, n: nat): seq<Action> {
    if n == 0 then [] else [Begin(t, now), Try(t, false)] + Burst(t, now, n - 1)
  }

  lemma {:induction false} ExecAppend(s: System, a: seq<Action>, b: seq<Action>, limit: nat)
    requires limit < HALF
    ensures Exec(s, a + b, limit) == Exec(Exec(s, a, limit), b, limit)
    decreases |a|
  {
    if a == [] {
      assert a + b == b;
    } else {
      assert (a + b)[1..] == a[1..] + b;
      ExecAppend(Next(s, a[0], limit), a[1..], b, limit);
    }
  }

  /** The bucket after one undisturbed check that is admitted. */
  function Checked(s: System, now: nat, limit: nat): System
    requires limit < HALF && Proposal(s.word, now, limit).Some?
  {
    System(Proposal(s.word, now, limit).value, s.ops, s.log + [Admit(now, Ts(s.word))])
  }

  lemma OneCheck(s: System, t: nat, now: nat, limit: nat, more: seq<Action>)
    requires limit < HALF && t !in s.ops && Proposal(s.word, now, limit).Some?
    ensures Exec(s, [Begin(t, now), Try(t, false)] + more, limit) == Exec(Checked(s, now, limit), more, limit)
  {
    var pair := [Begin(t, now), Try(t, false)];
    var loaded := Next(s, pair[0], limit);
    assert loaded.ops - {t} == s.ops;
    assert Next(loaded, pair[1], limit) == Checked(s, now, limit);
    assert pair[1..] == [pair[1]] && pair[1..][1..] == [];
    assert Exec(loaded, pair[1..], limit) == Next(loaded, pair[1], limit);
    ExecAppend(s, pair, more, limit);
  }

  /** What a second has left when windows may go back to it. */
  function Space(word: nat, now: nat, limit: nat): nat {
    if Ts(word) == now then limit - Min(Count(word), limit) else limit
  }

  /** What a check does to the counts of every second. */
  lemma CheckedCounts(s: System, now: nat, limit: nat, second: nat, start: nat)
    requires 1 <= limit < HALF && Space(s.word, now, limit) >= 1
    ensures Proposal(s.word, now, limit).Some?
    ensures var u := Checked(s, now, limit);
            && Ts(u.word) == now && Space(u.word, now, limit) == Space(s.word, now, limit) - 1
            && Admitted(u.log, second) == Admitted(s.log, second) + (if now == second then 1 else 0)
            && Entries(u.log, start, second)
               == Entries(s.log, start, second) + (if now == second && Ts(s.word) != second then 1 else 0)
  {
    LogSnoc(s.log, Admit(now, Ts(s.word)), start, second);
    PackSplits(now, if Ts(s.word) != now then 1 else Count(s.word) + 1);
  }

  lemma {:induction false} BurstCounts(s: System, t: nat, now: nat, n: nat, limit: nat, second: nat, start: nat)
    requires 1 <= limit < HALF && t !in s.ops && n <= Space(s.word, now, limit)
    ensures var u := Exec(s, Burst(t, now, n), limit);
            && u.ops == s.ops
            && (n > 0 ==> Ts(u.word) == now)
            && Admitted(u.log, second) == Admitted(s.log, second) + (if now == second then n else 0)
            && Entries(u.log, start, second)
               == Entries(s.log, start, second) + (if n > 0 && now == second && Ts(s.word) != second then 1 else 0)
    decreases n
  {
    if n > 0 {
      CheckedCounts(s, now, limit, second, start);
      OneCheck(s, t, now, limit, Burst(t, now, n - 1));
      BurstCounts(Checked(s, now, limit), t, now, n - 1, limit, second, start);
    }
  }

  lemma ForwardJoin(a: seq<Write>, w: Write, c: seq<Write>)
    requires w.was <= w.ts && ForwardSince(a + [w], c)
    ensures ForwardSince(a, c)
  {
    var late := c[|a|..];
    assert c[|a|] == (a + [w])[|a|] == w;
    forall i | 0 <= i < |late| ensures late[i].was <= late[i].ts {
      if i > 0 {
        assert late[i] == c[|a| + 1..][i - 1];
      }
    }
  }

  lemma {:induction false} BurstForward(s: System, t: nat, now: nat, n: nat, limit: nat)
    requires 1 <= limit < HALF && t !in s.ops && n <= Space(s.word, now, limit) && Ts(s.word) <= now
    ensures ForwardSince(s.log, Exec(s, Burst(t, now, n), limit).log)
    decreases n
  {
    if n > 0 {
      CheckedCounts(s, now, limit, now, 0);
      OneCheck(s, t, now, limit, Burst(t, now, n - 1));
      BurstForward(Checked(s, now, limit), t, now, n - 1, limit);
      ForwardJoin(s.log, Admit(now, Ts(s.word)), Exec(s, Burst(t, now, n), limit).log);
    } else {
      assert s.log[|s.log|..] == [];
    }
  }

  function UseUp(s: System, t: nat, second: nat, limit: nat): seq<Action> {
    Burst(t, second, Room(s.word, second, limit))
  }

  /** Some continuation whose windows do not go back admits exactly the room. */
  lemma RoomIsReached(s: System, t: nat, second: nat, limit: nat)
    requires 1 <= limit < HALF - 1 && t !in s.ops
    ensures var u := Exec(s, UseUp(s, t, second, limit), limit);
            && ForwardSince(s.log, u.log)
            && Admitted(u.log, second) == Admitted(s.log, second) + Room(s.word, second, limit)
  {
    var n := Room(s.word, second, limit);
    BurstCounts(s, t, second, n, limit, second, 0);
    if Ts(s.word) <= second {
      BurstForward(s, t, second, n, limit);
    } else {
      assert s.log[|s.log|..] == [];
    }
  }

  // ---- Main results ----

  /** A continuation whose windows do not go back takes the second over the limit. */
  ghost predicate Overruns(s: System, actions: seq<Action>, second: nat, limit: nat)
    requires limit < HALF
  {
    var t := Exec(s, actions, limit);
    ForwardSince(s.log, t.log) && Admitted(t.log, second) > limit
  }

  /**
   From any state, however it came about, a second can go over the limit without any
   further window going back if and only if what it has admitted and what the word
   leaves of it are together more than the limit.
   */
  lemma OverrunIff(s: System, t: nat, second: nat, limit: nat)
    requires 1 <= limit < HALF - 1 && t !in s.ops
    ensures (exists actions :: Overruns(s, actions, second, limit))
            <==> Admitted(s.log, second) + Room(s.word, second, limit) > limit
  {
    if Admitted(s.log, second) + Room(s.word, second, limit) > limit {
      RoomIsReached(s, t, second, limit);
      assert Overruns(s, UseUp(s, t, second, limit), second, limit);
    } else {
      forall actions ensures !Overruns(s, actions, second, limit) {
        if ForwardSince(s.log, Exec(s, actions, limit).log) {
          AtMostRoom(s, actions, second, limit);
        }
      }
    }
  }

  /** So a bucket whose committed windows never go back admits no more than the limit in any second. */
  lemma AtMostLimit(word: nat, actions: seq<Action>, second: nat, limit: nat)
    requires 1 <= limit < HALF - 1
    ensures var t := Exec(Idle(word), actions, limit); Forward(t.log) ==> Admitted(t.log, second) <= limit
  {
    var t := Exec(Idle(word), actions, limit);
    if Forward(t.log) {
      assert t.log[0..] == t.log;
      AtMostRoom(Idle(word), actions, second, limit);
    }
  }

  /** The word leaves nothing of this second. */
  predicate UsedUp(word: nat, second: nat, limit: nat) {
    Ts(word) > second || (Ts(word) == second && Count(word) >= limit)
  }

  /** Once a second is used up, by counting or by a saturation write, it admits nothing more. */
  lemma UsedUpStays(s: System, actions: seq<Action>, second: nat, limit: nat)
    requires 1 <= limit < HALF - 1 && UsedUp(s.word, second, limit)
    requires ForwardSince(s.log, Exec(s, actions, limit).log)
    ensures UsedUp(Exec(s, actions, limit).word, second, limit)
    ensures Admitted(Exec(s, actions, limit).log, second) == Admitted(s.log, second)
  {
    AtMostRoom(s, actions, second, limit);
  }

  /** A saturation write for the word's current second uses it up. */
  lemma SaturationUsesUp(s: System, t: nat, limit: nat)
    requires 1 <= limit < HALF - 1 && t in s.ops && s.ops[t].Saturating?
    requires s.ops[t].current == s.word && s.ops[t].ts == Ts(s.word)
    ensures UsedUp(Next(s, Try(t, false), limit).word, Ts(s.word), limit)
  {
    PackSplits(s.ops[t].ts, limit + 1);
  }

  // ---- Windows that go back ----

  /** Filling a second, leaving it by one check, and coming back, over and over. */
  function Rounds(second: nat, limit: nat, e: nat): seq<Action> {
    if e == 0 then []
    else Burst(1, second, limit) + (Burst(1, second + 1, 1) + Rounds(second, limit, e - 1))
  }

  lemma {:induction false} RoundsCount(s: System, second: nat, limit: nat, e: nat, start: nat)
    requires 1 <= limit < HALF && 1 !in s.ops && Ts(s.word) != second
    ensures var t := Exec(s, Rounds(second, limit, e), limit);
            && Entries(t.log, start, second) == Entries(s.log, start, second) + e
            && Admitted(t.log, second) == Admitted(s.log, second) + limit * e
    decreases e
  {
    if e > 0 {
      var full := Exec(s, Burst(1, second, limit), limit);
      var left := Exec(full, Burst(1, second + 1, 1), limit);
      ExecAppend(s, Burst(1, second, limit), Burst(1, second + 1, 1) + Rounds(second, limit, e - 1), limit);
      ExecAppend(full, Burst(1, second + 1, 1), Rounds(second, limit, e - 1), limit);
      BurstCounts(s, 1, second, limit, limit, second, start);
      BurstCounts(full, 1, second + 1, 1, limit, second, start);
      RoundsCount(left, second, limit, e - 1, start);
      EntriesStep(limit, e);
    }
  }

  /** The limit for each entry is reached: for every number of entries some run admits exactly that many. */
  lemma EntriesAreUsed(word: nat, second: nat, limit: nat, e: nat)
    requires 1 <= limit < HALF && Ts(word) != second
    ensures var t := Exec(Idle(word), Rounds(second, limit, e), limit);
            Entries(t.log, Ts(word), second) == e && Admitted(t.log, second) == limit * e
  {
    RoundsCount(Idle(word), second, limit, e, Ts(word));
  }
}
