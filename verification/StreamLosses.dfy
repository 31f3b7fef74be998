/**
 Exactly which revisions a resuming edge is never told, in every interleaving of
 publishers and subscriber, whether or not appends reach the ring in order.
 */
module StreamLosses {
  import opened ConfigStream

  // ---- One replay ----

  /** The ring has an answer for `r`: the event itself, or the knowledge that the gap starts before the ring. */
  predicate Answered(ring: seq<nat>, lastId: nat, r: nat)
    requires ring != []
  {
    lastId < ring[|ring| - 1] && (r in ring || (lastId >= 1 && lastId + 1 < ring[0]))
  }

  lemma ToldChanged(missed: seq<nat>, r: nat)
    ensures Told(AsChanged(missed), r) <==> r in missed
  {
    var frames := AsChanged(missed);
    if Told(frames, r) {
      var f :| f in frames && Covers(f, r);
      var i :| 0 <= i < |frames| && frames[i] == f;
    }
    if r in missed {
      var i :| 0 <= i < |missed| && missed[i] == r;
      assert frames[i] in frames && Covers(frames[i], r);
    }
  }

  /** A replay tells a revision, or covers it by a stale frame, if and only if the ring has an answer for it. */
  lemma ReplayToldIff(ring: seq<nat>, lastId: nat, revision: nat, r: nat)
    requires 1 <= |ring| <= RING_CAP && lastId < r <= revision
    ensures Told(ReplayFrames(ring, lastId, revision), r) <==> Answered(ring, lastId, r)
  {
    var (missed, stale) := SelectMissed(ring, lastId, RING_CAP);
    NewerIn(ring, lastId, r);
    ReplayTold(stale, missed, revision, r);
    if !stale {
      assert ReplayFrames(ring, lastId, revision) == AsChanged(missed);
      ToldChanged(missed, r);
    }
  }

  // ---- Every edge that could resume now ----

  /** Whatever revision an edge resumes at, it is told every later one or will receive it. */
  ghost predicate ResumeSafe(s: Plane) {
    forall lastId: nat, r: nat | 1 <= lastId < r <= s.revision ::
      Told(ReplayFrames(s.ring, lastId, s.revision), r) || r in s.pending
  }

  /** Every revision that is no longer on its way is below the ring or in it, and not beyond its last entry. */
  ghost predicate NoHole(ring: seq<nat>, pending: map<nat, bool>, revision: nat)
    requires ring != []
  {
    forall r: nat | 2 <= r <= revision && r !in pending :: r <= ring[|ring| - 1] && (r < ring[0] || r in ring)
  }

  /** What holds of the ring in every interleaving. */
  ghost predicate RingSound(s: Plane) {
    && 1 <= |s.ring| <= RING_CAP
    && (forall r | r in s.ring :: 1 <= r <= s.revision)
    && (forall r | r in s.pending :: 1 <= r <= s.revision)
  }

  /** Resuming is safe for every edge if and only if the ring has no hole. */
  lemma ResumeSafeIff(s: Plane)
    requires RingSound(s)
    ensures ResumeSafe(s) <==> NoHole(s.ring, s.pending, s.revision)
  {
    var ring, rev := s.ring, s.revision;
    forall lastId: nat, r: nat | 1 <= lastId < r <= rev
      ensures Told(ReplayFrames(ring, lastId, rev), r) <==> Answered(ring, lastId, r)
    {
      ReplayToldIff(ring, lastId, rev, r);
    }
    if ResumeSafe(s) {
      forall r: nat | 2 <= r <= rev && r !in s.pending
        ensures r <= ring[|ring| - 1] && (r < ring[0] || r in ring)
      {
        var lastId: nat := r - 1;
        assert Told(ReplayFrames(ring, lastId, rev), r);
      }
    }
  }

  /** The ring ends in the current revision and holds every revision from its first on. */
  ghost predicate Seamless(ring: seq<nat>, revision: nat)
    requires ring != []
  {
    ring[|ring| - 1] == revision && forall r: nat | ring[0] <= r <= revision :: r in ring
  }

  lemma SeamlessIff(ring: seq<nat>, revision: nat)
    requires ring != [] && forall r | r in ring :: 1 <= r <= revision
    ensures NoHole(ring, map[], revision) <==> Seamless(ring, revision)
  {
    var last := ring[|ring| - 1];
    assert ring[0] in ring && last in ring;
    if NoHole(ring, map[], revision) {
      if revision >= 2 {
        assert revision < ring[0] || revision in ring;
      }
      forall r: nat | ring[0] <= r <= revision ensures r in ring {
        if r == 1 {
          assert r == ring[0];
        }
      }
    }
  }

  /** Between publications resuming is safe for every edge if and only if the ring is seamless. */
  lemma QuietSafeIff(s: Plane)
    requires RingSound(s) && s.pending == map[]
    ensures ResumeSafe(s) <==> Seamless(s.ring, s.revision)
  {
    ResumeSafeIff(s);
    SeamlessIff(s.ring, s.revision);
  }

  lemma StepSound(s: Plane, a: Action)
    requires RingSound(s)
    ensures RingSound(Next(s, a))
  {
    if a.Append? {
      TrimOne(s.ring, a.r);
      forall x | x in Trim(s.ring + [a.r]) ensures x in s.ring + [a.r] {
        TrimIn(s.ring + [a.r], x);
      }
    }
  }

  lemma {:induction false} ExecSound(s: Plane, actions: seq<Action>)
    requires RingSound(s)
    ensures RingSound(Exec(s, actions))
    decreases actions
  {
    if actions != [] {
      StepSound(s, actions[0]);
      ExecSound(Next(s, actions[0]), actions[1..]);
    }
  }

  /** ... in every reachable state of every interleaving. */
  lemma RunSafeIff(seed: nat, actions: seq<Action>)
    requires seed >= 1
    ensures var s := Exec(Init(seed), actions);
            s.ring != [] && (ResumeSafe(s) <==> NoHole(s.ring, s.pending, s.revision))
  {
    ExecSound(Init(seed), actions);
    ResumeSafeIff(Exec(Init(seed), actions));
  }

  // ---- What becomes of one revision ----

  /** The revision has been told or is still on its way. */
  ghost predicate Kept(s: Plane, r: nat) {
    s.sub.Live? && (Told(s.sub.sent, r) || OnItsWay(s.sub.inbox, s.pending, r))
  }

  lemma TakeKeeps(s: Plane, r: nat)
    requires Kept(s, r) && r <= s.revision
    ensures Kept(Next(s, Receive), r)
  {
    var t := Take(s.sub, s.revision);
    if t.sent != s.sub.sent {
      var f := t.sent[|t.sent| - 1];
      if Told(s.sub.sent, r) || Covers(f, r) {
        ToldMore(s.sub.sent, f, r);
      }
    }
  }

  /** What is kept stays kept, until the edge disconnects. */
  lemma KeptStep(s: Plane, a: Action, r: nat)
    requires Kept(s, r) && r <= s.revision && !a.Disconnect?
    ensures Kept(Next(s, a), r)
  {
    match a
    case Receive => TakeKeeps(s, r);
    case Broadcast(q) =>
      if OnItsWay(s.sub.inbox, s.pending, r) {
        OfferKeeps(s.sub.inbox, s.pending, q, r);
      }
    case _ =>
  }

  predicate Connected(actions: seq<Action>) {
    forall i | 0 <= i < |actions| :: !actions[i].Disconnect?
  }

  lemma {:induction false} KeptRun(s: Plane, actions: seq<Action>, r: nat)
    requires Kept(s, r) && r <= s.revision && Connected(actions)
    ensures Kept(Exec(s, actions), r)
    decreases actions
  {
    if actions != [] {
      assert !actions[0].Disconnect?;
      KeptStep(s, actions[0], r);
      assert Connected(actions[1..]);
      KeptRun(Next(s, actions[0]), actions[1..], r);
    }
  }

  /** Everything published while the edge is connected is kept. */
  lemma {:induction false} LaterKept(s: Plane, actions: seq<Action>, r: nat)
    requires s.sub.Live? && Connected(actions) && s.revision < r <= Exec(s, actions).revision
    ensures Kept(Exec(s, actions), r)
    decreases actions
  {
    if actions != [] {
      var t := Next(s, actions[0]);
      assert !actions[0].Disconnect? && Connected(actions[1..]);
      if r <= t.revision {
        assert Kept(t, r);
        KeptRun(t, actions[1..], r);
      } else {
        LaterKept(t, actions[1..], r);
      }
    }
  }

  /** Since the first `k` frames the receiver has fallen off the buffer. */
  ghost predicate Overflowed(s: Plane, k: nat) {
    s.sub.Live? && (s.sub.inbox.lagged || exists i | k <= i < |s.sub.sent| :: s.sub.sent[i].Stale?)
  }

  /** The revision has been neither told nor kept, and there was no overflow. */
  ghost predicate Lost(s: Plane, k: nat, r: nat) {
    s.sub.Live? && k <= |s.sub.sent| && !Kept(s, r) && !Overflowed(s, k)
  }

  lemma TakeLost(s: Plane, k: nat, r: nat)
    requires Lost(s, k, r)
    ensures Lost(Next(s, Receive), k, r)
  {
    var q, sent := s.sub.inbox.queue, s.sub.sent;
    if q != [] {
      assert q[0] in q && forall x | x in q[1..] :: x in q;
      assert forall f | f in sent + [Changed(q[0])] :: f in sent || f == Changed(q[0]);
      assert forall i | k <= i < |sent| :: (sent + [Changed(q[0])])[i] == sent[i];
    }
  }

  /** What is lost stays lost, until the edge disconnects or the receiver overflows. */
  lemma LostStep(s: Plane, a: Action, k: nat, r: nat)
    requires Lost(s, k, r) && r <= s.revision && !a.Disconnect?
    ensures Lost(Next(s, a), k, r) || (Kept(Next(s, a), r) && Overflowed(Next(s, a), k))
  {
    if a.Receive? {
      TakeLost(s, k, r);
    }
  }

  lemma OverflowStep(s: Plane, a: Action, k: nat)
    requires Overflowed(s, k) && k <= |s.sub.sent| && !a.Disconnect?
    ensures Overflowed(Next(s, a), k) && k <= |Next(s, a).sub.sent|
  {
    if a.Receive? {
      var t := Take(s.sub, s.revision);
      if s.sub.inbox.lagged {
        assert t.sent[|s.sub.sent|].Stale?;
      } else {
        var i :| k <= i < |s.sub.sent| && s.sub.sent[i].Stale?;
        assert t.sent[i].Stale?;
      }
    }
  }

  lemma {:induction false} OverflowRun(s: Plane, actions: seq<Action>, k: nat)
    requires Overflowed(s, k) && k <= |s.sub.sent| && Connected(actions)
    ensures Overflowed(Exec(s, actions), k)
    decreases actions
  {
    if actions != [] {
      assert !actions[0].Disconnect? && Connected(actions[1..]);
      OverflowStep(s, actions[0], k);
      OverflowRun(Next(s, actions[0]), actions[1..], k);
    }
  }

  lemma {:induction false} LostRun(s: Plane, actions: seq<Action>, k: nat, r: nat)
    requires Lost(s, k, r) && r <= s.revision && Connected(actions)
    ensures Kept(Exec(s, actions), r) <==> Overflowed(Exec(s, actions), k)
    decreases actions
  {
    if actions != [] {
      var t := Next(s, actions[0]);
      assert !actions[0].Disconnect? && Connected(actions[1..]);
      LostStep(s, actions[0], k, r);
      if Lost(t, k, r) {
        LostRun(t, actions[1..], k, r);
      } else {
        KeptRun(t, actions[1..], r);
        OverflowRun(t, actions[1..], k);
      }
    }
  }

  // ---- Main result ----

  /**
   In every interleaving, ordered or not: an edge that replays in state `s` and stays
   connected has been told a revision, or still will be, if and only if the revision
   was published later, was on its way at the replay, was answered by the ring, or the
   receiver has overflowed since, which brings a stale frame.
   */
  lemma KeptExactlyWhen(s: Plane, actions: seq<Action>, r: nat)
    requires s.sub.Waiting? && 1 <= |s.ring| <= RING_CAP && Connected(actions)
    requires s.sub.lastId < r <= Exec(Next(s, Replay), actions).revision
    ensures var t := Exec(Next(s, Replay), actions);
            Kept(t, r) <==>
              || r > s.revision
              || OnItsWay(s.sub.inbox, s.pending, r)
              || Answered(s.ring, s.sub.lastId, r)
              || Overflowed(t, |ReplayFrames(s.ring, s.sub.lastId, s.revision)|)
  {
    var live := Next(s, Replay);
    var k := |ReplayFrames(s.ring, s.sub.lastId, s.revision)|;
    if r > s.revision {
      LaterKept(live, actions, r);
    } else {
      ReplayToldIff(s.ring, s.sub.lastId, s.revision, r);
      if Kept(live, r) {
        KeptRun(live, actions, r);
      } else {
        LostRun(live, actions, k, r);
      }
    }
  }

  /** ... in every run of the control plane. */
  lemma RunKeptExactlyWhen(seed: nat, before: seq<Action>, after: seq<Action>, r: nat)
    requires seed >= 1 && Connected(after)
    requires var s := Exec(Init(seed), before);
             s.sub.Waiting? && s.sub.lastId < r <= Exec(Next(s, Replay), after).revision
    ensures var s := Exec(Init(seed), before);
            var t := Exec(Next(s, Replay), after);
            && s.ring != []
            && (Kept(t, r) <==>
                || r > s.revision
                || OnItsWay(s.sub.inbox, s.pending, r)
                || Answered(s.ring, s.sub.lastId, r)
                || Overflowed(t, |ReplayFrames(s.ring, s.sub.lastId, s.revision)|))
  {
    ExecSound(Init(seed), before);
    KeptExactlyWhen(Exec(Init(seed), before), after, r);
  }

  // ---- A hole that eviction leaves ----

  function Range(from: nat, n: nat): (s: seq<nat>)
    ensures |s| == n && forall i | 0 <= i < n :: s[i] == from + i
  {
    seq(n, i => from + i)
  }

  function Publications(revision: nat, n: nat): seq<Action>
    decreases n
  {
    if n == 0 then []
    else [Bump, Append(revision + 1), Broadcast(revision + 1)] + Publications(revision + 1, n - 1)
  }

  function LastOf(ring: seq<nat>): seq<nat> {
    if |ring| > RING_CAP then ring[|ring| - RING_CAP..] else ring
  }

  lemma DropFirst(x: nat, ring: seq<nat>)
    requires |ring| >= RING_CAP
    ensures LastOf([x] + ring) == LastOf(ring)
  {
    assert ([x] + ring)[1..] == ring;
  }

  lemma Assoc(a: seq<nat>, b: seq<nat>, c: seq<nat>)
    ensures a + b + c == a + (b + c)
  {
  }

  lemma FullStep(ring: seq<nat>, r: nat, more: seq<nat>)
    requires |ring| == RING_CAP
    ensures LastOf(ring[1..] + [r] + more) == LastOf(ring + [r] + more)
  {
    var rest := ring[1..] + [r];
    assert [ring[0]] + rest == ring + [r];
    Assoc([ring[0]], rest, more);
    DropFirst(ring[0], rest + more);
  }

  /** The ring after `n` more revisions. */
  function RingAfter(ring: seq<nat>, from: nat, n: nat): seq<nat>
    decreases n
  {
    if n == 0 then ring else RingAfter(Trim(ring + [from]), from + 1, n - 1)
  }

  lemma {:induction false} RingAfterIsEnd(ring: seq<nat>, from: nat, n: nat)
    requires |ring| <= RING_CAP
    ensures RingAfter(ring, from, n) == LastOf(ring + Range(from, n))
    decreases n
  {
    if n == 0 {
      assert ring + Range(from, 0) == ring;
    } else {
      var more := Range(from + 1, n - 1);
      RingAfterIsEnd(Trim(ring + [from]), from + 1, n - 1);
      TrimOne(ring, from);
      if |ring| == RING_CAP {
        FullStep(ring, from, more);
      }
      Assoc(ring, [from], more);
      assert [from] + more == Range(from, n);
    }
  }

  lemma ExecPublication(s: Plane, more: seq<Action>)
    requires s.pending == map[] && s.sub.Off?
    ensures var r := s.revision + 1;
            Exec(s, [Bump, Append(r), Broadcast(r)] + more) == Exec(Plane(r, Trim(s.ring + [r]), map[], Off), more)
  {
    var r := s.revision + 1;
    ExecAppend(s, [Bump, Append(r), Broadcast(r)], more);
    PublishSteps(s, r);
  }

  /** Publications one at a time move the ring along. */
  lemma {:induction false} PublishMany(s: Plane, n: nat)
    requires s.pending == map[] && s.sub.Off?
    ensures Exec(s, Publications(s.revision, n))
         == Plane(s.revision + n, RingAfter(s.ring, s.revision + 1, n), map[], Off)
    decreases n
  {
    if n > 0 {
      var r := s.revision + 1;
      ExecPublication(s, Publications(r, n - 1));
      PublishMany(Plane(r, Trim(s.ring + [r]), map[], Off), n - 1);
    }
  }

  function OVERLAP(): seq<Action> {
    [Bump, Bump, Append(3), Append(2), Broadcast(3), Broadcast(2)]
  }

  lemma AfterOverlap()
    ensures Exec(Init(1), OVERLAP()) == Plane(3, [1, 3, 2], map[], Off)
  {
    var s2 := Next(Next(Init(1), Bump), Bump);
    var s4 := Next(Next(s2, Append(3)), Append(2));
    TrimOne([1], 3);
    TrimOne([1, 3], 2);
    assert [1] + [3] == [1, 3] && [1, 3] + [2] == [1, 3, 2];
    var s6 := Next(Next(s4, Broadcast(3)), Broadcast(2));
    assert s6.pending == map[];
    ExecTwo(Init(1), Bump, Bump);
    ExecTwo(s2, Append(3), Append(2));
    ExecTwo(s4, Broadcast(3), Broadcast(2));
    ExecAppend(Init(1), [Bump, Bump], [Append(3), Append(2)]);
    ExecAppend(Init(1), [Bump, Bump, Append(3), Append(2)], [Broadcast(3), Broadcast(2)]);
    assert [Bump, Bump] + [Append(3), Append(2)] == [Bump, Bump, Append(3), Append(2)];
    assert [Bump, Bump, Append(3), Append(2)] + [Broadcast(3), Broadcast(2)] == OVERLAP();
  }

  function HOLE(): seq<Action> {
    OVERLAP() + Publications(3, 127)
  }

  lemma HoleRing()
    ensures RingAfter([1, 3, 2], 4, 127) == [2] + Range(4, 127)
  {
    var ring := [2] + Range(4, 127);
    RingAfterIsEnd([1, 3, 2], 4, 127);
    DropFirst(3, ring);
    DropFirst(1, [3] + ring);
    assert [1] + ([3] + ring) == [1, 3, 2] + Range(4, 127);
  }

  lemma HoleReached()
    ensures Exec(Init(1), HOLE()) == Plane(130, [2] + Range(4, 127), map[], Off)
  {
    AfterOverlap();
    ExecAppend(Init(1), OVERLAP(), Publications(3, 127));
    PublishMany(Plane(3, [1, 3, 2], map[], Off), 127);
    HoleRing();
  }

  lemma HoleHides(ring: seq<nat>)
    requires |ring| == RING_CAP && ring[0] == 2 && forall i | 1 <= i < |ring| :: ring[i] == 3 + i
    ensures LastIsLargest(ring) && !Told(ReplayFrames(ring, 1, 130), 3)
  {
    ReplayToldIff(ring, 1, 130, 3);
  }

  /**
   Two overlapping publications, then 127 more one at a time: the ring ends in its
   largest revision, and yet an edge at 1 is never told about 3, which was evicted
   before 2.
   */
  lemma EvictionLeavesHole()
    ensures var s := Exec(Init(1), HOLE());
            && s.pending == map[] && s.revision == 130 && LastIsLargest(s.ring)
            && !Told(ReplayFrames(s.ring, 1, s.revision), 3)
  {
    HoleReached();
    HoleHides(Exec(Init(1), HOLE()).ring);
  }
}
