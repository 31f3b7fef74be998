/**
 The control plane's change stream as a transition system: publishers bump the
 revision, append to a bounded ring and broadcast; a subscriber subscribes, then
 replays the ring from its Last-Event-ID, then receives. Each of these is one
 step, and steps of different publishers and of the subscriber interleave freely.
 An event is represented by its revision.
 */
module ConfigStream {
  const RING_CAP: nat := 128
  const CHANNEL_CAP: nat := 256

  // ---- Which ring events a resuming edge still needs ----

  function Newer(ring: seq<nat>, lastId: nat): (r: seq<nat>)
    ensures |r| <= |ring|
  {
    if ring == [] then []
    else (if ring[0] > lastId then [ring[0]] else []) + Newer(ring[1..], lastId)
  }

  function SelectMissed(ring: seq<nat>, lastId: nat, cap: nat): (seq<nat>, bool) {
    if ring == [] then ([], lastId > 0)
    else
      var oldest, latest := ring[0], ring[|ring| - 1];
      if lastId >= latest then ([], false)
      else if lastId > 0 && lastId + 1 < oldest then ([], true)
      else
        var missed := Newer(ring, lastId);
        if |missed| > cap then (missed[..cap], true) else (missed, false)
  }

  lemma {:induction false} NewerIn(ring: seq<nat>, lastId: nat, r: nat)
    ensures r in Newer(ring, lastId) <==> r in ring && r > lastId
  {
    if ring != [] {
      NewerIn(ring[1..], lastId, r);
      assert r in ring <==> r == ring[0] || r in ring[1..];
    }
  }

  /** A smaller cap cuts off the end of the replay, and then the edge is told that it is stale. */
  lemma CapTruncates(ring: seq<nat>, lastId: nat, cap: nat)
    ensures var (all, unbridged) := SelectMissed(ring, lastId, |ring|);
            var (missed, stale) := SelectMissed(ring, lastId, cap);
            && missed == (if |all| > cap then all[..cap] else all)
            && (stale <==> unbridged || |all| > cap)
  {
    assert |Newer(ring, lastId)| <= |ring|;
  }

  /** Every ring event the edge lacks is replayed, or the edge is told it is stale. */
  ghost predicate Complete(ring: seq<nat>, lastId: nat, cap: nat) {
    var (missed, stale) := SelectMissed(ring, lastId, cap);
    stale || forall r | r in ring && r > lastId :: r in missed
  }

  ghost predicate LastIsLargest(ring: seq<nat>) {
    forall r | r in ring :: r <= ring[|ring| - 1]
  }

  lemma SelectComplete(ring: seq<nat>, lastId: nat, cap: nat)
    requires LastIsLargest(ring)
    ensures Complete(ring, lastId, cap)
  {
    forall r: nat ensures r in Newer(ring, lastId) <==> r in ring && r > lastId {
      NewerIn(ring, lastId, r);
    }
  }

  /** Replay is complete for every Last-Event-ID exactly when the ring ends in its largest revision. */
  lemma SelectCompleteIff(ring: seq<nat>, cap: nat)
    ensures (forall lastId :: Complete(ring, lastId, cap)) <==> LastIsLargest(ring)
  {
    if LastIsLargest(ring) {
      forall lastId ensures Complete(ring, lastId, cap) {
        SelectComplete(ring, lastId, cap);
      }
    } else {
      assert !Complete(ring, ring[|ring| - 1], cap);
    }
  }

  /** Two publishers that append out of order: an edge at 4 is not told about 5. */
  lemma OutOfOrderRing()
    ensures SelectMissed([3, 5, 4], 4, RING_CAP) == ([], false)
    ensures !Complete([3, 5, 4], 4, RING_CAP)
  {
    assert 5 in [3, 5, 4];
  }

  predicate Consecutive(ring: seq<nat>) {
    forall i | 0 <= i < |ring| :: ring[i] == ring[0] + i
  }

  lemma ConsecutiveIn(ring: seq<nat>, r: nat)
    requires ring != [] && Consecutive(ring)
    ensures r in ring <==> ring[0] <= r <= ring[|ring| - 1]
  {
    if ring[0] <= r <= ring[|ring| - 1] {
      assert ring[r - ring[0]] == r;
    }
  }

  /** Every revision in (lastId, latest], in the ring or not, is replayed or declared stale. */
  ghost predicate Bridges(ring: seq<nat>, lastId: nat)
    requires ring != []
  {
    var (missed, stale) := SelectMissed(ring, lastId, RING_CAP);
    stale || forall r | lastId < r <= ring[|ring| - 1] :: r in missed
  }

  /** On a ring without holes the gap is bridged unless the edge has no revision and entries were evicted. */
  lemma BridgesIff(ring: seq<nat>, lastId: nat)
    requires 1 <= |ring| <= RING_CAP && Consecutive(ring) && ring[0] >= 1
    ensures Bridges(ring, lastId) <==> lastId >= 1 || ring[0] == 1
  {
    forall r: nat ensures r in Newer(ring, lastId) <==> ring[0] <= r <= ring[|ring| - 1] && r > lastId {
      NewerIn(ring, lastId, r);
      ConsecutiveIn(ring, r);
    }
    if lastId == 0 && ring[0] > 1 {
      assert 1 !in Newer(ring, lastId);
    }
  }

  lemma ConsecutiveRest(ring: seq<nat>)
    requires |ring| > 1 && Consecutive(ring)
    ensures Consecutive(ring[1..]) && ring[1..][0] == ring[0] + 1 && ring[1..][|ring| - 2] == ring[|ring| - 1]
  {
    assert forall i | 0 <= i < |ring| - 1 :: ring[1..][i] == ring[i + 1];
  }

  lemma {:induction false} NewerAll(ring: seq<nat>, lastId: nat)
    requires ring != [] && Consecutive(ring) && lastId < ring[0]
    ensures Newer(ring, lastId) == ring
    decreases |ring|
  {
    assert ring == [ring[0]] + ring[1..];
    if |ring| > 1 {
      ConsecutiveRest(ring);
      NewerAll(ring[1..], lastId);
    }
  }

  lemma {:induction false} NewerIsSuffix(ring: seq<nat>, lastId: nat)
    requires ring != [] && Consecutive(ring) && ring[0] <= lastId < ring[|ring| - 1]
    ensures Newer(ring, lastId) == ring[lastId + 1 - ring[0]..]
    decreases |ring|
  {
    ConsecutiveRest(ring);
    if lastId == ring[0] {
      NewerAll(ring[1..], lastId);
    } else {
      NewerIsSuffix(ring[1..], lastId);
      assert ring[1..][lastId - ring[0]..] == ring[lastId + 1 - ring[0]..];
    }
  }

  /**
   On a ring without holes the replay is exactly the end of the ring after the
   edge's revision, in order and without a stale frame, unless the gap starts
   before the ring: then it is a stale frame alone.
   */
  lemma SelectIsGap(ring: seq<nat>, lastId: nat)
    requires 1 <= |ring| <= RING_CAP && Consecutive(ring)
    ensures var (missed, stale) := SelectMissed(ring, lastId, RING_CAP);
            && (stale <==> 0 < lastId && lastId + 1 < ring[0])
            && (stale ==> missed == [])
            && (!stale ==> missed == if lastId < ring[0] then ring
                                     else if lastId >= ring[|ring| - 1] then []
                                     else ring[lastId + 1 - ring[0]..])
  {
    assert ring[0] <= ring[|ring| - 1];
    if lastId < ring[0] {
      NewerAll(ring, lastId);
    } else if lastId < ring[|ring| - 1] {
      NewerIsSuffix(ring, lastId);
    }
  }

  // ---- The transition system ----

  datatype Frame = Changed(revision: nat) | Stale(upTo: nat)

  /** A broadcast receiver: what it has not taken yet, and whether it fell off the buffer. */
  datatype Inbox = Inbox(queue: seq<nat>, lagged: bool)

  datatype Sub =
    | Off
    | Waiting(lastId: nat, inbox: Inbox)
    | Live(lastId: nat, inbox: Inbox, sent: seq<Frame>)

  /** `pending` holds the publications in progress: false before the append, true before the broadcast. */
  datatype Plane = Plane(revision: nat, ring: seq<nat>, pending: map<nat, bool>, sub: Sub)

  datatype Action =
    | Bump | Append(r: nat) | Broadcast(r: nat)
    | Subscribe(lastId: nat) | Replay | Receive | Disconnect

  const EMPTY: Inbox := Inbox([], false)

  function Trim(ring: seq<nat>): (t: seq<nat>)
    ensures |t| <= RING_CAP
    decreases |ring|
  {
    if |ring| > RING_CAP then Trim(ring[1..]) else ring
  }

  /** A receiver more than the buffer behind loses its oldest message and is marked as lagged. */
  function Offer(inbox: Inbox, r: nat): Inbox {
    var q := inbox.queue + [r];
    if |q| > CHANNEL_CAP then Inbox(q[1..], true) else Inbox(q, inbox.lagged)
  }

  function Deliver(sub: Sub, r: nat): Sub {
    if sub.Off? then sub else sub.(inbox := Offer(sub.inbox, r))
  }

  function AsChanged(missed: seq<nat>): (fs: seq<Frame>)
    ensures |fs| == |missed|
    ensures forall i | 0 <= i < |fs| :: fs[i] == Changed(missed[i])
  {
    seq(|missed|, i requires 0 <= i < |missed| => Changed(missed[i]))
  }

  function ReplayFrames(ring: seq<nat>, lastId: nat, revision: nat): seq<Frame> {
    var (missed, stale) := SelectMissed(ring, lastId, RING_CAP);
    (if stale then [Stale(revision)] else []) + AsChanged(missed)
  }

  /** Taking from the inbox: a lagged receiver is told so first, then goes on with what is retained. */
  function Take(sub: Sub, revision: nat): Sub
    requires sub.Live?
  {
    if sub.inbox.lagged then
      sub.(inbox := sub.inbox.(lagged := false), sent := sub.sent + [Stale(revision)])
    else if sub.inbox.queue == [] then sub
    else
      sub.(inbox := sub.inbox.(queue := sub.inbox.queue[1..]), sent := sub.sent + [Changed(sub.inbox.queue[0])])
  }

  /** Steps that are not enabled change nothing. */
  function Next(s: Plane, a: Action): Plane {
    match a
    case Bump => s.(revision := s.revision + 1, pending := s.pending[s.revision + 1 := false])
    case Append(r) =>
      if r in s.pending && !s.pending[r] then s.(ring := Trim(s.ring + [r]), pending := s.pending[r := true]) else s
    case Broadcast(r) =>
      if r in s.pending && s.pending[r] then s.(pending := s.pending - {r}, sub := Deliver(s.sub, r)) else s
    case Subscribe(lastId) => if s.sub.Off? then s.(sub := Waiting(lastId, EMPTY)) else s
    case Replay =>
      if s.sub.Waiting?
      then s.(sub := Live(s.sub.lastId, s.sub.inbox, ReplayFrames(s.ring, s.sub.lastId, s.revision)))
      else s
    case Receive => if s.sub.Live? then s.(sub := Take(s.sub, s.revision)) else s
    case Disconnect => s.(sub := Off)
  }

  function Exec(s: Plane, actions: seq<Action>): Plane
    decreases actions
  {
    if actions == [] then s else Exec(Next(s, actions[0]), actions[1..])
  }

  function Init(seed: nat): Plane {
    Plane(seed, [seed], map[], Off)
  }

  /** Appends reach the ring in revision order. */
  predicate InOrder(s: Plane, a: Action) {
    a.Append? && a.r in s.pending && !s.pending[a.r] ==> forall r | r in s.pending && !s.pending[r] :: a.r <= r
  }

  predicate Ordered(s: Plane, actions: seq<Action>)
    decreases actions
  {
    actions == [] || (InOrder(s, actions[0]) && Ordered(Next(s, actions[0]), actions[1..]))
  }

  /** One publication at a time: the next bump waits for the broadcast of the previous one. */
  predicate Serialised(s: Plane, actions: seq<Action>)
    decreases actions
  {
    actions == []
    || ((actions[0].Bump? ==> s.pending == map[]) && Serialised(Next(s, actions[0]), actions[1..]))
  }

  /** The shared state of one control plane with one subscriber, between publications. */
  class Hub {
    var revision: nat
    var ring: seq<nat>
    var sub: Sub

    function View(): Plane
      reads this
    {
      Plane(revision, ring, map[], sub)
    }

    constructor (seed: nat)
      ensures View() == Init(seed)
    {
      revision, ring, sub := seed, [seed], Off;
    }

    /** Bump the counter, append to the ring and evict from its front, then broadcast. */
    method PublishRevision() returns (r: nat)
      modifies this
      ensures r == old(revision) + 1
      ensures View() == Exec(old(View()), [Bump, Append(r), Broadcast(r)])
    {
      revision := revision + 1;
      r := revision;
      ring := ring + [r];
      while |ring| > RING_CAP
        invariant Trim(ring) == Trim(old(ring) + [r])
        invariant revision == r == old(revision) + 1 && sub == old(sub)
      {
        ring := ring[1..];
      }
      sub := Deliver(sub, r);
      PublishSteps(old(View()), r);
    }

    /** Subscribe first, then replay what the ring still has. */
    method Resume(lastId: nat)
      requires sub.Off?
      modifies this
      ensures View() == Exec(old(View()), [Subscribe(lastId), Replay])
    {
      sub := Waiting(lastId, EMPTY);
      sub := Live(lastId, sub.inbox, ReplayFrames(ring, lastId, revision));
      ExecTwo(old(View()), Subscribe(lastId), Replay);
    }

    /** One turn of the pump that forwards broadcasts to the stream. */
    method Pump()
      modifies this
      ensures View() == Next(old(View()), Receive)
    {
      if sub.Live? {
        sub := Take(sub, revision);
      }
    }
  }

  lemma {:induction false} ExecAppend(s: Plane, a: seq<Action>, b: seq<Action>)
    ensures Exec(s, a + b) == Exec(Exec(s, a), b)
    decreases a
  {
    if a == [] {
      assert a + b == b;
    } else {
      assert (a + b)[1..] == a[1..] + b;
      ExecAppend(Next(s, a[0]), a[1..], b);
    }
  }

  lemma ExecTwo(s: Plane, a: Action, b: Action)
    ensures Exec(s, [a, b]) == Next(Next(s, a), b)
  {
    assert [a, b][1..] == [b] && [b][1..] == [];
    assert Exec(Next(s, a), [b]) == Next(Next(s, a), b);
  }

  lemma PublishSteps(s: Plane, r: nat)
    requires s.pending == map[] && r == s.revision + 1
    ensures Exec(s, [Bump, Append(r), Broadcast(r)])
         == Plane(r, Trim(s.ring + [r]), map[], Deliver(s.sub, r))
  {
    ExecTwo(s, Bump, Append(r));
    ExecAppend(s, [Bump, Append(r)], [Broadcast(r)]);
    assert [Bump, Append(r)] + [Broadcast(r)] == [Bump, Append(r), Broadcast(r)];
    var t := Next(Next(s, Bump), Append(r));
    assert t.pending - {r} == map[];
    assert [Broadcast(r)][1..] == [];
  }

  // ---- Invariants ----

  /** The ring is a block of consecutive revisions and exactly the later ones are not appended yet. */
  ghost predicate RingGood(revision: nat, ring: seq<nat>, pending: map<nat, bool>) {
    && 1 <= |ring| <= RING_CAP && Consecutive(ring) && ring[0] >= 1
    && ring[|ring| - 1] <= revision
    && (forall r | r in pending :: r <= revision)
    && (forall r: nat :: (r in pending && !pending[r]) <==> ring[|ring| - 1] < r <= revision)
  }

  predicate Covers(f: Frame, r: nat) {
    match f
    case Changed(revision) => revision == r
    case Stale(upTo) => r <= upTo
  }

  ghost predicate Told(frames: seq<Frame>, r: nat) {
    exists f | f in frames :: Covers(f, r)
  }

  /** A revision that has not been sent is still on its way. */
  ghost predicate OnItsWay(inbox: Inbox, pending: map<nat, bool>, r: nat) {
    inbox.lagged || r in inbox.queue || r in pending
  }

  ghost predicate NothingLost(lastId: nat, inbox: Inbox, sent: seq<Frame>, revision: nat, pending: map<nat, bool>) {
    forall r | lastId < r <= revision :: Told(sent, r) || OnItsWay(inbox, pending, r)
  }

  ghost predicate SubGood(sub: Sub, revision: nat, pending: map<nat, bool>) {
    sub.Live? && sub.lastId >= 1 ==> NothingLost(sub.lastId, sub.inbox, sub.sent, revision, pending)
  }

  ghost predicate Good(s: Plane) {
    RingGood(s.revision, s.ring, s.pending) && SubGood(s.sub, s.revision, s.pending)
  }

  lemma TrimOne(ring: seq<nat>, r: nat)
    requires |ring| <= RING_CAP
    ensures Trim(ring + [r]) == if |ring| == RING_CAP then ring[1..] + [r] else ring + [r]
  {
    if |ring| == RING_CAP {
      assert (ring + [r])[1..] == ring[1..] + [r];
    }
  }

  lemma AppendRing(s: Plane, r: nat)
    requires RingGood(s.revision, s.ring, s.pending) && InOrder(s, Append(r)) && r in s.pending && !s.pending[r]
    ensures RingGood(s.revision, Next(s, Append(r)).ring, s.pending[r := true])
  {
    var last := s.ring[|s.ring| - 1];
    assert last < r;
    assert last + 1 in s.pending && !s.pending[last + 1];
    assert r == last + 1;
    TrimOne(s.ring, r);
  }

  lemma RingStep(s: Plane, a: Action)
    requires RingGood(s.revision, s.ring, s.pending) && InOrder(s, a)
    ensures var t := Next(s, a); RingGood(t.revision, t.ring, t.pending)
  {
    if a.Append? && a.r in s.pending && !s.pending[a.r] {
      AppendRing(s, a.r);
    }
  }

  /** Replay answers for everything the ring has; the rest is not broadcast yet. */
  lemma ReplayCovers(s: Plane, lastId: nat, inbox: Inbox)
    requires RingGood(s.revision, s.ring, s.pending) && lastId >= 1
    ensures NothingLost(lastId, inbox, ReplayFrames(s.ring, lastId, s.revision), s.revision, s.pending)
  {
    var (missed, stale) := SelectMissed(s.ring, lastId, RING_CAP);
    BridgesIff(s.ring, lastId);
    forall r | lastId < r <= s.revision
      ensures Told(ReplayFrames(s.ring, lastId, s.revision), r) || OnItsWay(inbox, s.pending, r)
    {
      ReplayTold(stale, missed, s.revision, r);
    }
  }

  lemma ReplayTold(stale: bool, missed: seq<nat>, revision: nat, r: nat)
    requires r <= revision
    ensures stale || r in missed ==> Told((if stale then [Stale(revision)] else []) + AsChanged(missed), r)
  {
    var frames := (if stale then [Stale(revision)] else []) + AsChanged(missed);
    if stale {
      assert frames[0] == Stale(revision) && Covers(frames[0], r);
    } else if r in missed {
      var i :| 0 <= i < |missed| && missed[i] == r;
      assert frames[i] == Changed(r) && Covers(frames[i], r);
    }
  }

  lemma ToldMore(frames: seq<Frame>, f: Frame, r: nat)
    requires Told(frames, r) || Covers(f, r)
    ensures Told(frames + [f], r)
  {
    if Told(frames, r) {
      var g :| g in frames && Covers(g, r);
      assert g in frames + [f];
    } else {
      assert f in frames + [f];
    }
  }

  lemma TakeCovers(lastId: nat, sub: Sub, revision: nat, pending: map<nat, bool>)
    requires sub.Live? && NothingLost(lastId, sub.inbox, sub.sent, revision, pending)
    ensures NothingLost(lastId, Take(sub, revision).inbox, Take(sub, revision).sent, revision, pending)
  {
    var t := Take(sub, revision);
    forall r | lastId < r <= revision ensures Told(t.sent, r) || OnItsWay(t.inbox, pending, r) {
      if t.sent != sub.sent {
        var f := t.sent[|t.sent| - 1];
        if Told(sub.sent, r) || Covers(f, r) {
          ToldMore(sub.sent, f, r);
        }
      }
    }
  }

  /** Broadcasting moves a revision from the publisher to the inbox, or marks the inbox as lagged. */
  lemma OfferKeeps(inbox: Inbox, pending: map<nat, bool>, q: nat, r: nat)
    requires OnItsWay(inbox, pending, r)
    ensures OnItsWay(Offer(inbox, q), pending - {q}, r)
  {
    assert q in inbox.queue + [q];
  }

  lemma SubStep(s: Plane, a: Action)
    requires RingGood(s.revision, s.ring, s.pending) && SubGood(s.sub, s.revision, s.pending)
    ensures var t := Next(s, a); SubGood(t.sub, t.revision, t.pending)
  {
    match a
    case Replay =>
      if s.sub.Waiting? && s.sub.lastId >= 1 {
        ReplayCovers(s, s.sub.lastId, s.sub.inbox);
      }
    case Receive =>
      if s.sub.Live? && s.sub.lastId >= 1 {
        TakeCovers(s.sub.lastId, s.sub, s.revision, s.pending);
      }
    case Broadcast(q) =>
      if s.sub.Live? && s.sub.lastId >= 1 {
        forall r | OnItsWay(s.sub.inbox, s.pending, r)
          ensures OnItsWay(Offer(s.sub.inbox, q), s.pending - {q}, r)
        {
          OfferKeeps(s.sub.inbox, s.pending, q, r);
        }
      }
    case _ =>
  }

  lemma StepGood(s: Plane, a: Action)
    requires Good(s) && InOrder(s, a)
    ensures Good(Next(s, a))
  {
    RingStep(s, a);
    SubStep(s, a);
  }

  lemma {:induction false} ExecGood(s: Plane, actions: seq<Action>)
    requires Good(s) && Ordered(s, actions)
    ensures Good(Exec(s, actions))
    decreases actions
  {
    if actions != [] {
      StepGood(s, actions[0]);
      ExecGood(Next(s, actions[0]), actions[1..]);
    }
  }

  // ---- Main results ----

  /**
   In every interleaving in which appends are in order, every revision after a
   Last-Event-ID of at least 1 has been sent, is covered by a stale frame, or is
   still on its way; so once nothing is on its way, all have been sent or covered.
   */
  lemma NoRevisionLost(seed: nat, actions: seq<Action>, r: nat)
    requires seed >= 1 && Ordered(Init(seed), actions)
    ensures var s := Exec(Init(seed), actions);
            s.sub.Live? && 1 <= s.sub.lastId < r <= s.revision ==>
              && (Told(s.sub.sent, r) || OnItsWay(s.sub.inbox, s.pending, r))
              && (s.sub.inbox == EMPTY && s.pending == map[] ==> Told(s.sub.sent, r))
  {
    assert Good(Init(seed));
    ExecGood(Init(seed), actions);
  }

  predicate RealFrame(f: Frame, revision: nat) {
    match f
    case Changed(r) => r <= revision
    case Stale(upTo) => upTo <= revision
  }

  /** Nothing is announced that has not been published. */
  ghost predicate Real(s: Plane) {
    && (forall r | r in s.ring :: r <= s.revision)
    && (forall r | r in s.pending :: r <= s.revision)
    && (!s.sub.Off? ==> forall r | r in s.sub.inbox.queue :: r <= s.revision)
    && (s.sub.Live? ==> forall f | f in s.sub.sent :: RealFrame(f, s.revision))
  }

  lemma {:induction false} TrimIn(ring: seq<nat>, r: nat)
    requires r in Trim(ring)
    ensures r in ring
    decreases |ring|
  {
    if |ring| > RING_CAP {
      TrimIn(ring[1..], r);
    }
  }

  lemma ReplayReal(ring: seq<nat>, lastId: nat, revision: nat, f: Frame)
    requires (forall r | r in ring :: r <= revision) && f in ReplayFrames(ring, lastId, revision)
    ensures RealFrame(f, revision)
  {
    if f.Changed? {
      var (missed, _) := SelectMissed(ring, lastId, RING_CAP);
      assert f in AsChanged(missed);
      assert f.revision in missed;
      assert f.revision in Newer(ring, lastId);
      NewerIn(ring, lastId, f.revision);
    }
  }

  lemma StepReal(s: Plane, a: Action)
    requires Real(s)
    ensures Real(Next(s, a))
  {
    match a
    case Append(r) =>
      forall x | x in Trim(s.ring + [r]) ensures x in s.ring + [r] {
        TrimIn(s.ring + [r], x);
      }
    case Replay =>
      if s.sub.Waiting? {
        forall f | f in ReplayFrames(s.ring, s.sub.lastId, s.revision)
          ensures RealFrame(f, s.revision)
        {
          ReplayReal(s.ring, s.sub.lastId, s.revision, f);
        }
      }
    case Receive =>
      if s.sub.Live? && s.sub.inbox.queue != [] {
        var q := s.sub.inbox.queue;
        assert q[0] in q && forall r | r in q[1..] :: r in q;
      }
    case Broadcast(q) =>
      if !s.sub.Off? {
        forall r | r in Offer(s.sub.inbox, q).queue ensures r in s.sub.inbox.queue || r == q {
          assert r in s.sub.inbox.queue + [q];
        }
      }
    case _ =>
  }

  /** In every interleaving, in order or not, a frame names only what has been published. */
  lemma {:induction false} FramesAreReal(s: Plane, actions: seq<Action>)
    requires Real(s)
    ensures Real(Exec(s, actions))
    decreases actions
  {
    if actions != [] {
      StepReal(s, actions[0]);
      FramesAreReal(Next(s, actions[0]), actions[1..]);
    }
  }

  function Receives(n: nat): seq<Action> {
    seq(n, _ => Receive)
  }

  function Backlog(inbox: Inbox): nat {
    |inbox.queue| + if inbox.lagged then 1 else 0
  }

  /** When publishers are idle, working off the backlog tells the edge about every revision. */
  lemma {:induction false} BacklogTellsAll(s: Plane)
    requires Good(s) && s.sub.Live? && s.sub.lastId >= 1 && s.pending == map[]
    ensures var t := Exec(s, Receives(Backlog(s.sub.inbox)));
            && t.revision == s.revision && t.sub.Live? && t.sub.lastId == s.sub.lastId
            && forall r | s.sub.lastId < r <= s.revision :: Told(t.sub.sent, r)
    decreases Backlog(s.sub.inbox)
  {
    var n := Backlog(s.sub.inbox);
    if n > 0 {
      var t := Next(s, Receive);
      StepGood(s, Receive);
      assert Backlog(t.sub.inbox) == n - 1;
      BacklogTellsAll(t);
      assert Receives(n)[1..] == Receives(n - 1) && Receives(n)[0] == Receive;
    }
  }

  ghost predicate AtMostOne(pending: map<nat, bool>) {
    forall p, q | p in pending && q in pending :: p == q
  }

  /** Serialised publishers append in order. */
  lemma {:induction false} SerialisedIsOrdered(s: Plane, actions: seq<Action>)
    requires Serialised(s, actions) && AtMostOne(s.pending)
    ensures Ordered(s, actions)
    decreases actions
  {
    if actions != [] {
      SerialisedIsOrdered(Next(s, actions[0]), actions[1..]);
    }
  }

  function RACE(): seq<Action> {
    [Bump, Bump, Append(3), Append(2), Broadcast(3), Broadcast(2), Subscribe(2), Replay]
  }

  /** Without that order a revision is lost: two publications overlap and an edge resumes at the smaller one. */
  lemma OverlapLosesRevision()
    ensures var s := Exec(Init(1), RACE());
            && s.sub.Live? && s.sub.lastId == 2 && s.revision == 3
            && s.sub.inbox == EMPTY && s.pending == map[]
            && !Told(s.sub.sent, 3)
  {
    var s0 := Init(1);
    var s2 := Next(Next(s0, Bump), Bump);
    var s4 := Next(Next(s2, Append(3)), Append(2));
    assert s4.ring == [1, 3, 2] by {
      TrimOne([1], 3);
      TrimOne([1, 3], 2);
      assert [1] + [3] == [1, 3] && [1, 3] + [2] == [1, 3, 2];
    }
    var s6 := Next(Next(s4, Broadcast(3)), Broadcast(2));
    assert s6.pending == map[];
    var s8 := Next(Next(s6, Subscribe(2)), Replay);
    assert s8.sub.sent == [];
    ExecRace(s0);
  }

  lemma ExecRace(s: Plane)
    ensures Exec(s, RACE())
         == Next(Next(Next(Next(Next(Next(Next(Next(s, Bump), Bump), Append(3)), Append(2)),
              Broadcast(3)), Broadcast(2)), Subscribe(2)), Replay)
  {
    ExecAppend(s, [Bump, Bump, Append(3), Append(2)], [Broadcast(3), Broadcast(2), Subscribe(2), Replay]);
  }
}
