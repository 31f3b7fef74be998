/**
 The order in which a connected edge receives broadcasts, in every interleaving of
 publishers, broadcast channel and pump.
 */
module StreamOrder {
  import opened ConfigStream
  import opened StreamLosses

  /** The revisions broadcast to a subscriber in a run, in broadcast order. */
  function Heard(s: Plane, actions: seq<Action>): seq<nat>
    decreases actions
  {
    if actions == [] then [] else HeardNow(s, actions[0]) + Heard(Next(s, actions[0]), actions[1..])
  }

  function HeardNow(s: Plane, a: Action): seq<nat> {
    if a.Broadcast? && a.r in s.pending && s.pending[a.r] && !s.sub.Off? then [a.r] else []
  }

  /** The revisions of the change frames, in order. */
  function Revisions(frames: seq<Frame>): seq<nat> {
    if frames == [] then []
    else
      var last := frames[|frames| - 1];
      Revisions(frames[..|frames| - 1]) + if last.Changed? then [last.revision] else []
  }

  /** What follows the last stale frame. */
  function AfterStale(frames: seq<Frame>): seq<Frame> {
    if frames == [] || frames[|frames| - 1].Stale? then []
    else AfterStale(frames[..|frames| - 1]) + [frames[|frames| - 1]]
  }

  predicate NoStale(frames: seq<Frame>) {
    forall i | 0 <= i < |frames| :: frames[i].Changed?
  }

  predicate IsEnd(x: seq<nat>, all: seq<nat>) {
    |x| <= |all| && x == all[|all| - |x|..]
  }

  /**
   The live frames and the queue are what was broadcast, in order: all of it if the
   receiver never fell off the buffer, and otherwise an end of it after the last stale
   frame, or an end of it in the queue while the stale frame is still due.
   */
  predicate InOrderOf(live: seq<Frame>, inbox: Inbox, heard: seq<nat>) {
    && IsEnd(inbox.queue, heard)
    && (!inbox.lagged ==> IsEnd(Revisions(AfterStale(live)) + inbox.queue, heard))
    && (!inbox.lagged && NoStale(live) ==> Revisions(live) + inbox.queue == heard)
  }

  lemma Assoc(a: seq<nat>, b: seq<nat>, c: seq<nat>)
    ensures a + b + c == a + (b + c)
  {
  }

  lemma EndGrows(x: seq<nat>, all: seq<nat>, r: nat)
    requires IsEnd(x, all)
    ensures IsEnd(x + [r], all + [r])
  {
  }

  lemma EndDrops(x: seq<nat>, all: seq<nat>)
    requires IsEnd(x, all) && x != []
    ensures IsEnd(x[1..], all)
  {
  }

  lemma OfferOrder(live: seq<Frame>, inbox: Inbox, heard: seq<nat>, r: nat)
    requires InOrderOf(live, inbox, heard)
    ensures InOrderOf(live, Offer(inbox, r), heard + [r])
  {
    var q := inbox.queue + [r];
    EndGrows(inbox.queue, heard, r);
    EndDrops(q, heard + [r]);
    if !inbox.lagged {
      EndGrows(Revisions(AfterStale(live)) + inbox.queue, heard, r);
      Assoc(Revisions(AfterStale(live)), inbox.queue, [r]);
      Assoc(Revisions(live), inbox.queue, [r]);
    }
  }

  lemma OneMore(live: seq<Frame>, f: Frame)
    ensures Revisions(live + [f]) == Revisions(live) + if f.Changed? then [f.revision] else []
    ensures AfterStale(live + [f]) == if f.Stale? then [] else AfterStale(live) + [f]
    ensures NoStale(live + [f]) <==> NoStale(live) && f.Changed?
  {
    assert (live + [f])[..|live|] == live;
    assert forall i | 0 <= i < |live| :: (live + [f])[i] == live[i];
    assert (live + [f])[|live|] == f;
  }

  lemma TakeOrder(live: seq<Frame>, inbox: Inbox, heard: seq<nat>)
    requires InOrderOf(live, inbox, heard) && !inbox.lagged && inbox.queue != []
    ensures InOrderOf(live + [Changed(inbox.queue[0])], inbox.(queue := inbox.queue[1..]), heard)
  {
    var q, f := inbox.queue, Changed(inbox.queue[0]);
    OneMore(live, f);
    OneMore(AfterStale(live), f);
    EndDrops(q, heard);
    assert q == [q[0]] + q[1..];
    Assoc(Revisions(AfterStale(live)), [q[0]], q[1..]);
    Assoc(Revisions(live), [q[0]], q[1..]);
  }

  lemma StaleOrder(live: seq<Frame>, inbox: Inbox, heard: seq<nat>, revision: nat)
    requires InOrderOf(live, inbox, heard)
    ensures InOrderOf(live + [Stale(revision)], inbox.(lagged := false), heard)
  {
    OneMore(live, Stale(revision));
    assert [] + inbox.queue == inbox.queue;
  }

  // ---- Runs ----

  /** The order law of a live connection whose replay took the first `k` frames. */
  ghost predicate LiveOrder(s: Plane, k: nat, heard: seq<nat>) {
    s.sub.Live? && k <= |s.sub.sent| && InOrderOf(s.sub.sent[k..], s.sub.inbox, heard)
  }

  lemma StepOrder(s: Plane, a: Action, k: nat, heard: seq<nat>)
    requires LiveOrder(s, k, heard) && !a.Disconnect?
    ensures LiveOrder(Next(s, a), k, heard + HeardNow(s, a))
  {
    assert heard + [] == heard;
    var live := s.sub.sent[k..];
    if a.Broadcast? {
      OfferOrder(live, s.sub.inbox, heard, a.r);
    } else if a.Receive? {
      var t := Take(s.sub, s.revision);
      if t.sent != s.sub.sent {
        assert t.sent[k..] == live + [t.sent[|t.sent| - 1]];
      }
      if s.sub.inbox.lagged {
        StaleOrder(live, s.sub.inbox, heard, s.revision);
      } else if s.sub.inbox.queue != [] {
        TakeOrder(live, s.sub.inbox, heard);
      }
    }
  }

  lemma {:induction false} RunOrder(s: Plane, actions: seq<Action>, k: nat, heard: seq<nat>)
    requires LiveOrder(s, k, heard) && Connected(actions)
    ensures LiveOrder(Exec(s, actions), k, heard + Heard(s, actions))
    decreases actions
  {
    if actions == [] {
      assert heard + [] == heard;
    } else {
      assert !actions[0].Disconnect? && Connected(actions[1..]);
      StepOrder(s, actions[0], k, heard);
      RunOrder(Next(s, actions[0]), actions[1..], k, heard + HeardNow(s, actions[0]));
      Assoc(heard, HeardNow(s, actions[0]), Heard(Next(s, actions[0]), actions[1..]));
    }
  }

  /** Steps between the subscription and its replay. */
  predicate Awaiting(actions: seq<Action>) {
    forall i | 0 <= i < |actions| :: !actions[i].Disconnect? && !actions[i].Replay?
  }

  lemma {:induction false} WaitOrder(s: Plane, actions: seq<Action>, heard: seq<nat>)
    requires s.sub.Waiting? && InOrderOf([], s.sub.inbox, heard) && Awaiting(actions)
    ensures var t := Exec(s, actions);
            t.sub.Waiting? && InOrderOf([], t.sub.inbox, heard + Heard(s, actions))
    decreases actions
  {
    if actions == [] {
      assert heard + [] == heard;
    } else {
      var a := actions[0];
      assert !a.Disconnect? && !a.Replay? && Awaiting(actions[1..]);
      assert heard + [] == heard;
      if a.Broadcast? {
        OfferOrder([], s.sub.inbox, heard, a.r);
      }
      WaitOrder(Next(s, a), actions[1..], heard + HeardNow(s, a));
      Assoc(heard, HeardNow(s, a), Heard(Next(s, a), actions[1..]));
    }
  }

  // ---- Main results ----

  /** A connection: it subscribes, other steps happen, it replays, and more steps happen. */
  datatype Connection = Connection(subscribed: Plane, before: seq<Action>, after: seq<Action>)

  function Replaying(c: Connection): Plane {
    Next(Exec(c.subscribed, c.before), Replay)
  }

  /** Everything broadcast since the subscription. */
  function AllHeard(c: Connection): seq<nat> {
    Heard(c.subscribed, c.before) + Heard(Replaying(c), c.after)
  }

  predicate Connects(c: Connection) {
    && c.subscribed.sub.Waiting? && c.subscribed.sub.inbox == EMPTY
    && Awaiting(c.before) && Connected(c.after)
  }

  /**
   In every interleaving: the frames sent after the replay, followed by the queue, are
   exactly the revisions broadcast since the subscription, in broadcast order, unless
   the receiver fell off the buffer; then the last stale frame is followed by an end of
   the broadcasts, in order.
   */
  lemma LiveInOrder(c: Connection)
    requires Connects(c)
    ensures Replaying(c).sub.Live?
    ensures LiveOrder(Exec(Replaying(c), c.after), |Replaying(c).sub.sent|, AllHeard(c))
  {
    assert [] + Heard(c.subscribed, c.before) == Heard(c.subscribed, c.before);
    WaitOrder(c.subscribed, c.before, []);
    var r := Replaying(c);
    assert r.sub.sent[|r.sub.sent|..] == [];
    RunOrder(r, c.after, |r.sub.sent|, Heard(c.subscribed, c.before));
  }

  predicate Increasing(xs: seq<nat>) {
    forall i, j | 0 <= i < j < |xs| :: xs[i] < xs[j]
  }

  /** The revision that a serialised publisher is working on, or the next one. */
  function Upcoming(s: Plane): nat {
    if s.pending == map[] then s.revision + 1 else s.revision
  }

  lemma {:induction false} SerialisedIncreases(s: Plane, actions: seq<Action>)
    requires Serialised(s, actions) && forall r | r in s.pending :: r == s.revision
    ensures Increasing(Heard(s, actions)) && forall r | r in Heard(s, actions) :: r >= Upcoming(s)
    decreases actions
  {
    if actions != [] {
      var t, now := Next(s, actions[0]), HeardNow(s, actions[0]);
      SerialisedIncreases(t, actions[1..]);
      var later := Heard(t, actions[1..]);
      assert now != [] ==> now == [s.revision] && t.pending == map[];
      assert forall i | 0 <= i < |later| :: later[i] in later;
    }
  }

  /** What a connection has sent and queued, from the replay on. */
  function Stream(live: seq<Frame>, inbox: Inbox): seq<nat> {
    Revisions(live) + inbox.queue
  }

  ghost predicate Rising(live: seq<Frame>, inbox: Inbox, heard: seq<nat>) {
    Increasing(Stream(live, inbox)) && forall r | r in Stream(live, inbox) :: r in heard
  }

  lemma IncreasingParts(a: seq<nat>, b: seq<nat>)
    requires Increasing(a + b)
    ensures Increasing(a)
    ensures forall x, y | x in a && y in b :: x < y
  {
    var all := a + b;
    assert forall i | 0 <= i < |a| :: all[i] == a[i];
    forall x, y | x in a && y in b ensures x < y {
      var i :| 0 <= i < |a| && a[i] == x;
      var j :| 0 <= j < |b| && b[j] == y;
      assert all[i] == x && all[|a| + j] == y;
    }
  }

  lemma DropMiddle(a: seq<nat>, q: seq<nat>)
    requires Increasing(a + q) && q != []
    ensures Increasing(a + q[1..])
    ensures forall r | r in a + q[1..] :: r in a + q
  {
    var all, less := a + q, a + q[1..];
    forall i, j | 0 <= i < j < |less| ensures less[i] < less[j] {
      assert less[i] == all[if i < |a| then i else i + 1] && less[j] == all[if j < |a| then j else j + 1];
    }
    forall r | r in less ensures r in all {
      var i :| 0 <= i < |less| && less[i] == r;
      assert r == all[if i < |a| then i else i + 1];
    }
  }

  lemma RisingOffer(live: seq<Frame>, inbox: Inbox, heard: seq<nat>, r: nat)
    requires Rising(live, inbox, heard) && Increasing(heard + [r])
    ensures Rising(live, Offer(inbox, r), heard + [r])
  {
    var a, q := Revisions(live), inbox.queue + [r];
    IncreasingParts(heard, [r]);
    assert r in [r];
    Assoc(a, inbox.queue, [r]);
    var all := a + q;
    assert all == Stream(live, inbox) + [r];
    assert forall i | 0 <= i < |all| - 1 :: all[i] == Stream(live, inbox)[i] && all[i] in Stream(live, inbox);
    assert Increasing(all) && forall x | x in all :: x in heard + [r];
    DropMiddle(a, q);
  }

  lemma RisingTake(live: seq<Frame>, inbox: Inbox, heard: seq<nat>)
    requires Rising(live, inbox, heard) && inbox.queue != []
    ensures Rising(live + [Changed(inbox.queue[0])], inbox.(queue := inbox.queue[1..]), heard)
  {
    var q := inbox.queue;
    OneMore(live, Changed(q[0]));
    Assoc(Revisions(live), [q[0]], q[1..]);
    assert q == [q[0]] + q[1..];
  }

  lemma RisingStale(live: seq<Frame>, inbox: Inbox, heard: seq<nat>, revision: nat)
    requires Rising(live, inbox, heard)
    ensures Rising(live + [Stale(revision)], inbox.(lagged := false), heard)
  {
    OneMore(live, Stale(revision));
    assert Revisions(live) + [] == Revisions(live);
  }

  ghost predicate LiveRising(s: Plane, k: nat, heard: seq<nat>) {
    s.sub.Live? && k <= |s.sub.sent| && Rising(s.sub.sent[k..], s.sub.inbox, heard)
  }

  lemma RisingReceive(s: Plane, k: nat, heard: seq<nat>)
    requires LiveRising(s, k, heard)
    ensures LiveRising(Next(s, Receive), k, heard)
  {
    var live, inbox, t := s.sub.sent[k..], s.sub.inbox, Next(s, Receive);
    if inbox.lagged {
      RisingStale(live, inbox, heard, s.revision);
      assert t.sub.sent[k..] == live + [Stale(s.revision)];
    } else if inbox.queue != [] {
      RisingTake(live, inbox, heard);
      assert t.sub.sent[k..] == live + [Changed(inbox.queue[0])];
    }
  }

  lemma RisingStep(s: Plane, a: Action, k: nat, heard: seq<nat>)
    requires LiveRising(s, k, heard) && !a.Disconnect? && Increasing(heard + HeardNow(s, a))
    ensures LiveRising(Next(s, a), k, heard + HeardNow(s, a))
  {
    assert heard + [] == heard;
    if a.Receive? {
      RisingReceive(s, k, heard);
    } else if HeardNow(s, a) != [] {
      RisingOffer(s.sub.sent[k..], s.sub.inbox, heard, a.r);
    } else {
      assert Next(s, a).sub == s.sub;
    }
  }

  lemma {:induction false} RisingRun(s: Plane, actions: seq<Action>, k: nat, heard: seq<nat>)
    requires LiveRising(s, k, heard) && Connected(actions) && Increasing(heard + Heard(s, actions))
    ensures LiveRising(Exec(s, actions), k, heard + Heard(s, actions))
    decreases actions
  {
    if actions == [] {
      assert heard + [] == heard;
    } else {
      var now, later := HeardNow(s, actions[0]), Heard(Next(s, actions[0]), actions[1..]);
      assert !actions[0].Disconnect? && Connected(actions[1..]);
      Assoc(heard, now, later);
      IncreasingParts(heard + now, later);
      RisingStep(s, actions[0], k, heard);
      RisingRun(Next(s, actions[0]), actions[1..], k, heard + now);
    }
  }

  lemma EndRises(queue: seq<nat>, heard: seq<nat>, lagged: bool)
    requires IsEnd(queue, heard) && Increasing(heard)
    ensures Rising([], Inbox(queue, lagged), heard)
  {
    var d := |heard| - |queue|;
    assert [] + queue == queue;
    assert forall i | 0 <= i < |queue| :: queue[i] == heard[d + i];
  }

  lemma {:induction false} HeardAppend(s: Plane, a: seq<Action>, b: seq<Action>)
    ensures Heard(s, a + b) == Heard(s, a) + Heard(Exec(s, a), b)
    decreases a
  {
    if a == [] {
      assert a + b == b;
    } else {
      assert (a + b)[1..] == a[1..] + b;
      HeardAppend(Next(s, a[0]), a[1..], b);
      Assoc(HeardNow(s, a[0]), Heard(Next(s, a[0]), a[1..]), Heard(Exec(s, a), b));
    }
  }

  ghost predicate StreamIncreases(c: Connection) {
    var r, t := Replaying(c), Exec(Replaying(c), c.after);
    && r.sub.Live? && t.sub.Live? && |r.sub.sent| <= |t.sub.sent|
    && Increasing(Stream(t.sub.sent[|r.sub.sent|..], t.sub.inbox))
  }

  lemma ReplayRises(c: Connection)
    requires Connects(c) && Increasing(Heard(c.subscribed, c.before))
    ensures Replaying(c).sub.Live?
    ensures LiveRising(Replaying(c), |Replaying(c).sub.sent|, Heard(c.subscribed, c.before))
  {
    var heard := Heard(c.subscribed, c.before);
    assert [] + heard == heard;
    WaitOrder(c.subscribed, c.before, []);
    var sub := Replaying(c).sub;
    EndRises(sub.inbox.queue, heard, sub.inbox.lagged);
    assert sub.sent[|sub.sent|..] == [];
  }

  /** If the broadcasts since the subscription increase, so do the live frames followed by the queue. */
  lemma LiveRises(c: Connection)
    requires Connects(c) && Increasing(AllHeard(c))
    ensures StreamIncreases(c)
  {
    var heard := Heard(c.subscribed, c.before);
    IncreasingParts(heard, Heard(Replaying(c), c.after));
    ReplayRises(c);
    RisingRun(Replaying(c), c.after, |Replaying(c).sub.sent|, heard);
  }

  function WholeRun(c: Connection): seq<Action> {
    c.before + ([Replay] + c.after)
  }

  /**
   With serialised publishers the live frames, followed by the queue, are strictly
   increasing, whether or not the receiver ever fell off the buffer.
   */
  lemma SerialisedLiveIncreases(c: Connection)
    requires Connects(c) && Serialised(c.subscribed, WholeRun(c))
    requires forall r | r in c.subscribed.pending :: r == c.subscribed.revision
    ensures StreamIncreases(c)
  {
    SerialisedIncreases(c.subscribed, WholeRun(c));
    HeardAppend(c.subscribed, c.before, [Replay] + c.after);
    var waiting := Exec(c.subscribed, c.before);
    assert ([Replay] + c.after)[1..] == c.after;
    assert Heard(waiting, [Replay] + c.after) == [] + Heard(Replaying(c), c.after);
    assert [] + Heard(Replaying(c), c.after) == Heard(Replaying(c), c.after);
    LiveRises(c);
  }
}
