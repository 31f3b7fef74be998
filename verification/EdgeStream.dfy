/**
 The change stream and the edge together: the stream thread of the edge handles
 the frames the control plane sends, while the reconcile thread, the publishers
 and the broadcast all run at their own pace.
 */
module EdgeStream {
  import Plane = ConfigStream
  import Losses = StreamLosses
  import Edge = EdgeSync

  /** The thread that reads the stream; every other number is some other thread. */
  const STREAM: nat := 0

  /**
   `handled` frames have been dispatched; `busy` while the stream thread's fetch is
   under way; `missed` is the largest revision that this connection was not told about
   or whose fetch by the stream thread did not take effect.
   */
  datatype System = System(plane: Plane.Plane, world: Edge.World, handled: nat, busy: bool, missed: nat)

  datatype Action =
    | Publish(change: Edge.Action)
    | PlaneStep(step: Plane.Action)
    | OtherThread(request: Edge.Action)
    | Connect(lastId: nat)
    | Disconnect
    | Dispatch
    | Finish(arrived: bool, written: bool)

  /** A frame asks for a snapshot unless it names a revision the edge already has. */
  predicate NeedsFetch(current: nat, f: Plane.Frame) {
    match f
    case Changed(revision) => revision > current
    case Stale(_) => true
  }

  function Max(a: nat, b: nat): nat {
    if a < b then b else a
  }

  /** The largest revision after `lastId` and up to `r` that a replay now neither tells nor leaves on its way. */
  ghost function Gap(ring: seq<nat>, lastId: nat, inbox: Plane.Inbox, pending: map<nat, bool>, r: nat): (g: nat)
    requires ring != []
    ensures g <= r
    ensures forall q | lastId < q <= r && q > g :: Losses.Answered(ring, lastId, q) || Plane.OnItsWay(inbox, pending, q)
  {
    if r <= lastId then 0
    else if Losses.Answered(ring, lastId, r) || Plane.OnItsWay(inbox, pending, r)
    then Gap(ring, lastId, inbox, pending, r - 1)
    else r
  }

  ghost function GapOf(p: Plane.Plane): nat {
    if p.sub.Waiting? && p.ring != [] then Gap(p.ring, p.sub.lastId, p.sub.inbox, p.pending, p.revision) else 0
  }

  /** The revision of the stream thread's fetch. */
  function Ahead(w: Edge.World): nat {
    if STREAM in w.flights && w.flights[STREAM].revision.Some? then w.flights[STREAM].revision.value else 0
  }

  /** The stream thread's answer is activated, or gets lost on its way. */
  function Landed(w: Edge.World, arrived: bool, written: bool): Edge.World {
    Edge.Next(w, if arrived then Edge.Land(STREAM, written) else Edge.Lose(STREAM))
  }

  ghost function Next(s: System, a: Action): System {
    match a
    case Publish(change) => s.(plane := Plane.Next(s.plane, Plane.Bump), world := Edge.Next(s.world, change))
    case PlaneStep(step) =>
      s.(plane := Plane.Next(s.plane, step), missed := if step.Replay? then Max(s.missed, GapOf(s.plane)) else s.missed)
    case OtherThread(request) => s.(world := Edge.Next(s.world, request))
    case Connect(lastId) => s.(plane := Plane.Next(s.plane, Plane.Subscribe(lastId)), handled := 0, missed := 0)
    case Disconnect => s.(plane := Plane.Next(s.plane, Plane.Disconnect), handled := 0)
    case Dispatch =>
      if s.busy || !s.plane.sub.Live? || s.handled >= |s.plane.sub.sent| then s
      else if NeedsFetch(s.world.edge.current, s.plane.sub.sent[s.handled])
      then s.(world := Edge.Next(s.world, Edge.Get(STREAM)), handled := s.handled + 1, busy := true)
      else s.(handled := s.handled + 1)
    case Finish(arrived, written) =>
      if !s.busy then s
      else
        var w := Landed(s.world, arrived, written);
        s.(world := w, busy := false,
           missed := if w.edge.current >= Ahead(s.world) then s.missed else Max(s.missed, Ahead(s.world)))
  }

  /**
   The next frame starts a fetch of the live config exactly if it is a stale frame or
   names a revision above the edge's; either way it is handled and nothing else changes.
   */
  lemma DispatchFetchesIff(s: System)
    requires !s.busy && s.plane.sub.Live? && s.handled < |s.plane.sub.sent|
    requires s.world.log != [] && STREAM !in s.world.flights
    ensures var t, f := Next(s, Dispatch), s.plane.sub.sent[s.handled];
            && t.handled == s.handled + 1 && t.plane == s.plane && t.missed == s.missed
            && t.world.edge == s.world.edge
            && (t.busy <==> f.Stale? || f.revision > s.world.edge.current)
            && (!t.busy ==> t.world == s.world)
            && (t.busy ==> STREAM in t.world.flights
                           && t.world.flights[STREAM] == Edge.Envelope(Edge.Live(s.world), Edge.Revision(s.world)))
  {
  }

  ghost function Exec(s: System, actions: seq<Action>): System
    decreases actions
  {
    if actions == [] then s else Exec(Next(s, actions[0]), actions[1..])
  }

  /**
   The edge resumes from a revision it has had, and the stream thread does not
   reconnect in the middle of a fetch. Publications, appends and fetches are free:
   configs may be invalid, appends out of order, answers lost and writes fail.
   */
  ghost predicate Legal(s: System, a: Action) {
    match a
    case Publish(change) => Edge.Mutates(change)
    case PlaneStep(step) => step.Append? || step.Broadcast? || step.Replay? || step.Receive?
    case OtherThread(request) => !Edge.Mutates(request) && !Edge.Touches(request, STREAM)
    case Connect(lastId) => s.plane.sub.Off? && lastId <= s.world.edge.current
    case Disconnect => !s.busy
    case Dispatch => true
    case Finish(_, _) => true
  }

  ghost predicate LegalRun(s: System, actions: seq<Action>)
    decreases actions
  {
    actions == [] || (Legal(s, actions[0]) && LegalRun(Next(s, actions[0]), actions[1..]))
  }

  ghost predicate Start(s: System) {
    && Edge.Start(s.world)
    && s.plane == Plane.Init(s.world.seed) && s.handled == 0 && !s.busy && s.missed == 0
  }

  // ---- Invariant ----

  /**
   Every revision is at the edge, in the fetch under way, missed, announced in an
   unhandled frame, or on its way. `reach` is the largest of the first three.
   */
  ghost predicate Follows(
    reach: nat, frames: seq<Plane.Frame>, inbox: Plane.Inbox, pending: map<nat, bool>, revision: nat)
  {
    forall r | 0 < r <= revision :: r <= reach || Plane.Told(frames, r) || Plane.OnItsWay(inbox, pending, r)
  }

  ghost function Reach(s: System): nat {
    Max(s.world.edge.current, Max(Ahead(s.world), s.missed))
  }

  ghost predicate SubFollows(
    sub: Plane.Sub, current: nat, reach: nat, handled: nat, pending: map<nat, bool>, revision: nat)
  {
    match sub
    case Off => true
    case Waiting(lastId, _) => lastId <= current && handled == 0
    case Live(_, inbox, sent) => handled <= |sent| && Follows(reach, sent[handled..], inbox, pending, revision)
  }

  ghost predicate Good(s: System) {
    && Losses.RingSound(s.plane)
    && Edge.Good(s.world) && Edge.Revision(s.world) == s.plane.revision
    && (s.busy <==> STREAM in s.world.flights)
    && s.missed <= s.plane.revision
    && SubFollows(s.plane.sub, s.world.edge.current, Reach(s), s.handled, s.plane.pending, s.plane.revision)
  }

  // ---- Steps ----

  lemma FollowsMore(
    reach: nat, frames: seq<Plane.Frame>, inbox: Plane.Inbox, pending: map<nat, bool>, revision: nat, reach': nat)
    requires Follows(reach, frames, inbox, pending, revision) && reach <= reach'
    ensures Follows(reach', frames, inbox, pending, revision)
  {
    forall r | 0 < r <= revision
      ensures r <= reach' || Plane.Told(frames, r) || Plane.OnItsWay(inbox, pending, r)
    {
      assert r <= reach || Plane.Told(frames, r) || Plane.OnItsWay(inbox, pending, r);
    }
  }

  lemma PublishFollows(reach: nat, frames: seq<Plane.Frame>, inbox: Plane.Inbox, pending: map<nat, bool>, revision: nat)
    requires Follows(reach, frames, inbox, pending, revision)
    ensures Follows(reach, frames, inbox, pending[revision + 1 := false], revision + 1)
  {
    forall r | 0 < r <= revision + 1
      ensures r <= reach || Plane.Told(frames, r) || Plane.OnItsWay(inbox, pending[revision + 1 := false], r)
    {
      assert r <= revision ==> r <= reach || Plane.Told(frames, r) || Plane.OnItsWay(inbox, pending, r);
    }
  }

  lemma PublishGood(s: System, a: Action)
    requires Good(s) && a.Publish? && Legal(s, a)
    ensures Good(Next(s, a))
  {
    Edge.StepGood(s.world, a.change);
    Losses.StepSound(s.plane, Plane.Bump);
    if s.plane.sub.Live? {
      PublishFollows(Reach(s), s.plane.sub.sent[s.handled..], s.plane.sub.inbox, s.plane.pending, s.plane.revision);
    }
  }

  lemma BroadcastFollows(
    reach: nat, frames: seq<Plane.Frame>, inbox: Plane.Inbox, pending: map<nat, bool>, revision: nat, q: nat)
    requires Follows(reach, frames, inbox, pending, revision)
    ensures Follows(reach, frames, Plane.Offer(inbox, q), pending - {q}, revision)
  {
    forall r | 0 < r <= revision
      ensures r <= reach || Plane.Told(frames, r) || Plane.OnItsWay(Plane.Offer(inbox, q), pending - {q}, r)
    {
      assert r <= reach || Plane.Told(frames, r) || Plane.OnItsWay(inbox, pending, r);
      if Plane.OnItsWay(inbox, pending, r) {
        Plane.OfferKeeps(inbox, pending, q, r);
      }
    }
  }

  lemma AppendFollows(
    reach: nat, frames: seq<Plane.Frame>, inbox: Plane.Inbox, pending: map<nat, bool>, revision: nat, q: nat)
    requires Follows(reach, frames, inbox, pending, revision)
    ensures Follows(reach, frames, inbox, pending[q := true], revision)
  {
    forall r | 0 < r <= revision
      ensures r <= reach || Plane.Told(frames, r) || Plane.OnItsWay(inbox, pending[q := true], r)
    {
      assert r <= reach || Plane.Told(frames, r) || Plane.OnItsWay(inbox, pending, r);
    }
  }

  lemma ReplayFollows(p: Plane.Plane, reach: nat)
    requires Losses.RingSound(p) && p.sub.Waiting? && p.sub.lastId <= reach && GapOf(p) <= reach
    ensures Follows(reach, Plane.ReplayFrames(p.ring, p.sub.lastId, p.revision), p.sub.inbox, p.pending, p.revision)
  {
    var frames := Plane.ReplayFrames(p.ring, p.sub.lastId, p.revision);
    forall r | 0 < r <= p.revision
      ensures r <= reach || Plane.Told(frames, r) || Plane.OnItsWay(p.sub.inbox, p.pending, r)
    {
      if r > reach {
        Losses.ReplayToldIff(p.ring, p.sub.lastId, p.revision, r);
      }
    }
  }

  lemma ReceiveFollows(reach: nat, sub: Plane.Sub, handled: nat, pending: map<nat, bool>, revision: nat)
    requires sub.Live? && handled <= |sub.sent|
    requires Follows(reach, sub.sent[handled..], sub.inbox, pending, revision)
    ensures var t := Plane.Take(sub, revision); Follows(reach, t.sent[handled..], t.inbox, pending, revision)
  {
    var t := Plane.Take(sub, revision);
    var rest := sub.sent[handled..];
    forall r | 0 < r <= revision
      ensures r <= reach || Plane.Told(t.sent[handled..], r) || Plane.OnItsWay(t.inbox, pending, r)
    {
      assert r <= reach || Plane.Told(rest, r) || Plane.OnItsWay(sub.inbox, pending, r);
      if t.sent != sub.sent {
        var f := t.sent[|t.sent| - 1];
        assert t.sent[handled..] == rest + [f];
        if Plane.Told(rest, r) || Plane.Covers(f, r) {
          Plane.ToldMore(rest, f, r);
        }
      }
    }
  }

  lemma PlaneGood(s: System, a: Action)
    requires Good(s) && a.PlaneStep? && Legal(s, a) && !a.step.Replay?
    ensures Good(Next(s, a))
  {
    var sub, p := s.plane.sub, s.plane;
    Losses.StepSound(p, a.step);
    if sub.Live? {
      match a.step
      case Append(r) => AppendFollows(Reach(s), sub.sent[s.handled..], sub.inbox, p.pending, p.revision, r);
      case Broadcast(r) => BroadcastFollows(Reach(s), sub.sent[s.handled..], sub.inbox, p.pending, p.revision, r);
      case Receive => ReceiveFollows(Reach(s), sub, s.handled, p.pending, p.revision);
    }
  }

  lemma ReplayGood(s: System)
    requires Good(s)
    ensures Good(Next(s, PlaneStep(Plane.Replay)))
  {
    var t := Next(s, PlaneStep(Plane.Replay));
    if s.plane.sub.Waiting? {
      ReplayFollows(s.plane, Reach(t));
      assert t.plane.sub.sent[0..] == t.plane.sub.sent;
    } else if s.plane.sub.Live? {
      FollowsMore(Reach(s), s.plane.sub.sent[s.handled..], s.plane.sub.inbox, s.plane.pending, s.plane.revision,
        Reach(t));
    }
  }

  lemma OtherKeeps(w: Edge.World, request: Edge.Action)
    requires !Edge.Mutates(request) && !Edge.Touches(request, STREAM)
    ensures var v := Edge.Next(w, request);
            && v.seed == w.seed && v.log == w.log
            && (STREAM in v.flights <==> STREAM in w.flights)
            && (STREAM in w.flights ==> v.flights[STREAM] == w.flights[STREAM])
  {
  }

  lemma OtherGood(s: System, a: Action)
    requires Good(s) && a.OtherThread? && Legal(s, a)
    ensures Good(Next(s, a))
  {
    OtherKeeps(s.world, a.request);
    Edge.StepGood(s.world, a.request);
    var t := s.(world := Edge.Next(s.world, a.request));
    assert t == Next(s, a) && Ahead(t.world) == Ahead(s.world);
    if s.plane.sub.Live? {
      FollowsMore(Reach(s), s.plane.sub.sent[s.handled..], s.plane.sub.inbox, s.plane.pending, s.plane.revision,
        Reach(t));
    }
  }

  /** A frame that needs no fetch names a revision the edge has, so it can be dropped. */
  lemma IgnoreFollows(
    current: nat, reach: nat, frames: seq<Plane.Frame>, inbox: Plane.Inbox, pending: map<nat, bool>, revision: nat)
    requires frames != [] && !NeedsFetch(current, frames[0]) && current <= reach
    requires Follows(reach, frames, inbox, pending, revision)
    ensures Follows(reach, frames[1..], inbox, pending, revision)
  {
    forall r | 0 < r <= revision
      ensures r <= reach || Plane.Told(frames[1..], r) || Plane.OnItsWay(inbox, pending, r)
    {
      assert r <= reach || Plane.Told(frames, r) || Plane.OnItsWay(inbox, pending, r);
      if r > current && Plane.Told(frames, r) {
        var f :| f in frames && Plane.Covers(f, r);
        assert f != frames[0];
        assert f in frames[1..];
      }
    }
  }

  lemma DispatchGood(s: System)
    requires Good(s)
    ensures Good(Next(s, Dispatch))
  {
    if !s.busy && s.plane.sub.Live? && s.handled < |s.plane.sub.sent| {
      var rest := s.plane.sub.sent[s.handled..];
      assert rest[0] == s.plane.sub.sent[s.handled] && rest[1..] == s.plane.sub.sent[s.handled + 1..];
      if NeedsFetch(s.world.edge.current, rest[0]) {
        Edge.StepGood(s.world, Edge.Get(STREAM));
        assert Ahead(Next(s, Dispatch).world) == s.plane.revision;
      } else {
        IgnoreFollows(s.world.edge.current, Reach(s), rest, s.plane.sub.inbox, s.plane.pending, s.plane.revision);
      }
    }
  }

  lemma LandedGood(w: Edge.World, arrived: bool, written: bool)
    requires Edge.Good(w) && STREAM in w.flights
    ensures var v := Landed(w, arrived, written);
            && Edge.Good(v) && v.edge.current >= w.edge.current && STREAM !in v.flights
            && v.log == w.log && v.seed == w.seed && Ahead(w) <= Edge.Revision(w)
  {
    Edge.StepGood(w, if arrived then Edge.Land(STREAM, written) else Edge.Lose(STREAM));
    assert Edge.Genuine(w.seed, w.log, w.flights[STREAM]);
  }

  lemma FinishGood(s: System, arrived: bool, written: bool)
    requires Good(s)
    ensures Good(Next(s, Finish(arrived, written)))
  {
    if s.busy {
      var t := Next(s, Finish(arrived, written));
      LandedGood(s.world, arrived, written);
      if s.plane.sub.Live? {
        FollowsMore(Reach(s), s.plane.sub.sent[s.handled..], s.plane.sub.inbox, s.plane.pending, s.plane.revision,
        Reach(t));
      }
    }
  }

  lemma StepGood(s: System, a: Action)
    requires Good(s) && Legal(s, a)
    ensures Good(Next(s, a))
  {
    match a
    case Publish(_) => PublishGood(s, a);
    case PlaneStep(step) =>
      if step.Replay? {
        ReplayGood(s);
      } else {
        PlaneGood(s, a);
      }
    case OtherThread(_) => OtherGood(s, a);
    case Dispatch => DispatchGood(s);
    case Finish(arrived, written) => FinishGood(s, arrived, written);
    case _ =>
  }

  lemma {:induction false} ExecGood(s: System, actions: seq<Action>)
    requires Good(s) && LegalRun(s, actions)
    ensures Good(Exec(s, actions))
    decreases actions
  {
    if actions != [] {
      StepGood(s, actions[0]);
      ExecGood(Next(s, actions[0]), actions[1..]);
    }
  }

  // ---- Main results ----

  /** Nothing is on its way to the edge and every frame has been handled. */
  ghost predicate Settled(s: System) {
    && s.plane.sub.Live? && s.plane.sub.inbox == Plane.EMPTY && s.plane.pending == map[]
    && s.handled == |s.plane.sub.sent| && !s.busy
  }

  lemma StartGood(s: System)
    requires Start(s)
    ensures Good(s)
  {
  }

  /**
   In every run, once the stream has settled, the edge holds exactly the live config of
   the control plane if and only if it has got past the last revision this connection
   missed: the one it was not told about because of a hole in the ring, or the one whose
   fetch was lost, rejected or not written.
   */
  lemma StreamConvergesIff(s: System, actions: seq<Action>)
    requires Start(s) && LegalRun(s, actions)
    ensures var t := Exec(s, actions);
            Settled(t) ==> (Edge.InSync(t.world) <==> t.missed <= t.world.edge.current)
  {
    StartGood(s);
    ExecGood(s, actions);
    var t := Exec(s, actions);
    if Settled(t) && t.missed <= t.world.edge.current {
      var rest := t.plane.sub.sent[t.handled..];
      assert rest == [];
      assert !Plane.Told(rest, t.plane.revision);
      Edge.AtRevisionInSync(t.world);
    }
  }

  // ---- Runs in which nothing goes wrong ----

  /** Appends in order, resuming from a real revision, valid configs, and fetches that arrive and are written. */
  ghost predicate Smooth(s: System, a: Action) {
    match a
    case Publish(change) => var w := Edge.Next(s.world, change); w.log != [] && Edge.ValidConfig(Edge.Live(w))
    case PlaneStep(step) => Plane.InOrder(s.plane, step)
    case Connect(lastId) => lastId >= 1
    case Finish(arrived, written) => arrived && written
    case _ => true
  }

  ghost predicate SmoothRun(s: System, actions: seq<Action>)
    decreases actions
  {
    actions == [] || (Smooth(s, actions[0]) && SmoothRun(Next(s, actions[0]), actions[1..]))
  }

  ghost predicate Unharmed(s: System) {
    && Plane.RingGood(s.plane.revision, s.plane.ring, s.plane.pending)
    && s.world.log != [] && Edge.ValidConfig(Edge.Live(s.world))
    && (STREAM in s.world.flights ==> Edge.ValidateSnapshot(s.world.flights[STREAM]).Ok?)
    && (s.plane.sub.Waiting? ==> s.plane.sub.lastId >= 1)
    && s.missed == 0
  }

  lemma SmoothGap(p: Plane.Plane)
    requires Plane.RingGood(p.revision, p.ring, p.pending) && p.sub.Waiting? && p.sub.lastId >= 1
    ensures GapOf(p) == 0
  {
    var g := GapOf(p);
    if g > 0 {
      GapIsReal(p.ring, p.sub.lastId, p.sub.inbox, p.pending, p.revision);
      Plane.ReplayCovers(p, p.sub.lastId, p.sub.inbox);
      Losses.ReplayToldIff(p.ring, p.sub.lastId, p.revision, g);
    }
  }

  lemma {:induction false} GapIsReal(ring: seq<nat>, lastId: nat, inbox: Plane.Inbox, pending: map<nat, bool>, r: nat)
    requires ring != []
    ensures var g := Gap(ring, lastId, inbox, pending, r);
            g > 0 ==> lastId < g && !Losses.Answered(ring, lastId, g) && !Plane.OnItsWay(inbox, pending, g)
    decreases r
  {
    if r > lastId && (Losses.Answered(ring, lastId, r) || Plane.OnItsWay(inbox, pending, r)) {
      GapIsReal(ring, lastId, inbox, pending, r - 1);
    }
  }

  lemma SmoothWorld(s: System, a: Action)
    requires Good(s) && Unharmed(s) && Legal(s, a) && Smooth(s, a)
    ensures var w := Next(s, a).world;
            && w.log != [] && Edge.ValidConfig(Edge.Live(w))
            && (STREAM in w.flights ==> Edge.ValidateSnapshot(w.flights[STREAM]).Ok?)
            && (a.Finish? && s.busy ==> w.edge.current >= Ahead(s.world))
  {
    match a
    case OtherThread(request) => OtherKeeps(s.world, request);
    case Dispatch => Edge.ValidatesIff(Edge.Live(s.world), Edge.Revision(s.world));
    case Finish(_, _) =>
      if s.busy {
        assert Edge.Genuine(s.world.seed, s.world.log, s.world.flights[STREAM]);
        Edge.ActivateGood(s.world.seed, s.world.log, s.world.edge, s.world.flights[STREAM], true);
      }
    case _ =>
  }

  lemma SmoothStep(s: System, a: Action)
    requires Good(s) && Unharmed(s) && Legal(s, a) && Smooth(s, a)
    ensures Unharmed(Next(s, a))
  {
    SmoothWorld(s, a);
    match a
    case Publish(_) => Plane.RingStep(s.plane, Plane.Bump);
    case PlaneStep(step) =>
      Plane.RingStep(s.plane, step);
      if step.Replay? && s.plane.sub.Waiting? {
        SmoothGap(s.plane);
      }
    case _ =>
  }

  lemma {:induction false} SmoothExec(s: System, actions: seq<Action>)
    requires Good(s) && Unharmed(s) && LegalRun(s, actions) && SmoothRun(s, actions)
    ensures Exec(s, actions).missed == 0
    decreases actions
  {
    if actions != [] {
      StepGood(s, actions[0]);
      SmoothStep(s, actions[0]);
      SmoothExec(Next(s, actions[0]), actions[1..]);
    }
  }

  /**
   So when appends are in order, configs valid and fetches succeed, a settled stream
   means the edge is in sync: the stream alone brings it up to date, whatever was
   evicted, however far the subscriber lagged and whatever other threads fetched.
   */
  lemma StreamConverges(s: System, actions: seq<Action>)
    requires Start(s) && Edge.ValidConfig(s.world.log[0]) && LegalRun(s, actions) && SmoothRun(s, actions)
    ensures Settled(Exec(s, actions)) ==> Edge.InSync(Exec(s, actions).world)
  {
    StartGood(s);
    assert Unharmed(s);
    SmoothExec(s, actions);
    StreamConvergesIff(s, actions);
  }
}
