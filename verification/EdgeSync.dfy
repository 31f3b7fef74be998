/**
 The edge's config agent against the control plane. Any number of threads fetch
 snapshots and check versions, and their requests, answers and activations
 interleave freely with each other and with mutations on the control plane.
 */
module EdgeSync {
  import opened Prelude
  import opened Decimal
  import Store = ConfigStore

  /** A config as the control plane holds it; `rest` is everything the edge does not look at. */
  datatype Config = Config(version: string, routes: nat, services: nat, rest: string)

  /** The body of GET /config; a field that is absent or of the wrong type is None. */
  datatype Snapshot = Snapshot(
    version: Option<string>, routes: Option<nat>, services: Option<nat>, revision: Option<nat>, rest: string)

  function Envelope(c: Config, revision: nat): Snapshot {
    Snapshot(Some(c.version), Some(c.routes), Some(c.services), Some(revision), c.rest)
  }

  function ValidateSnapshot(j: Snapshot): Result<(nat, string)> {
    if j.version.None? || j.version.value == "" then Err("snapshot missing version")
    else if j.routes.None? || j.routes.value == 0 then Err("snapshot has no routes")
    else if j.services.None? || j.services.value == 0 then Err("snapshot has no services")
    else Ok((if j.revision.Some? then j.revision.value else 0, j.version.value))
  }

  predicate ValidConfig(c: Config) {
    c.version != "" && c.routes > 0 && c.services > 0
  }

  /**
   Any body, whichever fields it lacks: it validates exactly when it has a non-empty
   version and at least one route and one service, and then stands for its revision, or
   for 0 if it has none.
   */
  lemma SnapshotValidatesIff(j: Snapshot, revision: nat, version: string)
    ensures ValidateSnapshot(j) == Ok((revision, version)) <==>
            && j.version == Some(version) && version != ""
            && (exists n | n > 0 :: j.routes == Some(n))
            && (exists n | n > 0 :: j.services == Some(n))
            && (j.revision == Some(revision) || (j.revision == None && revision == 0))
  {
    if ValidateSnapshot(j) == Ok((revision, version)) {
      assert j.routes == Some(j.routes.value) && j.services == Some(j.services.value);
    }
  }

  lemma ValidatesIff(c: Config, revision: nat)
    ensures ValidateSnapshot(Envelope(c, revision)).Ok? <==> ValidConfig(c)
    ensures ValidConfig(c) ==> ValidateSnapshot(Envelope(c, revision)) == Ok((revision, c.version))
  {
  }

  // ---- The edge ----

  /** `file` is the activated snapshot on disk. */
  datatype Edge = Edge(current: nat, lastVersion: string, file: Option<Snapshot>)

  const NEW_EDGE: Edge := Edge(0, "", None)

  predicate UpToDate(e: Edge, revision: nat, version: string) {
    if e.current == 0 && e.lastVersion == "" then false
    else if revision == 0 then version == e.lastVersion
    else revision <= e.current
  }

  /** What a snapshot that arrives does to the edge; `written` says whether the atomic write succeeded. */
  function Activate(e: Edge, j: Snapshot, written: bool): Edge {
    var v := ValidateSnapshot(j);
    if v.Err? || UpToDate(e, v.value.0, v.value.1) || !written then e
    else Edge(v.value.0, v.value.1, Some(j))
  }

  class SyncAgent {
    var current: nat
    var lastVersion: string
    var file: Option<Snapshot>

    function View(): Edge
      reads this
    {
      Edge(current, lastVersion, file)
    }

    constructor ()
      ensures View() == NEW_EDGE
    {
      current, lastVersion, file := 0, "", None;
    }

    /** Validate, compare under the lock, write, then record what is active. */
    method FetchAndApply(response: Result<Snapshot>, written: bool) returns (r: Result<Option<(nat, string)>>)
      modifies this
      ensures View() == if response.Ok? then Activate(old(View()), response.value, written) else old(View())
      ensures r.Ok? && r.value.Some? ==>
                response.Ok? && file == Some(response.value) && r.value.value == (current, lastVersion)
      ensures !(r.Ok? && r.value.Some?) ==> View() == old(View())
      ensures r.Ok? && r.value.Some? <==>
                && response.Ok? && ValidateSnapshot(response.value).Ok? && written
                && var (revision, version) := ValidateSnapshot(response.value).value;
                   || (old(current) == 0 && old(lastVersion) == "")
                   || (revision == 0 && version != old(lastVersion))
                   || revision > old(current)
      ensures r.Err? <==>
                response.Err? || ValidateSnapshot(response.value).Err?
                || (!written && var v := ValidateSnapshot(response.value).value; !UpToDate(old(View()), v.0, v.1))
    {
      var json :- response;
      var validated :- ValidateSnapshot(json);
      var (revision, version) := validated;
      var upToDate;
      if current == 0 && lastVersion == "" {
        upToDate := false;
      } else if revision == 0 {
        upToDate := version == lastVersion;
      } else {
        upToDate := revision <= current;
      }
      if upToDate {
        return Ok(None);
      }
      if !written {
        return Err("write");
      }
      file := Some(json);
      current := revision;
      lastVersion := version;
      return Ok(Some((revision, version)));
    }

    /**
     The periodic check: `version` is the control plane's revision when it answered.
     A snapshot is fetched exactly when the revisions differ.
     */
    method Reconcile(version: Result<nat>, response: Result<Snapshot>, written: bool)
      modifies this
      ensures View() ==
        if version.Ok? && version.value != old(current) && response.Ok?
        then Activate(old(View()), response.value, written) else old(View())
    {
      if version.Err? {
        return;
      }
      ETagInjective(current, version.value);
      if current > 0 && ETag(current) == ETag(version.value) {
        return;
      }
      if version.value != current {
        var _ := FetchAndApply(response, written);
      }
    }
  }

  /** A single activation lowers the revision exactly when a server without revisions answers. */
  lemma ActivateLowersIff(e: Edge, j: Snapshot, written: bool)
    ensures Activate(e, j, written).current < e.current <==>
              && written && e.current > 0 && ValidateSnapshot(j).Ok?
              && ValidateSnapshot(j).value.0 == 0 && ValidateSnapshot(j).value.1 != e.lastVersion
  {
  }

  // ---- Entity tags ----

  function ETag(revision: nat): string {
    "W/\"rev-" + Digits(revision) + "\""
  }

  lemma ETagInjective(a: nat, b: nat)
    ensures ETag(a) == ETag(b) <==> a == b
  {
    if ETag(a) == ETag(b) {
      var x, y := ETag(a), ETag(b);
      assert x[7..|x| - 1] == Digits(a) && y[7..|y| - 1] == Digits(b);
      DigitsInjective(a, b);
    }
  }

  // ---- The transition system ----

  /** `log` holds the config of every revision from `seed` on; `history` is the rollback store. */
  datatype World = World(
    seed: nat, log: seq<Config>, history: seq<Config>, limit: nat,
    edge: Edge, flights: map<nat, Snapshot>, checks: map<nat, nat>)

  datatype Action =
    | Post(config: Config)
    | Rollback
    | Get(thread: nat)                   // the control plane answers a snapshot request
    | Land(thread: nat, written: bool)   // the answer is validated and activated
    | Lose(thread: nat)                  // the answer never arrives
    | Check(thread: nat)                 // a reconcile reads its current revision
    | Answer(thread: nat)                // the control plane answers the version check

  function Revision(s: World): int {
    s.seed + |s.log| - 1
  }

  function ContentAt(s: World, r: int): Config
    requires s.seed <= r <= Revision(s)
  {
    s.log[r - s.seed]
  }

  function Live(s: World): Config
    requires s.log != []
  {
    s.log[|s.log| - 1]
  }

  predicate NotModified(s: World, seen: nat) {
    seen > 0 && Revision(s) >= 0 && ETag(seen) == ETag(Revision(s))
  }

  function Next(s: World, a: Action): World {
    match a
    case Post(c) => s.(log := s.log + [c], history := Store.Push(s.history, c, s.limit))
    case Rollback =>
      var h := Store.Pop(s.history);
      if h == [] then s else s.(log := s.log + [Store.Current(h)], history := h)
    case Get(t) =>
      if s.log == [] || t in s.flights then s
      else s.(flights := s.flights[t := Envelope(Live(s), Revision(s))])
    case Land(t, written) =>
      if t !in s.flights then s
      else s.(edge := Activate(s.edge, s.flights[t], written), flights := s.flights - {t})
    case Lose(t) => s.(flights := s.flights - {t})
    case Check(t) => s.(checks := s.checks[t := s.edge.current])
    case Answer(t) => s.(checks := s.checks - {t})
  }

  function Exec(s: World, actions: seq<Action>): World
    decreases actions
  {
    if actions == [] then s else Exec(Next(s, actions[0]), actions[1..])
  }

  predicate Start(s: World) {
    && s.seed >= 1 && |s.log| == 1 && s.history != [] && Store.Current(s.history) == s.log[0]
    && s.edge == NEW_EDGE && s.flights == map[] && s.checks == map[]
  }

  // ---- Invariants ----

  /** The snapshot is what the control plane held at the revision it names. */
  predicate Genuine(seed: nat, log: seq<Config>, j: Snapshot) {
    && j.revision.Some? && seed <= j.revision.value < seed + |log|
    && j == Envelope(log[j.revision.value - seed], j.revision.value)
  }

  predicate EdgeGood(seed: nat, log: seq<Config>, e: Edge) {
    e == NEW_EDGE
    || (&& e.file.Some? && Genuine(seed, log, e.file.value)
        && ValidateSnapshot(e.file.value) == Ok((e.current, e.lastVersion)))
  }

  predicate FlightsGood(seed: nat, log: seq<Config>, flights: map<nat, Snapshot>) {
    forall t | t in flights :: Genuine(seed, log, flights[t])
  }

  predicate ChecksGood(current: nat, checks: map<nat, nat>) {
    forall t | t in checks :: checks[t] <= current
  }

  predicate PlaneGood(seed: nat, log: seq<Config>, history: seq<Config>) {
    seed >= 1 && log != [] && history != [] && Store.Current(history) == log[|log| - 1]
  }

  predicate Good(s: World) {
    && PlaneGood(s.seed, s.log, s.history)
    && EdgeGood(s.seed, s.log, s.edge)
    && FlightsGood(s.seed, s.log, s.flights)
    && ChecksGood(s.edge.current, s.checks)
  }

  lemma GenuineStays(seed: nat, log: seq<Config>, c: Config, j: Snapshot)
    requires Genuine(seed, log, j)
    ensures Genuine(seed, log + [c], j)
  {
  }

  lemma ActivateGood(seed: nat, log: seq<Config>, e: Edge, j: Snapshot, written: bool)
    requires seed >= 1 && EdgeGood(seed, log, e) && Genuine(seed, log, j)
    ensures EdgeGood(seed, log, Activate(e, j, written))
    ensures Activate(e, j, written).current >= e.current
    ensures written && ValidateSnapshot(j).Ok? ==> Activate(e, j, written).current >= j.revision.value
  {
    ValidatesIff(log[j.revision.value - seed], j.revision.value);
  }

  lemma StepGood(s: World, a: Action)
    requires Good(s)
    ensures Good(Next(s, a))
    ensures Next(s, a).edge.current >= s.edge.current
    ensures s.log <= Next(s, a).log && Next(s, a).seed == s.seed
  {
    match a
    case Post(c) => LogGrows(s, c);
    case Rollback => LogGrows(s, Store.Current(Store.Pop(s.history)));
    case Land(t, written) =>
      if t in s.flights {
        ActivateGood(s.seed, s.log, s.edge, s.flights[t], written);
      }
    case _ =>
  }

  lemma LogGrows(s: World, c: Config)
    requires Good(s)
    ensures EdgeGood(s.seed, s.log + [c], s.edge) && FlightsGood(s.seed, s.log + [c], s.flights)
  {
    if s.edge.file.Some? && s.edge != NEW_EDGE {
      GenuineStays(s.seed, s.log, c, s.edge.file.value);
    }
    forall t | t in s.flights ensures Genuine(s.seed, s.log + [c], s.flights[t]) {
      GenuineStays(s.seed, s.log, c, s.flights[t]);
    }
  }

  lemma {:induction false} ExecGood(s: World, actions: seq<Action>)
    requires Good(s)
    ensures Good(Exec(s, actions))
    ensures Exec(s, actions).edge.current >= s.edge.current
    ensures s.log <= Exec(s, actions).log && Exec(s, actions).seed == s.seed
    decreases actions
  {
    if actions != [] {
      StepGood(s, actions[0]);
      ExecGood(Next(s, actions[0]), actions[1..]);
    }
  }

  // ---- Main results ----

  /** However requests overlap, between any two points of a run the edge's revision does not go down. */
  lemma NeverRegresses(s: World, before: seq<Action>, after: seq<Action>)
    requires Start(s)
    ensures Exec(s, before).edge.current <= Exec(Exec(s, before), after).edge.current
  {
    ExecGood(s, before);
    ExecGood(Exec(s, before), after);
  }

  /** Once anything is active, the file is the valid content of exactly the revision the edge believes in. */
  lemma FileIsItsRevision(s: World, actions: seq<Action>)
    requires Start(s)
    ensures var t := Exec(s, actions);
            t.edge == NEW_EDGE ||
            (&& t.seed <= t.edge.current <= Revision(t)
             && ValidConfig(ContentAt(t, t.edge.current))
             && t.edge.lastVersion == ContentAt(t, t.edge.current).version
             && t.edge.file == Some(Envelope(ContentAt(t, t.edge.current), t.edge.current)))
  {
    ExecGood(s, actions);
    var t := Exec(s, actions);
    if t.edge != NEW_EDGE {
      var j := t.edge.file.value;
      ValidatesIff(t.log[j.revision.value - t.seed], j.revision.value);
    }
  }

  ghost predicate InSync(s: World) {
    s.log != [] && s.edge.current == Revision(s) && s.edge.file == Some(Envelope(Live(s), s.edge.current))
  }

  lemma AtRevisionInSync(s: World)
    requires Good(s) && s.edge.current >= Revision(s)
    ensures InSync(s)
  {
    var j := s.edge.file.value;
    ValidatesIff(s.log[j.revision.value - s.seed], j.revision.value);
  }

  /** A 304 answer to any version check, however long it was on its way, means the file is the live config. */
  lemma NotModifiedMeansInSync(s: World, actions: seq<Action>, t: nat)
    requires Start(s)
    ensures var w := Exec(s, actions); t in w.checks && NotModified(w, w.checks[t]) ==> InSync(w)
  {
    ExecGood(s, actions);
    var w := Exec(s, actions);
    if t in w.checks && NotModified(w, w.checks[t]) {
      ETagInjective(w.checks[t], Revision(w));
      AtRevisionInSync(w);
    }
  }

  predicate Mutates(a: Action) {
    a.Post? || a.Rollback?
  }

  predicate Touches(a: Action, t: nat) {
    (a.Get? || a.Land? || a.Lose?) && a.thread == t
  }

  predicate Quiet(actions: seq<Action>) {
    forall i | 0 <= i < |actions| :: !Mutates(actions[i])
  }

  lemma {:induction false} QuietKeepsLog(s: World, actions: seq<Action>)
    requires Good(s) && Quiet(actions)
    ensures Exec(s, actions).log == s.log && Exec(s, actions).seed == s.seed
    decreases actions
  {
    if actions != [] {
      assert !Mutates(actions[0]);
      assert Quiet(actions[1..]);
      StepGood(s, actions[0]);
      QuietKeepsLog(Next(s, actions[0]), actions[1..]);
    }
  }

  lemma {:induction false} FlightStays(s: World, actions: seq<Action>, t: nat)
    requires t in s.flights && forall i | 0 <= i < |actions| :: !Touches(actions[i], t)
    ensures t in Exec(s, actions).flights && Exec(s, actions).flights[t] == s.flights[t]
    decreases actions
  {
    if actions != [] {
      assert !Touches(actions[0], t);
      FlightStays(Next(s, actions[0]), actions[1..], t);
    }
  }

  /** A fetch by thread `t` during which other threads take the steps `mid`. */
  function Fetched(s: World, t: nat, mid: seq<Action>): World {
    Next(Exec(Next(s, Get(t)), mid), Land(t, true))
  }

  lemma LandsAt(s: World, t: nat)
    requires Good(s) && t in s.flights && s.flights[t] == Envelope(Live(s), Revision(s))
    ensures ValidConfig(Live(s)) ==> Next(s, Land(t, true)).edge.current >= Revision(s)
  {
    ActivateGood(s.seed, s.log, s.edge, s.flights[t], true);
    ValidatesIff(Live(s), Revision(s));
  }

  lemma FetchedGood(s: World, t: nat, mid: seq<Action>)
    requires Good(s) && t !in s.flights && Quiet(mid) && forall i | 0 <= i < |mid| :: !Touches(mid[i], t)
    ensures var w := Fetched(s, t, mid);
            && Good(w) && w.log == s.log && w.seed == s.seed
            && (ValidConfig(Live(s)) ==> w.edge.current >= Revision(s))
  {
    var sent := Next(s, Get(t));
    StepGood(s, Get(t));
    FlightStays(sent, mid, t);
    QuietKeepsLog(sent, mid);
    ExecGood(sent, mid);
    LandsAt(Exec(sent, mid), t);
    StepGood(Exec(sent, mid), Land(t, true));
  }

  lemma InvalidNotInSync(s: World)
    requires Good(s) && !ValidConfig(Live(s))
    ensures !InSync(s)
  {
    ValidatesIff(Live(s), Revision(s));
  }

  /**
   After the last mutation one fetch whose write succeeds settles the edge, whatever
   other requests do in between and afterwards, exactly when the live config
   validates: the edge is then in sync for the rest of the run.
   */
  lemma OneFetchConverges(s: World, before: seq<Action>, t: nat, mid: seq<Action>, after: seq<Action>)
    requires Start(s)
    requires t !in Exec(s, before).flights
    requires Quiet(mid) && Quiet(after) && forall i | 0 <= i < |mid| :: !Touches(mid[i], t)
    ensures var w := Exec(s, before);
            w.log != [] && (ValidConfig(Live(w)) <==> InSync(Exec(Fetched(w, t, mid), after)))
  {
    var w := Exec(s, before);
    ExecGood(s, before);
    FetchedGood(w, t, mid);
    var f := Fetched(w, t, mid);
    QuietKeepsLog(f, after);
    ExecGood(f, after);
    if ValidConfig(Live(w)) {
      AtRevisionInSync(Exec(f, after));
    } else {
      InvalidNotInSync(Exec(f, after));
    }
  }

  /**
   Rolling a push back publishes a new revision, and it carries the old content
   exactly when the push left the old snapshot in the store, or changed nothing.
   */
  lemma RollbackRestoresIff(s: World, actions: seq<Action>, c: Config)
    requires Start(s)
    ensures var w := Exec(s, actions); var u := Next(Next(w, Post(c)), Rollback);
            && w.log != [] && u.log != [] && Revision(u) == Revision(w) + 2
            && (Live(u) == Live(w) <==> w.limit >= 2 || |w.history| >= 2 || c == Live(w))
  {
    ExecGood(s, actions);
    var w := Exec(s, actions);
    var h := Store.Push(w.history, c, w.limit);
    if |h| > 1 {
      assert Store.Pop(h) == h[..|h| - 1];
    }
  }
}
