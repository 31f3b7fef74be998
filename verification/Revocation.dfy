/**
 The worker's snapshot of revoked tokens and token-version floors, rebuilt from
 deltas of two Redis indexes. The main result compares it with the whole index
 after any sequence of publications, failed cycles and successful cycles.
 */
module Revocation {
  import opened Prelude
  import opened Decimal

  /** Seconds of overlap for the revocation index; the version index counts milliseconds. */
  const SKEW_OVERLAP: int := 60
  const TV_OVERLAP: int := 60_000
  const INDEX_RETENTION: nat := 3600
  const MGET_CHUNK: nat := 500

  datatype Snapshot = Snapshot(
    revoked: map<string, nat>, floors: map<string, U64>, syncedAtMs: nat, generation: nat)

  // ---- Reading the snapshot ----

  function JtiKey(jti: string): string {
    "gateway:revoked:jti:" + jti
  }

  function HashKey(hash: string): string {
    "gateway:revoked:token:" + hash
  }

  predicate Held(revoked: map<string, nat>, key: string, now: nat) {
    key in revoked && revoked[key] > now
  }

  predicate IsRevoked(revoked: map<string, nat>, now: nat, jti: Option<string>, hash: string) {
    || (jti.Some? && jti.value != "" && Held(revoked, JtiKey(jti.value), now))
    || Held(revoked, HashKey(hash), now)
  }

  predicate TvStale(floors: map<string, U64>, user: string, tv: Option<U64>) {
    user in floors && tv != Some(floors[user])
  }

  function Minus(a: nat, b: nat): nat {
    if a < b then 0 else a - b
  }

  predicate SnapshotStale(s: Snapshot, nowMs: nat, intervalSecs: nat) {
    s.generation == 0 || Minus(nowMs, s.syncedAtMs) > intervalSecs * 3_000 + 5_000
  }

  // ---- One cycle ----

  /** A watermark; None is minus infinity. */
  type Mark = Option<int>

  predicate Since(mark: Mark, overlap: int, score: int) {
    mark.None? || score >= mark.value - overlap
  }

  /** A range query: exactly the members from the watermark on, with their scores, in some order. */
  ghost predicate Enumerates(delta: seq<(string, int)>, index: map<string, int>, mark: Mark, overlap: int) {
    && (forall p | p in delta :: p.0 in index && index[p.0] == p.1)
    && (forall k | k in index :: (k, index[k]) in delta <==> Since(mark, overlap, index[k]))
  }

  function AsU64(score: int): nat {
    if score < 0 then 0 else score
  }

  function Raise(mark: Mark, score: int): Mark {
    if mark.None? || score > mark.value then Some(score) else mark
  }

  function RaiseAll(mark: Mark, delta: seq<(string, int)>): Mark
    decreases |delta|
  {
    if delta == [] then mark else RaiseAll(Raise(mark, delta[0].1), delta[1..])
  }

  function Unexpired(revoked: map<string, nat>, now: nat): map<string, nat> {
    map k | k in revoked && revoked[k] > now :: revoked[k]
  }

  function InsertAll(revoked: map<string, nat>, delta: seq<(string, int)>): map<string, nat>
    decreases |delta|
  {
    if delta == [] then revoked else InsertAll(revoked[delta[0].0 := AsU64(delta[0].1)], delta[1..])
  }

  function SetFloor(floors: map<string, U64>, user: string, floor: Option<U64>): map<string, U64> {
    if floor.Some? then floors[user := floor.value] else floors - {user}
  }

  /** `stored` is what the auth service has published for each user. */
  function FloorOf(stored: map<string, U64>, user: string): Option<U64> {
    if user in stored then Some(stored[user]) else None
  }

  function SetFloors(floors: map<string, U64>, delta: seq<(string, int)>, stored: map<string, U64>): map<string, U64>
    decreases |delta|
  {
    if delta == [] then floors
    else SetFloors(SetFloor(floors, delta[0].0, FloorOf(stored, delta[0].0)), delta[1..], stored)
  }

  class SnapshotSync {
    var snap: Snapshot
    var revMark: Mark
    var tvMark: Mark

    constructor ()
      ensures snap == Snapshot(map[], map[], 0, 0) && revMark == None && tvMark == None
    {
      snap := Snapshot(map[], map[], 0, 0);
      revMark, tvMark := None, None;
    }

    /**
     One cycle over what the two range queries returned. A failed query leaves the
     snapshot and both watermarks as they were.
     */
    method SyncOnce(
      revDelta: Result<seq<(string, int)>>, tvDelta: Result<seq<(string, int)>>, stored: Result<map<string, U64>>,
      now: nat, nowMs: nat) returns (ok: bool)
      modifies this
      ensures ok == (revDelta.Ok? && tvDelta.Ok? && stored.Ok?)
      ensures !ok ==> snap == old(snap) && revMark == old(revMark) && tvMark == old(tvMark)
      ensures ok ==>
        && snap.revoked == InsertAll(Unexpired(old(snap).revoked, now), revDelta.value)
        && snap.floors == SetFloors(old(snap).floors, tvDelta.value, stored.value)
        && snap.generation == old(snap).generation + 1 && snap.syncedAtMs == nowMs
        && revMark == RaiseAll(old(revMark), revDelta.value)
        && tvMark == RaiseAll(old(tvMark), tvDelta.value)
      ensures ok ==>
        forall s: System, collected: bool |
          IsWorker(s, old(snap), old(revMark), old(tvMark)) && s.now == now && s.stored == stored.value ::
          IsWorker(Next(s, SyncOk(revDelta.value, tvDelta.value, collected)), snap, revMark, tvMark)
    {
      if revDelta.Err? || tvDelta.Err? || stored.Err? {
        return false;
      }
      var fetched, tvTop := FetchFloors(tvDelta.value, stored.value, tvMark);
      var revoked, revTop := MergeRevoked(Unexpired(snap.revoked, now), revDelta.value, revMark);
      var floors := MergeFloors(snap.floors, tvDelta.value, fetched, stored.value);
      snap := Snapshot(revoked, floors, nowMs, snap.generation + 1);
      revMark, tvMark := revTop, tvTop;
      return true;
    }
  }

  /** The revocation loop of a cycle. */
  method MergeRevoked(start: map<string, nat>, delta: seq<(string, int)>, mark: Mark)
    returns (revoked: map<string, nat>, top: Mark)
    ensures revoked == InsertAll(start, delta) && top == RaiseAll(mark, delta)
  {
    revoked, top := start, mark;
    assert delta[0..] == delta;
    for i := 0 to |delta|
      invariant InsertAll(revoked, delta[i..]) == InsertAll(start, delta)
      invariant RaiseAll(top, delta[i..]) == RaiseAll(mark, delta)
    {
      var (key, score) := delta[i];
      assert delta[i..][0] == delta[i] && delta[i..][1..] == delta[i + 1..];
      top := Raise(top, score);
      revoked := revoked[key := AsU64(score)];
    }
  }

  /** The chunked floor lookup: one answer for each changed user. */
  method FetchFloors(delta: seq<(string, int)>, stored: map<string, U64>, mark: Mark)
    returns (fetched: seq<Option<U64>>, top: Mark)
    ensures |fetched| == |delta| && forall i | 0 <= i < |delta| :: fetched[i] == FloorOf(stored, delta[i].0)
    ensures top == RaiseAll(mark, delta)
  {
    top := mark;
    assert delta[0..] == delta;
    for i := 0 to |delta|
      invariant RaiseAll(top, delta[i..]) == RaiseAll(mark, delta)
    {
      assert delta[i..][0] == delta[i] && delta[i..][1..] == delta[i + 1..];
      top := Raise(top, delta[i].1);
    }
    fetched := [];
    while |fetched| < |delta|
      invariant |fetched| <= |delta|
      invariant forall i | 0 <= i < |fetched| :: fetched[i] == FloorOf(stored, delta[i].0)
    {
      var end := if |fetched| + MGET_CHUNK < |delta| then |fetched| + MGET_CHUNK else |delta|;
      var chunk := delta[|fetched|..end];
      var values := seq(|chunk|, i requires 0 <= i < |chunk| => FloorOf(stored, chunk[i].0));
      fetched := fetched + values;
    }
  }

  method MergeFloors(
    start: map<string, U64>, delta: seq<(string, int)>, fetched: seq<Option<U64>>, ghost stored: map<string, U64>)
    returns (floors: map<string, U64>)
    requires |fetched| == |delta| && forall i | 0 <= i < |delta| :: fetched[i] == FloorOf(stored, delta[i].0)
    ensures floors == SetFloors(start, delta, stored)
  {
    floors := start;
    assert delta[0..] == delta;
    for i := 0 to |delta|
      invariant SetFloors(floors, delta[i..], stored) == SetFloors(start, delta, stored)
    {
      assert delta[i..][0] == delta[i] && delta[i..][1..] == delta[i + 1..];
      floors := SetFloor(floors, delta[i].0, fetched[i]);
    }
  }

  // ---- What one cycle achieves ----

  predicate InDelta(delta: seq<(string, int)>, key: string) {
    exists i | 0 <= i < |delta| :: delta[i].0 == key
  }

  lemma InDeltaCons(delta: seq<(string, int)>, key: string)
    requires delta != []
    ensures InDelta(delta, key) <==> delta[0].0 == key || InDelta(delta[1..], key)
  {
    if InDelta(delta, key) {
      var i :| 0 <= i < |delta| && delta[i].0 == key;
      if i > 0 {
        assert delta[1..][i - 1].0 == key;
      }
    }
    if InDelta(delta[1..], key) {
      var i :| 0 <= i < |delta[1..]| && delta[1..][i].0 == key;
      assert delta[i + 1].0 == key;
    }
  }

  ghost predicate ScoresFrom(delta: seq<(string, int)>, index: map<string, int>) {
    forall p | p in delta :: p.0 in index && index[p.0] == p.1
  }

  lemma {:induction false} InsertAllAt(
    revoked: map<string, nat>, delta: seq<(string, int)>, index: map<string, int>, key: string)
    requires ScoresFrom(delta, index)
    ensures var r := InsertAll(revoked, delta);
            if InDelta(delta, key) then key in index && key in r && r[key] == AsU64(index[key])
            else key in r <==> key in revoked
    ensures !InDelta(delta, key) && key in revoked ==> InsertAll(revoked, delta)[key] == revoked[key]
    decreases |delta|
  {
    if delta != [] {
      InDeltaCons(delta, key);
      assert delta[0] in delta;
      assert forall p | p in delta[1..] :: p in delta;
      InsertAllAt(revoked[delta[0].0 := AsU64(delta[0].1)], delta[1..], index, key);
    }
  }

  lemma {:induction false} SetFloorsAt(
    floors: map<string, U64>, delta: seq<(string, int)>, stored: map<string, U64>, user: string)
    ensures FloorOf(SetFloors(floors, delta, stored), user)
         == if InDelta(delta, user) then FloorOf(stored, user) else FloorOf(floors, user)
    decreases |delta|
  {
    if delta != [] {
      InDeltaCons(delta, user);
      SetFloorsAt(SetFloor(floors, delta[0].0, FloorOf(stored, delta[0].0)), delta[1..], stored, user);
    }
  }

  lemma EnumeratesIff(delta: seq<(string, int)>, index: map<string, int>, mark: Mark, overlap: int, key: string)
    requires Enumerates(delta, index, mark, overlap)
    ensures InDelta(delta, key) <==> key in index && Since(mark, overlap, index[key])
  {
    if InDelta(delta, key) {
      var i :| 0 <= i < |delta| && delta[i].0 == key;
      assert delta[i] in delta && delta[i] == (key, index[key]);
    }
    if key in index && (key, index[key]) in delta {
      var i :| 0 <= i < |delta| && delta[i] == (key, index[key]);
    }
  }

  /** The index and the snapshot say the same about `key` at this time and at any later time. */
  predicate AgreeOn(index: map<string, int>, revoked: map<string, nat>, key: string, now: nat) {
    && (key in index && index[key] > now <==> Held(revoked, key, now))
    && (Held(revoked, key, now) ==> revoked[key] == index[key])
  }

  /** A cycle makes the snapshot agree on a key exactly when the range reaches it or it agreed already. */
  lemma CycleAgreesIff(
    index: map<string, int>, revoked: map<string, nat>, delta: seq<(string, int)>, mark: Mark, now: nat, key: string)
    requires Enumerates(delta, index, mark, SKEW_OVERLAP)
    ensures AgreeOn(index, InsertAll(Unexpired(revoked, now), delta), key, now) <==>
              (key in index && Since(mark, SKEW_OVERLAP, index[key])) || AgreeOn(index, revoked, key, now)
  {
    EnumeratesIff(delta, index, mark, SKEW_OVERLAP, key);
    InsertAllAt(Unexpired(revoked, now), delta, index, key);
  }

  /** Delivering the same delta again changes nothing. */
  lemma RedeliveryIdempotent(index: map<string, int>, revoked: map<string, nat>, delta: seq<(string, int)>)
    requires ScoresFrom(delta, index)
    ensures InsertAll(InsertAll(revoked, delta), delta) == InsertAll(revoked, delta)
  {
    var once := InsertAll(revoked, delta);
    var twice := InsertAll(once, delta);
    forall key ensures (key in twice <==> key in once) && (key in once ==> twice[key] == once[key]) {
      InsertAllAt(revoked, delta, index, key);
      InsertAllAt(once, delta, index, key);
    }
  }

  function Collect(index: map<string, int>, now: nat): map<string, int> {
    map k | k in index && index[k] > Minus(now, INDEX_RETENTION) :: index[k]
  }

  /** Index cleanup removes exactly the entries that expired an hour ago or earlier, so none that has not expired. */
  lemma CollectKeepsUnexpired(index: map<string, int>, now: nat, key: string)
    ensures key in Collect(index, now) <==> key in index && index[key] > 0 && index[key] + 3600 > now
    ensures key in Collect(index, now) ==> Collect(index, now)[key] == index[key]
    ensures key in index && index[key] > now ==> key in Collect(index, now)
  {
  }

  // ---- Runs ----

  /**
   `recent` and `dirty` are the keys and users published since the last successful
   cycle; `late` and `lateUsers` are those whose latest publication was below the
   overlap of the watermark at the time.
   */
  datatype System = System(
    index: map<string, int>, tvIndex: map<string, int>, stored: map<string, U64>,
    revoked: map<string, nat>, floors: map<string, U64>, revMark: Mark, tvMark: Mark, now: nat,
    recent: set<string>, late: set<string>, dirty: set<string>, lateUsers: set<string>)

  datatype Action =
    | Revoke(key: string, expiry: int)
    | Publish(user: string, floor: Option<U64>, changedMs: int)
    | Tick(now: nat)
    | SyncOk(revDelta: seq<(string, int)>, tvDelta: seq<(string, int)>, collected: bool)
    | SyncFailed

  function Judged(late: set<string>, key: string, inTime: bool): set<string> {
    if inTime then late - {key} else late + {key}
  }

  function Next(s: System, a: Action): System {
    match a
    case Revoke(key, expiry) =>
      s.(index := s.index[key := expiry], recent := s.recent + {key},
         late := Judged(s.late, key, Since(s.revMark, SKEW_OVERLAP, expiry)))
    case Publish(user, floor, changedMs) =>
      s.(stored := SetFloor(s.stored, user, floor), tvIndex := s.tvIndex[user := changedMs], dirty := s.dirty + {user},
         lateUsers := Judged(s.lateUsers, user, Since(s.tvMark, TV_OVERLAP, changedMs)))
    case Tick(now) => s.(now := now)
    case SyncOk(revDelta, tvDelta, collected) =>
      s.(revoked := InsertAll(Unexpired(s.revoked, s.now), revDelta),
         floors := SetFloors(s.floors, tvDelta, s.stored),
         revMark := RaiseAll(s.revMark, revDelta), tvMark := RaiseAll(s.tvMark, tvDelta),
         index := if collected then Collect(s.index, s.now) else s.index,
         recent := {}, dirty := {})
    case SyncFailed => s
  }

  /** The worker of the system has this snapshot and these watermarks. */
  predicate IsWorker(s: System, snap: Snapshot, revMark: Mark, tvMark: Mark) {
    s.revoked == snap.revoked && s.floors == snap.floors && s.revMark == revMark && s.tvMark == tvMark
  }

  /** The clock does not go back and range queries answer correctly; publications are free. */
  ghost predicate Legal(s: System, a: Action) {
    match a
    case Tick(now) => now >= s.now
    case SyncOk(revDelta, tvDelta, _) =>
      && Enumerates(revDelta, s.index, s.revMark, SKEW_OVERLAP)
      && Enumerates(tvDelta, s.tvIndex, s.tvMark, TV_OVERLAP)
    case _ => true
  }

  function Exec(s: System, actions: seq<Action>): System
    decreases actions
  {
    if actions == [] then s else Exec(Next(s, actions[0]), actions[1..])
  }

  ghost predicate LegalRun(s: System, actions: seq<Action>)
    decreases actions
  {
    actions == [] || (Legal(s, actions[0]) && LegalRun(Next(s, actions[0]), actions[1..]))
  }

  /** A worker that starts has an empty snapshot and no watermark; the indexes may already be filled. */
  predicate Start(s: System) {
    && s.revoked == map[] && s.floors == map[] && s.revMark == None && s.tvMark == None
    && s.recent == s.index.Keys && s.dirty == s.stored.Keys && s.stored.Keys <= s.tvIndex.Keys
    && s.late == {} && s.lateUsers == {}
  }

  /** A key is out of reach, or will be reached by the next cycle, or agrees. */
  ghost predicate KeyGood(
    index: map<string, int>, revoked: map<string, nat>, mark: Mark, now: nat, recent: set<string>, late: set<string>,
    k: string)
  {
    if k in late then k in index ==> !Since(mark, SKEW_OVERLAP, index[k])
    else if k in recent then k in index && Since(mark, SKEW_OVERLAP, index[k])
    else AgreeOn(index, revoked, k, now)
  }

  ghost predicate UserGood(
    tvIndex: map<string, int>, stored: map<string, U64>, floors: map<string, U64>, mark: Mark, dirty: set<string>,
    lateUsers: set<string>, u: string)
  {
    if u in lateUsers then u in tvIndex ==> !Since(mark, TV_OVERLAP, tvIndex[u])
    else if u in dirty then u in tvIndex && Since(mark, TV_OVERLAP, tvIndex[u])
    else FloorOf(floors, u) == FloorOf(stored, u)
  }

  ghost predicate RevokedGood(s: System) {
    forall k :: KeyGood(s.index, s.revoked, s.revMark, s.now, s.recent, s.late, k)
  }

  ghost predicate FloorsGood(s: System) {
    forall u :: UserGood(s.tvIndex, s.stored, s.floors, s.tvMark, s.dirty, s.lateUsers, u)
  }

  ghost predicate Good(s: System) {
    RevokedGood(s) && FloorsGood(s)
  }

  lemma AgreesLater(index: map<string, int>, revoked: map<string, nat>, key: string, now: nat, later: nat)
    requires AgreeOn(index, revoked, key, now) && now <= later
    ensures AgreeOn(index, revoked, key, later)
  {
  }

  /** Index cleanup changes nothing that the agreement is about. */
  lemma CollectAgrees(index: map<string, int>, revoked: map<string, nat>, key: string, now: nat)
    ensures AgreeOn(Collect(index, now), revoked, key, now) <==> AgreeOn(index, revoked, key, now)
  {
    CollectKeepsUnexpired(index, now, key);
  }

  /** What lies below the watermark stays below it. */
  lemma StaysBelow(mark: Mark, delta: seq<(string, int)>, overlap: int, score: int)
    requires !Since(mark, overlap, score)
    ensures !Since(RaiseAll(mark, delta), overlap, score)
  {
    MarkIsMax(mark, delta);
  }

  lemma SyncKey(s: System, a: Action, k: string)
    requires a.SyncOk? && Legal(s, a) && KeyGood(s.index, s.revoked, s.revMark, s.now, s.recent, s.late, k)
    ensures var t := Next(s, a);
            && KeyGood(t.index, t.revoked, t.revMark, t.now, t.recent, t.late, k)
            && (AgreeOn(t.index, t.revoked, k, t.now) <==> k !in s.late || AgreeOn(s.index, s.revoked, k, s.now))
  {
    CycleAgreesIff(s.index, s.revoked, a.revDelta, s.revMark, s.now, k);
    CollectAgrees(s.index, Next(s, a).revoked, k, s.now);
    if k in s.late && k in s.index {
      StaysBelow(s.revMark, a.revDelta, SKEW_OVERLAP, s.index[k]);
    }
  }

  lemma SyncUser(s: System, a: Action, u: string)
    requires a.SyncOk? && Legal(s, a) && UserGood(s.tvIndex, s.stored, s.floors, s.tvMark, s.dirty, s.lateUsers, u)
    ensures var t := Next(s, a);
            && UserGood(t.tvIndex, t.stored, t.floors, t.tvMark, t.dirty, t.lateUsers, u)
            && (FloorOf(t.floors, u) == FloorOf(t.stored, u)
                <==> u !in s.lateUsers || FloorOf(s.floors, u) == FloorOf(s.stored, u))
  {
    EnumeratesIff(a.tvDelta, s.tvIndex, s.tvMark, TV_OVERLAP, u);
    SetFloorsAt(s.floors, a.tvDelta, s.stored, u);
    if u in s.lateUsers && u in s.tvIndex {
      StaysBelow(s.tvMark, a.tvDelta, TV_OVERLAP, s.tvIndex[u]);
    }
  }

  lemma StepKey(s: System, a: Action, k: string)
    requires Legal(s, a) && KeyGood(s.index, s.revoked, s.revMark, s.now, s.recent, s.late, k)
    ensures var t := Next(s, a); KeyGood(t.index, t.revoked, t.revMark, t.now, t.recent, t.late, k)
  {
    if a.SyncOk? {
      SyncKey(s, a, k);
    } else if a.Tick? && AgreeOn(s.index, s.revoked, k, s.now) {
      AgreesLater(s.index, s.revoked, k, s.now, a.now);
    }
  }

  lemma StepUser(s: System, a: Action, u: string)
    requires Legal(s, a) && UserGood(s.tvIndex, s.stored, s.floors, s.tvMark, s.dirty, s.lateUsers, u)
    ensures var t := Next(s, a); UserGood(t.tvIndex, t.stored, t.floors, t.tvMark, t.dirty, t.lateUsers, u)
  {
    if a.SyncOk? {
      SyncUser(s, a, u);
    }
  }

  lemma StepGood(s: System, a: Action)
    requires Good(s) && Legal(s, a)
    ensures Good(Next(s, a))
  {
    var t := Next(s, a);
    forall k ensures KeyGood(t.index, t.revoked, t.revMark, t.now, t.recent, t.late, k) {
      StepKey(s, a, k);
    }
    forall u ensures UserGood(t.tvIndex, t.stored, t.floors, t.tvMark, t.dirty, t.lateUsers, u) {
      StepUser(s, a, u);
    }
  }

  lemma {:induction false} ExecGood(s: System, actions: seq<Action>)
    requires Good(s) && LegalRun(s, actions)
    ensures Good(Exec(s, actions))
    decreases actions
  {
    if actions != [] {
      StepGood(s, actions[0]);
      ExecGood(Next(s, actions[0]), actions[1..]);
    }
  }

  lemma StartGood(s: System)
    requires Start(s)
    ensures Good(s)
  {
  }

  // ---- Main results ----

  /** The snapshot a full read of the index would give. */
  function Rebuilt(index: map<string, int>, now: nat): map<string, nat> {
    map k | k in index && index[k] > now :: index[k]
  }

  /**
   In every run, whatever is published and whenever: after a successful cycle the
   snapshot agrees with the index on a key if and only if the key's latest publication
   was within the overlap, or the two agreed on the key already.
   */
  lemma KeyAgreesIff(s: System, actions: seq<Action>, sync: Action, k: string)
    requires Start(s) && LegalRun(s, actions) && sync.SyncOk? && Legal(Exec(s, actions), sync)
    ensures var t := Exec(s, actions);
            var u := Next(t, sync);
            AgreeOn(u.index, u.revoked, k, u.now) <==> k !in t.late || AgreeOn(t.index, t.revoked, k, t.now)
  {
    StartGood(s);
    ExecGood(s, actions);
    SyncKey(Exec(s, actions), sync, k);
  }

  /** The same for the version floor of a user. */
  lemma FloorAgreesIff(s: System, actions: seq<Action>, sync: Action, user: string)
    requires Start(s) && LegalRun(s, actions) && sync.SyncOk? && Legal(Exec(s, actions), sync)
    ensures var t := Exec(s, actions);
            var u := Next(t, sync);
            FloorOf(u.floors, user) == FloorOf(u.stored, user)
            <==> user !in t.lateUsers || FloorOf(t.floors, user) == FloorOf(t.stored, user)
  {
    StartGood(s);
    ExecGood(s, actions);
    SyncUser(Exec(s, actions), sync, user);
  }

  /**
   The overlap in seconds: in every run, a revocation published now is in the snapshot
   after the next successful cycle if its expiry is at most a minute below the watermark,
   and otherwise only if the snapshot agreed with it already.
   */
  lemma NextCycleSees(s: System, actions: seq<Action>, key: string, expiry: int, sync: Action)
    requires Start(s) && LegalRun(s, actions) && sync.SyncOk?
    requires Legal(Next(Exec(s, actions), Revoke(key, expiry)), sync)
    ensures var t := Next(Exec(s, actions), Revoke(key, expiry));
            var u := Next(t, sync);
            AgreeOn(u.index, u.revoked, key, u.now) <==>
              t.revMark.None? || expiry >= t.revMark.value - 60 || AgreeOn(t.index, t.revoked, key, t.now)
  {
    StartGood(s);
    ExecGood(s, actions);
    StepGood(Exec(s, actions), Revoke(key, expiry));
    SyncKey(Next(Exec(s, actions), Revoke(key, expiry)), sync, key);
  }

  /** ... and the same for a version floor, whose index counts milliseconds. */
  lemma NextCycleSeesFloor(
    s: System, actions: seq<Action>, user: string, floor: Option<U64>, changedMs: int, sync: Action)
    requires Start(s) && LegalRun(s, actions) && sync.SyncOk?
    requires Legal(Next(Exec(s, actions), Publish(user, floor, changedMs)), sync)
    ensures var t := Next(Exec(s, actions), Publish(user, floor, changedMs));
            var u := Next(t, sync);
            FloorOf(u.floors, user) == floor <==>
              t.tvMark.None? || changedMs >= t.tvMark.value - 60_000 || FloorOf(t.floors, user) == floor
  {
    StartGood(s);
    ExecGood(s, actions);
    StepGood(Exec(s, actions), Publish(user, floor, changedMs));
    SyncUser(Next(Exec(s, actions), Publish(user, floor, changedMs)), sync, user);
  }

  /**
   So whenever a successful cycle has happened since the last publication and no
   publication was below the overlap, the snapshot built from deltas is the one a full
   rebuild would give: the same unexpired revocations with the same expiries, and the
   same version floors.
   */
  lemma DeltaEqualsRebuild(s: System, actions: seq<Action>)
    requires Start(s) && LegalRun(s, actions)
    ensures var t := Exec(s, actions);
            && (t.recent == t.late == {} ==> Unexpired(t.revoked, t.now) == Rebuilt(t.index, t.now))
            && (t.dirty == t.lateUsers == {} ==> t.floors == t.stored)
  {
    StartGood(s);
    ExecGood(s, actions);
    var t := Exec(s, actions);
    if t.recent == t.late == {} {
      forall k ensures AgreeOn(t.index, t.revoked, k, t.now) {
        assert KeyGood(t.index, t.revoked, t.revMark, t.now, t.recent, t.late, k);
      }
      AgreementIsRebuilt(t.index, t.revoked, t.now);
    }
    if t.dirty == t.lateUsers == {} {
      forall u ensures FloorOf(t.floors, u) == FloorOf(t.stored, u) {
        assert UserGood(t.tvIndex, t.stored, t.floors, t.tvMark, t.dirty, t.lateUsers, u);
      }
      FloorsEqual(t.floors, t.stored);
    }
  }

  lemma AgreementIsRebuilt(index: map<string, int>, revoked: map<string, nat>, now: nat)
    requires forall k :: AgreeOn(index, revoked, k, now)
    ensures Unexpired(revoked, now) == Rebuilt(index, now)
  {
    var a, b := Unexpired(revoked, now), Rebuilt(index, now);
    forall k ensures (k in a <==> k in b) && (k in a ==> a[k] == b[k]) {
      assert AgreeOn(index, revoked, k, now);
    }
  }

  lemma FloorsEqual(a: map<string, U64>, b: map<string, U64>)
    requires forall u :: FloorOf(a, u) == FloorOf(b, u)
    ensures a == b
  {
    forall u ensures (u in a <==> u in b) && (u in a ==> a[u] == b[u]) {
      assert FloorOf(a, u) == FloorOf(b, u);
    }
  }

  /** The keys under which a token can be revoked. */
  function RevocationKeys(jti: Option<string>, hash: string): seq<string> {
    (if jti.Some? && jti.value != "" then [JtiKey(jti.value)] else []) + [HashKey(hash)]
  }

  lemma IsRevokedIff(revoked: map<string, nat>, now: nat, jti: Option<string>, hash: string)
    ensures IsRevoked(revoked, now, jti, hash) <==> exists k | k in RevocationKeys(jti, hash) :: Held(revoked, k, now)
    ensures forall k :: k in RevocationKeys(jti, hash) <==>
              k == "gateway:revoked:token:" + hash
              || (jti.Some? && jti.value != "" && k == "gateway:revoked:jti:" + jti.value)
  {
    var keys := RevocationKeys(jti, hash);
    assert HashKey(hash) in keys;
    if jti.Some? && jti.value != "" {
      assert keys[0] == JtiKey(jti.value);
      assert JtiKey(jti.value) in keys;
    }
  }

  /**
   In every run, a token whose own keys have been picked up is rejected exactly when the
   index holds an unexpired entry under one of them, whatever became of other keys.
   */
  lemma VerdictIsTheIndex(s: System, actions: seq<Action>, jti: Option<string>, hash: string)
    requires Start(s) && LegalRun(s, actions)
    requires forall k | k in RevocationKeys(jti, hash) :: k !in Exec(s, actions).recent && k !in Exec(s, actions).late
    ensures var t := Exec(s, actions);
            IsRevoked(t.revoked, t.now, jti, hash) <==>
              exists k | k in RevocationKeys(jti, hash) :: k in t.index && t.index[k] > t.now
  {
    StartGood(s);
    ExecGood(s, actions);
    var t := Exec(s, actions);
    IsRevokedIff(t.revoked, t.now, jti, hash);
    forall k | k in RevocationKeys(jti, hash)
      ensures Held(t.revoked, k, t.now) <==> k in t.index && t.index[k] > t.now
    {
      assert KeyGood(t.index, t.revoked, t.revMark, t.now, t.recent, t.late, k);
    }
  }

  /** The mark is the largest of the old mark and the scores of the delta. */
  predicate IsTop(mark: Mark, delta: seq<(string, int)>, top: Mark) {
    && (top == mark || exists p | p in delta :: top == Some(p.1))
    && (mark.Some? ==> top.Some? && top.value >= mark.value)
    && forall p | p in delta :: top.Some? && top.value >= p.1
  }

  /** The watermark of a cycle is the largest score it has seen. */
  lemma {:induction false} MarkIsMax(mark: Mark, delta: seq<(string, int)>)
    ensures IsTop(mark, delta, RaiseAll(mark, delta))
    decreases |delta|
  {
    if delta != [] {
      MarkIsMax(Raise(mark, delta[0].1), delta[1..]);
      assert delta[0] in delta;
      assert forall p | p in delta[1..] :: p in delta;
      assert forall p | p in delta :: p == delta[0] || p in delta[1..];
    }
  }

  /** Every successful cycle raises both watermarks to the largest score seen so far. */
  lemma CycleRaisesMarks(s: System, a: Action)
    requires a.SyncOk?
    ensures IsTop(s.revMark, a.revDelta, Next(s, a).revMark) && IsTop(s.tvMark, a.tvDelta, Next(s, a).tvMark)
  {
    MarkIsMax(s.revMark, a.revDelta);
    MarkIsMax(s.tvMark, a.tvDelta);
  }

  // ---- What happens below the overlap ----

  /** A legal step that does not publish the key. */
  ghost predicate Spares(s: System, a: Action, key: string) {
    Legal(s, a) && !(a.Revoke? && a.key == key)
  }

  ghost predicate SparesAll(s: System, actions: seq<Action>, key: string)
    decreases actions
  {
    actions == [] || (Spares(s, actions[0], key) && SparesAll(Next(s, actions[0]), actions[1..], key))
  }

  ghost predicate Overlooked(s: System, key: string) {
    && !Held(s.revoked, key, s.now) && s.revMark.Some?
    && (key in s.index ==> !Since(s.revMark, SKEW_OVERLAP, s.index[key]))
  }

  lemma OverlookedStep(s: System, a: Action, key: string)
    requires Overlooked(s, key) && Spares(s, a, key)
    ensures Overlooked(Next(s, a), key)
  {
    if a.SyncOk? {
      EnumeratesIff(a.revDelta, s.index, s.revMark, SKEW_OVERLAP, key);
      InsertAllAt(Unexpired(s.revoked, s.now), a.revDelta, s.index, key);
      MarkIsMax(s.revMark, a.revDelta);
    }
  }

  /**
   The score of a revocation is its expiry, so one that lapses more than the overlap
   before the latest expiry seen is not picked up by any later cycle.
   */
  lemma {:induction false} OverlookedForever(s: System, actions: seq<Action>, key: string)
    requires Overlooked(s, key) && SparesAll(s, actions, key)
    ensures Overlooked(Exec(s, actions), key)
    decreases actions
  {
    if actions != [] {
      OverlookedStep(s, actions[0], key);
      OverlookedForever(Next(s, actions[0]), actions[1..], key);
    }
  }

  function SHORT_AFTER_LONG(): seq<Action> {
    var long := [("long", 605_800)];
    [Revoke("long", 605_800), SyncOk(long, [], false), Revoke("short", 4_600), SyncOk(long, [], false)]
  }

  function NewWorker(now: nat): System {
    System(map[], map[], map[], map[], map[], None, None, now, {}, {}, {}, {})
  }

  /**
   A concrete run: a week-long revocation is picked up, then a token good for an hour is
   revoked, and the next cycle leaves it out although it has not expired.
   */
  lemma ShortAfterLong()
    ensures var s := NewWorker(1_000);
            var t := Exec(s, SHORT_AFTER_LONG());
            && Start(s) && LegalRun(s, SHORT_AFTER_LONG())
            && t.recent == {} && "short" in t.index && t.index["short"] > t.now
            && !Held(t.revoked, "short", t.now) && Overlooked(t, "short")
  {
    var long := [("long", 605_800)];
    var first, second := Revoke("long", 605_800), Revoke("short", 4_600);
    var sync := SyncOk(long, [], false);
    var s0 := NewWorker(1_000);
    var s1 := Next(s0, first);
    OneDelta(map[], None);
    LongOnly(s1.index, None);
    assert Unexpired(map[], 1_000) == map[];
    var s2 := Next(s1, sync);
    assert s2.revoked == map["long" := 605_800] && s2.revMark == Some(605_800);
    var s3 := Next(s2, second);
    LongOnly(s3.index, Some(605_800));
    OneDelta(map["long" := 605_800], Some(605_800));
    assert Unexpired(map["long" := 605_800], 1_000) == map["long" := 605_800];
    RunFour(s0, first, sync, second, sync);
  }

  lemma RunFour(s: System, a: Action, b: Action, c: Action, d: Action)
    ensures var s1 := Next(s, a);
            var s2 := Next(s1, b);
            var s3 := Next(s2, c);
            && Exec(s, [a, b, c, d]) == Next(s3, d)
            && (LegalRun(s, [a, b, c, d]) <==> Legal(s, a) && Legal(s1, b) && Legal(s2, c) && Legal(s3, d))
  {
    var s1 := Next(s, a);
    var s2 := Next(s1, b);
    var s3 := Next(s2, c);
    RunCons(s, a, [b, c, d]);
    RunCons(s1, b, [c, d]);
    RunCons(s2, c, [d]);
    RunCons(s3, d, []);
    assert [a] + [b, c, d] == [a, b, c, d] && [b] + [c, d] == [b, c, d] && [c] + [d] == [c, d] && [d] + [] == [d];
  }

  lemma RunCons(s: System, a: Action, rest: seq<Action>)
    ensures Exec(s, [a] + rest) == Exec(Next(s, a), rest)
    ensures LegalRun(s, [a] + rest) <==> Legal(s, a) && LegalRun(Next(s, a), rest)
  {
    assert ([a] + rest)[1..] == rest;
  }

  lemma OneDelta(revoked: map<string, nat>, mark: Mark)
    requires mark.None? || mark == Some(605_800)
    ensures InsertAll(revoked, [("long", 605_800)]) == revoked["long" := 605_800]
    ensures RaiseAll(mark, [("long", 605_800)]) == Some(605_800)
  {
    assert [("long", 605_800)][1..] == [];
  }

  lemma LongOnly(index: map<string, int>, mark: Mark)
    requires "long" in index && index["long"] == 605_800
    requires forall k | k in index && k != "long" :: !Since(mark, SKEW_OVERLAP, index[k])
    requires mark.None? || mark == Some(605_800)
    ensures Enumerates([("long", 605_800)], index, mark, SKEW_OVERLAP)
  {
    var delta := [("long", 605_800)];
    assert delta[0] in delta;
  }
}
