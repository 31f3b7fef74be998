/**
 Bearer-token validation with a bounded least-recently-used cache. Signature
 checking, JSON and hashing are function values; everything after them, the cache
 and the snapshot checks are modelled. The main results bound how stale an
 accepted identity can be, over every run and every pattern of evictions.
 */
module TokenCache {
  import opened Prelude
  import opened Decimal
  import R = Revocation

  const CACHE_CAP: nat := 8192
  const MAX_AGE_SECS: nat := 86_400

  datatype Identity = Identity(userId: string, homeRegion: Option<string>)

  /** `otherUserId` is the user id found elsewhere in the payload when `sub` is empty. */
  datatype Claims = Claims(
    sub: string, otherUserId: Option<string>, homeRegion: Option<string>,
    exp: Option<U64>, nbf: Option<U64>, iat: Option<U64>,
    iss: Option<string>, aud: Option<string>, jti: Option<string>, tv: Option<U64>)

  datatype Config = Config(secret: string, keys: map<string, string>, issuer: string, audience: string)

  /** Parsing, algorithm, key selection and signature; the payload; the token hash. */
  datatype Codec = Codec(verifies: (Config, string) -> bool, claims: string -> Option<Claims>, hash: string -> string)

  /** What one call sees of the world. */
  datatype Env = Env(now: U64, nowMs: nat, config: Config, snap: R.Snapshot, failClosed: bool, syncSecs: nat)

  datatype Validated = Validated(identity: Identity, exp: U64, tv: Option<U64>)

  predicate Printable(s: string) {
    '\r' !in s && '\n' !in s && '\0' !in s
  }

  function UserOf(c: Claims): Option<string> {
    if c.sub == "" then c.otherUserId else Some(c.sub)
  }

  /** The time claims at `now`; adding the maximum age to the issue time wraps around. */
  predicate InTime(c: Claims, now: U64) {
    && c.exp.Some? && now < c.exp.value
    && (c.nbf.Some? ==> now >= c.nbf.value)
    && (c.iat.Some? ==> now <= (c.iat.value + MAX_AGE_SECS) % U64_LIMIT)
  }

  predicate Addressed(c: Claims, config: Config) {
    c.iss == Some(config.issuer) && c.aud == Some(config.audience)
  }

  predicate VersionStale(c: Claims, snap: R.Snapshot) {
    UserOf(c).Some? && UserOf(c).value != "" && R.TvStale(snap.floors, UserOf(c).value, c.tv)
  }

  predicate Presentable(c: Claims) {
    UserOf(c).Some? && Printable(UserOf(c).value) && (c.homeRegion.Some? ==> Printable(c.homeRegion.value))
  }

  /** Validation without the cache. */
  function Full(codec: Codec, env: Env, token: string): Option<Validated> {
    var c := codec.claims(token);
    if !codec.verifies(env.config, token) || c.None? then None
    else if !InTime(c.value, env.now) || !Addressed(c.value, env.config) then None
    else if R.IsRevoked(env.snap.revoked, env.now, c.value.jti, codec.hash(token)) then None
    else if VersionStale(c.value, env.snap) || !Presentable(c.value) then None
    else Some(Validated(Identity(UserOf(c.value).value, c.value.homeRegion), c.value.exp.value, c.value.tv))
  }

  /** The claims name the user: the subject, or if that is empty the user id found elsewhere. */
  predicate NamesUser(c: Claims, user: string) {
    (c.sub != "" && user == c.sub) || (c.sub == "" && c.otherUserId == Some(user))
  }

  /** The text can stand in a header. */
  predicate HeaderSafe(s: string) {
    forall i | 0 <= i < |s| :: s[i] != '\r' && s[i] != '\n' && s[i] != '\0'
  }

  /**
   The token is verified, in time, issued by and for the configured parties, under none
   of its revocation keys, names this user at the version that the user's floor demands,
   and is safe to put into a header.
   */
  predicate Acceptable(codec: Codec, env: Env, token: string, c: Claims, user: string) {
    && codec.verifies(env.config, token)
    && c.exp.Some? && env.now < c.exp.value
    && (c.nbf.Some? ==> c.nbf.value <= env.now)
    && (c.iat.Some? ==> env.now <= (c.iat.value + 86_400) % U64_LIMIT)
    && c.iss == Some(env.config.issuer) && c.aud == Some(env.config.audience)
    && (forall k | k in R.RevocationKeys(c.jti, codec.hash(token)) :: !R.Held(env.snap.revoked, k, env.now))
    && NamesUser(c, user)
    && (user != "" && user in env.snap.floors ==> c.tv == Some(env.snap.floors[user]))
    && HeaderSafe(user) && (c.homeRegion.Some? ==> HeaderSafe(c.homeRegion.value))
  }

  /** A full validation accepts exactly the acceptable tokens, with the identity in their claims. */
  lemma AcceptsExactlyWhen(codec: Codec, env: Env, token: string, c: Claims, user: string)
    requires codec.claims(token) == Some(c)
    ensures Full(codec, env, token).Some? && Full(codec, env, token).value.identity.userId == user <==>
            Acceptable(codec, env, token, c, user)
    ensures Acceptable(codec, env, token, c, user) ==>
            Full(codec, env, token) == Some(Validated(Identity(user, c.homeRegion), c.exp.value, c.tv))
  {
    R.IsRevokedIff(env.snap.revoked, env.now, c.jti, codec.hash(token));
    SafeIff(user);
    if c.homeRegion.Some? {
      SafeIff(c.homeRegion.value);
    }
  }

  lemma SafeIff(s: string)
    ensures Printable(s) <==> HeaderSafe(s)
  {
  }

  // ---- The cache ----

  datatype Entry = Entry(token: string, identity: Identity, expiresAt: U64, tv: Option<U64>)

  function SaturatingAdd(a: U64, b: U64): U64 {
    if a + b < U64_LIMIT then a + b else U64_LIMIT - 1
  }

  /** Never after the token's own expiry, never more than the TTL ahead, and one of the two. */
  function EffectiveCacheExpiry(exp: U64, now: U64, ttl: U64): (r: U64)
    ensures r <= exp && r <= now + ttl && (r == exp || r == now + ttl)
  {
    var end := SaturatingAdd(now, ttl);
    if exp < end then exp else end
  }

  function Lookup(entries: seq<Entry>, token: string): (r: Option<Entry>)
    ensures r.Some? ==> r.value in entries && r.value.token == token
    ensures r.None? <==> forall e | e in entries :: e.token != token
  {
    if entries == [] then None
    else if entries[0].token == token then Some(entries[0])
    else Lookup(entries[1..], token)
  }

  function Remove(entries: seq<Entry>, token: string): (r: seq<Entry>)
    ensures forall e :: e in r <==> e in entries && e.token != token
    ensures |r| <= |entries|
  {
    if entries == [] then []
    else (if entries[0].token == token then [] else [entries[0]]) + Remove(entries[1..], token)
  }

  /** Reading an entry makes it the most recent one; entries are kept most recent first. */
  function Touch(entries: seq<Entry>, e: Entry): seq<Entry> {
    [e] + Remove(entries, e.token)
  }

  /** Storing an entry replaces the token's old one, or evicts the least recent entry when full. */
  function Put(entries: seq<Entry>, e: Entry): seq<Entry> {
    var all := Touch(entries, e);
    if |all| > CACHE_CAP then all[..CACHE_CAP] else all
  }

  const BEARER: string := "Bearer "

  function TokenOf(header: string): Option<string> {
    if BEARER <= header then Some(header[|BEARER|..]) else None
  }

  /** The token is what follows the scheme, and a header without the scheme has none. */
  lemma BearerOnly(header: string, token: string)
    ensures TokenOf(header) == Some(token) <==> header == "Bearer " + token
  {
    if TokenOf(header) == Some(token) {
      assert header == header[..|BEARER|] + header[|BEARER|..];
    }
    if header == BEARER + token {
      assert header[|BEARER|..] == token;
    }
  }

  datatype Reply = Reply(identity: Option<Identity>, entries: seq<Entry>, granted: Option<Validated>)

  /** Validation with the cache; `granted` is what a full validation accepted, if one ran. */
  function Validate(codec: Codec, ttl: U64, env: Env, entries: seq<Entry>, token: string): Reply {
    if env.failClosed && R.SnapshotStale(env.snap, env.nowMs, env.syncSecs) then Reply(None, entries, None)
    else
      var hit := Lookup(entries, token);
      if hit.Some? && hit.value.expiresAt > env.now then
        if R.TvStale(env.snap.floors, hit.value.identity.userId, hit.value.tv)
        then Reply(None, Remove(entries, token), None)
        else Reply(Some(hit.value.identity), Touch(entries, hit.value), None)
      else
        var rest := Remove(entries, token);
        var v := Full(codec, env, token);
        if v.None? then Reply(None, rest, None)
        else
          var e := Entry(token, v.value.identity, EffectiveCacheExpiry(v.value.exp, env.now, ttl), v.value.tv);
          Reply(Some(v.value.identity), Put(rest, e), v)
  }

  class Validator {
    var entries: seq<Entry>
    const ttl: U64

    constructor (ttl: U64)
      ensures entries == [] && this.ttl == ttl
    {
      entries := [];
      this.ttl := ttl;
    }

    method ValidateToken(codec: Codec, env: Env, header: string) returns (r: Option<Identity>)
      modifies this
      ensures TokenOf(header).None? ==> r == None && entries == old(entries)
      ensures TokenOf(header).Some? ==>
                var reply := Validate(codec, ttl, env, old(entries), TokenOf(header).value);
                r == reply.identity && entries == reply.entries
    {
      var t := TokenOf(header);
      if t.None? {
        return None;
      }
      var token := t.value;
      if env.failClosed && R.SnapshotStale(env.snap, env.nowMs, env.syncSecs) {
        return None;
      }
      var cached := Lookup(entries, token);
      if cached.Some? {
        var entry := cached.value;
        if entry.expiresAt > env.now {
          if R.TvStale(env.snap.floors, entry.identity.userId, entry.tv) {
            entries := Remove(entries, token);
            return None;
          }
          entries := Touch(entries, entry);
          return Some(entry.identity);
        }
        entries := Remove(entries, token);
      } else {
        RemoveAbsent(entries, token);
      }
      var v := Full(codec, env, token);
      if v.None? {
        return None;
      }
      var expiry := EffectiveCacheExpiry(v.value.exp, env.now, ttl);
      entries := Put(entries, Entry(token, v.value.identity, expiry, v.value.tv));
      return Some(v.value.identity);
    }
  }

  // ---- Runs ----

  datatype Call = Call(env: Env, token: string)

  /** `log` holds every full validation that succeeded. */
  datatype Grant = Grant(env: Env, token: string, result: Validated)

  datatype State = State(entries: seq<Entry>, log: seq<Grant>, now: nat)

  function Next(codec: Codec, ttl: U64, s: State, call: Call): State {
    var reply := Validate(codec, ttl, call.env, s.entries, call.token);
    State(reply.entries,
          if reply.granted.Some? then s.log + [Grant(call.env, call.token, reply.granted.value)] else s.log,
          call.env.now)
  }

  function Exec(codec: Codec, ttl: U64, s: State, calls: seq<Call>): State
    decreases |calls|
  {
    if calls == [] then s else Exec(codec, ttl, Next(codec, ttl, s, calls[0]), calls[1..])
  }

  /** The clock does not go back. */
  predicate Timely(now: nat, calls: seq<Call>)
    decreases |calls|
  {
    calls == [] || (calls[0].env.now >= now && Timely(calls[0].env.now, calls[1..]))
  }

  const EMPTY: State := State([], [], 0)

  // ---- Invariant ----

  /** The grant was given by full validation, and the entry is what was cached then. */
  predicate Backs(g: Grant, e: Entry, ttl: U64) {
    && g.token == e.token && g.result.identity == e.identity && g.result.tv == e.tv
    && e.expiresAt == if g.result.exp < g.env.now + ttl then g.result.exp else g.env.now + ttl
  }

  predicate Backed(e: Entry, log: seq<Grant>, ttl: U64) {
    exists g | g in log :: Backs(g, e, ttl)
  }

  predicate Earned(codec: Codec, g: Grant) {
    Full(codec, g.env, g.token) == Some(g.result)
  }

  predicate LogGood(codec: Codec, log: seq<Grant>) {
    forall g | g in log :: Earned(codec, g)
  }

  predicate LogPast(log: seq<Grant>, now: nat) {
    forall g | g in log :: g.env.now <= now
  }

  predicate EntriesGood(entries: seq<Entry>, log: seq<Grant>, ttl: U64) {
    forall e | e in entries :: Backed(e, log, ttl)
  }

  lemma BackedMore(e: Entry, log: seq<Grant>, g: Grant, ttl: U64)
    requires Backed(e, log, ttl) || Backs(g, e, ttl)
    ensures Backed(e, log + [g], ttl)
  {
    if Backed(e, log, ttl) {
      var h :| h in log && Backs(h, e, ttl);
      assert h in log + [g];
    } else {
      assert g in log + [g];
    }
  }

  lemma PutSubset(entries: seq<Entry>, e: Entry, x: Entry)
    requires x in Put(entries, e)
    ensures x == e || x in entries
  {
    assert x in Touch(entries, e);
  }

  lemma StepGood(codec: Codec, ttl: U64, s: State, call: Call)
    requires LogGood(codec, s.log) && EntriesGood(s.entries, s.log, ttl)
    ensures var t := Next(codec, ttl, s, call);
            LogGood(codec, t.log) && EntriesGood(t.entries, t.log, ttl)
  {
    var reply := Validate(codec, ttl, call.env, s.entries, call.token);
    if reply.granted.Some? {
      var v := reply.granted.value;
      var g := Grant(call.env, call.token, v);
      var e := Entry(call.token, v.identity, EffectiveCacheExpiry(v.exp, call.env.now, ttl), v.tv);
      forall x | x in reply.entries ensures Backed(x, s.log + [g], ttl) {
        PutSubset(Remove(s.entries, call.token), e, x);
        BackedMore(x, s.log, g, ttl);
      }
    }
  }

  lemma {:induction false} ExecGood(codec: Codec, ttl: U64, s: State, calls: seq<Call>)
    requires LogGood(codec, s.log) && EntriesGood(s.entries, s.log, ttl)
    ensures var t := Exec(codec, ttl, s, calls);
            LogGood(codec, t.log) && EntriesGood(t.entries, t.log, ttl)
    decreases |calls|
  {
    if calls != [] {
      StepGood(codec, ttl, s, calls[0]);
      ExecGood(codec, ttl, Next(codec, ttl, s, calls[0]), calls[1..]);
    }
  }

  lemma {:induction false} ExecPast(codec: Codec, ttl: U64, s: State, calls: seq<Call>)
    requires LogPast(s.log, s.now) && Timely(s.now, calls)
    ensures var t := Exec(codec, ttl, s, calls);
            LogPast(t.log, t.now)
    decreases |calls|
  {
    if calls != [] {
      ExecPast(codec, ttl, Next(codec, ttl, s, calls[0]), calls[1..]);
    }
  }

  // ---- Main results ----

  /** The identity was granted by a full validation of this token less than the TTL ago. */
  predicate RecentGrant(codec: Codec, ttl: U64, g: Grant, call: Call, identity: Identity) {
    && g.token == call.token && g.result.identity == identity
    && Full(codec, g.env, g.token) == Some(g.result)
    && call.env.now - ttl < g.env.now <= call.env.now
    && call.env.now < g.result.exp
  }

  lemma {:induction false} TimelySplit(now: nat, calls: seq<Call>, last: Call)
    requires Timely(now, calls + [last])
    ensures Timely(now, calls)
    decreases |calls|
  {
    if calls != [] {
      assert (calls + [last])[1..] == calls[1..] + [last];
      TimelySplit(calls[0].env.now, calls[1..], last);
    }
  }

  lemma {:induction false} LastIsLate(codec: Codec, ttl: U64, s: State, calls: seq<Call>, last: Call)
    requires Timely(s.now, calls + [last])
    ensures last.env.now >= Exec(codec, ttl, s, calls).now
    decreases |calls|
  {
    if calls != [] {
      assert (calls + [last])[1..] == calls[1..] + [last];
      LastIsLate(codec, ttl, Next(codec, ttl, s, calls[0]), calls[1..], last);
    }
  }

  /** Where an identity comes from: a full validation now, or a grant whose entry is still cached. */
  lemma IdentityIsGranted(codec: Codec, ttl: U64, s: State, call: Call, identity: Identity) returns (g: Grant)
    requires LogGood(codec, s.log) && EntriesGood(s.entries, s.log, ttl)
    requires Validate(codec, ttl, call.env, s.entries, call.token).identity == Some(identity)
    ensures g.token == call.token && g.result.identity == identity && Full(codec, g.env, g.token) == Some(g.result)
    ensures g.env == call.env || (g in s.log && call.env.now < g.result.exp && call.env.now < g.env.now + ttl)
    ensures identity.userId != "" ==> !R.TvStale(call.env.snap.floors, identity.userId, g.result.tv)
  {
    var reply := Validate(codec, ttl, call.env, s.entries, call.token);
    if reply.granted.Some? {
      g := Grant(call.env, call.token, reply.granted.value);
    } else {
      var e := Lookup(s.entries, call.token).value;
      assert Backed(e, s.log, ttl);
      g :| g in s.log && Backs(g, e, ttl);
      assert Earned(codec, g);
    }
  }

  /**
   Whenever a call returns an identity, a full validation of the same token within the
   last TTL seconds returned it, the token has not expired, its version is the floor
   published for its user, and a snapshot that must be fresh is.
   */
  lemma BoundedStaleness(codec: Codec, ttl: U64, calls: seq<Call>, last: Call, identity: Identity)
    returns (g: Grant)
    requires ttl > 0 && Timely(0, calls + [last])
    requires var entries := Exec(codec, ttl, EMPTY, calls).entries;
             Validate(codec, ttl, last.env, entries, last.token).identity == Some(identity)
    ensures RecentGrant(codec, ttl, g, last, identity)
    ensures g in Exec(codec, ttl, EMPTY, calls).log || g.env == last.env
    ensures identity.userId != "" && identity.userId in last.env.snap.floors ==>
              g.result.tv == Some(last.env.snap.floors[identity.userId])
    ensures last.env.failClosed ==>
              last.env.snap.generation > 0
              && last.env.nowMs <= last.env.snap.syncedAtMs + last.env.syncSecs * 3_000 + 5_000
  {
    TimelySplit(0, calls, last);
    ExecGood(codec, ttl, EMPTY, calls);
    ExecPast(codec, ttl, EMPTY, calls);
    LastIsLate(codec, ttl, EMPTY, calls, last);
    g := IdentityIsGranted(codec, ttl, Exec(codec, ttl, EMPTY, calls), last, identity);
  }

  /** The call's environment has the token revoked. */
  predicate Revoked(codec: Codec, env: Env, token: string) {
    codec.claims(token).Some? ==>
      R.IsRevoked(env.snap.revoked, env.now, codec.claims(token).value.jti, codec.hash(token))
  }

  lemma {:induction false} LogFromCalls(codec: Codec, ttl: U64, s: State, calls: seq<Call>, g: Grant)
    requires g in Exec(codec, ttl, s, calls).log
    ensures g in s.log || exists i | 0 <= i < |calls| :: calls[i] == Call(g.env, g.token)
    decreases |calls|
  {
    if calls != [] {
      LogFromCalls(codec, ttl, Next(codec, ttl, s, calls[0]), calls[1..], g);
      if exists i | 0 <= i < |calls[1..]| :: calls[1..][i] == Call(g.env, g.token) {
        var i :| 0 <= i < |calls[1..]| && calls[1..][i] == Call(g.env, g.token);
        assert calls[i + 1] == Call(g.env, g.token);
      }
    }
  }

  /** A token that every call from time `since` on sees revoked is rejected from `since` plus the TTL on. */
  lemma RevocationTakesEffect(codec: Codec, ttl: U64, calls: seq<Call>, last: Call, since: nat)
    requires ttl > 0 && Timely(0, calls + [last])
    requires forall i | 0 <= i < |calls| ::
               calls[i].token == last.token && calls[i].env.now >= since ==> Revoked(codec, calls[i].env, last.token)
    requires Revoked(codec, last.env, last.token)
    requires last.env.now >= since + ttl
    ensures Validate(codec, ttl, last.env, Exec(codec, ttl, EMPTY, calls).entries, last.token).identity == None
  {
    var r := Validate(codec, ttl, last.env, Exec(codec, ttl, EMPTY, calls).entries, last.token).identity;
    if r.Some? {
      var g := BoundedStaleness(codec, ttl, calls, last, r.value);
      assert !Revoked(codec, g.env, g.token);
      if g in Exec(codec, ttl, EMPTY, calls).log {
        LogFromCalls(codec, ttl, EMPTY, calls, g);
      }
    }
  }

  // ---- The cache itself ----

  predicate Absent(entries: seq<Entry>, token: string) {
    forall i | 0 <= i < |entries| :: entries[i].token != token
  }

  /** One entry per token. */
  predicate Distinct(entries: seq<Entry>) {
    entries == [] || (Absent(entries[1..], entries[0].token) && Distinct(entries[1..]))
  }

  lemma {:induction false} RemoveAbsent(entries: seq<Entry>, token: string)
    requires Lookup(entries, token).None?
    ensures Remove(entries, token) == entries
  {
    if entries != [] {
      assert entries[0] in entries;
      assert forall e | e in entries[1..] :: e in entries;
      RemoveAbsent(entries[1..], token);
    }
  }

  lemma RemovedAbsent(entries: seq<Entry>, token: string)
    ensures Absent(Remove(entries, token), token)
  {
    var r := Remove(entries, token);
    assert forall i | 0 <= i < |r| :: r[i] in r;
  }

  lemma StaysAbsent(entries: seq<Entry>, token: string, other: string)
    requires Absent(entries, other)
    ensures Absent(Remove(entries, token), other)
  {
    var r := Remove(entries, token);
    forall i | 0 <= i < |r| ensures r[i].token != other {
      assert r[i] in r && r[i] in entries;
    }
  }

  lemma {:induction false} RemoveDistinct(entries: seq<Entry>, token: string)
    requires Distinct(entries)
    ensures Distinct(Remove(entries, token))
  {
    if entries != [] {
      var rest := Remove(entries[1..], token);
      RemoveDistinct(entries[1..], token);
      StaysAbsent(entries[1..], token, entries[0].token);
      if entries[0].token != token {
        assert Remove(entries, token) == [entries[0]] + rest;
        assert ([entries[0]] + rest)[1..] == rest;
      } else {
        assert Remove(entries, token) == rest;
      }
    }
  }

  lemma {:induction false} PrefixDistinct(entries: seq<Entry>, n: nat)
    requires Distinct(entries) && n <= |entries|
    ensures Distinct(entries[..n])
    decreases |entries|
  {
    if n > 0 {
      PrefixDistinct(entries[1..], n - 1);
      assert entries[..n][1..] == entries[1..][..n - 1];
    }
  }

  lemma TouchDistinct(entries: seq<Entry>, e: Entry)
    requires Distinct(entries)
    ensures Distinct(Touch(entries, e))
  {
    var rest := Remove(entries, e.token);
    RemoveDistinct(entries, e.token);
    RemovedAbsent(entries, e.token);
    assert ([e] + rest)[1..] == rest;
  }

  lemma PutDistinct(entries: seq<Entry>, e: Entry)
    requires Distinct(entries)
    ensures Distinct(Put(entries, e)) && |Put(entries, e)| <= CACHE_CAP
  {
    TouchDistinct(entries, e);
    if |Touch(entries, e)| > CACHE_CAP {
      PrefixDistinct(Touch(entries, e), CACHE_CAP);
    }
  }

  lemma {:induction false} RemoveShorter(entries: seq<Entry>, token: string)
    requires Lookup(entries, token).Some?
    ensures |Remove(entries, token)| < |entries|
  {
    if entries[0].token != token {
      RemoveShorter(entries[1..], token);
    }
  }

  predicate Tidy(entries: seq<Entry>) {
    Distinct(entries) && |entries| <= CACHE_CAP
  }

  /** What a call can do to the cache, for any property of caches. */
  lemma CallEffects(p: seq<Entry> -> bool, codec: Codec, ttl: U64, env: Env, entries: seq<Entry>, token: string)
    requires p(entries) && p(Remove(entries, token))
    requires Lookup(entries, token).Some? ==> p(Touch(entries, Lookup(entries, token).value))
    requires forall e: Entry | e.token == token :: p(Put(Remove(entries, token), e))
    ensures p(Validate(codec, ttl, env, entries, token).entries)
  {
  }

  /** After any call the cache still holds one entry per token and no more than its capacity. */
  lemma CacheBounded(codec: Codec, ttl: U64, env: Env, entries: seq<Entry>, token: string)
    requires Tidy(entries)
    ensures Tidy(Validate(codec, ttl, env, entries, token).entries)
  {
    RemoveDistinct(entries, token);
    TidyTouch(entries, token);
    forall e: Entry | e.token == token ensures Tidy(Put(Remove(entries, token), e)) {
      PutDistinct(Remove(entries, token), e);
    }
    CallEffects(Tidy, codec, ttl, env, entries, token);
  }

  lemma TidyTouch(entries: seq<Entry>, token: string)
    requires Tidy(entries)
    ensures Lookup(entries, token).Some? ==> Tidy(Touch(entries, Lookup(entries, token).value))
  {
    var hit := Lookup(entries, token);
    if hit.Some? {
      RemoveShorter(entries, token);
      TouchDistinct(entries, hit.value);
    }
  }

  /** What an unguarded call can answer, for any property of replies. */
  lemma ReplyCases(p: Reply -> bool, codec: Codec, ttl: U64, env: Env, entries: seq<Entry>, token: string)
    requires !(env.failClosed && R.SnapshotStale(env.snap, env.nowMs, env.syncSecs))
    requires p(Reply(None, Remove(entries, token), None))
    requires forall e: Entry | e.token == token :: p(Reply(Some(e.identity), Touch(entries, e), None))
    requires forall e: Entry, v: Validated | e.token == token && e.identity == v.identity ::
               p(Reply(Some(v.identity), Put(Remove(entries, token), e), Some(v)))
    ensures p(Validate(codec, ttl, env, entries, token))
  {
  }

  /** A rejected token is not in the cache; an accepted one is its most recent entry. */
  function Settles(token: string): Reply -> bool {
    (r: Reply) => if r.identity.None? then Lookup(r.entries, token).None?
                  else r.entries != [] && r.entries[0].token == token && r.entries[0].identity == r.identity.value
  }

  /** A rejected token is forgotten, whatever was cached before; an accepted one is the most recent entry. */
  lemma RejectedIsForgotten(codec: Codec, ttl: U64, env: Env, entries: seq<Entry>, token: string)
    requires !(env.failClosed && R.SnapshotStale(env.snap, env.nowMs, env.syncSecs))
    ensures Settles(token)(Validate(codec, ttl, env, entries, token))
  {
    var rest := Remove(entries, token);
    assert forall e | e in rest :: e.token != token;
    ReplyCases(Settles(token), codec, ttl, env, entries, token);
  }

  /** A new token goes to the front, and only the least recently used entry of a full cache makes room. */
  lemma PutEvictsLast(entries: seq<Entry>, e: Entry)
    requires Lookup(entries, e.token).None? && |entries| <= CACHE_CAP
    ensures |entries| < CACHE_CAP ==> Put(entries, e) == [e] + entries
    ensures |entries| == CACHE_CAP ==> Put(entries, e) == [e] + entries[..|entries| - 1]
  {
    RemoveAbsent(entries, e.token);
    if entries != [] {
      DropLast(e, entries);
    }
  }

  lemma DropLast(e: Entry, entries: seq<Entry>)
    requires entries != []
    ensures ([e] + entries)[..|entries|] == [e] + entries[..|entries| - 1]
  {
  }
}
