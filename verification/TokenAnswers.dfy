/**
 When a bearer-token call must accept, and which cached entries it keeps. The answer
 of every call after every run is characterised by the call's own view of the world
 and by whether an earlier grant of the token is still cached.
 */
module TokenAnswers {
  import opened Prelude
  import opened Decimal
  import opened TokenCache

  // ---- The answer ----

  /** The call refuses everyone: it must have a fresh snapshot and has none. */
  predicate Guarded(env: Env) {
    env.failClosed
    && (env.snap.generation == 0 || env.nowMs > env.snap.syncedAtMs + env.syncSecs * 3_000 + 5_000)
  }

  /** The grant is in the cache and neither the token nor the entry has expired. */
  ghost predicate StillCached(g: Grant, entries: seq<Entry>, call: Call, ttl: U64) {
    && g.token == call.token && call.env.now < g.result.exp && call.env.now < g.env.now + ttl
    && exists e | e in entries :: Backs(g, e, ttl)
  }

  ghost predicate HasCached(s: State, call: Call, ttl: U64) {
    exists g | g in s.log :: StillCached(g, s.entries, call, ttl)
  }

  /** A cached grant answers if its version is its user's floor; otherwise the token must be acceptable now. */
  predicate Answers(codec: Codec, call: Call, cached: bool, identity: Identity) {
    var c := codec.claims(call.token);
    && c.Some? && NamesUser(c.value, identity.userId) && c.value.homeRegion == identity.homeRegion
    && if cached
       then identity.userId in call.env.snap.floors ==> c.value.tv == Some(call.env.snap.floors[identity.userId])
       else Acceptable(codec, call.env, call.token, c.value, identity.userId)
  }

  function Answer(codec: Codec, ttl: U64, s: State, call: Call): Option<Identity> {
    Validate(codec, ttl, call.env, s.entries, call.token).identity
  }

  /** Every grant carries the identity and the version in its token's claims. */
  lemma GrantSays(codec: Codec, g: Grant)
    requires Earned(codec, g)
    ensures var c := codec.claims(g.token);
            && c.Some? && NamesUser(c.value, g.result.identity.userId)
            && c.value.homeRegion == g.result.identity.homeRegion && c.value.tv == g.result.tv
  {
    AcceptsExactlyWhen(codec, g.env, g.token, codec.claims(g.token).value, g.result.identity.userId);
  }

  lemma {:induction false} LookupDistinct(entries: seq<Entry>, e: Entry)
    requires Distinct(entries) && e in entries
    ensures Lookup(entries, e.token) == Some(e)
  {
    if entries[0] == e {
    } else {
      assert e in entries[1..];
      var i :| 0 <= i < |entries[1..]| && entries[1..][i] == e;
      LookupDistinct(entries[1..], e);
    }
  }

  /** A live entry is what the lookup finds, and it is backed by a grant. */
  lemma LiveEntry(codec: Codec, ttl: U64, s: State, call: Call)
    requires Distinct(s.entries) && EntriesGood(s.entries, s.log, ttl)
    ensures var hit := Lookup(s.entries, call.token);
            HasCached(s, call, ttl) <==> hit.Some? && hit.value.expiresAt > call.env.now
  {
    var hit := Lookup(s.entries, call.token);
    if HasCached(s, call, ttl) {
      var g :| g in s.log && StillCached(g, s.entries, call, ttl);
      var e :| e in s.entries && Backs(g, e, ttl);
      LookupDistinct(s.entries, e);
    }
    if hit.Some? && hit.value.expiresAt > call.env.now {
      assert Backed(hit.value, s.log, ttl);
      var g :| g in s.log && Backs(g, hit.value, ttl);
      assert StillCached(g, s.entries, call, ttl);
    }
  }

  lemma AnswerIff(codec: Codec, ttl: U64, s: State, call: Call, identity: Identity)
    requires Distinct(s.entries) && EntriesGood(s.entries, s.log, ttl) && LogGood(codec, s.log)
    ensures Answer(codec, ttl, s, call) == Some(identity) <==>
            !Guarded(call.env) && Answers(codec, call, HasCached(s, call, ttl), identity)
  {
    LiveEntry(codec, ttl, s, call);
    var hit, c := Lookup(s.entries, call.token), codec.claims(call.token);
    if hit.Some? && hit.value.expiresAt > call.env.now {
      assert Backed(hit.value, s.log, ttl);
      var g :| g in s.log && Backs(g, hit.value, ttl);
      assert Earned(codec, g);
      GrantSays(codec, g);
    } else if c.Some? {
      AcceptsExactlyWhen(codec, call.env, call.token, c.value, identity.userId);
    }
  }

  lemma {:induction false} RunTidy(codec: Codec, ttl: U64, s: State, calls: seq<Call>)
    requires Tidy(s.entries)
    ensures Tidy(Exec(codec, ttl, s, calls).entries)
    decreases |calls|
  {
    if calls != [] {
      CacheBounded(codec, ttl, calls[0].env, s.entries, calls[0].token);
      RunTidy(codec, ttl, Next(codec, ttl, s, calls[0]), calls[1..]);
    }
  }

  /**
   After every run, a call returns an identity exactly when it is not guarded, the
   identity is the one in the token's claims, and either a grant of the token is cached
   and unexpired and the token's version is its user's floor, or no such grant is cached
   and the token is acceptable now.
   */
  lemma AnswersExactlyWhen(codec: Codec, ttl: U64, calls: seq<Call>, last: Call, identity: Identity)
    ensures var s := Exec(codec, ttl, EMPTY, calls);
            Answer(codec, ttl, s, last) == Some(identity) <==>
            !Guarded(last.env) && Answers(codec, last, HasCached(s, last, ttl), identity)
  {
    ExecGood(codec, ttl, EMPTY, calls);
    RunTidy(codec, ttl, EMPTY, calls);
    AnswerIff(codec, ttl, Exec(codec, ttl, EMPTY, calls), last, identity);
  }

  /**
   The cache never takes away a token that is acceptable now, with one exception: a
   floor published for the empty user id is demanded of a cached identity without a
   user id, and not of a fresh one.
   */
  lemma AcceptableIsAnswered(codec: Codec, ttl: U64, calls: seq<Call>, last: Call, c: Claims, user: string)
    requires codec.claims(last.token) == Some(c) && !Guarded(last.env)
    requires Acceptable(codec, last.env, last.token, c, user)
    ensures var s := Exec(codec, ttl, EMPTY, calls);
            Answer(codec, ttl, s, last) ==
            if HasCached(s, last, ttl) && user == "" && "" in last.env.snap.floors
               && c.tv != Some(last.env.snap.floors[""])
            then None else Some(Identity(user, c.homeRegion))
  {
    var s, identity := Exec(codec, ttl, EMPTY, calls), Identity(user, c.homeRegion);
    AnswersExactlyWhen(codec, ttl, calls, last, identity);
    if Answer(codec, ttl, s, last).Some? {
      AnswersExactlyWhen(codec, ttl, calls, last, Answer(codec, ttl, s, last).value);
    }
  }

  // ---- What stays in the cache ----

  lemma {:induction false} LastOnce(entries: seq<Entry>, e: Entry)
    requires Distinct(entries) && e in entries
    ensures e in entries[..|entries| - 1] <==> e != entries[|entries| - 1]
  {
    var n := |entries|;
    if n > 1 {
      assert entries[1..][..n - 2] == entries[..n - 1][1..];
      if e == entries[0] {
        assert entries[n - 1] == entries[1..][n - 2];
        assert entries[..n - 1][0] == e;
      } else {
        LastOnce(entries[1..], e);
      }
    }
  }

  /** Storing a new token in a full cache drops the last entry and nothing else. */
  lemma PutDrops(entries: seq<Entry>, stored: Entry, e: Entry)
    requires Tidy(entries) && e in entries && Lookup(entries, stored.token).None?
    ensures e !in Put(entries, stored) <==> |entries| == CACHE_CAP && e == entries[|entries| - 1]
  {
    PutEvictsLast(entries, stored);
    LastOnce(entries, e);
    assert e != stored;
  }

  /** Storing a token drops an entry of another one exactly when the cache is full without the token. */
  lemma PutDropsIff(entries: seq<Entry>, stored: Entry, e: Entry)
    requires Tidy(entries) && e in entries && e.token != stored.token
    ensures e !in Put(Remove(entries, stored.token), stored) <==>
            Lookup(entries, stored.token).None? && |entries| == CACHE_CAP && e == entries[|entries| - 1]
  {
    var rest := Remove(entries, stored.token);
    assert forall x | x in rest :: x.token != stored.token;
    RemoveDistinct(entries, stored.token);
    PutDrops(rest, stored, e);
    if Lookup(entries, stored.token).None? {
      RemoveAbsent(entries, stored.token);
    } else {
      RemoveShorter(entries, stored.token);
    }
  }

  /** The entry is dropped exactly if a full validation accepted and `full` holds. */
  function DropsIff(e: Entry, full: bool): Reply -> bool {
    (r: Reply) => e !in r.entries <==> r.granted.Some? && full
  }

  /**
   A call keeps every other token's entry, except that caching a new token in a full
   cache drops the least recently used entry; a guarded call changes nothing.
   */
  lemma OthersKept(codec: Codec, ttl: U64, env: Env, entries: seq<Entry>, token: string, e: Entry)
    requires Tidy(entries) && e in entries && e.token != token
    ensures var reply := Validate(codec, ttl, env, entries, token);
            e !in reply.entries <==>
            && reply.granted.Some? && Lookup(entries, token).None?
            && |entries| == CACHE_CAP && e == entries[|entries| - 1]
    ensures Guarded(env) ==> Validate(codec, ttl, env, entries, token) == Reply(None, entries, None)
  {
    if !Guarded(env) {
      var full := Lookup(entries, token).None? && |entries| == CACHE_CAP && e == entries[|entries| - 1];
      forall x: Entry | x.token == token
        ensures e in Touch(entries, x) && (e !in Put(Remove(entries, token), x) <==> full)
      {
        PutDropsIff(entries, x, e);
      }
      ReplyCases(DropsIff(e, full), codec, ttl, env, entries, token);
    }
  }

  /** How many calls into the run the token was last used by a call that was not guarded, 0 if never. */
  function LastUse(calls: seq<Call>, token: string): (n: nat)
    ensures n <= |calls|
  {
    if calls == [] then 0
    else
      var last := calls[|calls| - 1];
      if last.token == token && !Guarded(last.env) then |calls| else LastUse(calls[..|calls| - 1], token)
  }

  /** The entries are in the order of `use`, most recent first. */
  predicate Recent(entries: seq<Entry>, use: string -> nat) {
    && (forall i, j | 0 <= i < j < |entries| :: use(entries[i].token) > use(entries[j].token))
    && forall i | 0 <= i < |entries| :: use(entries[i].token) > 0
  }

  lemma FrontRecent(e: Entry, rest: seq<Entry>, use: string -> nat)
    requires Recent(rest, use) && use(e.token) > 0
    requires forall i | 0 <= i < |rest| :: use(rest[i].token) < use(e.token)
    ensures Recent([e] + rest, use)
  {
    var all := [e] + rest;
    forall i, j | 0 <= i < j < |all| ensures use(all[i].token) > use(all[j].token) {
      assert all[j] == rest[j - 1];
      if i > 0 {
        assert all[i] == rest[i - 1];
      }
    }
    forall i | 0 <= i < |all| ensures use(all[i].token) > 0 {
      if i > 0 {
        assert all[i] == rest[i - 1];
      }
    }
  }

  lemma TailRecent(entries: seq<Entry>, use: string -> nat)
    requires entries != [] && Recent(entries, use)
    ensures Recent(entries[1..], use) && forall e | e in entries[1..] :: use(e.token) < use(entries[0].token)
  {
    var tail := entries[1..];
    assert forall i | 0 <= i < |tail| :: tail[i] == entries[i + 1];
  }

  lemma {:induction false} RemoveRecent(entries: seq<Entry>, token: string, use: string -> nat)
    requires Recent(entries, use)
    ensures Recent(Remove(entries, token), use)
  {
    if entries != [] {
      var rest := Remove(entries[1..], token);
      TailRecent(entries, use);
      RemoveRecent(entries[1..], token, use);
      if entries[0].token != token {
        assert Remove(entries, token) == [entries[0]] + rest;
        assert forall i | 0 <= i < |rest| :: rest[i] in rest && rest[i] in entries[1..];
        FrontRecent(entries[0], rest, use);
      } else {
        assert Remove(entries, token) == rest;
      }
    }
  }

  lemma RemoveLater(entries: seq<Entry>, token: string, use: string -> nat, later: string -> nat)
    requires Recent(entries, use) && forall t | t != token :: later(t) == use(t)
    ensures Recent(Remove(entries, token), later)
  {
    RemoveRecent(entries, token, use);
    RemovedAbsent(entries, token);
  }

  /** `token` is now used later than every other one. */
  ghost predicate UsedLast(token: string, use: string -> nat, later: string -> nat) {
    later(token) > 0 && forall t | t != token :: later(t) == use(t) && later(t) < later(token)
  }

  /** Using a token later than every other one puts it first and keeps the rest in order. */
  lemma TouchRecent(entries: seq<Entry>, e: Entry, use: string -> nat, later: string -> nat)
    requires Recent(entries, use) && UsedLast(e.token, use, later)
    ensures Recent(Touch(entries, e), later)
  {
    RemoveLater(entries, e.token, use, later);
    RemovedAbsent(entries, e.token);
    FrontRecent(e, Remove(entries, e.token), later);
  }

  lemma PutRecent(entries: seq<Entry>, e: Entry, use: string -> nat, later: string -> nat)
    requires Recent(entries, use) && UsedLast(e.token, use, later)
    ensures Recent(Put(entries, e), later)
  {
    TouchRecent(entries, e, use, later);
    var all := Touch(entries, e);
    if |all| > CACHE_CAP {
      assert forall i | 0 <= i < CACHE_CAP :: all[..CACHE_CAP][i] == all[i];
    }
  }

  function RecentReply(use: string -> nat): Reply -> bool {
    (r: Reply) => Recent(r.entries, use)
  }

  lemma CallRecent(codec: Codec, ttl: U64, env: Env, entries: seq<Entry>, token: string,
                   use: string -> nat, later: string -> nat)
    requires Recent(entries, use) && !Guarded(env) && UsedLast(token, use, later)
    ensures Recent(Validate(codec, ttl, env, entries, token).entries, later)
  {
    var rest := Remove(entries, token);
    RemoveLater(entries, token, use, later);
    RemoveRecent(entries, token, use);
    forall e: Entry | e.token == token ensures Recent(Touch(entries, e), later) && Recent(Put(rest, e), later) {
      TouchRecent(entries, e, use, later);
      PutRecent(rest, e, use, later);
    }
    ReplyCases(RecentReply(later), codec, ttl, env, entries, token);
  }

  lemma {:induction false} ExecLast(codec: Codec, ttl: U64, s: State, calls: seq<Call>, last: Call)
    ensures Exec(codec, ttl, s, calls + [last]) == Next(codec, ttl, Exec(codec, ttl, s, calls), last)
    decreases |calls|
  {
    if calls == [] {
      assert [last][1..] == [];
    } else {
      assert (calls + [last])[1..] == calls[1..] + [last];
      ExecLast(codec, ttl, Next(codec, ttl, s, calls[0]), calls[1..], last);
    }
  }

  lemma RecentSame(entries: seq<Entry>, use: string -> nat, later: string -> nat)
    requires Recent(entries, use) && forall t :: later(t) == use(t)
    ensures Recent(entries, later)
  {
  }

  /** After every run the cache lists its tokens in the order of their last use, the most recent first. */
  lemma {:induction false} MostRecentFirst(codec: Codec, ttl: U64, calls: seq<Call>)
    ensures Recent(Exec(codec, ttl, EMPTY, calls).entries, t => LastUse(calls, t))
    decreases |calls|
  {
    if calls != [] {
      var before, last := calls[..|calls| - 1], calls[|calls| - 1];
      var use, later := t => LastUse(before, t), t => LastUse(calls, t);
      assert calls == before + [last];
      MostRecentFirst(codec, ttl, before);
      ExecLast(codec, ttl, EMPTY, before, last);
      var entries := Exec(codec, ttl, EMPTY, before).entries;
      if Guarded(last.env) {
        RecentSame(entries, use, later);
      } else {
        CallRecent(codec, ttl, last.env, entries, last.token, use, later);
      }
    }
  }
}
