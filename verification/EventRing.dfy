/**
 A ring of one-second buckets that stands in for an event log. Every bucket
 keeps a running tally of the events of one second and is reset when its slot is
 reached again. The lemmas hold for any tally: they say exactly which part of
 the log an aggregate over the ring sees.
 */
module EventRing {

  datatype Outcome = Success | RedisError | Timeout

  /** One recorded operation, in second `ts`. */
  datatype Event = Event(ts: nat, outcome: Outcome, latency: nat)

  /** How a bucket summarises events: the empty tally, one more event, two tallies together. */
  datatype Tally<!S> = Tally(zero: S, add: (S, Event) -> S, plus: (S, S) -> S)

  /** Always true; naming two tallies and an event steers the instantiation of the laws. */
  predicate Together<S>(a: S, b: S, e: Event) {
    true
  }

  predicate Alone<S>(a: S) {
    true
  }

  /** An event may be added before or after two tallies are put together. */
  ghost predicate Lawful<S(!new)>(t: Tally<S>) {
    && (forall a, b, e {:trigger Together(a, b, e)} ::
          && t.plus(a, t.add(b, e)) == t.add(t.plus(a, b), e)
          && t.plus(t.add(a, e), b) == t.add(t.plus(a, b), e))
    && (forall a {:trigger Alone(a)} :: t.plus(a, t.zero) == a)
  }

  datatype Bucket<S> = Bucket(ts: nat, sum: S)

  /** The tally of a whole log. */
  function Summary<S>(t: Tally<S>, log: seq<Event>): S {
    if log == [] then t.zero else t.add(Summary(t, log[..|log| - 1]), log[|log| - 1])
  }

  function Pick(log: seq<Event>, p: Event -> bool): seq<Event> {
    if log == [] then []
    else
      var last := log[|log| - 1];
      Pick(log[..|log| - 1], p) + (if p(last) then [last] else [])
  }

  // ---- Slots ----

  /** The slot of a second: `ts % n`, by counting down. */
  function Slot(n: nat, ts: nat): (i: nat)
    requires n > 0
    ensures i < n
    decreases ts
  {
    if ts < n then ts else Slot(n, ts - n)
  }

  lemma {:induction false} SlotIsRemainder(n: nat, ts: nat)
    requires n > 0
    ensures Slot(n, ts) == ts % n
    decreases ts
  {
    if ts >= n {
      SlotIsRemainder(n, ts - n);
      assert ts == (ts - n) + n;
      assert ts % n == (ts - n) % n by {
        assert ts - n == n * ((ts - n) / n) + (ts - n) % n;
        Remainder(n, (ts - n) / n + 1, (ts - n) % n, ts);
      }
    } else {
      Remainder(n, 0, ts, ts);
    }
  }

  lemma Remainder(n: nat, q: int, r: nat, a: nat)
    requires r < n && a == n * q + r
    ensures a % n == r
  {
    var d := a / n - q;
    assert a == n * (a / n) + a % n;
    assert n * d == r - a % n;
    Multiples(n, d);
  }

  lemma Multiples(n: nat, d: int)
    ensures d >= 1 ==> n * d >= n
    ensures d <= -1 ==> n * d + n <= 0
  {
  }

  /** Two seconds of one slot are at least a ring apart. */
  lemma {:induction false} Apart(n: nat, a: nat, b: nat)
    requires 0 < n && Slot(n, a) == Slot(n, b) && a < b
    ensures b - a >= n
    decreases b
  {
    if a >= n {
      Apart(n, a - n, b - n);
    } else if n <= b < 2 * n {
      assert Slot(n, b) == b - n;
    }
  }

  // ---- The ring as a function of the log ----

  /** A bucket after one more event of its slot: reset first if it holds another second. */
  function Touch<S>(t: Tally<S>, b: Bucket<S>, e: Event): Bucket<S> {
    Bucket(e.ts, t.add(if b.ts != e.ts then t.zero else b.sum, e))
  }

  function Record<S>(t: Tally<S>, ring: seq<Bucket<S>>, e: Event): (r: seq<Bucket<S>>)
    requires |ring| > 0
    ensures |r| == |ring|
  {
    ring[Slot(|ring|, e.ts) := Touch(t, ring[Slot(|ring|, e.ts)], e)]
  }

  function Empty<S>(t: Tally<S>, n: nat): (ring: seq<Bucket<S>>)
    ensures |ring| == n && forall i | 0 <= i < n :: ring[i] == Bucket(0, t.zero)
  {
    if n == 0 then [] else Empty(t, n - 1) + [Bucket(0, t.zero)]
  }

  function Replay<S>(t: Tally<S>, n: nat, log: seq<Event>): (ring: seq<Bucket<S>>)
    requires n > 0
    ensures |ring| == n
  {
    if log == [] then Empty(t, n) else Record(t, Replay(t, n, log[..|log| - 1]), log[|log| - 1])
  }

  predicate InWindow<S>(b: Bucket<S>, now: nat, w: nat) {
    now - w <= b.ts <= now
  }

  /** The sum of the buckets whose second lies in [now - w, now]. */
  function Aggregate<S>(t: Tally<S>, ring: seq<Bucket<S>>, now: nat, w: nat): S {
    if ring == [] then t.zero
    else
      var k := |ring| - 1;
      var rest := Aggregate(t, ring[..k], now, w);
      if InWindow(ring[k], now, w) then t.plus(rest, ring[k].sum) else rest
  }

  predicate Ordered(log: seq<Event>) {
    forall i, j | 0 <= i < j < |log| :: log[i].ts <= log[j].ts
  }

  // ---- Selections ----

  lemma PickLast<S>(t: Tally<S>, init: seq<Event>, e: Event, p: Event -> bool)
    ensures Pick(init + [e], p) == Pick(init, p) + (if p(e) then [e] else [])
    ensures Summary(t, Pick(init + [e], p))
         == if p(e) then t.add(Summary(t, Pick(init, p)), e) else Summary(t, Pick(init, p))
  {
    assert (init + [e])[..|init|] == init;
    var k := Pick(init, p);
    assert (k + [e])[..|k|] == k;
    assert k + [] == k;
  }

  /** Two disjoint selections together. */
  lemma {:induction false} SummarySplit<S(!new)>(
    t: Tally<S>, log: seq<Event>, p: Event -> bool, q: Event -> bool, both: Event -> bool)
    requires Lawful(t)
    requires forall e | e in log :: both(e) == (p(e) || q(e)) && !(p(e) && q(e))
    ensures Summary(t, Pick(log, both)) == t.plus(Summary(t, Pick(log, p)), Summary(t, Pick(log, q)))
  {
    if log != [] {
      var init, e := log[..|log| - 1], log[|log| - 1];
      assert log == init + [e];
      SummarySplit(t, init, p, q, both);
      PickLast(t, init, e, p);
      PickLast(t, init, e, q);
      PickLast(t, init, e, both);
      assert e in log;
      assert Together(Summary(t, Pick(init, p)), Summary(t, Pick(init, q)), e);
    } else {
      assert Alone(t.zero);
    }
  }

  lemma {:induction false} PickSame(log: seq<Event>, p: Event -> bool, q: Event -> bool)
    requires forall e | e in log :: p(e) == q(e)
    ensures Pick(log, p) == Pick(log, q)
  {
    if log != [] {
      PickSame(log[..|log| - 1], p, q);
    }
  }

  lemma {:induction false} PickNone(log: seq<Event>, p: Event -> bool)
    requires forall e | e in log :: !p(e)
    ensures Pick(log, p) == []
  {
    if log != [] {
      PickNone(log[..|log| - 1], p);
    }
  }

  lemma {:induction false} PickMembers(log: seq<Event>, p: Event -> bool, e: Event)
    ensures e in Pick(log, p) <==> e in log && p(e)
  {
    if log != [] {
      PickMembers(log[..|log| - 1], p, e);
      assert log == log[..|log| - 1] + [log[|log| - 1]];
    }
  }

  // ---- What each bucket holds ----

  /** The events of slot `i` in second `ts`. */
  function InSlot(n: nat, i: nat, ts: nat): Event -> bool
    requires n > 0
  {
    (e: Event) => e.ts == ts && Slot(n, e.ts) == i
  }

  predicate RecordedAt(log: seq<Event>, ts: nat) {
    exists i :: 0 <= i < |log| && log[i].ts == ts
  }

  /** Bucket `i` tallies exactly the latest second of its slot. */
  ghost predicate SlotExact<S>(t: Tally<S>, n: nat, i: nat, log: seq<Event>, b: Bucket<S>)
    requires n > 0
  {
    && b.sum == Summary(t, Pick(log, InSlot(n, i, b.ts)))
    && (forall e | e in log && Slot(n, e.ts) == i :: e.ts <= b.ts)
    && (b.ts > 0 ==> RecordedAt(log, b.ts) && Slot(n, b.ts) == i)
  }

  lemma {:induction false} SlotsExact<S>(t: Tally<S>, n: nat, log: seq<Event>, i: nat)
    requires i < n && Ordered(log)
    ensures SlotExact(t, n, i, log, Replay(t, n, log)[i])
  {
    if log != [] {
      var init, e := log[..|log| - 1], log[|log| - 1];
      SlotsExact(t, n, init, i);
      var c := Replay(t, n, init)[i];
      assert log == init + [e];
      forall x | x in init ensures x.ts <= e.ts {
        var j :| 0 <= j < |init| && init[j] == x;
        assert log[j] == x;
      }
      if Slot(n, e.ts) == i {
        SlotHit(t, n, i, init, e, c);
      } else {
        SlotMiss(t, n, i, init, e, c);
      }
    }
  }

  lemma RecordedLater(init: seq<Event>, e: Event, ts: nat)
    ensures RecordedAt(init + [e], ts) <==> RecordedAt(init, ts) || e.ts == ts
  {
    var log := init + [e];
    assert log[|init|] == e;
    assert forall j | 0 <= j < |init| :: log[j] == init[j];
  }

  lemma SlotHit<S>(t: Tally<S>, n: nat, i: nat, init: seq<Event>, e: Event, c: Bucket<S>)
    requires i < n && Slot(n, e.ts) == i && SlotExact(t, n, i, init, c)
    requires forall x | x in init :: x.ts <= e.ts
    ensures SlotExact(t, n, i, init + [e], Touch(t, c, e))
  {
    PickLast(t, init, e, InSlot(n, i, e.ts));
    RecordedLater(init, e, e.ts);
    if c.ts != e.ts {
      PickNone(init, InSlot(n, i, e.ts));
    }
  }

  lemma SlotMiss<S>(t: Tally<S>, n: nat, i: nat, init: seq<Event>, e: Event, c: Bucket<S>)
    requires i < n && Slot(n, e.ts) != i && SlotExact(t, n, i, init, c)
    ensures SlotExact(t, n, i, init + [e], c)
  {
    PickLast(t, init, e, InSlot(n, i, c.ts));
    RecordedLater(init, e, c.ts);
  }

  // ---- What an aggregate sees ----

  /**
   The events an aggregate over `w` seconds sees at `now`: seconds (now - w, now]
   always; second now - w too, unless the ring is w long and that bucket has been
   taken over by an event of the current second.
   */
  predicate Sees(n: nat, log: seq<Event>, now: nat, w: nat, e: Event) {
    now - w <= e.ts && (e.ts == now - n ==> !RecordedAt(log, now))
  }

  function Seen(n: nat, log: seq<Event>, now: nat, w: nat): Event -> bool {
    (e: Event) => Sees(n, log, now, w, e)
  }

  function SeenBelow(n: nat, log: seq<Event>, now: nat, w: nat, k: nat): Event -> bool
    requires n > 0
  {
    (e: Event) => Slot(n, e.ts) < k && Sees(n, log, now, w, e)
  }

  function SeenAt(n: nat, log: seq<Event>, now: nat, w: nat, i: nat): Event -> bool
    requires n > 0
  {
    (e: Event) => Slot(n, e.ts) == i && Sees(n, log, now, w, e)
  }

  /** The clock has not run backwards: nothing in the log is later than `now`. */
  predicate UpTo(log: seq<Event>, now: nat) {
    forall e | e in log :: e.ts <= now
  }

  lemma SlotSees<S>(t: Tally<S>, n: nat, log: seq<Event>, now: nat, w: nat, i: nat, b: Bucket<S>, e: Event)
    requires 0 < n && w <= n && i < n && UpTo(log, now) && e in log
    requires SlotExact(t, n, i, log, b)
    ensures SeenAt(n, log, now, w, i)(e) <==> InWindow(b, now, w) && InSlot(n, i, b.ts)(e)
  {
    if Slot(n, e.ts) == i && now - w <= e.ts {
      assert Slot(n, e.ts + n) == i;
      if RecordedAt(log, now) {
        var k :| 0 <= k < |log| && log[k].ts == now;
        assert log[k] in log;
      }
      assert e.ts <= b.ts;
      if b.ts > 0 {
        var j :| 0 <= j < |log| && log[j].ts == b.ts;
        assert log[j] in log;
        if e.ts < b.ts {
          Apart(n, e.ts, b.ts);
        }
      }
    }
  }

  /** Of slot `i`, an aggregate sees its bucket if that is in the window, and nothing else. */
  lemma SlotSeen<S>(t: Tally<S>, n: nat, log: seq<Event>, now: nat, w: nat, i: nat)
    requires 0 < n && w <= n && i < n && Ordered(log) && UpTo(log, now)
    ensures Summary(t, Pick(log, SeenAt(n, log, now, w, i)))
         == if InWindow(Replay(t, n, log)[i], now, w) then Replay(t, n, log)[i].sum else t.zero
  {
    var b := Replay(t, n, log)[i];
    SlotsExact(t, n, log, i);
    forall e | e in log
      ensures SeenAt(n, log, now, w, i)(e) <==> InWindow(b, now, w) && InSlot(n, i, b.ts)(e)
    {
      SlotSees(t, n, log, now, w, i, b, e);
    }
    if InWindow(b, now, w) {
      PickSame(log, SeenAt(n, log, now, w, i), InSlot(n, i, b.ts));
    } else {
      PickNone(log, SeenAt(n, log, now, w, i));
    }
  }

  lemma {:induction false} AggregateSlots<S(!new)>(t: Tally<S>, n: nat, log: seq<Event>, now: nat, w: nat, k: nat)
    requires Lawful(t) && 0 < n && w <= n && k <= n && Ordered(log) && UpTo(log, now)
    ensures Aggregate(t, Replay(t, n, log)[..k], now, w) == Summary(t, Pick(log, SeenBelow(n, log, now, w, k)))
  {
    if k == 0 {
      PickNone(log, SeenBelow(n, log, now, w, k));
    } else {
      var i := k - 1;
      var ring := Replay(t, n, log);
      AggregateSlots(t, n, log, now, w, i);
      assert ring[..k][..i] == ring[..i];
      SummarySplit(t, log, SeenBelow(n, log, now, w, i), SeenAt(n, log, now, w, i), SeenBelow(n, log, now, w, k));
      SlotSeen(t, n, log, now, w, i);
      assert Alone(Summary(t, Pick(log, SeenBelow(n, log, now, w, i))));
    }
  }

  /** The ring refines the log: an aggregate is the tally of exactly the events it should see. */
  lemma AggregateExact<S(!new)>(t: Tally<S>, n: nat, log: seq<Event>, now: nat, w: nat)
    requires Lawful(t) && 0 < n && w <= n && Ordered(log) && UpTo(log, now)
    ensures Aggregate(t, Replay(t, n, log), now, w) == Summary(t, Pick(log, Seen(n, log, now, w)))
  {
    AggregateSlots(t, n, log, now, w, n);
    assert Replay(t, n, log)[..n] == Replay(t, n, log);
    PickSame(log, SeenBelow(n, log, now, w, n), Seen(n, log, now, w));
  }

  /** ... and right after a record, over the whole ring, exactly the last w seconds. */
  lemma AggregateAfterRecord<S(!new)>(t: Tally<S>, w: nat, log: seq<Event>, e: Event)
    requires Lawful(t) && 0 < w && Ordered(log + [e])
    ensures Aggregate(t, Replay(t, w, log + [e]), e.ts, w)
         == Summary(t, Pick(log + [e], (x: Event) => e.ts - w < x.ts))
  {
    var all := log + [e];
    assert all[|log|] == e;
    forall x | x in all ensures x.ts <= e.ts {
      var j :| 0 <= j < |all| && all[j] == x;
    }
    AggregateExact(t, w, all, e.ts, w);
    assert RecordedAt(all, e.ts);
    PickSame(all, Seen(w, all, e.ts, w), (x: Event) => e.ts - w < x.ts);
  }
}
