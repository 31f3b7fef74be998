/**
 The breaker's rolling window: bucket statistics with a banded latency
 histogram, the ring that collects them, and the percentile read off an
 aggregate.
 */
module RollingWindow {
  import opened EventRing

  const BANDS: nat := 18

  /** Upper bound (us) of each band but the last, which is open-ended. */
  const BOUNDS: seq<nat> := [
    500, 1_000, 2_000, 4_000, 8_000, 16_000, 32_000, 64_000,
    100_000, 150_000, 200_000, 300_000, 400_000, 500_000,
    750_000, 1_000_000, 2_000_000]

  const MAX_WINDOW_BUCKETS: nat := 64
  const MAX_SAFE_INTEGER: nat := 9_007_199_254_740_991

  type Hist = h: seq<nat> | |h| == BANDS witness [0, 0, 0, 0, 0, 0, 0, 0, 0, 0, 0, 0, 0, 0, 0, 0, 0, 0]

  datatype Stats = Stats(total: nat, errors: nat, timeouts: nat, hist: Hist)

  const ZERO: Stats := Stats(0, 0, 0, [0, 0, 0, 0, 0, 0, 0, 0, 0, 0, 0, 0, 0, 0, 0, 0, 0, 0])

  // ---- Bands ----

  function Band(latency: nat): (b: nat)
    ensures b < BANDS
  {
    BandFrom(latency, 0)
  }

  function BandFrom(latency: nat, i: nat): (b: nat)
    requires i <= |BOUNDS|
    ensures i <= b <= |BOUNDS|
    decreases |BOUNDS| - i
  {
    if i == |BOUNDS| || latency <= BOUNDS[i] then i else BandFrom(latency, i + 1)
  }

  /** The band of a latency is the first whose bound covers it: bands are ordered intervals. */
  lemma BandBrackets(latency: nat, i: nat)
    requires i < |BOUNDS|
    ensures Band(latency) <= i <==> latency <= BOUNDS[i]
  {
    BandFromBrackets(latency, 0, i);
  }

  lemma {:induction false} BandFromBrackets(latency: nat, k: nat, i: nat)
    requires k <= i < |BOUNDS|
    ensures BandFrom(latency, k) <= i <==> latency <= BOUNDS[i]
    decreases i - k
  {
    assert k < i ==> BOUNDS[k] < BOUNDS[i];
    if k < i && latency > BOUNDS[k] {
      BandFromBrackets(latency, k + 1, i);
    }
  }

  /** The loop that looks for the band. */
  method FindBand(latency: nat) returns (band: nat)
    ensures band == Band(latency)
  {
    band := BANDS - 1;
    for i := 0 to |BOUNDS|
      invariant Band(latency) == BandFrom(latency, i)
      invariant band == BANDS - 1
    {
      if latency <= BOUNDS[i] {
        return i;
      }
    }
  }

  // ---- Statistics as a tally of events ----

  function Count(s: Stats, e: Event): Stats {
    Stats(s.total + 1,
          if e.outcome.RedisError? then s.errors + 1 else s.errors,
          if e.outcome.Timeout? then s.timeouts + 1 else s.timeouts,
          s.hist[Band(e.latency) := s.hist[Band(e.latency)] + 1])
  }

  function AddBands(a: seq<nat>, b: seq<nat>): (c: seq<nat>)
    requires |a| == |b|
    ensures |c| == |a|
  {
    seq(|a|, i requires 0 <= i < |a| => a[i] + b[i])
  }

  function Sum(a: Stats, b: Stats): Stats {
    Stats(a.total + b.total, a.errors + b.errors, a.timeouts + b.timeouts, AddBands(a.hist, b.hist))
  }

  const TALLY: Tally<Stats> := Tally(ZERO, Count, Sum)

  lemma BumpBand(a: seq<nat>, b: seq<nat>, k: nat)
    requires |a| == |b| && k < |a|
    ensures AddBands(a, b[k := b[k] + 1]) == AddBands(a, b)[k := AddBands(a, b)[k] + 1]
    ensures AddBands(a[k := a[k] + 1], b) == AddBands(a, b)[k := AddBands(a, b)[k] + 1]
  {
  }

  lemma CountInSum(a: Stats, b: Stats, e: Event)
    ensures Sum(a, Count(b, e)) == Count(Sum(a, b), e)
    ensures Sum(Count(a, e), b) == Count(Sum(a, b), e)
  {
    BumpBand(a.hist, b.hist, Band(e.latency));
  }

  lemma SumZero(a: Stats)
    ensures Sum(a, ZERO) == a
  {
    assert AddBands(a.hist, ZERO.hist) == a.hist;
  }

  lemma TallyLawful()
    ensures Lawful(TALLY)
  {
    forall a: Stats, b: Stats, e: Event
      ensures TALLY.plus(a, TALLY.add(b, e)) == TALLY.add(TALLY.plus(a, b), e)
      ensures TALLY.plus(TALLY.add(a, e), b) == TALLY.add(TALLY.plus(a, b), e)
    {
      CountInSum(a, b, e);
    }
    forall a: Stats ensures TALLY.plus(a, TALLY.zero) == a {
      SumZero(a);
    }
  }

  // ---- Percentiles ----

  function CeilDiv(a: nat, b: nat): nat
    requires b > 0
  {
    (a + b - 1) / b
  }

  /** ceil(total * pct / 100) */
  function Target(total: nat, pct: nat): nat {
    CeilDiv(total * pct, 100)
  }

  /** The target is the least whole number that is at least the percentage of the total. */
  lemma TargetIsCeiling(total: nat, pct: nat)
    ensures total * pct <= 100 * Target(total, pct) < total * pct + 100
  {
  }

  /** The sum of the first `k` bands. */
  function Covered(hist: seq<nat>, k: nat): nat
    requires k <= |hist|
  {
    if k == 0 then 0 else Covered(hist, k - 1) + hist[k - 1]
  }

  /** The least band, from `i` on, up to which `target` events are covered; BANDS if there is none. */
  function FirstBand(hist: Hist, target: nat, i: nat): (b: nat)
    requires i <= BANDS
    ensures i <= b <= BANDS
    decreases BANDS - i
  {
    if i == BANDS || Covered(hist, i + 1) >= target then i else FirstBand(hist, target, i + 1)
  }

  function BandBound(band: nat): nat {
    if band < |BOUNDS| then BOUNDS[band] else MAX_SAFE_INTEGER
  }

  function Percentile(s: Stats, pct: nat): nat {
    if s.total == 0 then 0 else BandBound(FirstBand(s.hist, Target(s.total, pct), 0))
  }

  method PercentileUs(s: Stats, pct: nat) returns (us: nat)
    ensures us == Percentile(s, pct)
  {
    if s.total == 0 {
      return 0;
    }
    var target := CeilDiv(s.total * pct, 100);
    var cumulative := 0;
    for i := 0 to BANDS
      invariant cumulative == Covered(s.hist, i)
      invariant FirstBand(s.hist, target, 0) == FirstBand(s.hist, target, i)
    {
      cumulative := cumulative + s.hist[i];
      if cumulative >= target {
        return if i < |BOUNDS| then BOUNDS[i] else MAX_SAFE_INTEGER;
      }
    }
    return MAX_SAFE_INTEGER;
  }

  // ---- What the histogram knows about the raw latencies ----

  function CountIf(log: seq<Event>, p: Event -> bool): (n: nat)
    ensures n <= |log|
  {
    if log == [] then 0
    else CountIf(log[..|log| - 1], p) + (if p(log[|log| - 1]) then 1 else 0)
  }

  function HasOutcome(o: Outcome): Event -> bool {
    (e: Event) => e.outcome == o
  }

  /** The error and timeout counts of a tally are those of the log. */
  lemma {:induction false} OutcomesCounted(log: seq<Event>)
    ensures var s := Summary(TALLY, log);
            && s.total == |log|
            && s.errors == CountIf(log, HasOutcome(RedisError))
            && s.timeouts == CountIf(log, HasOutcome(Timeout))
  {
    if log != [] {
      OutcomesCounted(log[..|log| - 1]);
    }
  }

  function BandBelow(k: nat): Event -> bool {
    (e: Event) => Band(e.latency) < k
  }

  lemma {:induction false} CoveredUpdate(hist: seq<nat>, b: nat, k: nat)
    requires b < |hist| && k <= |hist|
    ensures Covered(hist[b := hist[b] + 1], k) == Covered(hist, k) + (if b < k then 1 else 0)
  {
    if k > 0 {
      CoveredUpdate(hist, b, k - 1);
    }
  }

  lemma {:induction false} CoveredZero(k: nat)
    requires k <= BANDS
    ensures Covered(ZERO.hist, k) == 0
  {
    if k > 0 {
      CoveredZero(k - 1);
    }
  }

  /** The first `k` bands count exactly the events whose latency falls in them. */
  lemma {:induction false} CoveredCounts(log: seq<Event>, k: nat)
    requires k <= BANDS
    ensures Covered(Summary(TALLY, log).hist, k) == CountIf(log, BandBelow(k))
  {
    if log == [] {
      CoveredZero(k);
    } else {
      var init, e := log[..|log| - 1], log[|log| - 1];
      CoveredCounts(init, k);
      CoveredUpdate(Summary(TALLY, init).hist, Band(e.latency), k);
    }
  }

  lemma {:induction false} CountAll(log: seq<Event>)
    ensures CountIf(log, BandBelow(BANDS)) == |log|
  {
    if log != [] {
      CountAll(log[..|log| - 1]);
    }
  }

  /** The bands always add up to `total`, and errors and timeouts never exceed it. */
  lemma {:induction false} SummaryConsistent(log: seq<Event>)
    ensures var s := Summary(TALLY, log);
            && s.total == |log| == Covered(s.hist, BANDS)
            && s.errors + s.timeouts <= s.total
  {
    CoveredCounts(log, BANDS);
    CountAll(log);
    if log != [] {
      SummaryConsistent(log[..|log| - 1]);
    }
  }

  function AtMost(v: nat): Event -> bool {
    (e: Event) => e.latency <= v
  }

  function LessThan(v: nat): Event -> bool {
    (e: Event) => e.latency < v
  }

  /** `v` is the rank-th smallest of the raw latencies. */
  predicate NearestRank(log: seq<Event>, rank: nat, v: nat) {
    CountIf(log, LessThan(v)) < rank <= CountIf(log, AtMost(v))
  }

  lemma {:induction false} CountMonotone(log: seq<Event>, p: Event -> bool, q: Event -> bool)
    requires forall e: Event :: p(e) ==> q(e)
    ensures CountIf(log, p) <= CountIf(log, q)
  {
    if log != [] {
      CountMonotone(log[..|log| - 1], p, q);
    }
  }

  lemma FirstBandLeast(hist: Hist, target: nat, i: nat, k: nat)
    requires i <= k < BANDS && Covered(hist, k) < target <= Covered(hist, k + 1)
    ensures FirstBand(hist, target, i) == k
    decreases k - i
  {
    if i < k {
      CoveredGrows(hist, i + 1, k);
      FirstBandLeast(hist, target, i + 1, k);
    }
  }

  lemma {:induction false} CoveredGrows(hist: seq<nat>, j: nat, k: nat)
    requires j <= k <= |hist|
    ensures Covered(hist, j) <= Covered(hist, k)
    decreases k - j
  {
    if j < k {
      CoveredGrows(hist, j, k - 1);
    }
  }

  /** A value lies between the bounds of its band. */
  lemma BandHolds(v: nat)
    ensures Band(v) < |BOUNDS| ==> v <= BandBound(Band(v))
    ensures Band(v) > 0 ==> BOUNDS[Band(v) - 1] < v
  {
    var k := Band(v);
    if k < |BOUNDS| {
      BandBrackets(v, k);
    }
    if k > 0 {
      BandBrackets(v, k - 1);
    }
  }

  /** Lower bands hold smaller values only, and smaller values are in this band or a lower one. */
  lemma BandOrder(v: nat, u: nat)
    ensures Band(u) < Band(v) ==> u < v
    ensures u <= v ==> Band(u) <= Band(v)
  {
    var k := Band(v);
    if k > 0 {
      BandBrackets(u, k - 1);
      BandBrackets(v, k - 1);
    }
    if k < |BOUNDS| {
      BandBrackets(v, k);
      BandBrackets(u, k);
    }
  }

  lemma BandCounts(log: seq<Event>, v: nat)
    ensures CountIf(log, BandBelow(Band(v))) <= CountIf(log, LessThan(v))
    ensures CountIf(log, AtMost(v)) <= CountIf(log, BandBelow(Band(v) + 1))
  {
    forall e: Event
      ensures BandBelow(Band(v))(e) ==> LessThan(v)(e)
      ensures AtMost(v)(e) ==> BandBelow(Band(v) + 1)(e)
    {
      BandOrder(v, e.latency);
    }
    CountMonotone(log, BandBelow(Band(v)), LessThan(v));
    CountMonotone(log, AtMost(v), BandBelow(Band(v) + 1));
  }

  /**
   Percentile soundness: over the raw latencies of the log, the percentile read
   off the histogram is the bound of the band that holds the exact nearest-rank
   percentile. So it is never below it, and the bound one band lower is.
   */
  lemma PercentileBrackets(log: seq<Event>, pct: nat, v: nat)
    requires log != [] && NearestRank(log, Target(|log|, pct), v)
    ensures var us := Percentile(Summary(TALLY, log), pct);
            && us == BandBound(Band(v))
            && (Band(v) < |BOUNDS| ==> v <= us)
            && (Band(v) > 0 ==> BOUNDS[Band(v) - 1] < v)
  {
    var k := Band(v);
    SummaryConsistent(log);
    CoveredCounts(log, k);
    CoveredCounts(log, k + 1);
    BandCounts(log, v);
    FirstBandLeast(Summary(TALLY, log).hist, Target(|log|, pct), 0, k);
    BandHolds(v);
  }

  /** There is an exact latency for every rank. */
  lemma NearestRankExists(log: seq<Event>, rank: nat) returns (v: nat)
    requires 1 <= rank <= |log|
    ensures NearestRank(log, rank, v)
  {
    var top := Top(log);
    v := 0;
    NoneBelowZero(log);
    while CountIf(log, AtMost(v)) < rank
      invariant v <= top
      invariant CountIf(log, LessThan(v)) < rank
      decreases top - v
    {
      if v == top {
        TopCoversAll(log, top);
      }
      CountMonotone(log, LessThan(v + 1), AtMost(v));
      v := v + 1;
    }
  }

  function Top(log: seq<Event>): nat {
    if log == [] then 0
    else
      var m := Top(log[..|log| - 1]);
      if log[|log| - 1].latency > m then log[|log| - 1].latency else m
  }

  lemma {:induction false} TopCoversAll(log: seq<Event>, v: nat)
    requires Top(log) <= v
    ensures CountIf(log, AtMost(v)) == |log|
  {
    if log != [] {
      TopCoversAll(log[..|log| - 1], v);
    }
  }

  lemma {:induction false} NoneBelowZero(log: seq<Event>)
    ensures CountIf(log, LessThan(0)) == 0
  {
    if log != [] {
      NoneBelowZero(log[..|log| - 1]);
    }
  }

  lemma TargetInRange(total: nat, pct: nat)
    requires total > 0 && 1 <= pct <= 100
    ensures 1 <= Target(total, pct) <= total
  {
    assert total <= total * pct <= total * 100;
  }

  /**
   For every log and every percentage in 1..100 there is an exact percentile, and the
   value read off the histogram is the bound of its band.
   */
  lemma PercentileSound(log: seq<Event>, pct: nat) returns (v: nat)
    requires log != [] && 1 <= pct <= 100
    ensures NearestRank(log, Target(|log|, pct), v)
    ensures var us := Percentile(Summary(TALLY, log), pct);
            && us == BandBound(Band(v))
            && (Band(v) < |BOUNDS| ==> v <= us)
            && (Band(v) > 0 ==> BOUNDS[Band(v) - 1] < v)
  {
    TargetInRange(|log|, pct);
    v := NearestRankExists(log, Target(|log|, pct));
    PercentileBrackets(log, pct, v);
  }

  /** Percentiles are monotone in the percentage. */
  lemma PercentileMonotone(s: Stats, p: nat, q: nat)
    requires p <= q
    ensures Percentile(s, p) <= Percentile(s, q)
  {
    if s.total > 0 {
      assert s.total * p <= s.total * q;
      assert Target(s.total, p) <= Target(s.total, q);
      FirstBandMonotone(s.hist, Target(s.total, p), Target(s.total, q), 0);
    }
  }

  lemma {:induction false} FirstBandMonotone(hist: Hist, a: nat, b: nat, i: nat)
    requires a <= b && i <= BANDS
    ensures FirstBand(hist, a, i) <= FirstBand(hist, b, i)
    ensures BandBound(FirstBand(hist, a, i)) <= BandBound(FirstBand(hist, b, i))
    decreases BANDS - i
  {
    if i < BANDS {
      FirstBandMonotone(hist, a, b, i + 1);
      BoundsIncrease(i, FirstBand(hist, b, i));
    }
  }

  lemma BoundsIncrease(i: nat, j: nat)
    requires i <= j
    ensures BandBound(i) <= BandBound(j)
  {
    if i < j && j < |BOUNDS| {
      assert BOUNDS[i] < BOUNDS[j];
    }
  }

  // ---- The ring object ----

  function RingSize(size: int): (n: nat)
    ensures 1 <= n <= MAX_WINDOW_BUCKETS
    ensures 1 <= size <= MAX_WINDOW_BUCKETS ==> n == size
  {
    var atLeastOne := if size < 1 then 1 else size;
    if atLeastOne > MAX_WINDOW_BUCKETS then MAX_WINDOW_BUCKETS else atLeastOne
  }

  class Window {
    const buckets: array<Bucket<Stats>>

    ghost predicate Valid() {
      buckets.Length > 0
    }

    constructor (size: int)
      ensures Valid() && fresh(buckets)
      ensures buckets[..] == Empty(TALLY, RingSize(size))
    {
      var ring := new Bucket<Stats>[RingSize(size)](_ => Bucket(0, ZERO));
      buckets := ring;
      new;
      assert buckets[..] == Empty(TALLY, RingSize(size));
    }

    method RecordEvent(outcome: Outcome, latency: nat, ts: nat)
      requires Valid()
      modifies buckets
      ensures buckets[..] == Record(TALLY, old(buckets[..]), Event(ts, outcome, latency))
    {
      var i := ts % buckets.Length;
      SlotIsRemainder(buckets.Length, ts);
      if buckets[i].ts != ts {
        buckets[i] := Bucket(ts, ZERO);
      }
      var s := buckets[i].sum;
      var band := FindBand(latency);
      var hist := s.hist[band := s.hist[band] + 1];
      var errors, timeouts := s.errors, s.timeouts;
      if outcome.RedisError? {
        errors := errors + 1;
      } else if outcome.Timeout? {
        timeouts := timeouts + 1;
      }
      buckets[i] := Bucket(ts, Stats(s.total + 1, errors, timeouts, hist));
    }

    method AggregateWindow(now: nat, w: nat) returns (stats: Stats)
      requires Valid()
      ensures stats == Aggregate(TALLY, buckets[..], now, w)
    {
      stats := ZERO;
      for i := 0 to buckets.Length
        invariant stats == Aggregate(TALLY, buckets[..i], now, w)
      {
        assert buckets[..i + 1][..i] == buckets[..i];
        var b := buckets[i];
        if b.ts < now - w || b.ts > now {
          continue;
        }
        var hist := AddHist(stats.hist, b.sum.hist);
        stats := Stats(stats.total + b.sum.total, stats.errors + b.sum.errors, stats.timeouts + b.sum.timeouts, hist);
      }
      assert buckets[..buckets.Length] == buckets[..];
    }
  }

  /** The inner loop of an aggregate: one histogram added to another, band by band. */
  method AddHist(a: Hist, b: Hist) returns (c: Hist)
    ensures c == AddBands(a, b)
  {
    c := a;
    for i := 0 to BANDS
      invariant |c| == BANDS
      invariant forall j | 0 <= j < i :: c[j] == a[j] + b[j]
      invariant forall j | i <= j < BANDS :: c[j] == a[j]
    {
      c := c[i := c[i] + b[i]];
    }
  }
}
