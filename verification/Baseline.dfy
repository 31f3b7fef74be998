/**
 The self-calibrating baseline: a ring of the last observations with their median
 and median absolute deviation. Values are reals; an observation that is not a
 finite number is kept in the ring and left out of the statistics.
 */
module Baseline {

  const RING_CAP: nat := 256

  datatype Obs = Finite(value: real) | NotFinite

  // ---- Order statistics ----

  function Insert(x: real, s: seq<real>): seq<real> {
    if s == [] then [x]
    else if x <= s[0] then [x] + s
    else [s[0]] + Insert(x, s[1..])
  }

  function Sort(s: seq<real>): seq<real> {
    if s == [] then [] else Insert(s[0], Sort(s[1..]))
  }

  predicate Sorted(s: seq<real>) {
    forall i, j | 0 <= i < j < |s| :: s[i] <= s[j]
  }

  lemma {:induction false} InsertMultiset(x: real, s: seq<real>)
    ensures multiset(Insert(x, s)) == multiset{x} + multiset(s)
  {
    if s != [] {
      assert s == [s[0]] + s[1..];
      if x > s[0] {
        InsertMultiset(x, s[1..]);
      }
    }
  }

  lemma {:induction false} SortMultiset(s: seq<real>)
    ensures multiset(Sort(s)) == multiset(s) && |Sort(s)| == |s|
  {
    if s != [] {
      SortMultiset(s[1..]);
      InsertMultiset(s[0], Sort(s[1..]));
      assert s == [s[0]] + s[1..];
      SameSize(Sort(s), s);
    }
  }

  lemma SameSize(a: seq<real>, b: seq<real>)
    requires multiset(a) == multiset(b)
    ensures |a| == |b|
  {
    assert |multiset(a)| == |a| && |multiset(b)| == |b|;
  }

  lemma InsertHead(x: real, s: seq<real>)
    ensures Insert(x, s) != [] && (Insert(x, s)[0] == x || (s != [] && Insert(x, s)[0] == s[0] && s[0] < x))
  {
  }

  predicate Ascending(s: seq<real>) {
    |s| <= 1 || (s[0] <= s[1] && Ascending(s[1..]))
  }

  lemma {:induction false} InsertAscending(x: real, s: seq<real>)
    requires Ascending(s)
    ensures Ascending(Insert(x, s))
  {
    if s != [] {
      if x <= s[0] {
        assert ([x] + s)[1..] == s;
      } else {
        var rest := Insert(x, s[1..]);
        InsertAscending(x, s[1..]);
        InsertHead(x, s[1..]);
        assert ([s[0]] + rest)[1..] == rest;
      }
    }
  }

  lemma {:induction false} SortAscending(s: seq<real>)
    ensures Ascending(Sort(s))
  {
    if s != [] {
      SortAscending(s[1..]);
      InsertAscending(s[0], Sort(s[1..]));
    }
  }

  lemma {:induction false} AscendingAt(s: seq<real>, i: nat, j: nat)
    requires Ascending(s) && i < j < |s|
    ensures s[i] <= s[j]
  {
    if i > 0 {
      AscendingAt(s[1..], i - 1, j - 1);
    } else if j > 1 {
      AscendingAt(s[1..], 0, j - 1);
    }
  }

  lemma SortSorted(s: seq<real>)
    ensures Sorted(Sort(s))
  {
    SortAscending(s);
    var t := Sort(s);
    forall i, j | 0 <= i < j < |t| ensures t[i] <= t[j] {
      AscendingAt(t, i, j);
    }
  }

  function Middle(s: seq<real>): real {
    if s == [] then 0.0
    else
      var mid := |s| / 2;
      if |s| % 2 == 1 then s[mid] else (s[mid - 1] + s[mid]) / 2.0
  }

  function MedianOf(vals: seq<real>): real {
    Middle(Sort(vals))
  }

  function Abs(x: real): real {
    if x < 0.0 then -x else x
  }

  function Deviations(vals: seq<real>, m: real): (d: seq<real>)
    ensures |d| == |vals| && forall i | 0 <= i < |d| :: d[i] == Abs(vals[i] - m)
  {
    seq(|vals|, i requires 0 <= i < |vals| => Abs(vals[i] - m))
  }

  function MadOf(vals: seq<real>): real {
    MedianOf(Deviations(vals, MedianOf(vals)))
  }

  // ---- Order does not matter ----

  /** Two ascending sequences with the same elements are equal. */
  lemma {:induction false} AscendingUnique(a: seq<real>, b: seq<real>)
    requires Ascending(a) && Ascending(b) && multiset(a) == multiset(b)
    ensures a == b
    decreases |a|
  {
    SameSize(a, b);
    if a != [] {
      LeastFirst(a, b);
      LeastFirst(b, a);
      TailMultiset(a);
      TailMultiset(b);
      AscendingUnique(a[1..], b[1..]);
      HeadAndTail(a, b);
    }
  }

  lemma TailMultiset(a: seq<real>)
    requires a != []
    ensures multiset(a[1..]) == multiset(a) - multiset{a[0]}
  {
    assert a == [a[0]] + a[1..];
  }

  lemma HeadAndTail(a: seq<real>, b: seq<real>)
    requires a != [] && b != [] && a[0] == b[0] && a[1..] == b[1..]
    ensures a == b
  {
    assert a == [a[0]] + a[1..] && b == [b[0]] + b[1..];
  }

  lemma LeastFirst(a: seq<real>, b: seq<real>)
    requires a != [] && b != [] && Ascending(a) && multiset(a) == multiset(b)
    ensures a[0] <= b[0]
  {
    assert b[0] in multiset(b);
    assert b[0] in a;
    var i :| 0 <= i < |a| && a[i] == b[0];
    if i > 0 {
      AscendingAt(a, 0, i);
    }
  }

  lemma SortPermutation(a: seq<real>, b: seq<real>)
    requires multiset(a) == multiset(b)
    ensures Sort(a) == Sort(b)
  {
    SortMultiset(a);
    SortMultiset(b);
    SortAscending(a);
    SortAscending(b);
    AscendingUnique(Sort(a), Sort(b));
  }

  function Finites(obs: seq<Obs>): seq<real> {
    if obs == [] then []
    else (if obs[0].Finite? then [obs[0].value] else []) + Finites(obs[1..])
  }

  lemma {:induction false} FinitesAppend(a: seq<Obs>, b: seq<Obs>)
    ensures Finites(a + b) == Finites(a) + Finites(b)
  {
    if a == [] {
      assert a + b == b;
    } else {
      assert (a + b)[1..] == a[1..] + b;
      FinitesAppend(a[1..], b);
      Assoc(if a[0].Finite? then [a[0].value] else [], Finites(a[1..]), Finites(b));
    }
  }

  lemma Assoc(a: seq<real>, b: seq<real>, c: seq<real>)
    ensures a + b + c == a + (b + c)
  {
  }

  lemma DeviationsAppend(a: seq<real>, b: seq<real>, m: real)
    ensures Deviations(a + b, m) == Deviations(a, m) + Deviations(b, m)
  {
  }

  /** Turning the observations round changes neither the median nor the deviation. */
  lemma TurnedSame(a: seq<Obs>, b: seq<Obs>)
    ensures Sort(Finites(a + b)) == Sort(Finites(b + a))
    ensures MadOf(Finites(a + b)) == MadOf(Finites(b + a))
  {
    var x, y := Finites(a), Finites(b);
    FinitesAppend(a, b);
    FinitesAppend(b, a);
    SortPermutation(x + y, y + x);
    var m := MedianOf(x + y);
    DeviationsAppend(x, y, m);
    DeviationsAppend(y, x, m);
    SortPermutation(Deviations(x + y, m), Deviations(y + x, m));
  }

  // ---- The ring ----

  function Last(log: seq<Obs>, n: nat): seq<Obs> {
    if n < |log| then log[|log| - n..] else log
  }

  /** Slot j mod 256 of the ring holds observation j, for each of the last 256 observations. */
  ghost predicate Mirrors(ring: seq<Obs>, log: seq<Obs>)
    requires |ring| == RING_CAP
  {
    forall j | 0 <= j < |log| && |log| - RING_CAP <= j :: ring[j % RING_CAP] == log[j]
  }

  lemma WithinOneTurn(n: nat, j: nat)
    requires j < n && n - RING_CAP < j
    ensures j % RING_CAP != n % RING_CAP
  {
  }

  lemma NextIndex(n: nat)
    ensures (n % RING_CAP + 1) % RING_CAP == (n + 1) % RING_CAP
  {
  }

  lemma MirrorsMore(ring: seq<Obs>, log: seq<Obs>, v: Obs)
    requires |ring| == RING_CAP && Mirrors(ring, log)
    ensures Mirrors(ring[|log| % RING_CAP := v], log + [v])
  {
    var ring', log' := ring[|log| % RING_CAP := v], log + [v];
    forall j | 0 <= j < |log'| && |log'| - RING_CAP <= j ensures ring'[j % RING_CAP] == log'[j] {
      if j < |log| {
        WithinOneTurn(|log|, j);
        assert ring[j % RING_CAP] == log[j];
      }
    }
  }

  class MadBaseline {
    const buf: array<Obs>
    var idx: nat
    var filled: nat
    ghost var log: seq<Obs>

    ghost predicate Valid()
      reads this, buf
    {
      && buf.Length == RING_CAP
      && idx == |log| % RING_CAP
      && filled == (if |log| < RING_CAP then |log| else RING_CAP)
      && Mirrors(buf[..], log)
    }

    constructor ()
      ensures Valid() && log == [] && fresh(buf)
    {
      buf := new Obs[RING_CAP](_ => Finite(0.0));
      idx, filled, log := 0, 0, [];
    }

    method Observe(v: Obs)
      requires Valid()
      modifies this, buf
      ensures Valid() && log == old(log) + [v]
    {
      MirrorsMore(buf[..], log, v);
      NextIndex(|log|);
      ghost var ring := buf[..];
      buf[idx] := v;
      assert buf[..] == ring[idx := v];
      idx := (idx + 1) % RING_CAP;
      filled := if filled + 1 < RING_CAP then filled + 1 else RING_CAP;
      log := log + [v];
    }

    /** The filled part of the ring is the last observations, turned round. */
    lemma Rotation() returns (older: seq<Obs>, newer: seq<Obs>)
      requires Valid()
      ensures Last(log, RING_CAP) == older + newer && buf[..filled] == newer + older
      ensures multiset(buf[..filled]) == multiset(Last(log, RING_CAP))
    {
      if |log| < RING_CAP {
        older, newer := log, [];
        ShortRing(buf[..], log);
        assert buf[..filled] == buf[..][..filled];
      } else {
        var p := |log| % RING_CAP;
        RingIsTail(buf[..], log);
        older, newer := buf[p..], buf[..p];
        assert buf[..][p..] == older && buf[..][..p] == newer;
        assert buf[..filled] == newer + older;
      }
    }

    /** The median of the last observations, whatever order the ring has them in. */
    method Median() returns (m: real)
      requires Valid()
      ensures m == MedianOf(Finites(Last(log, RING_CAP))) && m == MedianOf(Finites(buf[..filled]))
    {
      ghost var older, newer := Rotation();
      TurnedSame(older, newer);
      m := PickMedian(Finites(buf[..filled]));
    }

    method Mad() returns (d: real)
      requires Valid()
      ensures d == MadOf(Finites(Last(log, RING_CAP)))
    {
      var med := Median();
      ghost var older, newer := Rotation();
      TurnedSame(older, newer);
      d := PickMedian(Deviations(Finites(buf[..filled]), med));
    }

    method CheckAnomaly(v: Obs, k: real, floor: real) returns (anomalous: bool)
      requires Valid()
      ensures anomalous == IsAnomalous(|Last(log, RING_CAP)|, Finites(Last(log, RING_CAP)), v, k, floor)
    {
      var med := Median();
      var mad := Mad();
      anomalous := Exceeds(filled, med, mad, v, k, floor);
    }
  }

  /** Sort a copy and take the middle element, or the mean of the two in the middle. */
  method PickMedian(vals: seq<real>) returns (m: real)
    ensures m == MedianOf(vals)
  {
    if vals == [] {
      return 0.0;
    }
    SortMultiset(vals);
    var sorted := Sort(vals);
    var mid := |sorted| / 2;
    if |sorted| % 2 == 1 {
      m := sorted[mid];
    } else {
      m := (sorted[mid - 1] + sorted[mid]) / 2.0;
    }
  }

  lemma RingIndex(n: nat, i: nat)
    requires n >= RING_CAP && i < RING_CAP
    ensures (n - RING_CAP + i) % RING_CAP
         == if n % RING_CAP + i < RING_CAP then n % RING_CAP + i else n % RING_CAP + i - RING_CAP
  {
  }

  lemma ShortRing(ring: seq<Obs>, log: seq<Obs>)
    requires |log| < RING_CAP == |ring| && Mirrors(ring, log)
    ensures ring[..|log|] == log
  {
    forall j | 0 <= j < |log| ensures ring[j] == log[j] {
      assert j % RING_CAP == j;
      assert ring[j % RING_CAP] == log[j];
    }
  }

  /** Read from its oldest entry round to its newest, a full ring is the end of the log. */
  lemma RingIsTail(ring: seq<Obs>, log: seq<Obs>)
    requires |ring| == RING_CAP <= |log| && Mirrors(ring, log)
    ensures var p := |log| % RING_CAP; ring[p..] + ring[..p] == Last(log, RING_CAP)
  {
    var p := |log| % RING_CAP;
    var turned, tail := ring[p..] + ring[..p], Last(log, RING_CAP);
    forall i | 0 <= i < RING_CAP ensures turned[i] == tail[i] {
      RingIndex(|log|, i);
      assert tail[i] == log[|log| - RING_CAP + i];
    }
  }

  // ---- Breakdown point ----

  function CountIn(s: seq<real>, lo: real, hi: real): nat {
    if s == [] then 0 else (if lo <= s[0] <= hi then 1 else 0) + CountIn(s[1..], lo, hi)
  }

  lemma {:induction false} CountInInsert(x: real, s: seq<real>, lo: real, hi: real)
    ensures CountIn(Insert(x, s), lo, hi) == (if lo <= x <= hi then 1 else 0) + CountIn(s, lo, hi)
  {
    if s == [] {
      assert [x][1..] == [];
    } else if x <= s[0] {
      assert ([x] + s)[1..] == s;
    } else {
      CountInInsert(x, s[1..], lo, hi);
      assert ([s[0]] + Insert(x, s[1..]))[1..] == Insert(x, s[1..]);
    }
  }

  lemma {:induction false} CountInSort(s: seq<real>, lo: real, hi: real)
    ensures CountIn(Sort(s), lo, hi) == CountIn(s, lo, hi)
  {
    if s != [] {
      CountInSort(s[1..], lo, hi);
      CountInInsert(s[0], Sort(s[1..]), lo, hi);
    }
  }

  lemma {:induction false} CountInBound(s: seq<real>, lo: real, hi: real)
    ensures CountIn(s, lo, hi) <= |s|
  {
    if s != [] {
      CountInBound(s[1..], lo, hi);
    }
  }

  lemma {:induction false} CountInSplit(s: seq<real>, k: nat, lo: real, hi: real)
    requires k <= |s|
    ensures CountIn(s, lo, hi) == CountIn(s[..k], lo, hi) + CountIn(s[k..], lo, hi)
  {
    if k > 0 {
      CountInSplit(s[1..], k - 1, lo, hi);
      assert s[..k][1..] == s[1..][..k - 1] && s[1..][k - 1..] == s[k..];
    } else {
      assert s[k..] == s;
    }
  }

  lemma {:induction false} NoneIn(s: seq<real>, lo: real, hi: real)
    requires forall i | 0 <= i < |s| :: !(lo <= s[i] <= hi)
    ensures CountIn(s, lo, hi) == 0
  {
    if s != [] {
      NoneIn(s[1..], lo, hi);
    }
  }

  /** Position `k` of a sorted sequence is within bounds that more elements satisfy than lie on either side of it. */
  lemma RankInside(s: seq<real>, k: nat, lo: real, hi: real)
    requires Sorted(s) && k < |s|
    requires CountIn(s, lo, hi) > k && CountIn(s, lo, hi) > |s| - 1 - k
    ensures lo <= s[k] <= hi
  {
    if s[k] > hi {
      CountInSplit(s, k, lo, hi);
      CountInBound(s[..k], lo, hi);
      NoneIn(s[k..], lo, hi);
    }
    if s[k] < lo {
      CountInSplit(s, k + 1, lo, hi);
      CountInBound(s[k + 1..], lo, hi);
      NoneIn(s[..k + 1], lo, hi);
    }
  }

  /** The median lies wherever more than half of the values lie. */
  lemma MedianInMajority(vals: seq<real>, lo: real, hi: real)
    requires 2 * CountIn(vals, lo, hi) > |vals|
    ensures lo <= MedianOf(vals) <= hi
  {
    var s := Sort(vals);
    SortMultiset(vals);
    SortSorted(vals);
    CountInSort(vals, lo, hi);
    CountInBound(vals, lo, hi);
    var mid := |s| / 2;
    RankInside(s, mid, lo, hi);
    if |s| % 2 == 0 {
      RankInside(s, mid - 1, lo, hi);
    }
  }

  /** How many positions two sequences agree on. */
  function Unchanged(a: seq<real>, b: seq<real>): nat
    requires |a| == |b|
  {
    if a == [] then 0 else (if a[0] == b[0] then 1 else 0) + Unchanged(a[1..], b[1..])
  }

  /** Every value that was left alone is within the bounds. */
  predicate UnchangedIn(a: seq<real>, b: seq<real>, lo: real, hi: real)
    requires |a| == |b|
  {
    forall i | 0 <= i < |a| && a[i] == b[i] :: lo <= a[i] <= hi
  }

  lemma {:induction false} UnchangedCounted(a: seq<real>, b: seq<real>, lo: real, hi: real)
    requires |a| == |b| && UnchangedIn(a, b, lo, hi)
    ensures CountIn(b, lo, hi) >= Unchanged(a, b)
  {
    if a != [] {
      var ta, tb := a[1..], b[1..];
      forall i | 0 <= i < |ta| && ta[i] == tb[i] ensures lo <= ta[i] <= hi {
        assert a[i + 1] == b[i + 1];
      }
      UnchangedCounted(ta, tb, lo, hi);
    }
  }

  /** Replacing fewer than half of the values keeps the median between the extremes of the rest. */
  lemma MedianBreakdown(a: seq<real>, b: seq<real>, lo: real, hi: real)
    requires |a| == |b| && 2 * Unchanged(a, b) > |a| && UnchangedIn(a, b, lo, hi)
    ensures lo <= MedianOf(b) <= hi
  {
    UnchangedCounted(a, b, lo, hi);
    MedianInMajority(b, lo, hi);
  }

  lemma {:induction false} DeviationsCounted(b: seq<real>, m: real, lo: real, hi: real)
    requires lo <= m <= hi
    ensures CountIn(Deviations(b, m), 0.0, hi - lo) >= CountIn(b, lo, hi)
  {
    if b != [] {
      DeviationsCounted(b[1..], m, lo, hi);
      assert Deviations(b, m)[1..] == Deviations(b[1..], m);
    }
  }

  lemma SpreadInMajority(b: seq<real>, m: real, lo: real, hi: real)
    requires lo <= m <= hi && 2 * CountIn(b, lo, hi) > |b|
    ensures 0.0 <= MedianOf(Deviations(b, m)) <= hi - lo
  {
    DeviationsCounted(b, m, lo, hi);
    MedianInMajority(Deviations(b, m), 0.0, hi - lo);
  }

  /** Nor does it push the deviation past the range of the rest. */
  lemma MadBreakdown(a: seq<real>, b: seq<real>, lo: real, hi: real)
    requires |a| == |b| && 2 * Unchanged(a, b) > |a| && UnchangedIn(a, b, lo, hi)
    ensures 0.0 <= MadOf(b) <= hi - lo
  {
    MedianBreakdown(a, b, lo, hi);
    UnchangedCounted(a, b, lo, hi);
    SpreadInMajority(b, MedianOf(b), lo, hi);
  }

  lemma {:induction false} SortFixed(s: seq<real>)
    requires Ascending(s)
    ensures Sort(s) == s
  {
    SortMultiset(s);
    SortAscending(s);
    AscendingUnique(Sort(s), s);
  }

  function Steps(k: nat, x: real): (s: seq<real>)
    ensures |s| == 2 * k
  {
    seq(2 * k, i => if i < k then 0.0 else x)
  }

  lemma {:induction false} StepsAscending(s: seq<real>)
    requires Sorted(s)
    ensures Ascending(s)
  {
    if |s| > 1 {
      StepsAscending(s[1..]);
    }
  }

  /** Half is enough: for every even size, replacing half of the zeros moves the median to any height. */
  lemma HalfBreaks(k: nat, height: real)
    requires k >= 1 && height >= 0.0
    ensures MedianOf(Steps(k, 2.0 * height)) == height
  {
    var s := Steps(k, 2.0 * height);
    StepsAscending(s);
    SortFixed(s);
  }

  // ---- The trigger ----

  const TO_SIGMA: real := 1.4826

  function Scaled(k: real, spread: real): real {
    k * spread * TO_SIGMA
  }

  /** The trigger, given the deviation and its scaled form. */
  predicate Triggers(filled: nat, med: real, mad: real, scaled: real, v: Obs, floor: real) {
    if filled < 2 || v.NotFinite? || v.value <= floor then false
    else
      var threshold := if mad > 0.0 then med + scaled else med * 1.5;
      v.value > (if threshold > floor then threshold else floor)
  }

  predicate Exceeds(filled: nat, med: real, mad: real, v: Obs, k: real, floor: real) {
    Triggers(filled, med, mad, Scaled(k, mad), v, floor)
  }

  predicate IsAnomalous(filled: nat, vals: seq<real>, v: Obs, k: real, floor: real) {
    Exceeds(filled, MedianOf(vals), MadOf(vals), v, k, floor)
  }

  lemma ScaleUp(k: real, a: real, b: real)
    requires k >= 0.0 && a <= b
    ensures Scaled(k, a) <= Scaled(k, b)
  {
    var d := k * (b - a);
    assert d >= 0.0;
    assert k * b == k * a + d;
  }

  /** `v` is above the floor and above any threshold a baseline up to `hi` and `spread` can have. */
  predicate Clears(v: real, hi: real, spread: real, k: real, floor: real) {
    v > floor && v > hi + Scaled(k, spread) && v > hi * 1.5
  }

  /** The comparison itself, with the products named. */
  lemma ThresholdBelow(filled: nat, med: real, mad: real, scaled: real, hi: real, most: real, v: real, floor: real)
    requires med <= hi && scaled <= most && filled >= 2
    requires v > floor && v > hi + most && v > hi * 1.5
    ensures Triggers(filled, med, mad, scaled, Finite(v), floor)
  {
  }

  lemma ExceedsRange(filled: nat, med: real, mad: real, hi: real, spread: real, v: real, k: real, floor: real)
    requires med <= hi && 0.0 <= mad <= spread && filled >= 2 && k >= 0.0 && Clears(v, hi, spread, k, floor)
    ensures Exceeds(filled, med, mad, Finite(v), k, floor)
  {
    ScaleUp(k, mad, spread);
    ThresholdBelow(filled, med, mad, Scaled(k, mad), hi, Scaled(k, spread), v, floor);
  }

  /** A minority of poisoned observations cannot hide a spike that clears the honest range. */
  lemma SpikeStillDetected(
    a: seq<real>, b: seq<real>, lo: real, hi: real, spread: real, filled: nat, v: real, k: real, floor: real)
    requires |a| == |b| && 2 * Unchanged(a, b) > |a| && UnchangedIn(a, b, lo, hi) && spread == hi - lo
    requires filled >= 2 && k >= 0.0 && Clears(v, hi, spread, k, floor)
    ensures IsAnomalous(filled, b, Finite(v), k, floor)
  {
    MedianBreakdown(a, b, lo, hi);
    MadBreakdown(a, b, lo, hi);
    ExceedsRange(filled, MedianOf(b), MadOf(b), hi, spread, v, k, floor);
  }

  /** ... nor can it make the baseline flag a value that is no higher than every honest one. */
  lemma LowValueNotFlagged(
    a: seq<real>, b: seq<real>, lo: real, hi: real, filled: nat, v: Obs, k: real, floor: real)
    requires |a| == |b| && 2 * Unchanged(a, b) > |a| && UnchangedIn(a, b, lo, hi)
    requires 0.0 <= lo && k >= 0.0 && (v.Finite? ==> v.value <= lo)
    ensures !IsAnomalous(filled, b, v, k, floor)
  {
    MedianBreakdown(a, b, lo, hi);
    MadBreakdown(a, b, lo, hi);
    if v.Finite? {
      StaysBelow(filled, MedianOf(b), MadOf(b), v.value, k, floor);
    }
  }

  lemma StaysBelow(filled: nat, med: real, mad: real, v: real, k: real, floor: real)
    requires 0.0 <= med && v <= med && k >= 0.0 && mad >= 0.0
    ensures !Exceeds(filled, med, mad, Finite(v), k, floor)
  {
    ScaleUp(k, 0.0, mad);
    assert Scaled(k, 0.0) == 0.0;
    ThresholdAbove(filled, med, mad, Scaled(k, mad), v, floor);
  }

  lemma ThresholdAbove(filled: nat, med: real, mad: real, scaled: real, v: real, floor: real)
    requires 0.0 <= med && v <= med && scaled >= 0.0
    ensures !Triggers(filled, med, mad, scaled, Finite(v), floor)
  {
  }
}
