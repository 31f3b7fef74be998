/**
 What the baseline's statistics are, without sorting: the median is the centre of the
 points that have half of the values on either side, the deviation is the same for the
 distances from the median, and the trigger is worked out on whole families of
 baselines.
 */
module BaselineMeaning {
  import opened Baseline

  // ---- The median as a centre ----

  function Count(s: seq<real>, p: real -> bool): nat {
    if s == [] then 0 else (if p(s[0]) then 1 else 0) + Count(s[1..], p)
  }

  lemma {:induction false} CountInsert(x: real, s: seq<real>, p: real -> bool)
    ensures Count(Insert(x, s), p) == (if p(x) then 1 else 0) + Count(s, p)
  {
    if s == [] {
      assert [x][1..] == [];
    } else if x <= s[0] {
      assert ([x] + s)[1..] == s;
    } else {
      CountInsert(x, s[1..], p);
      assert ([s[0]] + Insert(x, s[1..]))[1..] == Insert(x, s[1..]);
    }
  }

  lemma {:induction false} CountSort(s: seq<real>, p: real -> bool)
    ensures Count(Sort(s), p) == Count(s, p)
  {
    if s != [] {
      CountSort(s[1..], p);
      CountInsert(s[0], Sort(s[1..]), p);
    }
  }

  lemma {:induction false} CountAll(s: seq<real>, p: real -> bool)
    ensures Count(s, p) <= |s|
    ensures (forall i | 0 <= i < |s| :: p(s[i])) ==> Count(s, p) == |s|
    ensures (forall i | 0 <= i < |s| :: !p(s[i])) ==> Count(s, p) == 0
  {
    if s != [] {
      CountAll(s[1..], p);
    }
  }

  lemma {:induction false} CountParts(s: seq<real>, k: nat, p: real -> bool)
    requires k <= |s|
    ensures Count(s, p) == Count(s[..k], p) + Count(s[k..], p)
  {
    if k > 0 {
      CountParts(s[1..], k - 1, p);
      assert s[..k][1..] == s[1..][..k - 1] && s[1..][k - 1..] == s[k..];
    } else {
      assert s[k..] == s;
    }
  }

  function AtMost(x: real): real -> bool {
    v => v <= x
  }

  function AtLeast(x: real): real -> bool {
    v => v >= x
  }

  /** At least half of the values are on either side of x, or at it. */
  predicate Halves(vals: seq<real>, x: real) {
    2 * Count(vals, AtMost(x)) >= |vals| && 2 * Count(vals, AtLeast(x)) >= |vals|
  }

  /** In a sorted sequence more than k values are at most x exactly if the one at k is. */
  lemma RankBelow(s: seq<real>, k: nat, x: real)
    requires Sorted(s) && k < |s|
    ensures Count(s, AtMost(x)) > k <==> s[k] <= x
  {
    if s[k] <= x {
      CountParts(s, k + 1, AtMost(x));
      CountAll(s[..k + 1], AtMost(x));
    } else {
      CountParts(s, k, AtMost(x));
      CountAll(s[..k], AtMost(x));
      CountAll(s[k..], AtMost(x));
    }
  }

  /** ... and at least |s| - k values are at least x exactly if the one at k is. */
  lemma RankAbove(s: seq<real>, k: nat, x: real)
    requires Sorted(s) && k < |s|
    ensures Count(s, AtLeast(x)) >= |s| - k <==> s[k] >= x
  {
    if s[k] >= x {
      CountParts(s, k, AtLeast(x));
      CountAll(s[k..], AtLeast(x));
    } else {
      CountParts(s, k + 1, AtLeast(x));
      CountAll(s[..k + 1], AtLeast(x));
      CountAll(s[k + 1..], AtLeast(x));
    }
  }

  lemma HalvesIff(vals: seq<real>, x: real)
    requires vals != []
    ensures |Sort(vals)| == |vals|
    ensures Halves(vals, x) <==> Sort(vals)[(|vals| - 1) / 2] <= x <= Sort(vals)[|vals| / 2]
  {
    var s := Sort(vals);
    SortMultiset(vals);
    SortSorted(vals);
    CountSort(vals, AtMost(x));
    CountSort(vals, AtLeast(x));
    RankBelow(s, (|s| - 1) / 2, x);
    RankAbove(s, |s| / 2, x);
  }

  lemma MiddleIsMean(s: seq<real>)
    requires s != []
    ensures Middle(s) == (s[(|s| - 1) / 2] + s[|s| / 2]) / 2.0
  {
    var mid := |s| / 2;
    assert |s| % 2 == 1 ==> (|s| - 1) / 2 == mid;
    assert |s| % 2 == 0 ==> (|s| - 1) / 2 == mid - 1;
  }

  /** The median is the centre of the points that halve the values. */
  lemma MedianIsCentre(vals: seq<real>) returns (lo: real, hi: real)
    requires vals != []
    ensures forall x :: Halves(vals, x) <==> lo <= x <= hi
    ensures MedianOf(vals) == (lo + hi) / 2.0
  {
    SortMultiset(vals);
    MiddleIsMean(Sort(vals));
    lo, hi := Sort(vals)[(|vals| - 1) / 2], Sort(vals)[|vals| / 2];
    forall x ensures Halves(vals, x) <==> lo <= x <= hi {
      HalvesIff(vals, x);
    }
  }

  /** At least half of the values are within x of m, and at least half are no nearer. */
  predicate HalvesFrom(vals: seq<real>, m: real, x: real) {
    && 2 * Count(vals, Within(m, x)) >= |vals|
    && 2 * Count(vals, Beyond(m, x)) >= |vals|
  }

  function Within(m: real, x: real): real -> bool {
    v => m - x <= v <= m + x
  }

  function Beyond(m: real, x: real): real -> bool {
    v => v >= m + x || v <= m - x
  }

  lemma {:induction false} CountDeviations(vals: seq<real>, m: real, x: real)
    ensures Count(Deviations(vals, m), AtMost(x)) == Count(vals, Within(m, x))
    ensures Count(Deviations(vals, m), AtLeast(x)) == Count(vals, Beyond(m, x))
  {
    if vals != [] {
      CountDeviations(vals[1..], m, x);
      assert Deviations(vals, m)[1..] == Deviations(vals[1..], m);
    }
  }

  /** The deviation is the centre of the distances from the median that halve the values. */
  lemma MadIsCentre(vals: seq<real>) returns (lo: real, hi: real)
    requires vals != []
    ensures forall x :: HalvesFrom(vals, MedianOf(vals), x) <==> lo <= x <= hi
    ensures MadOf(vals) == (lo + hi) / 2.0
  {
    var m := MedianOf(vals);
    lo, hi := MedianIsCentre(Deviations(vals, m));
    forall x ensures HalvesFrom(vals, m, x) <==> lo <= x <= hi {
      CountDeviations(vals, m, x);
      assert Halves(Deviations(vals, m), x) <==> lo <= x <= hi;
    }
  }

  // ---- Observations that are not numbers ----

  /** An observation that is not a finite number leaves the statistics as they are, wherever it is. */
  lemma NotFiniteIgnored(a: seq<Obs>, b: seq<Obs>)
    ensures Finites(a + [NotFinite] + b) == Finites(a + b)
  {
    FinitesAppend(a + [NotFinite], b);
    FinitesAppend(a, [NotFinite]);
    FinitesAppend(a, b);
    assert Finites([NotFinite]) == [] + Finites([NotFinite][1..]);
    assert Finites(a) + [] == Finites(a);
  }

  function AsFinite(vals: seq<real>): (obs: seq<Obs>)
    ensures |obs| == |vals|
  {
    seq(|vals|, i requires 0 <= i < |vals| => Finite(vals[i]))
  }

  /** Finite observations are all kept, in order. */
  lemma {:induction false} FiniteKept(vals: seq<real>)
    ensures Finites(AsFinite(vals)) == vals
  {
    if vals != [] {
      FiniteKept(vals[1..]);
      assert AsFinite(vals)[1..] == AsFinite(vals[1..]);
    }
  }

  // ---- The trigger on families of baselines ----

  /**
   When more than half of the values are equal, a value is flagged exactly if it is
   above the floor and above one and a half times that value.
   */
  lemma FlatBaselineFlags(filled: nat, vals: seq<real>, c: real, v: Obs, k: real, floor: real)
    requires 2 * CountIn(vals, c, c) > |vals|
    ensures IsAnomalous(filled, vals, v, k, floor) <==>
            filled >= 2 && v.Finite? && v.value > floor && v.value > 1.5 * c
  {
    MedianInMajority(vals, c, c);
    SpreadInMajority(vals, c, c, c);
  }

  lemma {:induction false} ConstantCount(n: nat, c: real)
    ensures CountIn(seq(n, _ => c), c, c) == n
  {
    if n > 0 {
      ConstantCount(n - 1, c);
      assert seq(n, _ => c)[1..] == seq(n - 1, _ => c);
    }
  }

  /** A constant baseline in particular. */
  lemma ConstantBaselineFlags(n: nat, c: real, v: Obs, k: real, floor: real)
    requires n >= 1
    ensures IsAnomalous(n, seq(n, _ => c), v, k, floor) <==>
            n >= 2 && v.Finite? && v.value > floor && v.value > 1.5 * c
  {
    ConstantCount(n, c);
    FlatBaselineFlags(n, seq(n, _ => c), c, v, k, floor);
  }

  lemma {:induction false} StepsDeviate(k: nat, h: real)
    requires h >= 0.0
    ensures Deviations(Steps(k, 2.0 * h), h) == seq(2 * k, _ => h)
  {
  }

  lemma StepsMad(n: nat, h: real)
    requires n >= 1 && h >= 0.0
    ensures MedianOf(Steps(n, 2.0 * h)) == h && MadOf(Steps(n, 2.0 * h)) == h
  {
    HalfBreaks(n, h);
    StepsDeviate(n, h);
    ConstantCount(2 * n, h);
    MedianInMajority(seq(2 * n, _ => h), h, h);
  }

  /**
   A baseline that spreads evenly about h, half of it at 0 and half at 2h: a value is
   flagged exactly if it is above the floor and more than k scaled deviations above h.
   */
  lemma SpreadBaselineFlags(n: nat, h: real, v: Obs, k: real, floor: real)
    requires n >= 1 && h > 0.0
    ensures IsAnomalous(2 * n, Steps(n, 2.0 * h), v, k, floor) <==>
            v.Finite? && v.value > floor && v.value > h + k * h * 1.4826
  {
    StepsMad(n, h);
  }
}
