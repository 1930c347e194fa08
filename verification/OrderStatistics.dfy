/**
  The order statistics of the group commit benchmark: nearest-rank percentile,
  median, median absolute deviation and the saturating paired difference.
 */
module OrderStatistics {
  import opened Sorting

  const USIZE_MAX: nat := 0xFFFF_FFFF_FFFF_FFFF
  const I64_MAX: int := 0x7FFF_FFFF_FFFF_FFFF
  const I64_MIN: int := -0x8000_0000_0000_0000

  predicate AtMost(x: int, y: int) {
    x <= y
  }

  lemma AtMostIsOrder()
    ensures Total(AtMost) && Transitive(AtMost) && Antisymmetric(AtMost)
  {
  }

  // ----- counting -----

  ghost function Count(s: seq<int>, p: int -> bool): nat {
    if s == [] then 0 else Count(s[..|s| - 1], p) + (if p(s[|s| - 1]) then 1 else 0)
  }

  ghost function UpTo(v: int): int -> bool { x => x <= v }
  ghost function Below(v: int): int -> bool { x => x < v }
  ghost function Within(lo: int, hi: int): int -> bool { x => lo <= x <= hi }

  lemma {:induction false} CountAtLeast(s: seq<int>, p: int -> bool, k: nat)
    requires k <= |s| && forall i :: 0 <= i < k ==> p(s[i])
    ensures Count(s, p) >= k
  {
    if k > 0 {
      CountAtLeast(s[..|s| - 1], p, if k < |s| then k else k - 1);
    }
  }

  lemma {:induction false} CountAtMost(s: seq<int>, p: int -> bool, k: nat)
    requires k <= |s| && forall i :: k <= i < |s| ==> !p(s[i])
    ensures Count(s, p) <= k
  {
    if |s| > 0 {
      CountAtMost(s[..|s| - 1], p, if k < |s| then k else k - 1);
    }
  }

  lemma {:induction false} CountMonotone(s: seq<int>, p: int -> bool, q: int -> bool)
    requires forall x: int :: p(x) ==> q(x)
    ensures Count(s, p) <= Count(s, q)
  {
    if s != [] {
      CountMonotone(s[..|s| - 1], p, q);
    }
  }

  lemma {:induction false} CountConcat(a: seq<int>, b: seq<int>, p: int -> bool)
    ensures Count(a + b, p) == Count(a, p) + Count(b, p)
  {
    if b == [] {
      assert a + b == a;
    } else {
      assert (a + b)[..|a + b| - 1] == a + b[..|b| - 1];
      CountConcat(a, b[..|b| - 1], p);
    }
  }

  lemma CountWithout(s: seq<int>, k: nat, p: int -> bool)
    requires k < |s|
    ensures Count(s, p) == Count(Without(s, k), p) + (if p(s[k]) then 1 else 0)
  {
    CountConcat(s[..k], s[k + 1..], p);
    CountConcat(s[..k + 1], s[k + 1..], p);
    assert s == s[..k + 1] + s[k + 1..] && s[..k + 1][..k] == s[..k];
    assert Without(s, k) == s[..k] + s[k + 1..];
  }

  /** Counting forgets the order. */
  lemma {:induction false} CountIgnoresOrder(a: seq<int>, b: seq<int>, p: int -> bool)
    requires multiset(a) == multiset(b)
    ensures Count(a, p) == Count(b, p)
    decreases |a|
  {
    assert |a| == |multiset(a)| == |multiset(b)| == |b|;
    if a != [] {
      SameMembers(a, b, a[0]);
      var k :| 0 <= k < |b| && b[k] == a[0];
      CountWithout(a, 0, p);
      CountWithout(b, k, p);
      CountIgnoresOrder(Without(a, 0), Without(b, k), p);
    }
  }

  /** In an ordered sequence, position `k` has at least `k + 1` elements up to it and at most `k` below it. */
  lemma RankOfPosition(s: seq<int>, k: nat)
    requires Sorted(s, AtMost) && k < |s|
    ensures Count(s, UpTo(s[k])) >= k + 1 && Count(s, Below(s[k])) <= k
  {
    CountAtLeast(s, UpTo(s[k]), k + 1);
    CountAtMost(s, Below(s[k]), k);
  }

  /** `v` is the element of rank `r` (counting from one) of `s`. */
  ghost predicate HasRank(s: seq<int>, v: int, r: int) {
    v in s && Count(s, UpTo(v)) >= r && Count(s, Below(v)) < r
  }

  /** An element of rank `r` is unique, whatever the order of the samples. */
  lemma RankIsUnique(s: seq<int>, u: int, v: int, r: int)
    requires HasRank(s, u, r) && HasRank(s, v, r)
    ensures u == v
  {
    if u < v {
      CountMonotone(s, UpTo(u), Below(v));
    } else if v < u {
      CountMonotone(s, UpTo(v), Below(u));
    }
  }

  // ----- percentile -----

  function SaturatingMul(a: nat, b: nat): nat {
    if a * b > USIZE_MAX then USIZE_MAX else a * b
  }

  function DivCeil(a: nat, b: nat): nat
    requires b > 0
  {
    (a + b - 1) / b
  }

  function PercentileIndex(n: nat, percent: nat): nat {
    var rank := DivCeil(SaturatingMul(n, percent), 100);
    var index := if rank == 0 then 0 else rank - 1;
    var last := if n == 0 then 0 else n - 1;
    if index < last then index else last
  }

  /** `percentile` on an already sorted slice; an empty slice gives the default. */
  function Percentile(values: seq<int>, percent: nat): int {
    var index := PercentileIndex(|values|, percent);
    if index < |values| then values[index] else 0
  }

  /** The nearest rank: `ceil(n * percent / 100)`, at least one and at most `n`. */
  function NearestRank(n: nat, percent: nat): nat {
    var rank := DivCeil(n * percent, 100);
    if rank < 1 then 1 else if rank > n then n else rank
  }

  /** The nearest rank is the least position at or above `percent` per cent of `n`, or the last one. */
  lemma NearestRankIsLeast(n: nat, percent: nat, r: nat)
    requires n > 0
    ensures r == NearestRank(n, percent) <==>
            && 1 <= r <= n
            && (100 * r >= n * percent || r == n)
            && (r == 1 || 100 * (r - 1) < n * percent)
  {
    var product := n * percent;
    assert DivCeil(product, 100) * 100 >= product > (DivCeil(product, 100) - 1) * 100;
  }

  /** Without samples every statistic is the default. */
  lemma StatisticsOfNothing(percent: nat)
    ensures Percentile([], percent) == Median([]) == Mad([]) == 0
  {
  }

  /** The saturated product still yields the right position. */
  predicate Representable(n: nat, percent: nat) {
    var top := DivCeil(USIZE_MAX, 100);
    n * percent <= 100 * top || n <= top
  }

  /** The saturating arithmetic picks the nearest rank exactly for representable products. */
  lemma PercentileIndexIsExactIff(n: nat, percent: nat)
    requires n > 0
    ensures PercentileIndex(n, percent) + 1 == NearestRank(n, percent) <==> Representable(n, percent)
    ensures PercentileIndex(n, percent) < n
  {
    var product := n * percent;
    assert DivCeil(product, 100) * 100 >= product;
  }

  /** On every non-empty sorted sample `percentile` is the nearest-rank element, the only value of that rank. */
  lemma PercentileIsNearestRank(values: seq<int>, percent: nat)
    requires Sorted(values, AtMost) && values != [] && Representable(|values|, percent)
    ensures HasRank(values, Percentile(values, percent), NearestRank(|values|, percent))
    ensures forall v :: HasRank(values, v, NearestRank(|values|, percent)) ==> v == Percentile(values, percent)
  {
    var k := PercentileIndex(|values|, percent);
    var r := NearestRank(|values|, percent);
    PercentileIndexIsExactIff(|values|, percent);
    RankOfPosition(values, k);
    forall v | HasRank(values, v, r) ensures v == values[k] {
      RankIsUnique(values, v, values[k], r);
    }
  }

  // ----- median -----

  function Median(values: seq<int>): int {
    if values == [] then 0 else Sort(values, AtMost)[|values| / 2]
  }

  lemma MedianIgnoresOrder(a: seq<int>, b: seq<int>)
    requires multiset(a) == multiset(b)
    ensures Median(a) == Median(b)
  {
    AtMostIsOrder();
    SortIgnoresOrder(a, b, AtMost);
  }

  lemma MedianHasMiddleRank(values: seq<int>)
    requires values != []
    ensures HasRank(values, Median(values), |values| / 2 + 1)
  {
    AtMostIsOrder();
    var sorted := Sort(values, AtMost);
    SortIsSorted(values, AtMost);
    var m := Median(values);
    RankOfPosition(sorted, |values| / 2);
    SameMembers(sorted, values, m);
    CountIgnoresOrder(sorted, values, UpTo(m));
    CountIgnoresOrder(sorted, values, Below(m));
  }

  /** The median is the least bound that more than half of the samples meet. */
  lemma MedianIsLeastMajorityBound(values: seq<int>, v: int)
    requires values != []
    ensures Count(values, UpTo(v)) > |values| / 2 <==> v >= Median(values)
  {
    MedianHasMiddleRank(values);
    RankBounds(values, Median(values), v, |values| / 2 + 1);
  }

  lemma RankBounds(s: seq<int>, m: int, v: int, r: int)
    requires HasRank(s, m, r)
    ensures Count(s, UpTo(v)) >= r <==> v >= m
  {
    if v >= m {
      CountMonotone(s, UpTo(m), UpTo(v));
    } else {
      CountMonotone(s, UpTo(v), Below(m));
    }
  }

  lemma {:induction false} CountSplit(s: seq<int>, lo: int, hi: int)
    requires lo <= hi
    ensures Count(s, UpTo(hi)) == Count(s, Below(lo)) + Count(s, Within(lo, hi))
  {
    if s != [] {
      CountSplit(s[..|s| - 1], lo, hi);
    }
  }

  lemma {:induction false} CountBounded(s: seq<int>, p: int -> bool)
    ensures Count(s, p) <= |s|
  {
    if s != [] {
      CountBounded(s[..|s| - 1], p);
    }
  }

  /** Any interval that holds more than half of the samples holds the median. */
  lemma MajorityHoldsMedian(values: seq<int>, lo: int, hi: int)
    requires values != [] && lo <= hi && Count(values, Within(lo, hi)) > |values| / 2
    ensures lo <= Median(values) <= hi
  {
    var m := Median(values);
    MedianHasMiddleRank(values);
    CountSplit(values, lo, hi);
    CountBounded(values, UpTo(hi));
    if m < lo {
      CountMonotone(values, UpTo(m), Below(lo));
    } else if m > hi {
      CountMonotone(values, UpTo(hi), Below(m));
    }
  }

  // ----- median absolute deviation -----

  function AbsDiff(a: int, b: int): nat {
    if a < b then b - a else a - b
  }

  function Deviations(values: seq<int>, center: int): (d: seq<int>)
    ensures |d| == |values|
    ensures forall i :: 0 <= i < |d| ==> d[i] == AbsDiff(values[i], center)
  {
    seq(|values|, i requires 0 <= i < |values| => AbsDiff(values[i], center))
  }

  function MadAround(values: seq<int>, center: int): int {
    Median(Deviations(values, center))
  }

  function Mad(values: seq<int>): int {
    MadAround(values, Median(values))
  }

  lemma {:induction false} CountDeviations(values: seq<int>, center: int, radius: int)
    ensures Count(Deviations(values, center), UpTo(radius)) == Count(values, Within(center - radius, center + radius))
  {
    if values != [] {
      var n := |values| - 1;
      assert Deviations(values, center)[..n] == Deviations(values[..n], center);
      CountDeviations(values[..n], center, radius);
    }
  }

  lemma RadiusHoldsMajority(values: seq<int>, m: int, radius: int)
    requires values != []
    ensures Count(values, Within(m - radius, m + radius)) > |values| / 2 <==> radius >= MadAround(values, m)
  {
    CountDeviations(values, m, radius);
    MedianIsLeastMajorityBound(Deviations(values, m), radius);
  }

  /** MAD is the smallest radius around the median that holds more than half of the samples. */
  lemma MadHoldsMajority(values: seq<int>, radius: int)
    requires values != []
    ensures var m := Median(values);
            Count(values, Within(m - radius, m + radius)) > |values| / 2 <==> radius >= Mad(values)
  {
    RadiusHoldsMajority(values, Median(values), radius);
  }

  lemma MadAroundBelow(a: seq<int>, b: seq<int>, m: int)
    requires multiset(a) == multiset(b) && |a| == |b| > 0
    ensures MadAround(b, m) <= MadAround(a, m)
  {
    var radius := MadAround(a, m);
    RadiusHoldsMajority(a, m, radius);
    RadiusHoldsMajority(b, m, radius);
    CountIgnoresOrder(a, b, Within(m - radius, m + radius));
  }

  lemma MadIgnoresOrder(a: seq<int>, b: seq<int>)
    requires multiset(a) == multiset(b)
    ensures Mad(a) == Mad(b)
  {
    assert |a| == |multiset(a)| == |multiset(b)| == |b|;
    if a != [] {
      MedianIgnoresOrder(a, b);
      MadAroundBelow(a, b, Median(a));
      MadAroundBelow(b, a, Median(a));
    }
  }

  // ----- shifting -----

  function Shift(values: seq<int>, c: int): (r: seq<int>)
    ensures |r| == |values|
    ensures forall i :: 0 <= i < |r| ==> r[i] == values[i] + c
  {
    seq(|values|, i requires 0 <= i < |values| => values[i] + c)
  }

  lemma {:induction false} CountShift(values: seq<int>, c: int, v: int)
    ensures Count(Shift(values, c), UpTo(v + c)) == Count(values, UpTo(v))
  {
    if values != [] {
      var n := |values| - 1;
      assert Shift(values, c)[..n] == Shift(values[..n], c);
      CountShift(values[..n], c, v);
    }
  }

  /** `m` is the least bound that more than half of the samples meet. */
  ghost predicate MajorityBound(values: seq<int>, m: int) {
    forall v :: Count(values, UpTo(v)) > |values| / 2 <==> v >= m
  }

  lemma MedianIsMajorityBound(values: seq<int>)
    requires values != []
    ensures MajorityBound(values, Median(values))
  {
    forall v ensures Count(values, UpTo(v)) > |values| / 2 <==> v >= Median(values) {
      MedianIsLeastMajorityBound(values, v);
    }
  }

  lemma MajorityBoundMoves(values: seq<int>, c: int, moved: seq<int>, m: int, m': int)
    requires moved == Shift(values, c) && MajorityBound(values, m) && MajorityBound(moved, m')
    ensures m' == m + c
  {
    CountShift(values, c, m);
    CountShift(values, c, m' - c);
  }

  /** Adding a constant to every sample moves the median by it. */
  lemma ShiftMovesMedian(values: seq<int>, c: int, moved: seq<int>)
    requires values != [] && moved == Shift(values, c)
    ensures Median(moved) == Median(values) + c
  {
    MedianIsMajorityBound(values);
    MedianIsMajorityBound(moved);
    MajorityBoundMoves(values, c, moved, Median(values), Median(moved));
  }

  lemma ShiftKeepsDeviations(values: seq<int>, c: int, moved: seq<int>, m: int, m': int)
    requires moved == Shift(values, c) && m' == m + c
    ensures Deviations(moved, m') == Deviations(values, m)
  {
  }

  lemma MadOfDeviations(values: seq<int>, m: int, deviations: seq<int>)
    requires Median(values) == m && Deviations(values, m) == deviations
    ensures Mad(values) == Median(deviations)
  {
  }

  /** Adding a constant to every sample leaves MAD alone. */
  lemma ShiftKeepsSpread(values: seq<int>, c: int, moved: seq<int>)
    requires values != [] && moved == Shift(values, c)
    ensures Mad(moved) == Mad(values)
  {
    var m, m' := Median(values), Median(moved);
    ShiftMovesMedian(values, c, moved);
    ShiftKeepsDeviations(values, c, moved, m, m');
    var deviations := Deviations(values, m);
    MadOfDeviations(values, m, deviations);
    MadOfDeviations(moved, m', deviations);
  }

  // ----- paired differences -----

  function SignedDelta(candidate: nat, baseline: nat): int {
    var delta := candidate - baseline;
    if delta < I64_MIN then I64_MIN else if delta > I64_MAX then I64_MAX else delta
  }

  datatype Pair = Pair(baseline: nat, candidate: nat)

  function Regressions(pairs: seq<Pair>): (r: seq<int>)
    ensures |r| == |pairs|
    ensures forall i :: 0 <= i < |r| ==> r[i] == SignedDelta(pairs[i].candidate, pairs[i].baseline)
  {
    seq(|pairs|, i requires 0 <= i < |pairs| => SignedDelta(pairs[i].candidate, pairs[i].baseline))
  }

  function PairedRegression(pairs: seq<Pair>): int {
    Median(Regressions(pairs))
  }

  /** How many rounds regressed by at least `budget`. */
  ghost function RegressedRounds(pairs: seq<Pair>, budget: int): nat {
    if pairs == [] then 0
    else
      var last := pairs[|pairs| - 1];
      RegressedRounds(pairs[..|pairs| - 1], budget) + (if last.candidate - last.baseline >= budget then 1 else 0)
  }

  lemma {:induction false} RoundsAreCounted(pairs: seq<Pair>, budget: int)
    requires I64_MIN < budget <= I64_MAX
    ensures Count(Regressions(pairs), Below(budget)) == |pairs| - RegressedRounds(pairs, budget)
  {
    if pairs != [] {
      var n := |pairs| - 1;
      assert Regressions(pairs)[..n] == Regressions(pairs[..n]);
      RoundsAreCounted(pairs[..n], budget);
    }
  }

  /**
    The saturating difference never changes a verdict: for every budget in the
    signed range, the paired regression reaches it exactly when fewer than half
    of the rounds, rounded down, stay below it in exact arithmetic.
   */
  lemma PairedVerdictIsExact(pairs: seq<Pair>, budget: int)
    requires pairs != [] && I64_MIN < budget <= I64_MAX
    ensures PairedRegression(pairs) >= budget <==> |pairs| - RegressedRounds(pairs, budget) <= |pairs| / 2
  {
    var r := Regressions(pairs);
    MedianHasMiddleRank(r);
    RoundsAreCounted(pairs, budget);
    if Median(r) >= budget {
      CountMonotone(r, Below(budget), Below(Median(r)));
    } else {
      CountMonotone(r, UpTo(Median(r)), Below(budget));
    }
  }
}
