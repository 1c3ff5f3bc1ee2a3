/** Largest-remainder apportionment (src/api/reconciliation.rs). */
module Allocation {
  import opened Prelude
  import opened Sorting

  /** Sum of the first `k` entries. */
  function PrefixSum(a: seq<int>, k: nat): int
    requires k <= |a|
  {
    if k == 0 then 0 else PrefixSum(a, k - 1) + a[k - 1]
  }

  function Sum(a: seq<int>): int {
    PrefixSum(a, |a|)
  }

  // ----- quotas -----

  /** Weights with a positive sum, to be scaled to a positive target. */
  ghost predicate Problem(w: seq<int>, t: int) {
    (forall i :: 0 <= i < |w| ==> 0 <= w[i]) && Sum(w) > 0 && t > 0
  }

  function Base(w: seq<int>, t: int, i: nat): int
    requires i < |w| && Sum(w) > 0
  {
    w[i] * t / Sum(w)
  }

  function Remainder(w: seq<int>, t: int, i: nat): int
    requires i < |w| && Sum(w) > 0
  {
    w[i] * t % Sum(w)
  }

  /** Larger remainders come first, ties go to the earlier entry. */
  predicate Precedes(w: seq<int>, t: int, i: nat, j: nat)
    requires i < |w| && j < |w| && Sum(w) > 0
  {
    Remainder(w, t, i) > Remainder(w, t, j) || (Remainder(w, t, i) == Remainder(w, t, j) && i < j)
  }

  /** Entry `i` got one of the units left over after rounding down. */
  predicate Up(w: seq<int>, t: int, a: seq<int>, i: nat)
    requires i < |w| && |a| == |w| && Sum(w) > 0
  {
    a[i] == Base(w, t, i) + 1
  }

  /** Everything is rounded down or up by one, the target is met, and the first remainders go up. */
  ghost predicate Apportioned(w: seq<int>, t: int, a: seq<int>)
    requires Sum(w) > 0
  {
    && |a| == |w|
    && (forall i :: 0 <= i < |w| ==> a[i] == Base(w, t, i) || Up(w, t, a, i))
    && Sum(a) == t
    && (forall i, j :: 0 <= i < |w| && 0 <= j < |w| && Up(w, t, a, i) && !Up(w, t, a, j) ==> Precedes(w, t, i, j))
  }

  lemma ScaledStrictly(x: int, y: int, c: int)
    requires x < y && c > 0
    ensures x * c + c <= y * c
  {
    assert (y - x) * c == y * c - x * c;
    assert (y - x - 1) * c >= 0;
    assert (y - x - 1) * c == (y - x) * c - c;
  }

  lemma QuotaSplits(x: int, d: int)
    requires d > 0
    ensures x == (x / d) * d + x % d && 0 <= x % d < d
  {
  }

  // ----- deviations from the exact quota, scaled by the sum of the weights -----

  function Deviation(w: seq<int>, t: int, b: seq<int>, i: nat): int
    requires i < |w| && |b| == |w|
  {
    b[i] * Sum(w) - w[i] * t
  }

  function TotalDeviation(w: seq<int>, t: int, b: seq<int>, k: nat): int
    requires k <= |w| && |b| == |w|
  {
    if k == 0 then 0 else TotalDeviation(w, t, b, k - 1) + Deviation(w, t, b, k - 1)
  }

  lemma {:induction false} DeviationsAddUp(w: seq<int>, t: int, b: seq<int>, k: nat)
    requires k <= |w| && |b| == |w|
    ensures TotalDeviation(w, t, b, k) == PrefixSum(b, k) * Sum(w) - PrefixSum(w, k) * t
  {
    if k > 0 {
      DeviationsAddUp(w, t, b, k - 1);
      var d := Sum(w);
      assert (PrefixSum(b, k - 1) + b[k - 1]) * d == PrefixSum(b, k - 1) * d + b[k - 1] * d;
      assert (PrefixSum(w, k - 1) + w[k - 1]) * t == PrefixSum(w, k - 1) * t + w[k - 1] * t;
    }
  }

  /** Deviations of an exact distribution cancel. */
  lemma DeviationsCancel(w: seq<int>, t: int, b: seq<int>)
    requires |b| == |w| && Sum(b) == t
    ensures TotalDeviation(w, t, b, |w|) == 0
  {
    DeviationsAddUp(w, t, b, |w|);
    assert PrefixSum(b, |w|) == t && PrefixSum(w, |w|) == Sum(w);
    assert t * Sum(w) == Sum(w) * t;
  }

  lemma {:induction false} OnePositiveDeviation(w: seq<int>, t: int, b: seq<int>, k: nat, i: nat)
    requires k <= |w| && |b| == |w|
    requires forall j :: 0 <= j < k ==> Deviation(w, t, b, j) >= 0
    ensures TotalDeviation(w, t, b, k) >= 0
    ensures i < k && Deviation(w, t, b, i) > 0 ==> TotalDeviation(w, t, b, k) > 0
  {
    if k > 0 {
      OnePositiveDeviation(w, t, b, k - 1, i);
    }
  }

  lemma DeviationOfShare(w: seq<int>, t: int, a: seq<int>, i: nat)
    requires Problem(w, t) && Apportioned(w, t, a) && i < |w|
    ensures Deviation(w, t, a, i) == if Up(w, t, a, i) then Sum(w) - Remainder(w, t, i) else -Remainder(w, t, i)
    ensures 0 <= Remainder(w, t, i) < Sum(w)
  {
    var d, q := Sum(w), Base(w, t, i);
    QuotaSplits(w[i] * t, d);
    assert (q + 1) * d == q * d + d;
  }

  /** Only entries with a fractional quota are rounded up. */
  lemma UpHasRemainder(w: seq<int>, t: int, a: seq<int>, i: nat)
    requires Problem(w, t) && Apportioned(w, t, a) && i < |w| && Up(w, t, a, i)
    ensures Remainder(w, t, i) > 0
  {
    DeviationOfShare(w, t, a, i);
    if Remainder(w, t, i) == 0 {
      forall j | 0 <= j < |w|
        ensures Deviation(w, t, a, j) >= 0
      {
        DeviationOfShare(w, t, a, j);
        assert !Up(w, t, a, j) ==> Precedes(w, t, i, j);
      }
      OnePositiveDeviation(w, t, a, |w|, i);
      DeviationsCancel(w, t, a);
    }
  }

  // ----- what an apportionment guarantees -----

  /** Each share is the floor or the ceiling of its exact quota w * t / sum. */
  lemma ShareIsFloorOrCeiling(w: seq<int>, t: int, a: seq<int>, i: nat)
    requires Problem(w, t) && Apportioned(w, t, a) && i < |w|
    ensures (a[i] - 1) * Sum(w) < w[i] * t < (a[i] + 1) * Sum(w)
    ensures a[i] >= 0
  {
    var d, q := Sum(w), Base(w, t, i);
    QuotaSplits(w[i] * t, d);
    assert w[i] * t >= 0;
    assert (q + 1) * d == q * d + d && (q + 2) * d == q * d + 2 * d && (q - 1) * d == q * d - d;
    if Up(w, t, a, i) {
      UpHasRemainder(w, t, a, i);
    }
    if q < 0 {
      ScaledStrictly(q, 0, d);
    }
  }

  lemma ZeroWeightGetsZero(w: seq<int>, t: int, a: seq<int>, i: nat)
    requires Problem(w, t) && Apportioned(w, t, a) && i < |w| && w[i] == 0
    ensures a[i] == 0
  {
    assert w[i] * t == 0;
    if Up(w, t, a, i) {
      UpHasRemainder(w, t, a, i);
    }
  }

  /** A larger weight never gets less. */
  lemma SharesAreMonotone(w: seq<int>, t: int, a: seq<int>, i: nat, j: nat)
    requires Problem(w, t) && Apportioned(w, t, a) && i < |w| && j < |w| && w[i] > w[j]
    ensures a[i] >= a[j]
  {
    var d, p, q := Sum(w), Base(w, t, i), Base(w, t, j);
    QuotaSplits(w[i] * t, d);
    QuotaSplits(w[j] * t, d);
    ScaledStrictly(w[j], w[i], t);
    if p < q {
      ScaledStrictly(p, q, d);
    }
    assert Up(w, t, a, j) && !Up(w, t, a, i) ==> Precedes(w, t, j, i);
  }

  /** Scaling down never gives an entry more than it had. */
  lemma ShareWithinWeight(w: seq<int>, t: int, a: seq<int>, i: nat)
    requires Problem(w, t) && Apportioned(w, t, a) && i < |w| && t <= Sum(w)
    ensures a[i] <= w[i]
  {
    ShareIsFloorOrCeiling(w, t, a, i);
    var x, d := w[i], Sum(w);
    assert x * t <= x * d by {
      if t < d && x > 0 { ScaledStrictly(t, d, x); }
    }
    if x < a[i] - 1 {
      ScaledStrictly(x, a[i] - 1, d);
    }
  }

  /** There is only one apportionment. */
  lemma ApportionmentIsUnique(w: seq<int>, t: int, a: seq<int>, b: seq<int>)
    requires Problem(w, t) && Apportioned(w, t, a) && Apportioned(w, t, b)
    ensures a == b
  {
    if i :| 0 <= i < |w| && a[i] < b[i] {
      EveryShareAtMost(w, t, a, b, i);
      SmallerSum(a, b, |w|, i);
    } else if i :| 0 <= i < |w| && b[i] < a[i] {
      EveryShareAtMost(w, t, b, a, i);
      SmallerSum(b, a, |w|, i);
    }
  }

  lemma EveryShareAtMost(w: seq<int>, t: int, a: seq<int>, b: seq<int>, i: nat)
    requires Problem(w, t) && Apportioned(w, t, a) && Apportioned(w, t, b) && i < |w| && a[i] < b[i]
    ensures forall j :: 0 <= j < |w| ==> a[j] <= b[j]
  {
    forall j | 0 <= j < |w|
      ensures a[j] <= b[j]
    {
      assert !Up(w, t, a, i) && Up(w, t, b, i);
      assert Up(w, t, a, j) ==> Precedes(w, t, j, i);
      assert !Up(w, t, b, j) ==> Precedes(w, t, i, j);
    }
  }

  lemma {:induction false} SmallerSum(a: seq<int>, b: seq<int>, k: nat, i: nat)
    requires k <= |a| && |a| == |b| && forall j :: 0 <= j < k ==> a[j] <= b[j]
    ensures PrefixSum(a, k) <= PrefixSum(b, k)
    ensures i < k && a[i] < b[i] ==> PrefixSum(a, k) < PrefixSum(b, k)
  {
    if k > 0 {
      SmallerSum(a, b, k - 1, i);
    }
  }

  // ----- optimality -----

  function TotalError(w: seq<int>, t: int, b: seq<int>, k: nat): nat
    requires k <= |w| && |b| == |w|
  {
    if k == 0 then 0 else TotalError(w, t, b, k - 1) + Abs(Deviation(w, t, b, k - 1))
  }

  /** The largest remainder that was rounded down: no rounded-up entry has a smaller one. */
  function Threshold(w: seq<int>, t: int, a: seq<int>, k: nat): int
    requires k <= |w| && |a| == |w| && Sum(w) > 0
  {
    if k == 0 then 0
    else if Up(w, t, a, k - 1) then Threshold(w, t, a, k - 1)
    else Max(Threshold(w, t, a, k - 1), Remainder(w, t, k - 1))
  }

  lemma {:induction false} ThresholdSeparates(w: seq<int>, t: int, a: seq<int>, k: nat, i: nat)
    requires Problem(w, t) && Apportioned(w, t, a) && k <= |w| && i < |w|
    ensures 0 <= Threshold(w, t, a, k) < Sum(w)
    ensures Up(w, t, a, i) ==> Remainder(w, t, i) >= Threshold(w, t, a, k)
    ensures i < k && !Up(w, t, a, i) ==> Remainder(w, t, i) <= Threshold(w, t, a, k)
  {
    DeviationOfShare(w, t, a, i);
    if k > 0 {
      ThresholdSeparates(w, t, a, k - 1, i);
      DeviationOfShare(w, t, a, k - 1);
      assert Up(w, t, a, i) && !Up(w, t, a, k - 1) ==> Precedes(w, t, i, k - 1);
    }
  }

  /** Facts about `e` units of size `d` and remainder `r`. */
  lemma UnitsOf(d: int, r: int, e: int)
    requires 0 <= r < d
    ensures (d - 2 * r) * e == e * d - 2 * (r * e)
    ensures e >= 0 ==> e * d >= 0 && r * e >= 0
    ensures e >= 1 ==> r * e >= r
    ensures e <= 0 ==> r * e - e * d >= 0
    ensures e <= -1 ==> r * e - e * d >= d - r
  {
    var c := d - r;
    assert r * e - e * d == (-e) * c;
    if e <= -1 {
      assert (-e) * c == c + (-e - 1) * c;
      assert (-e - 1) * c >= 0;
    } else if e >= 1 {
      assert r * e == r + r * (e - 1);
      assert r * (e - 1) >= 0;
    }
  }

  /** Moving a rounded-up entry by `e` units costs at least `d - 2 * r` per unit. */
  lemma MovingUpCosts(d: int, r: int, v: int, e: int)
    requires 0 <= r < d && 0 < v <= d - r
    ensures Abs(v + e * d) >= v + (d - 2 * r) * e
  {
    UnitsOf(d, r, e);
  }

  lemma MovingDownCosts(d: int, r: int, v: int, e: int)
    requires 0 <= r < d && -r <= v <= 0
    ensures Abs(v + e * d) >= -v + (d - 2 * r) * e
  {
    UnitsOf(d, r, e);
  }

  lemma EntryCannotImprove(w: seq<int>, t: int, a: seq<int>, b: seq<int>, i: nat)
    requires Problem(w, t) && Apportioned(w, t, a) && |b| == |w| && i < |w|
    ensures Abs(Deviation(w, t, b, i))
            >= Abs(Deviation(w, t, a, i)) + (Sum(w) - 2 * Threshold(w, t, a, |w|)) * (b[i] - a[i])
  {
    var d, r, v, e := Sum(w), Threshold(w, t, a, |w|), Deviation(w, t, a, i), b[i] - a[i];
    ThresholdSeparates(w, t, a, |w|, i);
    DeviationOfShare(w, t, a, i);
    assert Deviation(w, t, b, i) == v + e * d by {
      assert (a[i] + e) * d == a[i] * d + e * d;
    }
    if Up(w, t, a, i) {
      MovingUpCosts(d, r, v, e);
    } else {
      MovingDownCosts(d, r, v, e);
    }
  }

  lemma {:induction false} PrefixCannotImprove(w: seq<int>, t: int, a: seq<int>, b: seq<int>, k: nat)
    requires Problem(w, t) && Apportioned(w, t, a) && |b| == |w| && k <= |w|
    ensures TotalError(w, t, b, k)
            >= TotalError(w, t, a, k) + (Sum(w) - 2 * Threshold(w, t, a, |w|)) * (PrefixSum(b, k) - PrefixSum(a, k))
  {
    if k > 0 {
      PrefixCannotImprove(w, t, a, b, k - 1);
      EntryCannotImprove(w, t, a, b, k - 1);
      var c := Sum(w) - 2 * Threshold(w, t, a, |w|);
      var x, y := PrefixSum(b, k - 1) - PrefixSum(a, k - 1), b[k - 1] - a[k - 1];
      assert c * (x + y) == c * x + c * y;
    }
  }

  /** No integer vector with the same sum stays closer to the exact quotas in total. */
  lemma LargestRemainderIsOptimal(w: seq<int>, t: int, a: seq<int>, b: seq<int>)
    requires Problem(w, t) && Apportioned(w, t, a) && |b| == |w| && Sum(b) == t
    ensures TotalError(w, t, a, |w|) <= TotalError(w, t, b, |w|)
  {
    PrefixCannotImprove(w, t, a, b, |w|);
    assert PrefixSum(b, |w|) - PrefixSum(a, |w|) == 0;
  }

  // ----- the algorithm -----

  /** A remainder and the entry it belongs to. */
  type Ranked = (int, nat)

  predicate ComesFirst(x: Ranked, y: Ranked) {
    x.0 > y.0 || (x.0 == y.0 && x.1 <= y.1)
  }

  function Remainders(w: seq<int>, t: int, k: nat): (r: seq<Ranked>)
    requires k <= |w| && Sum(w) > 0
    ensures |r| == k
    ensures forall i :: 0 <= i < k ==> r[i] == (Remainder(w, t, i), i)
  {
    if k == 0 then [] else Remainders(w, t, k - 1) + [(Remainder(w, t, k - 1), k - 1)]
  }

  /** Every entry once, in the order in which leftover units are handed out. */
  ghost predicate Ranking(w: seq<int>, t: int, r: seq<Ranked>)
    requires Sum(w) > 0
  {
    && |r| == |w|
    && (forall p :: 0 <= p < |r| ==> r[p].1 < |w| && r[p].0 == Remainder(w, t, r[p].1))
    && (forall p, q :: 0 <= p < q < |r| ==> r[p].1 != r[q].1)
    && (forall p, q :: 0 <= p < q < |r| ==> Precedes(w, t, r[p].1, r[q].1))
    && (forall i :: 0 <= i < |w| ==> (Remainder(w, t, i), i) in r)
  }

  lemma SortedRemaindersRank(w: seq<int>, t: int)
    requires Sum(w) > 0
    ensures Ranking(w, t, Sort(ComesFirst, Remainders(w, t, |w|), |w|))
  {
    var xs := Remainders(w, t, |w|);
    var dom := set x | x in xs;
    assert xs[..|w|] == xs;
    SortIsRight(ComesFirst, xs, |w|, dom);
    SortDistinct(ComesFirst, xs, |w|);
    var r := Sort(ComesFirst, xs, |w|);
    forall p | 0 <= p < |r|
      ensures r[p].1 < |w| && r[p].0 == Remainder(w, t, r[p].1)
    {
      assert r[p] in xs;
    }
    forall p, q | 0 <= p < q < |r|
      ensures r[p].1 != r[q].1 && Precedes(w, t, r[p].1, r[q].1)
    {
      assert ComesFirst(r[p], r[q]);
    }
    forall i | 0 <= i < |w|
      ensures (Remainder(w, t, i), i) in r
    {
      assert xs[i] in xs;
    }
  }

  /** Whether entry `i` is among the first `m` of the ranking. */
  ghost predicate Chosen(r: seq<Ranked>, m: nat, i: nat)
    requires m <= |r|
  {
    exists p :: 0 <= p < m && r[p].1 == i
  }

  function RoundedDown(w: seq<int>, t: int, k: nat): (a: seq<int>)
    requires k <= |w| && Sum(w) > 0
    ensures |a| == k && forall i :: 0 <= i < k ==> a[i] == Base(w, t, i)
  {
    if k == 0 then [] else RoundedDown(w, t, k - 1) + [Base(w, t, k - 1)]
  }

  lemma {:induction false} TotalOfUpdate(a: seq<int>, i: nat, v: int, k: nat)
    requires i < |a| && k <= |a|
    ensures PrefixSum(a[i := v], k) == PrefixSum(a, k) + if i < k then v - a[i] else 0
  {
    if k > 0 {
      TotalOfUpdate(a, i, v, k - 1);
    }
  }

  /** Rounding down leaves fewer units than there are entries, and never too many. */
  lemma LeftoverIsSmall(w: seq<int>, t: int)
    requires Problem(w, t)
    ensures 0 <= t - Sum(RoundedDown(w, t, |w|)) <= |w|
  {
    var a, d := RoundedDown(w, t, |w|), Sum(w);
    forall i | 0 <= i < |w|
      ensures -d < Deviation(w, t, a, i) <= 0
    {
      QuotaSplits(w[i] * t, d);
    }
    DeviationsBounded(w, t, a, |w|);
    DeviationsAddUp(w, t, a, |w|);
    var m := t - Sum(a);
    assert m * d == t * d - Sum(a) * d;
    if m < 0 { ScaledStrictly(m, 0, d); }
    if m > |w| { ScaledStrictly(|w|, m, d); }
  }

  lemma {:induction false} DeviationsBounded(w: seq<int>, t: int, b: seq<int>, k: nat)
    requires k <= |w| && |b| == |w| && Sum(w) > 0
    requires forall i :: 0 <= i < k ==> -Sum(w) < Deviation(w, t, b, i) <= 0
    ensures -(k * Sum(w)) <= TotalDeviation(w, t, b, k) <= 0
  {
    if k > 0 {
      DeviationsBounded(w, t, b, k - 1);
      assert k * Sum(w) == (k - 1) * Sum(w) + Sum(w);
    }
  }

  /** Handing the leftover units to the first of the ranking apportions the target. */
  lemma ChosenAreApportioned(w: seq<int>, t: int, r: seq<Ranked>, m: nat, a: seq<int>)
    requires Problem(w, t) && Ranking(w, t, r) && m <= |r| && |a| == |w| && Sum(a) == t
    requires forall i :: 0 <= i < |w| ==> a[i] == Base(w, t, i) + if Chosen(r, m, i) then 1 else 0
    ensures Apportioned(w, t, a)
  {
    forall i, j | 0 <= i < |w| && 0 <= j < |w| && Up(w, t, a, i) && !Up(w, t, a, j)
      ensures Precedes(w, t, i, j)
    {
      var p :| 0 <= p < m && r[p].1 == i;
      assert (Remainder(w, t, j), j) in r;
      var q :| 0 <= q < |r| && r[q] == (Remainder(w, t, j), j);
      assert q >= m;
    }
  }

  method LargestRemainderAllocate(weights: seq<u64>, target: u64) returns (allocations: seq<int>)
    ensures |allocations| == |weights|
    ensures target == 0 || Sum(weights) == 0 ==> forall i :: 0 <= i < |weights| ==> allocations[i] == 0
    ensures target > 0 && Sum(weights) > 0 ==> Apportioned(weights, target, allocations)
  {
    SumOfWeights(weights, |weights|);
    var denominator := Sum(weights);
    allocations := seq(|weights|, _ => 0);
    if denominator == 0 || target == 0 {
      return;
    }
    var remainders: seq<Ranked> := [];
    var handedOut := 0;
    for index := 0 to |weights|
      invariant |allocations| == |weights|
      invariant forall i :: 0 <= i < index ==> allocations[i] == Base(weights, target, i)
      invariant handedOut == PrefixSum(allocations, index)
      invariant remainders == Remainders(weights, target, index)
    {
      var numerator := weights[index] * target;
      var base := numerator / denominator;
      TotalOfUpdate(allocations, index, base, index);
      allocations := allocations[index := base];
      handedOut := handedOut + base;
      remainders := remainders + [(numerator % denominator, index)];
    }
    assert allocations == RoundedDown(weights, target, |weights|);
    LeftoverIsSmall(weights, target);
    SortedRemaindersRank(weights, target);
    var ranking := Sort(ComesFirst, remainders, |remainders|);
    var left := target - handedOut;
    for k := 0 to left
      invariant |allocations| == |weights|
      invariant Sum(allocations) == handedOut + k
      invariant forall i :: 0 <= i < |weights| ==>
                  allocations[i] == Base(weights, target, i) + if Chosen(ranking, k, i) then 1 else 0
    {
      var index := ranking[k].1;
      TotalOfUpdate(allocations, index, allocations[index] + 1, |weights|);
      NextChosen(weights, target, ranking, k);
      allocations := allocations[index := allocations[index] + 1];
    }
    ChosenAreApportioned(weights, target, ranking, left, allocations);
  }

  lemma NextChosen(w: seq<int>, t: int, r: seq<Ranked>, k: nat)
    requires Sum(w) > 0 && Ranking(w, t, r) && k < |r|
    ensures !Chosen(r, k, r[k].1)
    ensures forall i :: Chosen(r, k + 1, i) <==> Chosen(r, k, i) || i == r[k].1
  {
    forall i
      ensures Chosen(r, k + 1, i) <==> Chosen(r, k, i) || i == r[k].1
    {
      if i == r[k].1 {
        assert 0 <= k < k + 1 && r[k].1 == i;
      } else if Chosen(r, k, i) {
        var p :| 0 <= p < k && r[p].1 == i;
        assert 0 <= p < k + 1 && r[p].1 == i;
      }
    }
  }

  lemma {:induction false} SumOfWeights(w: seq<u64>, k: nat)
    requires k <= |w|
    ensures PrefixSum(w, k) >= 0
    ensures forall i :: 0 <= i < k ==> w[i] <= PrefixSum(w, k)
  {
    if k > 0 {
      SumOfWeights(w, k - 1);
    }
  }
}
