/** Sums over finite sets and grouped sums over sequences. */
module Sums {
  import opened Prelude

  ghost function Pick<T>(s: set<T>): T
    requires s != {}
    ensures Pick(s) in s
  {
    var x :| x in s;
    x
  }

  ghost function SumOver<T>(s: set<T>, f: T -> nat): nat {
    if s == {} then 0 else f(Pick(s)) + SumOver(s - {Pick(s)}, f)
  }

  /** The order in which elements are summed does not matter. */
  lemma {:induction false} SumOverRemove<T>(s: set<T>, f: T -> nat, x: T)
    requires x in s
    ensures SumOver(s, f) == f(x) + SumOver(s - {x}, f)
    decreases s
  {
    var y := Pick(s);
    if y != x {
      SumOverRemove(s - {y}, f, x);
      SumOverRemove(s - {x}, f, y);
      assert s - {y} - {x} == s - {x} - {y};
    }
  }

  lemma {:induction false} SumOverSame<T>(s: set<T>, f: T -> nat, g: T -> nat)
    requires forall x :: x in s ==> f(x) == g(x)
    ensures SumOver(s, f) == SumOver(s, g)
    decreases s
  {
    if s != {} {
      SumOverSame(s - {Pick(s)}, f, g);
    }
  }

  /** Raising one summand raises the sum by as much. */
  lemma SumOverBump<T>(s: set<T>, f: T -> nat, g: T -> nat, x: T, v: nat)
    requires x in s && g(x) == f(x) + v && forall y :: y in s && y != x ==> g(y) == f(y)
    ensures SumOver(s, g) == SumOver(s, f) + v
  {
    SumOverRemove(s, f, x);
    SumOverRemove(s, g, x);
    SumOverSame(s - {x}, f, g);
  }

  /** Summing what is nothing outside a part is summing over the part. */
  lemma {:induction false} SumOverWhere<T>(s: set<T>, part: set<T>, f: T -> nat, g: T -> nat)
    requires part <= s && forall x :: x in s ==> f(x) == if x in part then g(x) else 0
    ensures SumOver(s, f) == SumOver(part, g)
    decreases s
  {
    if s != {} {
      var x := Pick(s);
      SumOverWhere(s - {x}, part - {x}, f, g);
      if x in part {
        SumOverRemove(part, g, x);
      } else {
        assert part - {x} == part;
      }
    }
  }

  lemma {:induction false} SumOverZero<T>(s: set<T>, f: T -> nat)
    requires forall x :: x in s ==> f(x) == 0
    ensures SumOver(s, f) == 0
    decreases s
  {
    if s != {} {
      SumOverZero(s - {Pick(s)}, f);
    }
  }

  /** Sum of `value` over the first `k` elements. */
  ghost function SumSeq<X>(xs: seq<X>, k: nat, value: X -> nat): nat
    requires k <= |xs|
  {
    if k == 0 then 0 else SumSeq(xs, k - 1, value) + value(xs[k - 1])
  }

  lemma {:induction false} SumSeqOnPrefix<X>(a: seq<X>, b: seq<X>, k: nat, value: X -> nat)
    requires k <= |a| && a <= b
    ensures SumSeq(a, k, value) == SumSeq(b, k, value)
  {
    if k > 0 {
      SumSeqOnPrefix(a, b, k - 1, value);
    }
  }

  lemma {:induction false} SumSeqOfConcat<X>(a: seq<X>, b: seq<X>, all: seq<X>, k: nat, at: nat, value: X -> nat)
    requires k <= |b| && all == a + b && at == |a| + k
    ensures SumSeq(all, at, value) == SumSeq(a, |a|, value) + SumSeq(b, k, value)
    decreases k
  {
    if k == 0 {
      SumSeqOnPrefix(a, all, |a|, value);
    } else {
      SumSeqOfConcat(a, b, all, k - 1, at - 1, value);
      assert all[at - 1] == b[k - 1];
    }
  }

  /** The same, restricted to the elements whose key is `name`. */
  ghost function GroupSum<X, K>(xs: seq<X>, k: nat, key: X -> K, name: K, value: X -> nat): nat
    requires k <= |xs|
  {
    if k == 0 then 0 else
      GroupSum(xs, k - 1, key, name, value) + if key(xs[k - 1]) == name then value(xs[k - 1]) else 0
  }

  ghost function GroupOf<X, K>(xs: seq<X>, k: nat, key: X -> K, value: X -> nat): K -> nat
    requires k <= |xs|
  {
    (name: K) => GroupSum(xs, k, key, name, value)
  }

  /** Grouping loses nothing: the groups add up to the whole, whatever the key. */
  lemma {:induction false} GroupsAddUp<X, K>(xs: seq<X>, k: nat, key: X -> K, names: set<K>, value: X -> nat)
    requires k <= |xs| && forall i :: 0 <= i < k ==> key(xs[i]) in names
    ensures SumOver(names, GroupOf(xs, k, key, value)) == SumSeq(xs, k, value)
  {
    if k == 0 {
      SumOverZero(names, GroupOf(xs, k, key, value));
    } else {
      GroupsAddUp(xs, k - 1, key, names, value);
      SumOverBump(names, GroupOf(xs, k - 1, key, value), GroupOf(xs, k, key, value), key(xs[k - 1]), value(xs[k - 1]));
    }
  }

  ghost function Restrict<T, K>(key: T -> K, name: K, value: T -> nat): T -> nat {
    (x: T) => if key(x) == name then value(x) else 0
  }

  ghost function GroupOfSet<T, K>(s: set<T>, key: T -> K, value: T -> nat): K -> nat {
    (name: K) => SumOver(s, Restrict(key, name, value))
  }

  /** Grouping a finite set loses nothing either. */
  lemma {:induction false} SetGroupsAddUp<T, K>(s: set<T>, key: T -> K, names: set<K>, value: T -> nat)
    requires forall x :: x in s ==> key(x) in names
    ensures SumOver(names, GroupOfSet(s, key, value)) == SumOver(s, value)
    decreases s
  {
    if s == {} {
      SumOverZero(names, GroupOfSet(s, key, value));
    } else {
      var x := Pick(s);
      SetGroupsAddUp(s - {x}, key, names, value);
      SumOverBump(names, GroupOfSet(s - {x}, key, value), GroupOfSet(s, key, value), key(x), value(x));
    }
  }

  lemma {:induction false} SumOverUnion<T>(a: set<T>, b: set<T>, f: T -> nat)
    requires a !! b
    ensures SumOver(a + b, f) == SumOver(a, f) + SumOver(b, f)
    decreases a
  {
    if a == {} {
      assert a + b == b;
    } else {
      var x := Pick(a);
      SumOverUnion(a - {x}, b, f);
      SumOverRemove(a + b, f, x);
      assert a + b - {x} == a - {x} + b;
    }
  }

  lemma PartOfZero<T>(s: set<T>, f: T -> nat, x: T)
    requires x in s && SumOver(s, f) == 0
    ensures f(x) == 0
  {
    SumOverRemove(s, f, x);
  }

  lemma {:induction false} SumOfOnes<T>(s: set<T>, f: T -> nat)
    requires forall x :: x in s ==> f(x) == 1
    ensures SumOver(s, f) == |s|
    decreases s
  {
    if s != {} {
      SumOfOnes(s - {Pick(s)}, f);
    }
  }

  /** Saturated summands add up to the saturated sum. */
  lemma {:induction false} SumOfSaturated<T>(s: set<T>, f: T -> nat, g: T -> nat)
    requires forall x :: x in s ==> f(x) == Sat(g(x))
    ensures Sat(SumOver(s, f)) == Sat(SumOver(s, g))
    decreases s
  {
    if s != {} {
      SumOfSaturated(s - {Pick(s)}, f, g);
    }
  }

  ghost predicate AllDifferent<X>(xs: seq<X>, k: nat)
    requires k <= |xs|
  {
    forall i, j :: 0 <= i < j < k ==> xs[i] != xs[j]
  }

  ghost function FirstOnes<X>(xs: seq<X>, k: nat): set<X>
    requires k <= |xs|
  {
    if k == 0 then {} else FirstOnes(xs, k - 1) + {xs[k - 1]}
  }

  lemma {:induction false} InFirstOnes<X>(xs: seq<X>, k: nat, x: X)
    requires k <= |xs|
    ensures x in FirstOnes(xs, k) <==> exists i :: 0 <= i < k && xs[i] == x
  {
    if k > 0 {
      InFirstOnes(xs, k - 1, x);
    }
  }

  /** Over different elements, summing the sequence is summing the set. */
  lemma {:induction false} SumSeqIsSumOver<X>(xs: seq<X>, k: nat, f: X -> nat)
    requires k <= |xs| && AllDifferent(xs, k)
    ensures SumSeq(xs, k, f) == SumOver(FirstOnes(xs, k), f)
  {
    if k > 0 {
      SumSeqIsSumOver(xs, k - 1, f);
      InFirstOnes(xs, k - 1, xs[k - 1]);
      SumOverRemove(FirstOnes(xs, k), f, xs[k - 1]);
      assert FirstOnes(xs, k) - {xs[k - 1]} == FirstOnes(xs, k - 1);
    }
  }

  lemma {:induction false} SumOfBoth<T>(s: set<T>, f: T -> nat, g: T -> nat, h: T -> nat)
    requires forall x :: x in s ==> h(x) == f(x) + g(x)
    ensures SumOver(s, h) == SumOver(s, f) + SumOver(s, g)
    decreases s
  {
    if s != {} {
      SumOfBoth(s - {Pick(s)}, f, g, h);
    }
  }

  /** Elements that weigh nothing can be left out. */
  lemma SumOverPart<T>(part: set<T>, whole: set<T>, f: T -> nat)
    requires part <= whole && forall x :: x in whole - part ==> f(x) == 0
    ensures SumOver(part, f) == SumOver(whole, f)
  {
    SumOverUnion(part, whole - part, f);
    SumOverZero(whole - part, f);
    assert part + (whole - part) == whole;
  }

  lemma {:induction false} SubsetIsSmaller<T>(a: set<T>, b: set<T>)
    requires a <= b
    ensures |a| <= |b|
    decreases a
  {
    if a != {} {
      var x := Pick(a);
      SubsetIsSmaller(a - {x}, b - {x});
    }
  }

  lemma SizeOfParts<T>(a: set<T>, b: set<T>)
    ensures |a| == |a * b| + |a - b|
  {
    assert a == a * b + (a - b);
  }
}
