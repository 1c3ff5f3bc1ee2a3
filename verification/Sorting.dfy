/** Stable sorting by a comparison, as the standard library's `sort_by` does it. */
module Sorting {
  /** `le` orders the elements of `dom` totally. */
  ghost predicate OrderOn<T(!new)>(le: (T, T) -> bool, dom: set<T>) {
    && (forall x, y :: x in dom && y in dom ==> le(x, y) || le(y, x))
    && (forall x, y, z :: x in dom && y in dom && z in dom && le(x, y) && le(y, z) ==> le(x, z))
  }

  ghost predicate SortedBy<T>(le: (T, T) -> bool, q: seq<T>) {
    forall i, j :: 0 <= i < j < |q| ==> le(q[i], q[j])
  }

  ghost predicate Distinct<T>(q: seq<T>) {
    forall i, j :: 0 <= i < j < |q| ==> q[i] != q[j]
  }

  /** Puts `x` behind everything that may stay in front of it. */
  function Insert<T>(le: (T, T) -> bool, q: seq<T>, x: T): (r: seq<T>)
    ensures |r| == |q| + 1
  {
    if q == [] || le(q[|q| - 1], x) then q + [x]
    else Insert(le, q[..|q| - 1], x) + [q[|q| - 1]]
  }

  /** The first `k` elements, sorted. */
  function Sort<T>(le: (T, T) -> bool, xs: seq<T>, k: nat): (q: seq<T>)
    requires k <= |xs|
    ensures |q| == k
  {
    if k == 0 then [] else Insert(le, Sort(le, xs, k - 1), xs[k - 1])
  }

  lemma {:induction false} InsertMembers<T>(le: (T, T) -> bool, q: seq<T>, x: T)
    ensures forall y :: y in Insert(le, q, x) <==> y == x || y in q
  {
    if q != [] && !le(q[|q| - 1], x) {
      InsertMembers(le, q[..|q| - 1], x);
      assert q == q[..|q| - 1] + [q[|q| - 1]];
    }
  }

  lemma {:induction false} InsertDistinct<T>(le: (T, T) -> bool, q: seq<T>, x: T)
    requires Distinct(q) && x !in q
    ensures Distinct(Insert(le, q, x))
  {
    if q != [] && !le(q[|q| - 1], x) {
      var front, last := q[..|q| - 1], q[|q| - 1];
      assert forall i :: 0 <= i < |front| ==> front[i] == q[i];
      InsertDistinct(le, front, x);
      InsertMembers(le, front, x);
      var r := Insert(le, front, x);
      assert forall i :: 0 <= i < |r| ==> r[i] in r;
      assert last !in front;
    }
  }

  lemma {:induction false} InsertSorted<T(!new)>(le: (T, T) -> bool, q: seq<T>, x: T, dom: set<T>)
    requires OrderOn(le, dom) && x in dom && (forall y :: y in q ==> y in dom) && SortedBy(le, q)
    ensures SortedBy(le, Insert(le, q, x))
  {
    if q == [] {
    } else if le(q[|q| - 1], x) {
      forall i | 0 <= i < |q|
        ensures le(q[i], x)
      {
        assert q[i] in q && q[|q| - 1] in q;
        assert i < |q| - 1 ==> le(q[i], q[|q| - 1]);
      }
    } else {
      var front, last := q[..|q| - 1], q[|q| - 1];
      assert forall i :: 0 <= i < |front| ==> front[i] == q[i];
      assert last in q && le(x, last);
      InsertSorted(le, front, x, dom);
      InsertMembers(le, front, x);
      var r := Insert(le, front, x);
      forall i | 0 <= i < |r|
        ensures le(r[i], last)
      {
        assert r[i] in r;
        if r[i] != x {
          var j :| 0 <= j < |front| && front[j] == r[i];
          assert le(q[j], q[|q| - 1]);
        }
      }
    }
  }

  lemma {:induction false} SortIsRight<T(!new)>(le: (T, T) -> bool, xs: seq<T>, k: nat, dom: set<T>)
    requires k <= |xs| && OrderOn(le, dom) && forall y :: y in xs ==> y in dom
    ensures SortedBy(le, Sort(le, xs, k))
    ensures forall y :: y in Sort(le, xs, k) <==> y in xs[..k]
  {
    if k > 0 {
      SortIsRight(le, xs, k - 1, dom);
      assert xs[..k] == xs[..k - 1] + [xs[k - 1]];
      assert xs[k - 1] in xs;
      var q := Sort(le, xs, k - 1);
      assert forall y :: y in q ==> y in xs;
      InsertMembers(le, q, xs[k - 1]);
      InsertSorted(le, q, xs[k - 1], dom);
    }
  }

  lemma {:induction false} SortDistinct<T>(le: (T, T) -> bool, xs: seq<T>, k: nat)
    requires k <= |xs| && Distinct(xs)
    ensures Distinct(Sort(le, xs, k)) && forall y :: y in Sort(le, xs, k) <==> y in xs[..k]
  {
    if k > 0 {
      SortDistinct(le, xs, k - 1);
      assert xs[..k] == xs[..k - 1] + [xs[k - 1]];
      var q := Sort(le, xs, k - 1);
      InsertMembers(le, q, xs[k - 1]);
      assert forall i :: 0 <= i < k - 1 ==> xs[..k - 1][i] == xs[i];
      assert xs[k - 1] !in xs[..k - 1];
      InsertDistinct(le, q, xs[k - 1]);
    }
  }

  /** The elements with `p`, in their order. */
  ghost function Only<T(!new)>(p: T -> bool, q: seq<T>): seq<T> {
    if q == [] then [] else Only(p, q[..|q| - 1]) + if p(q[|q| - 1]) then [q[|q| - 1]] else []
  }

  lemma OnlySnoc<T(!new)>(p: T -> bool, q: seq<T>, x: T)
    ensures Only(p, q + [x]) == Only(p, q) + if p(x) then [x] else []
  {
    assert (q + [x])[..|q|] == q;
  }

  lemma {:induction false} InsertIsStable<T(!new)>(le: (T, T) -> bool, q: seq<T>, x: T, p: T -> bool)
    requires forall y :: p(x) && p(y) ==> le(y, x)
    ensures Only(p, Insert(le, q, x)) == Only(p, q) + if p(x) then [x] else []
  {
    if q == [] || le(q[|q| - 1], x) {
      OnlySnoc(p, q, x);
    } else {
      InsertIsStable(le, q[..|q| - 1], x, p);
      OnlySnoc(p, Insert(le, q[..|q| - 1], x), q[|q| - 1]);
    }
  }

  /** Among elements that compare as equal nothing is lost, added or moved. */
  lemma {:induction false} SortIsStable<T(!new)>(le: (T, T) -> bool, xs: seq<T>, k: nat, p: T -> bool)
    requires k <= |xs| && forall x, y :: p(x) && p(y) ==> le(y, x)
    ensures Only(p, Sort(le, xs, k)) == Only(p, xs[..k])
  {
    if k > 0 {
      SortIsStable(le, xs, k - 1, p);
      InsertIsStable(le, Sort(le, xs, k - 1), xs[k - 1], p);
      OnlySnoc(p, xs[..k - 1], xs[k - 1]);
      assert xs[..k] == xs[..k - 1] + [xs[k - 1]];
    }
  }
}
