/** Runs of a step function over a sequence: a state is threaded through, some steps emit. */
module Folds {
  import opened Prelude

  ghost function StateAt<S, X, E>(step: (S, X) -> (S, Option<E>), s: S, xs: seq<X>, k: nat): S
    requires k <= |xs|
  {
    if k == 0 then s else step(StateAt(step, s, xs, k - 1), xs[k - 1]).0
  }

  ghost function EmittedAt<S, X, E>(step: (S, X) -> (S, Option<E>), s: S, xs: seq<X>, k: nat): seq<E>
    requires k <= |xs|
  {
    if k == 0 then [] else
      var e := step(StateAt(step, s, xs, k - 1), xs[k - 1]).1;
      EmittedAt(step, s, xs, k - 1) + if e.Some? then [e.value] else []
  }

  lemma {:induction false} RunOfPrefix<S, X, E>(step: (S, X) -> (S, Option<E>), s: S, a: seq<X>, all: seq<X>, k: nat)
    requires k <= |a| && a <= all
    ensures StateAt(step, s, all, k) == StateAt(step, s, a, k)
    ensures EmittedAt(step, s, all, k) == EmittedAt(step, s, a, k)
  {
    if k > 0 {
      RunOfPrefix(step, s, a, all, k - 1);
    }
  }

  /** What was emitted stays emitted. */
  lemma {:induction false} EmittedGrows<S, X, E>(step: (S, X) -> (S, Option<E>), s: S, xs: seq<X>, j: nat, k: nat)
    requires j <= k <= |xs|
    ensures EmittedAt(step, s, xs, j) <= EmittedAt(step, s, xs, k)
  {
    if j < k {
      EmittedGrows(step, s, xs, j, k - 1);
    }
  }

  /** Stopping after `a` and resuming from the state reached is the same as one run. */
  lemma {:induction false} RunResumes<S, X, E>(
    step: (S, X) -> (S, Option<E>), s: S, a: seq<X>, b: seq<X>, all: seq<X>, k: nat, at: nat, mid: S)
    requires k <= |b| && all == a + b && at == |a| + k && mid == StateAt(step, s, a, |a|)
    ensures StateAt(step, s, all, at) == StateAt(step, mid, b, k)
    ensures EmittedAt(step, s, all, at) == EmittedAt(step, s, a, |a|) + EmittedAt(step, mid, b, k)
    decreases k
  {
    if k == 0 {
      RunOfPrefix(step, s, a, all, |a|);
    } else {
      RunResumes(step, s, a, b, all, k - 1, at - 1, mid);
      assert all[at - 1] == b[k - 1];
    }
  }

  /** The accepted elements among positions `from`, ..., `k - 1`. */
  ghost function AcceptedBetween<X, Y>(accept: X -> Option<Y>, xs: seq<X>, from: nat, k: nat): seq<Y>
    requires k <= |xs|
  {
    if k <= from then [] else
      var y := accept(xs[k - 1]);
      AcceptedBetween(accept, xs, from, k - 1) + if y.Some? then [y.value] else []
  }

  /** From states in `inv` on, `f` skips what is not accepted and otherwise does what `g` does. */
  ghost predicate StepsOnAccepted<S(!new), X(!new), Y, E>(
    f: (S, X) -> (S, Option<E>), g: (S, Y) -> (S, Option<E>), accept: X -> Option<Y>, inv: S -> bool)
  {
    forall s, x :: inv(s) ==>
      if accept(x).Some? then f(s, x) == g(s, accept(x).value) && inv(f(s, x).0) else f(s, x) == (s, None)
  }

  /** A run over all elements is the run over the accepted ones. */
  lemma {:induction false} RunOverAccepted<S(!new), X(!new), Y, E>(
    f: (S, X) -> (S, Option<E>), g: (S, Y) -> (S, Option<E>), accept: X -> Option<Y>, inv: S -> bool,
    s: S, xs: seq<X>, from: nat, k: nat)
    requires from <= k <= |xs| && StepsOnAccepted(f, g, accept, inv) && inv(StateAt(f, s, xs, from))
    ensures var ys := AcceptedBetween(accept, xs, from, k);
      && inv(StateAt(f, s, xs, k))
      && StateAt(f, s, xs, k) == StateAt(g, StateAt(f, s, xs, from), ys, |ys|)
      && EmittedAt(f, s, xs, k) == EmittedAt(f, s, xs, from) + EmittedAt(g, StateAt(f, s, xs, from), ys, |ys|)
  {
    if from < k {
      RunOverAccepted(f, g, accept, inv, s, xs, from, k - 1);
      var ys, zs := AcceptedBetween(accept, xs, from, k - 1), AcceptedBetween(accept, xs, from, k);
      RunOfPrefix(g, StateAt(f, s, xs, from), ys, zs, |ys|);
    }
  }

  /** Steps that differ only in what they emit reach the same states. */
  lemma {:induction false} SameStates<S(!new), X(!new), E, F>(
    f: (S, X) -> (S, Option<E>), g: (S, X) -> (S, Option<F>), s: S, xs: seq<X>, k: nat)
    requires k <= |xs| && forall s, x :: f(s, x).0 == g(s, x).0
    ensures StateAt(f, s, xs, k) == StateAt(g, s, xs, k)
  {
    if k > 0 {
      SameStates(f, g, s, xs, k - 1);
    }
  }

  /** The elements kept when the run from `s` meets them. */
  ghost function KeptAt<S, X, E>(step: (S, X) -> (S, Option<E>), keep: (S, X) -> bool, s: S, xs: seq<X>, k: nat): seq<X>
    requires k <= |xs|
  {
    if k == 0 then [] else
      KeptAt(step, keep, s, xs, k - 1) + if keep(StateAt(step, s, xs, k - 1), xs[k - 1]) then [xs[k - 1]] else []
  }

  /** From `u` in `inv` on, what is not kept is silent and keeps `rel`, and what is kept does the same from `t`. */
  ghost predicate ErasableAt<S, X, E>(
    f: (S, X) -> (S, Option<E>), g: (S, X) -> (S, Option<E>), keep: (S, X) -> bool, inv: S -> bool, rel: (S, S) -> bool,
    t: S, u: S, x: X)
  {
    inv(u) && rel(t, u) ==>
      && inv(f(u, x).0)
      && if keep(u, x) then rel(g(t, x).0, f(u, x).0) && g(t, x).1 == f(u, x).1
         else rel(t, f(u, x).0) && f(u, x).1.None?
  }

  ghost predicate Erasable<S(!new), X(!new), E>(
    f: (S, X) -> (S, Option<E>), g: (S, X) -> (S, Option<E>), keep: (S, X) -> bool, inv: S -> bool, rel: (S, S) -> bool)
  {
    forall t, u, x :: ErasableAt(f, g, keep, inv, rel, t, u, x)
  }

  /** Then the run over the kept elements alone emits the same. */
  lemma {:induction false} RunErases<S(!new), X(!new), E>(
    f: (S, X) -> (S, Option<E>), g: (S, X) -> (S, Option<E>), keep: (S, X) -> bool, inv: S -> bool, rel: (S, S) -> bool,
    s: S, xs: seq<X>, k: nat)
    requires k <= |xs| && Erasable(f, g, keep, inv, rel) && inv(s) && rel(s, s)
    ensures var ys := KeptAt(f, keep, s, xs, k);
      && inv(StateAt(f, s, xs, k))
      && rel(StateAt(g, s, ys, |ys|), StateAt(f, s, xs, k))
      && EmittedAt(g, s, ys, |ys|) == EmittedAt(f, s, xs, k)
  {
    if k > 0 {
      RunErases(f, g, keep, inv, rel, s, xs, k - 1);
      var ys, zs := KeptAt(f, keep, s, xs, k - 1), KeptAt(f, keep, s, xs, k);
      RunOfPrefix(g, s, ys, zs, |ys|);
      var t, u, x := StateAt(g, s, ys, |ys|), StateAt(f, s, xs, k - 1), xs[k - 1];
      assert ErasableAt(f, g, keep, inv, rel, t, u, x);
    }
  }

  /** A run that only threads a state. */
  ghost function Iterate<S, X>(f: (S, X) -> S, s: S, xs: seq<X>, k: nat): S
    requires k <= |xs|
  {
    if k == 0 then s else f(Iterate(f, s, xs, k - 1), xs[k - 1])
  }

  /** What every step keeps holds throughout. */
  lemma {:induction false} AlwaysFrom<S(!new), X(!new)>(f: (S, X) -> S, inv: S -> bool, s: S, xs: seq<X>, j: nat,
      k: nat)
    requires j <= k <= |xs| && inv(Iterate(f, s, xs, j))
    requires forall t, x :: inv(t) ==> inv(f(t, x))
    ensures inv(Iterate(f, s, xs, k))
    decreases k
  {
    if j < k {
      AlwaysFrom(f, inv, s, xs, j, k - 1);
    }
  }

  lemma Always<S(!new), X(!new)>(f: (S, X) -> S, inv: S -> bool, s: S, xs: seq<X>, k: nat)
    requires k <= |xs| && inv(s)
    requires forall t, x :: inv(t) ==> inv(f(t, x))
    ensures inv(Iterate(f, s, xs, k))
  {
    AlwaysFrom(f, inv, s, xs, 0, k);
  }

  /** The same for steps over elements with a property. */
  lemma {:induction false} AlwaysOver<S(!new), X(!new)>(f: (S, X) -> S, inv: S -> bool, ok: X -> bool, s: S, xs: seq<X>,
      k: nat)
    requires k <= |xs| && inv(s) && forall i :: 0 <= i < k ==> ok(xs[i])
    requires forall t, x :: inv(t) && ok(x) ==> inv(f(t, x))
    ensures inv(Iterate(f, s, xs, k))
  {
    if k > 0 {
      AlwaysOver(f, inv, ok, s, xs, k - 1);
    }
  }

  /** A run that stops at the first step that fails. */
  ghost function TryAll<S, X, E>(f: (S, X) -> Result<S, E>, s: S, xs: seq<X>, k: nat): Result<S, E>
    requires k <= |xs|
  {
    if k == 0 then Ok(s)
    else
      var before := TryAll(f, s, xs, k - 1);
      if before.Err? then before else f(before.value, xs[k - 1])
  }

  /** If none fails, a run of steps that do the same to part of their state ends the same. */
  lemma {:induction false} IterateTracksTryAll<S(!new), T(!new), X(!new), E>(f: (S, X) -> Result<S, E>, g: (T, X) -> T,
      part: T -> S, t: T, xs: seq<X>, k: nat)
    requires k <= |xs| && TryAll(f, part(t), xs, k).Ok?
    requires forall u, x :: f(part(u), x).Ok? ==> part(g(u, x)) == f(part(u), x).value
    ensures part(Iterate(g, t, xs, k)) == TryAll(f, part(t), xs, k).value
  {
    if k > 0 {
      IterateTracksTryAll(f, g, part, t, xs, k - 1);
    }
  }
}
