/**
 * Post-sampling observations matched to rollout usage by time (src/sampling.rs).
 * Times are nanoseconds in a signed 64-bit integer.
 */
module Matching {
  import opened Prelude
  import opened Types
  import opened Sorting
  import opened Sums

  const TOLERANCE: i64 := 250_000_000

  datatype Candidate = Candidate(time: i64, usage: TokenUsage)

  /** What one observation became: usage taken from a candidate, or an unknown zero. */
  datatype Event = Event(usage: TokenUsage, confirmed: bool)

  function Lower(t: i64): i64 {
    SignedSat(t - TOLERANCE)
  }

  function Upper(t: i64): i64 {
    SignedSat(t + TOLERANCE)
  }

  function Delta(t: i64, c: Candidate): nat {
    Abs(c.time - t)
  }

  /** Nothing at or after the floor was ever skipped: the floor is the latest window start so far. */
  function Floor(observations: seq<i64>, k: nat): i64
    requires k <= |observations|
  {
    if k == 0 then I64_MIN else Max(Floor(observations, k - 1), Lower(observations[k - 1]))
  }

  // ----- the specification: one scan over all unused candidates per observation -----

  ghost predicate UsedBefore(matches: seq<Option<nat>>, i: nat, j: nat)
    requires i <= |matches|
  {
    exists p :: 0 <= p < i && matches[p] == Some(j)
  }

  ghost predicate Eligible(candidates: seq<Candidate>, used: nat -> bool, floor: i64, t: i64, j: nat)
    requires j < |candidates|
  {
    floor <= candidates[j].time <= Upper(t) && !used(j)
  }

  /** `m` is the nearest eligible candidate below `k`, the first of equally near ones. */
  ghost predicate Nearest(candidates: seq<Candidate>, used: nat -> bool, floor: i64, t: i64, k: nat, m: Option<nat>)
    requires k <= |candidates|
  {
    match m
    case None => forall j: nat :: j < k ==> !Eligible(candidates, used, floor, t, j)
    case Some(b) =>
      && b < k && Eligible(candidates, used, floor, t, b)
      && forall j: nat :: j < k && Eligible(candidates, used, floor, t, j) ==>
           && Delta(t, candidates[b]) <= Delta(t, candidates[j])
           && (Delta(t, candidates[b]) == Delta(t, candidates[j]) ==> b <= j)
  }

  ghost function UsedBy(matches: seq<Option<nat>>, i: nat): nat -> bool
    requires i <= |matches|
  {
    (j: nat) => UsedBefore(matches, i, j)
  }

  /** Observation `i` takes the nearest candidate that no earlier observation took. */
  ghost predicate TakesNearest(observations: seq<i64>, candidates: seq<Candidate>, matches: seq<Option<nat>>, i: nat)
    requires i < |observations| && i < |matches|
  {
    Nearest(candidates, UsedBy(matches, i), Floor(observations, i + 1), observations[i], |candidates|, matches[i])
  }

  ghost predicate Greedy(observations: seq<i64>, candidates: seq<Candidate>, matches: seq<Option<nat>>, k: nat)
    requires k <= |matches| && k <= |observations|
  {
    forall i :: 0 <= i < k ==> TakesNearest(observations, candidates, matches, i)
  }

  /** The scan leaves no choice: two greedy results are the same. */
  lemma {:induction false} GreedyIsUnique(
    observations: seq<i64>, candidates: seq<Candidate>, a: seq<Option<nat>>, b: seq<Option<nat>>, k: nat)
    requires k <= |observations| && k <= |a| && k <= |b|
    requires Greedy(observations, candidates, a, k) && Greedy(observations, candidates, b, k)
    ensures a[..k] == b[..k]
  {
    if k > 0 {
      GreedyIsUnique(observations, candidates, a, b, k - 1);
      assert TakesNearest(observations, candidates, a, k - 1) && TakesNearest(observations, candidates, b, k - 1);
      SameUsed(a, b, k - 1);
      NearestIsUnique(candidates, UsedBy(a, k - 1), UsedBy(b, k - 1), Floor(observations, k), observations[k - 1],
                      a[k - 1], b[k - 1]);
      assert a[..k] == a[..k - 1] + [a[k - 1]] && b[..k] == b[..k - 1] + [b[k - 1]];
    }
  }

  lemma SameUsed(a: seq<Option<nat>>, b: seq<Option<nat>>, i: nat)
    requires i <= |a| && i <= |b| && a[..i] == b[..i]
    ensures forall j: nat :: UsedBy(a, i)(j) == UsedBy(b, i)(j)
  {
    assert forall p :: 0 <= p < i ==> a[p] == a[..i][p] && b[p] == b[..i][p];
  }

  lemma NearestIsUnique(candidates: seq<Candidate>, used: nat -> bool, taken: nat -> bool, floor: i64, t: i64,
                        m: Option<nat>, n: Option<nat>)
    requires forall j: nat :: used(j) == taken(j)
    requires Nearest(candidates, used, floor, t, |candidates|, m)
    requires Nearest(candidates, taken, floor, t, |candidates|, n)
    ensures m == n
  {
    forall j: nat | j < |candidates|
      ensures Eligible(candidates, used, floor, t, j) == Eligible(candidates, taken, floor, t, j)
    {
    }
  }

  // ----- the sliding window -----

  ghost predicate ByTime(candidates: seq<Candidate>) {
    forall i, j :: 0 <= i < j < |candidates| ==> candidates[i].time <= candidates[j].time
  }

  /** `start` splits the candidates at the floor. */
  ghost predicate SplitsAt(candidates: seq<Candidate>, start: nat, floor: i64) {
    && start <= |candidates|
    && (forall j :: 0 <= j < start ==> candidates[j].time < floor)
    && (forall j :: start <= j < |candidates| ==> floor <= candidates[j].time)
  }

  method Advance(candidates: seq<Candidate>, start: nat, floor: i64, t: i64) returns (next: nat)
    requires ByTime(candidates) && SplitsAt(candidates, start, floor)
    ensures SplitsAt(candidates, next, Max(floor, Lower(t)))
  {
    next := start;
    while next < |candidates| && candidates[next].time < Lower(t)
      invariant start <= next <= |candidates|
      invariant forall j :: start <= j < next ==> candidates[j].time < Lower(t)
    {
      next := next + 1;
    }
  }

  method FindBest(candidates: seq<Candidate>, taken: array<bool>, start: nat, floor: i64, t: i64)
    returns (best: Option<nat>)
    requires ByTime(candidates) && SplitsAt(candidates, start, floor) && taken.Length == |candidates|
    ensures Nearest(candidates, Flags(taken[..]), floor, t, |candidates|, best)
  {
    best := None;
    var bestDelta := 0;
    ghost var used := Flags(taken[..]);
    var index := start;
    while index < |candidates| && candidates[index].time <= Upper(t)
      invariant start <= index <= |candidates|
      invariant Nearest(candidates, used, floor, t, index, best)
      invariant best.Some? ==> bestDelta == Delta(t, candidates[best.value])
    {
      var delta := Delta(t, candidates[index]);
      if !taken[index] && (best.None? || delta < bestDelta) {
        best, bestDelta := Some(index), delta;
      }
      index := index + 1;
    }
    BeyondWindow(candidates, used, floor, t, index, best);
  }

  ghost function Flags(flags: seq<bool>): nat -> bool {
    (j: nat) => j < |flags| && flags[j]
  }

  lemma BeyondWindow(candidates: seq<Candidate>, used: nat -> bool, floor: i64, t: i64, index: nat, best: Option<nat>)
    requires index <= |candidates| && ByTime(candidates)
    requires index < |candidates| ==> Upper(t) < candidates[index].time
    requires Nearest(candidates, used, floor, t, index, best)
    ensures Nearest(candidates, used, floor, t, |candidates|, best)
  {
    forall j: nat | index <= j < |candidates|
      ensures !Eligible(candidates, used, floor, t, j)
    {
      assert candidates[index].time <= candidates[j].time;
    }
  }

  ghost predicate FlagsUsed(flags: seq<bool>, matches: seq<Option<nat>>) {
    forall j: nat :: j < |flags| ==> (flags[j] <==> UsedBefore(matches, |matches|, j))
  }

  lemma MarkUsed(flags: seq<bool>, matches: seq<Option<nat>>, m: Option<nat>)
    requires FlagsUsed(flags, matches) && (m.Some? ==> m.value < |flags|)
    ensures FlagsUsed(if m.Some? then flags[m.value := true] else flags, matches + [m])
  {
    var after := matches + [m];
    forall j: nat | j < |flags|
      ensures UsedBefore(after, |after|, j) <==> UsedBefore(matches, |matches|, j) || m == Some(j)
    {
      assert after[|matches|] == m;
      assert forall p :: 0 <= p < |matches| ==> after[p] == matches[p];
    }
  }

  lemma GreedyGrows(observations: seq<i64>, candidates: seq<Candidate>, matches: seq<Option<nat>>, m: Option<nat>,
      used: nat -> bool)
    requires |matches| < |observations| && Greedy(observations, candidates, matches, |matches|)
    requires forall j: nat :: j < |candidates| ==> (used(j) <==> UsedBefore(matches, |matches|, j))
    requires Nearest(candidates, used, Floor(observations, |matches| + 1), observations[|matches|], |candidates|, m)
    ensures Greedy(observations, candidates, matches + [m], |matches| + 1)
  {
    var after := matches + [m];
    forall i | 0 <= i < |after|
      ensures TakesNearest(observations, candidates, after, i)
    {
      if i < |matches| {
        assert TakesNearest(observations, candidates, matches, i);
        assert after[..i] == matches[..i];
        SameUsed(matches, after, i);
        NearestSame(candidates, UsedBy(matches, i), UsedBy(after, i), Floor(observations, i + 1), observations[i],
                    matches[i]);
      } else {
        assert after[..i] == matches[..i];
        SameUsed(matches, after, i);
        NearestSame(candidates, used, UsedBy(after, i), Floor(observations, i + 1), observations[i], m);
      }
    }
  }

  lemma NearestSame(candidates: seq<Candidate>,
      used: nat -> bool, taken: nat -> bool, floor: i64, t: i64, m: Option<nat>)
    requires forall j: nat :: j < |candidates| ==> used(j) == taken(j)
    requires Nearest(candidates, used, floor, t, |candidates|, m)
    ensures Nearest(candidates, taken, floor, t, |candidates|, m)
  {
    assert forall j: nat :: j < |candidates| ==>
      Eligible(candidates, used, floor, t, j) == Eligible(candidates, taken, floor, t, j);
  }

  /** A match hands its candidate's usage over as confirmed; without one nothing is known. */
  ghost predicate Tells(e: Event, candidates: seq<Candidate>, m: Option<nat>) {
    match m
    case Some(j) => j < |candidates| && e.confirmed && e.usage == candidates[j].usage
    case None => !e.confirmed && forall d: Dimension :: e.usage.Get(d) == 0
  }

  lemma OneMoreMatch(observations: seq<i64>, candidates: seq<Candidate>, matches: seq<Option<nat>>, m: Option<nat>,
      flags: seq<bool>)
    requires |matches| < |observations| && |flags| == |candidates| && FlagsUsed(flags, matches)
    requires Greedy(observations, candidates, matches, |matches|)
    requires Nearest(candidates, Flags(flags), Floor(observations, |matches| + 1), observations[|matches|],
                     |candidates|, m)
    ensures Greedy(observations, candidates, matches + [m], |matches| + 1)
    ensures FlagsUsed(if m.Some? then flags[m.value := true] else flags, matches + [m])
    ensures MatchedCount(matches + [m], |matches| + 1) == MatchedCount(matches, |matches|) + if m.Some? then 1 else 0
  {
    GreedyGrows(observations, candidates, matches, m, Flags(flags));
    MarkUsed(flags, matches, m);
    CountGrows(matches, m);
  }

  /** One observation: moves the window, takes the nearest candidate and marks it. */
  method MatchOne(observations: seq<i64>, candidates: seq<Candidate>, matches: seq<Option<nat>>, taken: array<bool>,
      start: nat)
    returns (next: nat, best: Option<nat>)
    requires ByTime(candidates) && |matches| < |observations| && taken.Length == |candidates|
    requires SplitsAt(candidates, start, Floor(observations, |matches|))
    requires FlagsUsed(taken[..], matches) && Greedy(observations, candidates, matches, |matches|)
    modifies taken
    ensures SplitsAt(candidates, next, Floor(observations, |matches| + 1))
    ensures FlagsUsed(taken[..], matches + [best]) && Greedy(observations, candidates, matches + [best], |matches| + 1)
    ensures best.Some? ==> best.value < |candidates|
    ensures MatchedCount(matches + [best], |matches| + 1)
            == MatchedCount(matches, |matches|) + if best.Some? then 1 else 0
  {
    var t := observations[|matches|];
    next := Advance(candidates, start, Floor(observations, |matches|), t);
    best := FindBest(candidates, taken, next, Floor(observations, |matches| + 1), t);
    OneMoreMatch(observations, candidates, matches, best, taken[..]);
    if best.Some? {
      taken[best.value] := true;
    }
  }

  /**
   * Matches the observations of one thread, in log order, to the usage candidates of its rollout.
   * The result is that of scanning every unused candidate for every observation.
   */
  method MatchThread(observations: seq<i64>, rollout: seq<Candidate>)
    returns (candidates: seq<Candidate>, matches: seq<Option<nat>>, events: seq<Event>, matched: nat, unmatched: nat)
    ensures candidates == SortedByTime(rollout)
    ensures |matches| == |events| == |observations|
    ensures Greedy(observations, candidates, matches, |matches|)
    ensures forall i :: 0 <= i < |events| ==> Tells(events[i], candidates, matches[i])
    ensures matched == |MatchedSet(matches, |matches|)| && matched + unmatched == |observations|
  {
    candidates := SortedByTime(rollout);
    SortedIsByTime(rollout);
    matches, events, matched, unmatched := [], [], 0, 0;
    var taken := new bool[|candidates|](_ => false);
    var start := 0;
    while |matches| < |observations|
      invariant |matches| == |events| <= |observations|
      invariant SplitsAt(candidates, start, Floor(observations, |matches|))
      invariant FlagsUsed(taken[..], matches)
      invariant Greedy(observations, candidates, matches, |matches|)
      invariant forall p :: 0 <= p < |events| ==> Tells(events[p], candidates, matches[p])
      invariant matched == MatchedCount(matches, |matches|) && matched + unmatched == |matches|
    {
      var best;
      start, best := MatchOne(observations, candidates, matches, taken, start);
      if best.Some? {
        matched := matched + 1;
        events := events + [Event(candidates[best.value].usage, true)];
      } else {
        unmatched := unmatched + 1;
        events := events + [Event(ZERO, false)];
      }
      matches := matches + [best];
    }
    CountIsSetSize(matches, |matches|);
  }

  function Earlier(): (Candidate, Candidate) -> bool {
    (a: Candidate, b: Candidate) => a.time <= b.time
  }

  function SortedByTime(rollout: seq<Candidate>): seq<Candidate> {
    Sort(Earlier(), rollout, |rollout|)
  }

  /** The candidates are those of the rollout, in time order; those of one time stay in their order. */
  lemma SortedIsByTime(rollout: seq<Candidate>)
    ensures ByTime(SortedByTime(rollout))
    ensures forall t: i64 :: Only(At(t), SortedByTime(rollout)) == Only(At(t), rollout)
  {
    var dom := set c | c in rollout;
    SortIsRight(Earlier(), rollout, |rollout|, dom);
    assert rollout[..|rollout|] == rollout;
    forall t: i64
      ensures Only(At(t), SortedByTime(rollout)) == Only(At(t), rollout)
    {
      SortIsStable(Earlier(), rollout, |rollout|, At(t));
    }
  }

  ghost function At(t: i64): Candidate -> bool {
    (c: Candidate) => c.time == t
  }

  function MatchedCount(matches: seq<Option<nat>>, k: nat): nat
    requires k <= |matches|
  {
    if k == 0 then 0 else MatchedCount(matches, k - 1) + if matches[k - 1].Some? then 1 else 0
  }

  lemma {:induction false} CountPrefix(a: seq<Option<nat>>, b: seq<Option<nat>>, k: nat)
    requires k <= |a| && a <= b
    ensures MatchedCount(a, k) == MatchedCount(b, k)
  {
    if k > 0 {
      CountPrefix(a, b, k - 1);
    }
  }

  lemma CountGrows(matches: seq<Option<nat>>, m: Option<nat>)
    ensures MatchedCount(matches + [m], |matches| + 1)
            == MatchedCount(matches, |matches|) + if m.Some? then 1 else 0
  {
    CountPrefix(matches, matches + [m], |matches|);
  }

  // ----- what every matching guarantees -----

  ghost predicate OneToOne(matches: seq<Option<nat>>) {
    forall p, q :: 0 <= p < q < |matches| && matches[p].Some? ==> matches[p] != matches[q]
  }

  ghost predicate Within(observations: seq<i64>, candidates: seq<Candidate>, matches: seq<Option<nat>>)
    requires |matches| == |observations|
  {
    forall i :: 0 <= i < |matches| && matches[i].Some? ==>
      && matches[i].value < |candidates|
      && -250_000_000 <= candidates[matches[i].value].time - observations[i] <= 250_000_000
  }

  /** In any order of observations, no candidate is used twice. */
  lemma GreedyIsOneToOne(observations: seq<i64>, candidates: seq<Candidate>, matches: seq<Option<nat>>)
    requires |matches| == |observations| && Greedy(observations, candidates, matches, |matches|)
    ensures OneToOne(matches)
  {
    forall p, q | 0 <= p < q < |matches| && matches[p].Some?
      ensures matches[p] != matches[q]
    {
      assert TakesNearest(observations, candidates, matches, q);
      if matches[p] == matches[q] {
        assert UsedBefore(matches, q, matches[p].value);
      }
    }
  }

  /** In any order of observations, every match is within the tolerance. */
  lemma GreedyIsWithin(observations: seq<i64>, candidates: seq<Candidate>, matches: seq<Option<nat>>)
    requires |matches| == |observations| && Greedy(observations, candidates, matches, |matches|)
    ensures Within(observations, candidates, matches)
  {
    forall i | 0 <= i < |matches| && matches[i].Some?
      ensures matches[i].value < |candidates|
      ensures -250_000_000 <= candidates[matches[i].value].time - observations[i] <= 250_000_000
    {
      assert TakesNearest(observations, candidates, matches, i);
      assert Lower(observations[i]) <= Floor(observations, i + 1);
    }
  }

  ghost function MatchedSet(matches: seq<Option<nat>>, k: nat): set<nat>
    requires k <= |matches|
  {
    set i: nat | i < k && matches[i].Some?
  }

  ghost function Partners(matches: seq<Option<nat>>, s: set<nat>): set<nat>
    requires forall i :: i in s ==> i < |matches| && matches[i].Some?
  {
    set i | i in s :: matches[i].value
  }

  /** The candidates used by the first `k` observations. */
  ghost function UsedSet(matches: seq<Option<nat>>, k: nat): set<nat>
    requires k <= |matches|
  {
    Partners(matches, MatchedSet(matches, k))
  }

  ghost function UsageOf(candidates: seq<Candidate>, d: Dimension): nat -> nat {
    (j: nat) => if j < |candidates| then candidates[j].usage.Get(d) else 0
  }

  ghost function EventUsage(d: Dimension): Event -> nat {
    (e: Event) => e.usage.Get(d)
  }

  /** Usage is only moved: the events' total is that of the candidates they used, dimension by dimension. */
  lemma {:induction false} UsageIsMoved(candidates: seq<Candidate>, d: Dimension, matches: seq<Option<nat>>,
      events: seq<Event>, k: nat)
    requires OneToOne(matches) && k <= |matches| == |events|
    requires forall i :: 0 <= i < |events| ==> Tells(events[i], candidates, matches[i])
    ensures SumSeq(events, k, EventUsage(d)) == SumOver(UsedSet(matches, k), UsageOf(candidates, d))
  {
    if k > 0 {
      UsageIsMoved(candidates, d, matches, events, k - 1);
      UsedGrows(matches, k);
      assert Tells(events[k - 1], candidates, matches[k - 1]);
      if matches[k - 1].Some? {
        var j := matches[k - 1].value;
        SumOverRemove(UsedSet(matches, k), UsageOf(candidates, d), j);
        assert UsedSet(matches, k) - {j} == UsedSet(matches, k - 1);
      }
    }
  }

  lemma UsedGrows(matches: seq<Option<nat>>, k: nat)
    requires OneToOne(matches) && 0 < k <= |matches|
    ensures matches[k - 1].None? ==> UsedSet(matches, k) == UsedSet(matches, k - 1)
    ensures matches[k - 1].Some? ==>
              && UsedSet(matches, k) == UsedSet(matches, k - 1) + {matches[k - 1].value}
              && matches[k - 1].value !in UsedSet(matches, k - 1)
  {
    if matches[k - 1].Some? {
      assert MatchedSet(matches, k) == MatchedSet(matches, k - 1) + {k - 1};
    } else {
      assert MatchedSet(matches, k) == MatchedSet(matches, k - 1);
    }
  }

  // ----- how good the matching is while the window does not run ahead -----

  /** The window an observation is matched in is its own. */
  ghost predicate FloorsAreWindows(observations: seq<i64>) {
    forall i :: 0 <= i < |observations| ==> Floor(observations, i + 1) == Lower(observations[i])
  }

  ghost predicate InTimeOrder(observations: seq<i64>) {
    forall i, j :: 0 <= i < j < |observations| ==> observations[i] <= observations[j]
  }

  lemma {:induction false} FloorIsWindow(observations: seq<i64>, k: nat)
    requires k < |observations| && InTimeOrder(observations)
    ensures Floor(observations, k + 1) == Lower(observations[k])
  {
    if k > 0 {
      FloorIsWindow(observations, k - 1);
    }
  }

  /** As it is in a log in time order. */
  lemma TimeOrderKeepsWindows(observations: seq<i64>)
    requires InTimeOrder(observations)
    ensures FloorsAreWindows(observations)
  {
    forall i | 0 <= i < |observations|
      ensures Floor(observations, i + 1) == Lower(observations[i])
    {
      FloorIsWindow(observations, i);
    }
  }

  /** Then the scan considers exactly the unused candidates within the tolerance. */
  lemma EligibleIsInReach(observations: seq<i64>, candidates: seq<Candidate>, used: nat -> bool, i: nat, j: nat)
    requires FloorsAreWindows(observations) && i < |observations| && j < |candidates|
    ensures Eligible(candidates, used, Floor(observations, i + 1), observations[i], j)
            <==> Delta(observations[i], candidates[j]) <= TOLERANCE && !used(j)
  {
    assert Floor(observations, i + 1) == Lower(observations[i]);
  }

  ghost predicate IsGreedy(observations: seq<i64>, candidates: seq<Candidate>, matches: seq<Option<nat>>) {
    |matches| == |observations| && Greedy(observations, candidates, matches, |matches|)
  }

  /** An observation is left without a candidate although one in its reach was free. */
  ghost predicate Missed(observations: seq<i64>, candidates: seq<Candidate>, matches: seq<Option<nat>>, i: nat, j: nat)
    requires |matches| == |observations|
  {
    && i < |matches| && matches[i].None?
    && j < |candidates| && Delta(observations[i], candidates[j]) <= TOLERANCE && !UsedBefore(matches, i, j)
  }

  /** An observation stays unmatched only if everything in its reach was taken before. */
  lemma UnmatchedHasNothingLeft(observations: seq<i64>, candidates: seq<Candidate>, matches: seq<Option<nat>>, i: nat,
      j: nat)
    requires IsGreedy(observations, candidates, matches) && FloorsAreWindows(observations)
    ensures !Missed(observations, candidates, matches, i, j)
  {
    if i < |matches| && matches[i].None? && j < |candidates| {
      EligibleIsInReach(observations, candidates, UsedBy(matches, i), i, j);
      assert TakesNearest(observations, candidates, matches, i);
      assert !Eligible(candidates, UsedBy(matches, i), Floor(observations, i + 1), observations[i], j);
    }
  }

  /** Whatever the candidates are, no observation misses one. */
  ghost predicate NeverMisses(observations: seq<i64>) {
    forall candidates, matches, i: nat, j: nat ::
      ByTime(candidates) && IsGreedy(observations, candidates, matches) ==>
        !Missed(observations, candidates, matches, i, j)
  }

  lemma {:induction false} CountIsSetSize(matches: seq<Option<nat>>, k: nat)
    requires k <= |matches|
    ensures |MatchedSet(matches, k)| == MatchedCount(matches, k)
  {
    if k > 0 {
      CountIsSetSize(matches, k - 1);
      if matches[k - 1].Some? {
        assert MatchedSet(matches, k) == MatchedSet(matches, k - 1) + {k - 1};
      } else {
        assert MatchedSet(matches, k) == MatchedSet(matches, k - 1);
      }
    }
  }

  lemma {:induction false} PartnersAreAsMany(matches: seq<Option<nat>>, s: set<nat>)
    requires OneToOne(matches) && forall i :: i in s ==> i < |matches| && matches[i].Some?
    ensures |Partners(matches, s)| == |s|
    decreases s
  {
    if s != {} {
      var x := Pick(s);
      PartnersAreAsMany(matches, s - {x});
      assert Partners(matches, s) == Partners(matches, s - {x}) + {matches[x].value};
      assert matches[x].value !in Partners(matches, s - {x});
    }
  }

  /** Whatever an observation of its own reaches in another matching, the scan has used. */
  lemma OthersCandidateIsUsed(observations: seq<i64>, candidates: seq<Candidate>,
                              greedy: seq<Option<nat>>, other: seq<Option<nat>>, i: nat)
    requires |greedy| == |other| == |observations| && FloorsAreWindows(observations)
    requires Greedy(observations, candidates, greedy, |greedy|) && Within(observations, candidates, other)
    requires i < |other| && other[i].Some? && greedy[i].None?
    ensures other[i].value in UsedSet(greedy, |greedy|)
  {
    var j := other[i].value;
    UnmatchedHasNothingLeft(observations, candidates, greedy, i, j);
    var p :| 0 <= p < i && greedy[p] == Some(j);
    assert p in MatchedSet(greedy, |greedy|);
  }

  /** Observations that only the other matching matches take different candidates the scan has used. */
  lemma ExtraMatchesAreFew(greedy: seq<Option<nat>>, other: seq<Option<nat>>, extra: set<nat>)
    requires OneToOne(greedy) && OneToOne(other)
    requires forall i :: i in extra ==> i < |other| && other[i].Some? && other[i].value in UsedSet(greedy, |greedy|)
    ensures |extra| <= MatchedCount(greedy, |greedy|)
  {
    PartnersAreAsMany(other, extra);
    PartnersAreAsMany(greedy, MatchedSet(greedy, |greedy|));
    SubsetIsSmaller(Partners(other, extra), UsedSet(greedy, |greedy|));
    CountIsSetSize(greedy, |greedy|);
  }

  lemma CountSplits(greedy: seq<Option<nat>>, other: seq<Option<nat>>, extra: set<nat>)
    requires |greedy| == |other| && extra == MatchedSet(other, |other|) - MatchedSet(greedy, |greedy|)
    ensures MatchedCount(other, |other|) <= MatchedCount(greedy, |greedy|) + |extra|
  {
    var mine, theirs := MatchedSet(greedy, |greedy|), MatchedSet(other, |other|);
    CountIsSetSize(greedy, |greedy|);
    CountIsSetSize(other, |other|);
    SizeOfParts(theirs, mine);
    SubsetIsSmaller(theirs * mine, mine);
  }

  /**
   * While the window does not run ahead, no one-to-one matching within the tolerance, however
   * clever, matches more than twice as many observations.
   */
  lemma AtLeastHalfOfAnyMatching(observations: seq<i64>, candidates: seq<Candidate>,
                                 greedy: seq<Option<nat>>, other: seq<Option<nat>>)
    requires |greedy| == |other| == |observations| && FloorsAreWindows(observations)
    requires Greedy(observations, candidates, greedy, |greedy|)
    requires OneToOne(other) && Within(observations, candidates, other)
    ensures MatchedCount(other, |other|) <= 2 * MatchedCount(greedy, |greedy|)
  {
    GreedyIsOneToOne(observations, candidates, greedy);
    var extra := MatchedSet(other, |other|) - MatchedSet(greedy, |greedy|);
    forall i | i in extra
      ensures other[i].value in UsedSet(greedy, |greedy|)
    {
      OthersCandidateIsUsed(observations, candidates, greedy, other, i);
    }
    ExtraMatchesAreFew(greedy, other, extra);
    CountSplits(greedy, other, extra);
  }

  // ----- when the window runs ahead -----

  ghost function NearestBelow(candidates: seq<Candidate>, used: nat -> bool, floor: i64, t: i64,
      k: nat): (m: Option<nat>)
    requires k <= |candidates|
    ensures Nearest(candidates, used, floor, t, k, m)
  {
    if k == 0 then None else
      var m := NearestBelow(candidates, used, floor, t, k - 1);
      if Eligible(candidates, used, floor, t, k - 1)
         && (m.None? || Delta(t, candidates[k - 1]) < Delta(t, candidates[m.value]))
      then Some(k - 1) else m
  }

  /** What the scan finds for the first `k` observations. */
  ghost function Scan(observations: seq<i64>, candidates: seq<Candidate>, k: nat): (matches: seq<Option<nat>>)
    requires k <= |observations|
    ensures |matches| == k && Greedy(observations, candidates, matches, k)
  {
    if k == 0 then [] else
      var matches := Scan(observations, candidates, k - 1);
      var used := UsedBy(matches, k - 1);
      var m := NearestBelow(candidates, used, Floor(observations, k), observations[k - 1], |candidates|);
      GreedyGrows(observations, candidates, matches, m, used);
      matches + [m]
  }

  ghost function Numbers(n: nat): (s: set<nat>)
    ensures |s| == n && forall j :: j in s ==> j < n
  {
    if n == 0 then {} else Numbers(n - 1) + {n - 1}
  }

  lemma {:induction false} CountIsBounded(matches: seq<Option<nat>>, k: nat)
    requires k <= |matches|
    ensures MatchedCount(matches, k) <= k
  {
    if k > 0 {
      CountIsBounded(matches, k - 1);
    }
  }

  /** Of more than `i` candidates, the first `i` observations leave one free. */
  lemma OneIsFree(matches: seq<Option<nat>>, i: nat) returns (j: nat)
    requires OneToOne(matches) && i < |matches|
    ensures j <= i && !UsedBefore(matches, i, j)
  {
    var all := Numbers(i + 1);
    var used := UsedSet(matches, i);
    PartnersAreAsMany(matches, MatchedSet(matches, i));
    CountIsSetSize(matches, i);
    CountIsBounded(matches, i);
    if all <= used {
      SubsetIsSmaller(all, used);
      assert false;
    }
    j :| j in all && j !in used;
    assert forall p: nat :: p < i && matches[p].Some? ==> p in MatchedSet(matches, i) && matches[p].value in used;
  }

  /** As many candidates as there are observations so far, all where the window of observation `i` begins. */
  ghost function AtWindowStart(observations: seq<i64>, i: nat): seq<Candidate>
    requires i < |observations|
  {
    seq(i + 1, _ => Candidate(Lower(observations[i]), ZERO))
  }

  /** Once the floor is past the observation's own window, there are candidates it misses. */
  lemma WindowRunsAhead(observations: seq<i64>, matches: seq<Option<nat>>, i: nat) returns (j: nat)
    requires i < |observations| && Floor(observations, i + 1) != Lower(observations[i])
    requires IsGreedy(observations, AtWindowStart(observations, i), matches)
    ensures Missed(observations, AtWindowStart(observations, i), matches, i, j)
  {
    var candidates := AtWindowStart(observations, i);
    GreedyIsOneToOne(observations, candidates, matches);
    j := OneIsFree(matches, i);
    assert TakesNearest(observations, candidates, matches, i);
  }

  /**
   * For observations in any order: no candidate in reach is ever missed, whatever the candidates
   * are, exactly when every observation is matched in its own window.
   */
  lemma NeverMissesIffFloorsAreWindows(observations: seq<i64>)
    ensures NeverMisses(observations) <==> FloorsAreWindows(observations)
  {
    if FloorsAreWindows(observations) {
      forall candidates, matches, i: nat, j: nat | ByTime(candidates) && IsGreedy(observations, candidates, matches)
        ensures !Missed(observations, candidates, matches, i, j)
      {
        UnmatchedHasNothingLeft(observations, candidates, matches, i, j);
      }
    } else {
      var i :| 0 <= i < |observations| && Floor(observations, i + 1) != Lower(observations[i]);
      var candidates := AtWindowStart(observations, i);
      var matches := Scan(observations, candidates, |observations|);
      var j := WindowRunsAhead(observations, matches, i);
      assert ByTime(candidates) && IsGreedy(observations, candidates, matches);
    }
  }

  /** Out of time order the guarantee is lost: the window never moves back. */
  lemma OutOfOrderMissesEverything()
    ensures var observations: seq<i64>, candidates := [1_000_000_000, 0], [Candidate(0, ZERO)];
      && Greedy(observations, candidates, [None, None], 2)
      && OneToOne([None, Some(0)]) && Within(observations, candidates, [None, Some(0)])
      && MatchedCount([None, None], 2) == 0 && MatchedCount([None, Some(0)], 2) == 1
  {
    var observations: seq<i64>, candidates := [1_000_000_000, 0], [Candidate(0, ZERO)];
    assert Floor(observations, 0) == I64_MIN;
    assert Floor(observations, 1) == 750_000_000 && Floor(observations, 2) == 750_000_000;
    var none: seq<Option<nat>> := [None, None];
    assert TakesNearest(observations, candidates, none, 0) && TakesNearest(observations, candidates, none, 1);
    var one: seq<Option<nat>> := [None, Some(0)];
    assert MatchedCount(one, 0) == 0 && MatchedCount(one, 1) == 0;
    assert MatchedCount(none, 0) == 0 && MatchedCount(none, 1) == 0;
  }
}
