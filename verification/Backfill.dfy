/** Building the daily rollup from rows that existed before it (src/store/maintenance_repository.rs). */
module Backfill {
  import opened Prelude
  import opened Types
  import opened Sums
  import opened UsageTables

  const MAX_BATCH := 250_000

  type RowId = nat

  /** The rows of the event table by row id, the rollup, and how far the rollup reaches. */
  datatype Progress = Progress(
    rows: map<RowId, Event>,
    daily: Rollup,
    lastBackfilled: nat,
    target: nat,
    complete: bool)

  ghost function RowsBetween(rows: map<RowId, Event>, low: nat, high: nat): set<RowId> {
    set r | r in rows && low < r <= high
  }

  ghost function Pending(p: Progress): set<RowId> {
    RowsBetween(p.rows, p.lastBackfilled, p.target)
  }

  // ----- the steps -----

  ghost predicate AddsAt(after: Rollup, before: Rollup, rows: map<RowId, Event>, s: set<RowId>, key: RowKey) {
    forall m: Measure :: At(after, key).Get(m) == At(before, key).Get(m) + SumOver(s, Share(rows, Daily, key, m))
  }

  /** The grouped sums of the rows in `s` were added. */
  ghost predicate AddsRows(after: Rollup, before: Rollup, rows: map<RowId, Event>, s: set<RowId>) {
    forall key: RowKey :: AddsAt(after, before, rows, s, key)
  }

  /** One chunk: the next `limit` pending rows in row order, or all of them if there are fewer. */
  ghost predicate ChunkStep(p: Progress, limit: nat, q: Progress) {
    && q.rows == p.rows && q.target == p.target
    && if p.complete then q == p
       else if Pending(p) == {} then q == p.(complete := true)
       else
         && q.lastBackfilled in Pending(p)
         && |RowsBetween(p.rows, p.lastBackfilled, q.lastBackfilled)|
            == Min(Max(1, Min(limit, MAX_BATCH)), |Pending(p)|)
         && AddsRows(q.daily, p.daily, p.rows, RowsBetween(p.rows, p.lastBackfilled, q.lastBackfilled))
         && q.complete == (q.lastBackfilled >= p.target)
  }

  /** Row ids grow: a new row lies above the target, and its insert trigger counts it. */
  ghost predicate InsertStep(p: Progress, r: RowId, e: Event, q: Progress) {
    r !in p.rows && r > p.target && q == p.(rows := p.rows[r := e], daily := Add(p.daily, Daily, e))
  }

  // ----- what they keep -----

  ghost predicate IsCounted(p: Progress, r: RowId) {
    r <= p.lastBackfilled || p.target < r
  }

  ghost function Counted(p: Progress): map<RowId, Event> {
    map r | r in p.rows && IsCounted(p, r) :: p.rows[r]
  }

  ghost predicate OnTrack(p: Progress) {
    && Indexes(p.daily, Counted(p), Daily)
    && (p.complete ==> Pending(p) == {})
  }

  /** `b` is `a` extended by the rows in `s`. */
  ghost predicate Extends(b: map<RowId, Event>, a: map<RowId, Event>, rows: map<RowId, Event>, s: set<RowId>) {
    && b.Keys == a.Keys + s && a.Keys !! s && s <= rows.Keys
    && (forall r :: r in a ==> b[r] == a[r])
    && (forall r :: r in s ==> b[r] == rows[r])
  }

  lemma ExtendedGroup(b: map<RowId, Event>, a: map<RowId, Event>, rows: map<RowId, Event>, s: set<RowId>, key: RowKey,
      m: Measure)
    requires Extends(b, a, rows, s)
    ensures Grouped(b, Daily)(key, m) == Grouped(a, Daily)(key, m) + SumOver(s, Share(rows, Daily, key, m))
  {
    SumOverUnion(a.Keys, s, Share(b, Daily, key, m));
    SameShares(b, a, a.Keys, Daily, key, m);
    SameShares(b, rows, s, Daily, key, m);
  }

  lemma AddedRowsAreIndexed(before: Rollup, after: Rollup, a: map<RowId, Event>, b: map<RowId, Event>,
                            rows: map<RowId, Event>, s: set<RowId>)
    requires Indexes(before, a, Daily) && AddsRows(after, before, rows, s) && Extends(b, a, rows, s)
    ensures Indexes(after, b, Daily)
  {
    forall key: RowKey
      ensures ShowsAt(after, Grouped(b, Daily), key)
    {
      assert ShowsAt(before, Grouped(a, Daily), key) && AddsAt(after, before, rows, s, key);
      forall m: Measure
        ensures At(after, key).Get(m) == Grouped(b, Daily)(key, m)
      {
        ExtendedGroup(b, a, rows, s, key, m);
      }
    }
  }

  lemma ChunkCounts(p: Progress, q: Progress)
    requires q.rows == p.rows && q.target == p.target && q.lastBackfilled in Pending(p)
    ensures Extends(Counted(q), Counted(p), p.rows, RowsBetween(p.rows, p.lastBackfilled, q.lastBackfilled))
  {
  }

  /** A chunk of any size keeps the rollup equal to the grouped sum of the counted rows. */
  lemma ChunkKeepsOnTrack(p: Progress, limit: nat, q: Progress)
    requires OnTrack(p) && ChunkStep(p, limit, q)
    ensures OnTrack(q)
  {
    if p.complete || Pending(p) == {} {
      assert Counted(q) == Counted(p);
    } else {
      ChunkCounts(p, q);
      AddedRowsAreIndexed(p.daily, q.daily, Counted(p), Counted(q), p.rows,
                          RowsBetween(p.rows, p.lastBackfilled, q.lastBackfilled));
    }
  }

  lemma InsertKeepsOnTrack(p: Progress, r: RowId, e: Event, q: Progress)
    requires OnTrack(p) && InsertStep(p, r, e, q)
    ensures OnTrack(q)
  {
    assert Counted(q) == Counted(p)[r := e];
    AddIndexes(p.daily, Counted(p), r, e, Daily);
    assert Pending(q) == Pending(p);
  }

  /** Work left, which every chunk reduces until the backfill is complete. */
  ghost function Left(p: Progress): nat {
    |Pending(p)| + if p.complete then 0 else 1
  }

  lemma ChunkReducesWork(p: Progress, limit: nat, q: Progress)
    requires ChunkStep(p, limit, q) && !p.complete
    ensures Left(q) < Left(p)
  {
    if Pending(p) != {} {
      var r := q.lastBackfilled;
      assert Pending(q) <= Pending(p) - {r};
      SubsetIsSmaller(Pending(q), Pending(p) - {r});
    }
  }

  // ----- runs -----

  /** A backfill of chunks of any sizes, with new rows arriving in between. */
  ghost predicate IsRun(states: seq<Progress>) {
    forall i :: 0 < i < |states| ==> IsStep(states[i - 1], states[i])
  }

  ghost predicate IsStep(p: Progress, q: Progress) {
    (exists limit: nat :: ChunkStep(p, limit, q)) || (exists r: RowId, e: Event :: InsertStep(p, r, e, q))
  }

  lemma {:induction false} RunKeepsOnTrack(states: seq<Progress>, k: nat)
    requires k < |states| && IsRun(states) && OnTrack(states[0])
    ensures OnTrack(states[k])
  {
    if k > 0 {
      RunKeepsOnTrack(states, k - 1);
      var p, q := states[k - 1], states[k];
      assert IsStep(p, q);
      if limit: nat :| ChunkStep(p, limit, q) {
        ChunkKeepsOnTrack(p, limit, q);
      } else {
        var r: RowId, e: Event :| InsertStep(p, r, e, q);
        InsertKeepsOnTrack(p, r, e, q);
      }
    }
  }

  /** Before the first chunk nothing is counted but what the triggers saw. */
  ghost predicate Starts(p: Progress) {
    && p.lastBackfilled == 0 && p.daily == map[]
    && (forall r :: r in p.rows ==> 0 < r <= p.target)
    && (p.complete ==> p.rows == map[])
  }

  /** When the backfill says it is complete, every row is counted, and exactly once. */
  lemma CompleteMeansEveryRow(states: seq<Progress>, k: nat)
    requires k < |states| && IsRun(states) && Starts(states[0]) && states[k].complete
    ensures Indexes(states[k].daily, states[k].rows, Daily)
  {
    NothingCountedAtStart(states[0]);
    RunKeepsOnTrack(states, k);
    var p := states[k];
    forall r | r in p.rows
      ensures IsCounted(p, r)
    {
      assert r !in Pending(p);
    }
    assert Counted(p) == p.rows;
  }

  lemma NothingCountedAtStart(p: Progress)
    requires Starts(p)
    ensures OnTrack(p)
  {
    assert Counted(p) == map[];
    assert Indexes(p.daily, map[], Daily);
  }

  /** So chunk sizes do not matter: two rollups of the same rows show the same everywhere. */
  lemma ChunkSizesDoNotMatter(a: Rollup, b: Rollup, rows: map<RowId, Event>, key: RowKey, m: Measure)
    requires Indexes(a, rows, Daily) && Indexes(b, rows, Daily)
    ensures At(a, key).Get(m) == At(b, key).Get(m)
  {
    assert ShowsAt(a, Grouped(rows, Daily), key) && ShowsAt(b, Grouped(rows, Daily), key);
  }

  // ----- the table itself -----

  class RollupTable {
    var rows: map<RowId, Event>
    var daily: Rollup
    var lastBackfilled: nat
    var target: nat
    var complete: bool

    function Value(): Progress
      reads this
    {
      Progress(rows, daily, lastBackfilled, target, complete)
    }

    constructor (p: Progress)
      ensures Value() == p
    {
      rows, daily, lastBackfilled, target, complete := p.rows, p.daily, p.lastBackfilled, p.target, p.complete;
    }

    method BackfillRollupChunk(batchSize: nat)
      modifies `daily, `lastBackfilled, `complete
      ensures ChunkStep(old(Value()), batchSize, Value())
    {
      if complete {
        return;
      }
      var end := EndOfChunk(Max(1, Min(batchSize, MAX_BATCH)));
      if end <= lastBackfilled {
        complete := true;
        return;
      }
      AddGroups(lastBackfilled, end);
      lastBackfilled := end;
      complete := end >= target;
    }

    /** The last of the next `limit` pending rows. */
    method EndOfChunk(limit: nat) returns (end: nat)
      requires limit > 0
      ensures Pending(Value()) == {} ==> end == lastBackfilled
      ensures Pending(Value()) != {} ==> end in Pending(Value())
      ensures |RowsBetween(rows, lastBackfilled, end)| == Min(limit, |Pending(Value())|)
    {
      end := lastBackfilled;
      var rest := set r | r in rows && lastBackfilled < r <= target;
      var count := 0;
      ghost var pending := rest;
      assert RowsBetween(rows, lastBackfilled, end) == {};
      while count < limit && rest != {}
        invariant IsSplit(pending, rows, lastBackfilled, end, rest)
        invariant count == |RowsBetween(rows, lastBackfilled, end)| <= limit
        invariant if count == 0 then end == lastBackfilled else end in pending
        decreases rest
      {
        SmallestExists(rest);
        var r :| r in rest && IsSmallest(rest, r);
        NextRow(pending, rows, lastBackfilled, end, rest, r);
        rest, end, count := rest - {r}, r, count + 1;
      }
    }

    method AddGroups(low: nat, high: nat)
      modifies `daily
      ensures AddsRows(daily, old(daily), rows, RowsBetween(rows, low, high))
    {
      ghost var before := daily;
      var rest := set r | r in rows && low < r <= high;
      ghost var done: set<RowId> := {};
      while rest != {}
        invariant done !! rest && done + rest == RowsBetween(rows, low, high)
        invariant AddsRows(daily, before, rows, done)
        decreases rest
      {
        var r :| r in rest;
        AddOne(daily, before, rows, done, r);
        daily := Add(daily, Daily, rows[r]);
        done, rest := done + {r}, rest - {r};
      }
    }

    /** Runs chunks until the backfill is complete. */
    method PrepareFastLedger(batchSize: nat)
      requires OnTrack(Value())
      modifies `daily, `lastBackfilled, `complete
      ensures complete && OnTrack(Value()) && Indexes(daily, rows, Daily)
    {
      while !complete
        invariant OnTrack(Value())
        decreases Left(Value())
      {
        ghost var p := Value();
        BackfillRollupChunk(batchSize);
        ChunkKeepsOnTrack(p, batchSize, Value());
        ChunkReducesWork(p, batchSize, Value());
      }
      forall r | r in rows
        ensures IsCounted(Value(), r)
      {
        assert r !in Pending(Value());
      }
      assert Counted(Value()) == rows;
    }
  }

  predicate IsSmallest(s: set<nat>, r: nat) {
    r in s && forall x :: x in s ==> r <= x
  }

  lemma {:induction false} SmallestExists(s: set<nat>)
    requires s != {}
    ensures exists r :: IsSmallest(s, r)
    decreases s
  {
    var z :| z in s;
    if s == {z} {
      assert IsSmallest(s, z);
    } else {
      SmallestExists(s - {z});
      var r: nat :| IsSmallest(s - {z}, r);
      var least: nat := if r <= z then r else z;
      assert forall x :: x in s ==> x == z || x in s - {z};
      assert IsSmallest(s, least);
    }
  }

  /** Up to `end`, the rows are taken; `rest` are the others, and lie behind it. */
  ghost predicate IsSplit(pending: set<RowId>, rows: map<RowId, Event>, low: nat, end: nat, rest: set<RowId>) {
    && pending == RowsBetween(rows, low, end) + rest
    && RowsBetween(rows, low, end) !! rest
    && |pending| == |RowsBetween(rows, low, end)| + |rest|
    && low <= end && forall r :: r in rest ==> r in rows && end < r
  }

  lemma NextRow(pending: set<RowId>, rows: map<RowId, Event>, low: nat, end: nat, rest: set<RowId>, r: RowId)
    requires IsSplit(pending, rows, low, end, rest) && IsSmallest(rest, r)
    requires forall x :: x in rows && low < x <= r ==> x in pending
    ensures IsSplit(pending, rows, low, r, rest - {r})
    ensures |RowsBetween(rows, low, r)| == |RowsBetween(rows, low, end)| + 1
  {
    assert RowsBetween(rows, low, r) == RowsBetween(rows, low, end) + {r};
  }

  lemma AddOneAt(daily: Rollup, before: Rollup, rows: map<RowId, Event>, done: set<RowId>, r: RowId, key: RowKey)
    requires AddsRows(daily, before, rows, done) && r in rows && r !in done
    ensures AddsAt(Add(daily, Daily, rows[r]), before, rows, done + {r}, key)
  {
    assert AddsAt(daily, before, rows, done, key);
    forall m: Measure
      ensures SumOver(done + {r}, Share(rows, Daily, key, m))
              == SumOver(done, Share(rows, Daily, key, m)) + Share(rows, Daily, key, m)(r)
    {
      SumOverRemove(done + {r}, Share(rows, Daily, key, m), r);
      assert done + {r} - {r} == done;
    }
  }

  lemma AddOne(daily: Rollup, before: Rollup, rows: map<RowId, Event>, done: set<RowId>, r: RowId)
    requires AddsRows(daily, before, rows, done) && r in rows && r !in done
    ensures AddsRows(Add(daily, Daily, rows[r]), before, rows, done + {r})
  {
    var added, now := Add(daily, Daily, rows[r]), done + {r};
    forall key: RowKey
      ensures AddsAt(added, before, rows, now, key)
    {
      AddOneAt(daily, before, rows, done, r, key);
    }
  }
}
