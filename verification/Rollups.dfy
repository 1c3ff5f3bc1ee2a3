/**
 * Usage facts, their compaction and the rollups that count them (src/store.rs,
 * src/store/ingest_repository.rs, src/store/maintenance_repository.rs).
 */
module Rollups {
  import opened Prelude
  import opened Types
  import opened Sums
  import opened UsageTables

  const RETENTION_DAYS := 7

  // ----- transactions -----

  datatype StoreError =
    | InvalidConfirmedUsage
    | CompactedEventConflict(id: Id)
    | ValueOutOfRange
    | CursorRegression(oldOffset: nat, newOffset: nat)
    | RollupNotVerified
    | RollupMismatch

  datatype Cursor = Cursor(source: string, fileIdentity: string, byteOffset: nat)

  /** The compacted keys hold a digest of the whole event; digests are taken to be injective. */
  datatype State = State(
    raw: map<Id, Event>,
    compacted: map<Id, Event>,
    daily: Rollup,
    hourly: Rollup,
    cursors: map<string, Cursor>)

  function Cutoff(now: int): int {
    now - RETENTION_DAYS * DAY
  }

  predicate FitsColumns(u: TokenUsage) {
    && u.input <= I64_MAX && u.cached <= I64_MAX && u.cacheWrite <= I64_MAX && u.cacheWriteObserved <= I64_MAX
    && u.output <= I64_MAX && u.reasoning <= I64_MAX && u.total <= I64_MAX
  }

  predicate Acceptable(e: Event) {
    e.quality == Confirmed ==> e.usage.Valid()
  }

  /** A table after the raw event `e` is inserted, or replaces what was raw under its id. */
  function Triggered(t: Rollup, g: Grain, raw: map<Id, Event>, e: Event): Rollup {
    if e.id in raw then Update(t, g, raw[e.id], e) else Add(t, g, e)
  }

  function PutRaw(s: State, e: Event): Result<State, StoreError> {
    if !Acceptable(e) then Err(InvalidConfirmedUsage)
    else if e.id in s.raw && s.raw[e.id] == e then Ok(s)
    else if !FitsColumns(e.usage) then Err(ValueOutOfRange)
    else Ok(s.(raw := s.raw[e.id := e],
               daily := Triggered(s.daily, Daily, s.raw, e),
               hourly := Triggered(s.hourly, Hourly, s.raw, e)))
  }

  /** A new event only leaves its key and its weight in the daily table. */
  function PutCompact(s: State, e: Event): Result<State, StoreError> {
    if e.id in s.raw then PutRaw(s, e)
    else if e.id in s.compacted then
      if s.compacted[e.id] == e then Ok(s) else Err(CompactedEventConflict(e.id))
    else if !Acceptable(e) then Err(InvalidConfirmedUsage)
    else if !FitsColumns(e.usage) then Err(ValueOutOfRange)
    else Ok(s.(compacted := s.compacted[e.id := e], daily := Add(s.daily, Daily, e)))
  }

  /** Events past the retention period go straight to the compacted keys. */
  function Put(s: State, now: int, e: Event): Result<State, StoreError> {
    if e.EffectiveAt() < Cutoff(now) then PutCompact(s, e) else PutRaw(s, e)
  }

  function PutAll(s: State, now: int, events: seq<Event>, k: nat): Result<State, StoreError>
    requires k <= |events|
  {
    if k == 0 then Ok(s)
    else
      var before := PutAll(s, now, events, k - 1);
      if before.Err? then before else Put(before.value, now, events[k - 1])
  }

  function AdvanceCursor(cursors: map<string, Cursor>, c: Cursor): Result<map<string, Cursor>, StoreError> {
    if && c.source in cursors && cursors[c.source].fileIdentity == c.fileIdentity
       && c.byteOffset < cursors[c.source].byteOffset
    then Err(CursorRegression(cursors[c.source].byteOffset, c.byteOffset))
    else Ok(cursors[c.source := c])
  }

  /** Verified events are stored with their details, however old they are. */
  function PutVerified(s: State, events: seq<Event>, k: nat): Result<State, StoreError>
    requires k <= |events|
  {
    if k == 0 then Ok(s)
    else
      var before := PutVerified(s, events, k - 1);
      if before.Err? then before else PutRaw(before.value, events[k - 1])
  }

  function WithCursor(put: Result<State, StoreError>, c: Cursor): Result<State, StoreError> {
    if put.Err? then put
    else
      var cursors := AdvanceCursor(put.value.cursors, c);
      if cursors.Err? then Err(cursors.error) else Ok(put.value.(cursors := cursors.value))
  }

  /** All events and the cursor, or nothing. */
  function Commit(s: State, now: int, events: seq<Event>, c: Cursor): Result<State, StoreError> {
    WithCursor(PutAll(s, now, events, |events|), c)
  }

  function CommitVerified(s: State, events: seq<Event>, c: Cursor): Result<State, StoreError> {
    WithCursor(PutVerified(s, events, |events|), c)
  }

  /** The source stands further in the same file than `c` says. */
  predicate GoesBack(cursors: map<string, Cursor>, c: Cursor) {
    && c.source in cursors
    && cursors[c.source].fileIdentity == c.fileIdentity && c.byteOffset < cursors[c.source].byteOffset
  }

  /** A transaction leaves `c` under its source and every other cursor as it was. */
  ghost predicate OnlyMoves(before: map<string, Cursor>, after: map<string, Cursor>, c: Cursor) {
    && c.source in after && after[c.source] == c
    && forall other :: other != c.source ==>
         && (other in after <==> other in before)
         && (other in before ==> after[other] == before[other])
  }

  predicate IsRegression<T>(r: Result<T, StoreError>) {
    r.Err? && r.error.CursorRegression?
  }

  lemma {:induction false} EventsNeverRegress(s: State, now: int, events: seq<Event>, k: nat)
    requires k <= |events|
    ensures !IsRegression(PutAll(s, now, events, k))
    ensures PutAll(s, now, events, k).Ok? ==> PutAll(s, now, events, k).value.cursors == s.cursors
  {
    if k > 0 {
      EventsNeverRegress(s, now, events, k - 1);
    }
  }

  lemma {:induction false} VerifiedEventsNeverRegress(s: State, events: seq<Event>, k: nat)
    requires k <= |events|
    ensures !IsRegression(PutVerified(s, events, k))
    ensures PutVerified(s, events, k).Ok? ==> PutVerified(s, events, k).value.cursors == s.cursors
  {
    if k > 0 {
      VerifiedEventsNeverRegress(s, events, k - 1);
    }
  }

  /**
   * A transaction succeeds exactly if its events are accepted and its cursor does not go back in the
   * same file, and then moves this cursor alone.
   */
  lemma CommitMovesItsCursor(s: State, now: int, events: seq<Event>, c: Cursor)
    ensures Commit(s, now, events, c).Ok? <==> PutAll(s, now, events, |events|).Ok? && !GoesBack(s.cursors, c)
    ensures Commit(s, now, events, c).Ok? ==> OnlyMoves(s.cursors, Commit(s, now, events, c).value.cursors, c)
    ensures IsRegression(Commit(s, now, events, c)) <==>
              PutAll(s, now, events, |events|).Ok? && GoesBack(s.cursors, c)
  {
    EventsNeverRegress(s, now, events, |events|);
  }

  /** An event is stored exactly if its usage validates where it is confirmed and fits signed columns. */
  ghost predicate IsSound(e: Event) {
    (e.quality == Confirmed ==> e.usage.Valid()) && forall d: Dimension :: e.usage.Get(d) <= 0x7FFF_FFFF_FFFF_FFFF
  }

  lemma SoundIff(e: Event)
    ensures IsSound(e) <==> Acceptable(e) && FitsColumns(e.usage)
  {
    UsageIsItsDimensions(e.usage);
  }

  ghost predicate IsExpired(now: int, e: Event) {
    (if e.sourceTimestamp.Some? then e.sourceTimestamp.value else e.observedAt) < now - 604_800_000_000_000
  }

  /** Over sound facts: an event is accepted exactly if it is sound and not compacted with other contents. */
  lemma PutSucceedsIff(s: State, now: int, e: Event)
    requires SoundFacts(s)
    ensures Put(s, now, e).Ok? <==>
              if IsExpired(now, e) && e.id !in s.raw && e.id in s.compacted then s.compacted[e.id] == e else IsSound(e)
    ensures Put(s, now, e).Ok? ==> SoundFacts(Put(s, now, e).value)
  {
    SoundIff(e);
    if e.id in s.raw {
      SoundIff(s.raw[e.id]);
    }
  }

  ghost predicate SoundFacts(s: State) {
    && (forall id :: id in s.raw ==> IsSound(s.raw[id]))
    && (forall id :: id in s.compacted ==> IsSound(s.compacted[id]))
  }

  /** Where it goes: what is held stays, a recent event is kept with its details, an expired one without. */
  lemma PutStores(s: State, now: int, e: Event)
    requires Put(s, now, e).Ok?
    ensures e.id in s.raw || !IsExpired(now, e) ==>
              Put(s, now, e).value.raw == s.raw[e.id := e] && Put(s, now, e).value.compacted == s.compacted
    ensures e.id !in s.raw && IsExpired(now, e) ==>
              Put(s, now, e).value.compacted == s.compacted[e.id := e] && Put(s, now, e).value.raw == s.raw
    ensures OutcomeOf(s, now, e) == Unchanged <==>
              || (e.id in s.raw && s.raw[e.id] == e)
              || (e.id !in s.raw && IsExpired(now, e) && e.id in s.compacted)
    ensures OutcomeOf(s, now, e) == Updated <==> e.id in s.raw && s.raw[e.id] != e
  {
    if e.id in s.raw && s.raw[e.id] == e {
      assert s.raw[e.id := e] == s.raw;
    } else if e.id in s.compacted && s.compacted[e.id] == e {
      assert s.compacted[e.id := e] == s.compacted;
    }
  }

  datatype Outcome = Inserted | Updated | Unchanged

  function RawOutcome(s: State, e: Event): Outcome {
    if e.id !in s.raw then Inserted else if s.raw[e.id] == e then Unchanged else Updated
  }

  function CompactOutcome(s: State, e: Event): Outcome {
    if e.id !in s.raw && e.id in s.compacted then Unchanged else RawOutcome(s, e)
  }

  function OutcomeOf(s: State, now: int, e: Event): Outcome {
    if e.EffectiveAt() < Cutoff(now) then CompactOutcome(s, e) else RawOutcome(s, e)
  }

  /** Moves raw events to the compacted keys without touching the rollup. */
  function Compact(s: State, chosen: set<Id>): State
    requires chosen <= s.raw.Keys
  {
    s.(raw := s.raw - chosen,
       compacted := (map id | id in chosen :: s.raw[id]) + s.compacted)
  }

  const EMPTY: State := State(map[], map[], map[], map[], map[])

  // ----- the tables themselves -----

  /** Older first, then by id. */
  predicate Before(raw: map<Id, Event>, x: Id, y: Id)
    requires x in raw && y in raw
  {
    || raw[x].EffectiveAt() < raw[y].EffectiveAt()
    || (raw[x].EffectiveAt() == raw[y].EffectiveAt() && x <= y)
  }

  ghost function ExpiredIds(raw: map<Id, Event>, retainSince: int): set<Id> {
    set id | id in raw && raw[id].EffectiveAt() < retainSince
  }

  /** `chosen` are the `limit` oldest expired events, or all of them if there are fewer. */
  ghost predicate AreOldest(chosen: set<Id>, raw: map<Id, Event>, retainSince: int, limit: nat) {
    && chosen <= ExpiredIds(raw, retainSince)
    && |chosen| == Min(limit, |ExpiredIds(raw, retainSince)|)
    && forall x, y :: x in chosen && y in ExpiredIds(raw, retainSince) - chosen ==> Before(raw, x, y)
  }

  ghost predicate IsOldest(raw: map<Id, Event>, s: set<Id>, x: Id)
    requires s <= raw.Keys
  {
    x in s && forall y :: y in s ==> Before(raw, x, y)
  }

  lemma OlderOfTwo(raw: map<Id, Event>, s: set<Id>, x: Id, z: Id)
    requires s <= raw.Keys && z in s && IsOldest(raw, s - {z}, x)
    ensures IsOldest(raw, s, if Before(raw, z, x) then z else x)
  {
    forall y | y in s
      ensures Before(raw, if Before(raw, z, x) then z else x, y)
    {
      assert y != z ==> y in s - {z} && Before(raw, x, y);
    }
  }

  lemma {:induction false} OldestExists(raw: map<Id, Event>, s: set<Id>)
    requires s != {} && s <= raw.Keys
    ensures exists x :: IsOldest(raw, s, x)
    decreases s
  {
    var z :| z in s;
    if s == {z} {
      assert IsOldest(raw, s, z);
    } else {
      OldestExists(raw, s - {z});
      var x :| IsOldest(raw, s - {z}, x);
      OlderOfTwo(raw, s, x, z);
    }
  }

  lemma SameTotals(a: Totals, b: Totals)
    ensures a == b <==> forall m: Measure :: a.Get(m) == b.Get(m)
  {
    if forall m: Measure :: a.Get(m) == b.Get(m) {
      assert a.Get(Events) == b.Get(Events) && a.Get(Tokens(Input)) == b.Get(Tokens(Input));
      assert a.Get(Tokens(Cached)) == b.Get(Tokens(Cached)) && a.Get(Tokens(CacheWrite)) == b.Get(Tokens(CacheWrite));
      assert a.Get(Tokens(CacheWriteObserved)) == b.Get(Tokens(CacheWriteObserved));
      assert a.Get(Tokens(Output)) == b.Get(Tokens(Output)) && a.Get(Tokens(Reasoning)) == b.Get(Tokens(Reasoning));
      assert a.Get(Tokens(Total)) == b.Get(Tokens(Total));
    }
  }

  ghost predicate TotalsAgree(s: State) {
    forall m: Measure :: TotalOf(s.raw, m) == RollupTotal(s.daily, m)
  }

  class LedgerStore {
    var raw: map<Id, Event>
    var compacted: map<Id, Event>
    var daily: Rollup
    var hourly: Rollup
    var cursors: map<string, Cursor>
    var suppressDelete: bool
    var complete: bool
    var verified: bool

    function Value(): State
      reads this
    {
      State(raw, compacted, daily, hourly, cursors)
    }

    constructor ()
      ensures Value() == EMPTY && !suppressDelete && complete && !verified
    {
      raw, compacted, daily, hourly, cursors := map[], map[], map[], map[], map[];
      suppressDelete, complete, verified := false, true, false;
    }

    method UpsertEvent(e: Event) returns (r: Result<Outcome, StoreError>)
      modifies `raw, `daily, `hourly
      ensures PutRaw(old(Value()), e) == if r.Ok? then Ok(Value()) else Err(r.error)
      ensures r.Ok? ==> r.value == RawOutcome(old(Value()), e)
      ensures r.Err? ==> Value() == old(Value())
    {
      if e.quality == Confirmed && !e.usage.Valid() {
        return Err(InvalidConfirmedUsage);
      }
      if e.id in raw && raw[e.id] == e {
        return Ok(Unchanged);
      }
      if !FitsColumns(e.usage) {
        return Err(ValueOutOfRange);
      }
      r := Ok(if e.id in raw then Updated else Inserted);
      if e.id in raw {
        daily, hourly := Take(daily, Daily, raw[e.id]), Take(hourly, Hourly, raw[e.id]);
      }
      daily, hourly := Add(daily, Daily, e), Add(hourly, Hourly, e);
      raw := raw[e.id := e];
    }

    method UpsertCompactEvent(e: Event) returns (r: Result<Outcome, StoreError>)
      modifies `raw, `compacted, `daily, `hourly
      ensures PutCompact(old(Value()), e) == if r.Ok? then Ok(Value()) else Err(r.error)
      ensures r.Ok? ==> r.value == CompactOutcome(old(Value()), e)
      ensures r.Err? ==> Value() == old(Value())
    {
      if e.id in raw {
        r := UpsertEvent(e);
        return;
      }
      if e.id in compacted {
        return if compacted[e.id] == e then Ok(Unchanged) else Err(CompactedEventConflict(e.id));
      }
      if e.quality == Confirmed && !e.usage.Valid() {
        return Err(InvalidConfirmedUsage);
      }
      if !FitsColumns(e.usage) {
        return Err(ValueOutOfRange);
      }
      compacted := compacted[e.id := e];
      daily := Add(daily, Daily, e);
      return Ok(Inserted);
    }

    method PutEvent(now: int, e: Event) returns (r: Result<Outcome, StoreError>)
      modifies `raw, `compacted, `daily, `hourly
      ensures Put(old(Value()), now, e) == if r.Ok? then Ok(Value()) else Err(r.error)
      ensures r.Ok? ==> r.value == OutcomeOf(old(Value()), now, e)
    {
      if e.EffectiveAt() < Cutoff(now) {
        r := UpsertCompactEvent(e);
      } else {
        r := UpsertEvent(e);
      }
    }

    method PutEvents(now: int, events: seq<Event>) returns (r: Result<seq<Outcome>, StoreError>)
      modifies `raw, `compacted, `daily, `hourly
      ensures PutAll(old(Value()), now, events, |events|) == if r.Ok? then Ok(Value()) else Err(r.error)
      ensures r.Ok? ==> AreOutcomes(r.value, old(Value()), now, events, |events|)
    {
      ghost var start := Value();
      var outcomes: seq<Outcome> := [];
      for i := 0 to |events|
        invariant PutAll(start, now, events, i) == Ok(Value())
        invariant AreOutcomes(outcomes, start, now, events, i)
      {
        var one := PutEvent(now, events[i]);
        if one.Err? {
          FailureIsFinal(start, now, events, i + 1, |events|);
          return Err(one.error);
        }
        OneMoreOutcome(outcomes, one.value, start, now, events, i);
        outcomes := outcomes + [one.value];
      }
      return Ok(outcomes);
    }

    /** One transaction: every event and the cursor are stored, or nothing is. */
    method UpsertEventsAndCursor(now: int, events: seq<Event>,
        cursor: Cursor) returns (r: Result<seq<Outcome>, StoreError>)
      modifies `raw, `compacted, `daily, `hourly, `cursors
      ensures r.Ok? ==> OnlyMoves(old(cursors), cursors, cursor)
      ensures IsRegression(r) <==>
                PutAll(old(Value()), now, events, |events|).Ok? && GoesBack(old(cursors), cursor)
      ensures IsRegression(r) ==>
                r.error == CursorRegression(old(cursors)[cursor.source].byteOffset, cursor.byteOffset)
      ensures Commit(old(Value()), now, events, cursor) == if r.Ok? then Ok(Value()) else Err(r.error)
      ensures r.Err? ==> Value() == old(Value())
      ensures r.Ok? ==> AreOutcomes(r.value, old(Value()), now, events, |events|)
    {
      var saved := Value();
      EventsNeverRegress(saved, now, events, |events|);
      r := PutEvents(now, events);
      if r.Ok? && cursor.source in cursors && cursors[cursor.source].fileIdentity == cursor.fileIdentity
         && cursor.byteOffset < cursors[cursor.source].byteOffset {
        r := Err(CursorRegression(cursors[cursor.source].byteOffset, cursor.byteOffset));
      }
      if r.Err? {
        raw, compacted, daily, hourly, cursors := saved.raw, saved.compacted, saved.daily, saved.hourly, saved.cursors;
      } else {
        cursors := cursors[cursor.source := cursor];
      }
    }

    /** The same for verified events, whose age does not matter. */
    method UpsertVerifiedEventsAndCursor(events: seq<Event>, cursor: Cursor) returns (r: Result<(), StoreError>)
      modifies `raw, `daily, `hourly, `cursors
      ensures r.Ok? ==> OnlyMoves(old(cursors), cursors, cursor)
      ensures IsRegression(r) <==>
                PutVerified(old(Value()), events, |events|).Ok? && GoesBack(old(cursors), cursor)
      ensures IsRegression(r) ==>
                r.error == CursorRegression(old(cursors)[cursor.source].byteOffset, cursor.byteOffset)
      ensures CommitVerified(old(Value()), events, cursor) == if r.Ok? then Ok(Value()) else Err(r.error)
      ensures r.Err? ==> Value() == old(Value())
    {
      var saved := Value();
      VerifiedEventsNeverRegress(saved, events, |events|);
      r := UpsertEvents(events);
      if r.Ok? && cursor.source in cursors && cursors[cursor.source].fileIdentity == cursor.fileIdentity
         && cursor.byteOffset < cursors[cursor.source].byteOffset {
        r := Err(CursorRegression(cursors[cursor.source].byteOffset, cursor.byteOffset));
      }
      if r.Err? {
        raw, daily, hourly, cursors := saved.raw, saved.daily, saved.hourly, saved.cursors;
      } else {
        cursors := cursors[cursor.source := cursor];
      }
    }

    method UpsertEvents(events: seq<Event>) returns (r: Result<(), StoreError>)
      modifies `raw, `daily, `hourly
      ensures PutVerified(old(Value()), events, |events|) == if r.Ok? then Ok(Value()) else Err(r.error)
    {
      ghost var start := Value();
      for i := 0 to |events|
        invariant PutVerified(start, events, i) == Ok(Value())
      {
        var one := UpsertEvent(events[i]);
        if one.Err? {
          VerifiedFailureIsFinal(start, events, i + 1, |events|);
          return Err(one.error);
        }
      }
      return Ok(());
    }

    /** What the delete trigger does with one row. */
    method DeleteRaw(id: Id)
      requires id in raw
      modifies `raw, `daily, `hourly
      ensures raw == old(raw) - {id}
      ensures daily == if suppressDelete then old(daily) else Take(old(daily), Daily, old(raw)[id])
      ensures hourly == if suppressDelete then old(hourly) else Take(old(hourly), Hourly, old(raw)[id])
    {
      if !suppressDelete {
        daily, hourly := Take(daily, Daily, raw[id]), Take(hourly, Hourly, raw[id]);
      }
      raw := raw - {id};
    }

    /** Compares the sums of all raw events with the sums of all rollup rows, once. */
    method VerifyRollupBeforeCompaction(rawSums: Totals, rollupSums: Totals) returns (r: Result<(), StoreError>)
      requires forall m: Measure :: rawSums.Get(m) == TotalOf(raw, m) && rollupSums.Get(m) == RollupTotal(daily, m)
      modifies `verified
      ensures r == if complete && (old(verified) || TotalsAgree(Value())) then Ok(()) else Err(RollupMismatch)
      ensures verified == (old(verified) || r.Ok?)
    {
      if !complete {
        return Err(RollupMismatch);
      }
      if verified {
        return Ok(());
      }
      assert rawSums == rollupSums <==> TotalsAgree(Value()) by {
        SameTotals(rawSums, rollupSums);
      }
      if rawSums != rollupSums {
        return Err(RollupMismatch);
      }
      verified := true;
      return Ok(());
    }

    /** Moves the oldest expired events to the compacted keys. */
    method CompactRawEventsChunk(retainSince: int, limit: nat)
      returns (deleted: Result<nat, StoreError>, ghost chosen: set<Id>)
      requires !suppressDelete
      modifies `raw, `compacted, `daily, `hourly, `suppressDelete
      ensures !suppressDelete
      ensures !complete ==> deleted == Ok(0) && Value() == old(Value())
      ensures complete && !verified ==> deleted == Err(RollupNotVerified) && Value() == old(Value())
      ensures complete && verified ==>
                && AreOldest(chosen, old(raw), retainSince, Max(1, Min(limit, 250_000)))
                && Value() == Compact(old(Value()), chosen) && deleted == Ok(|chosen|)
    {
      chosen := {};
      if !complete {
        return Ok(0), {};
      }
      if !verified {
        return Err(RollupNotVerified), {};
      }
      var candidates := ChooseOldest(retainSince, Max(1, Min(limit, 250_000)));
      MoveToCompacted(candidates);
      return Ok(|candidates|), candidates;
    }

    method MoveToCompacted(candidates: set<Id>)
      requires !suppressDelete && candidates <= raw.Keys
      modifies `raw, `compacted, `daily, `hourly, `suppressDelete
      ensures !suppressDelete && Value() == Compact(old(Value()), candidates)
    {
      suppressDelete := true;
      compacted := (map id | id in candidates :: raw[id]) + compacted;
      DeleteAll(candidates);
      suppressDelete := false;
    }

    method ChooseOldest(retainSince: int, limit: nat) returns (chosen: set<Id>)
      ensures AreOldest(chosen, raw, retainSince, limit)
    {
      chosen := {};
      var rest := set id | id in raw && raw[id].EffectiveAt() < retainSince;
      ghost var expired := rest;
      while |chosen| < limit && rest != {}
        invariant chosen !! rest && chosen + rest == expired && |chosen| <= limit
        invariant forall x, y :: x in chosen && y in rest ==> Before(raw, x, y)
        decreases rest
      {
        OldestExists(raw, rest);
        assert exists x :: x in rest && forall y :: y in rest ==> Before(raw, x, y) by {
          var x :| IsOldest(raw, rest, x);
        }
        var x :| x in rest && forall y :: y in rest ==> Before(raw, x, y);
        chosen, rest := chosen + {x}, rest - {x};
      }
      assert |expired| == |chosen| + |rest|;
      assert expired - chosen == rest;
    }

    method DeleteAll(chosen: set<Id>)
      requires suppressDelete && chosen <= raw.Keys
      modifies `raw, `daily, `hourly
      ensures raw == old(raw) - chosen && daily == old(daily) && hourly == old(hourly)
    {
      var rest := chosen;
      while rest != {}
        invariant rest <= chosen && raw == old(raw) - (chosen - rest)
        invariant daily == old(daily) && hourly == old(hourly)
        decreases rest
      {
        var id :| id in rest;
        DeleteRaw(id);
        rest := rest - {id};
      }
    }
  }

  /** What each event did to the state its predecessors left. */
  ghost predicate AreOutcomes(outcomes: seq<Outcome>, s: State, now: int, events: seq<Event>, k: nat)
    requires k <= |events|
  {
    |outcomes| == k && forall i :: 0 <= i < k ==> IsOutcome(outcomes[i], s, now, events, i)
  }

  ghost predicate IsOutcome(o: Outcome, s: State, now: int, events: seq<Event>, i: nat)
    requires i < |events|
  {
    PutAll(s, now, events, i).Ok? && o == OutcomeOf(PutAll(s, now, events, i).value, now, events[i])
  }

  lemma OneMoreOutcome(outcomes: seq<Outcome>, o: Outcome, s: State, now: int, events: seq<Event>, k: nat)
    requires k < |events| && AreOutcomes(outcomes, s, now, events, k) && IsOutcome(o, s, now, events, k)
    ensures AreOutcomes(outcomes + [o], s, now, events, k + 1)
  {
  }

  lemma {:induction false} VerifiedFailureIsFinal(s: State, events: seq<Event>, j: nat, k: nat)
    requires j <= k <= |events| && PutVerified(s, events, j).Err?
    ensures PutVerified(s, events, k) == PutVerified(s, events, j)
  {
    if j < k {
      VerifiedFailureIsFinal(s, events, j, k - 1);
    }
  }

  lemma {:induction false} FailureIsFinal(s: State, now: int, events: seq<Event>, j: nat, k: nat)
    requires j <= k <= |events| && PutAll(s, now, events, j).Err?
    ensures PutAll(s, now, events, k) == PutAll(s, now, events, j)
  {
    if j < k {
      FailureIsFinal(s, now, events, j, k - 1);
    }
  }
}
