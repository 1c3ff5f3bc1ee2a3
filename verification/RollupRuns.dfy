/**
 * Runs of the ledger: transactions and compactions in any order, with any clock. The tables show
 * what is raw, what a compaction moved away, and what was counted without ever being raw.
 */
module RollupRuns {
  import opened Prelude
  import opened Sums
  import opened UsageTables
  import opened Rollups
  import opened Folds

  /** Every event the ledger knows, whichever table holds it. */
  ghost function Facts(s: State): map<Id, Event> {
    s.raw + s.compacted
  }

  ghost predicate Apart(s: State) {
    s.raw.Keys !! s.compacted.Keys
  }

  /** A compacted event comes back as a recent one: the clock went back, or its time changed. */
  predicate Returns(s: State, now: int, e: Event) {
    e.id in s.compacted && e.id !in s.raw && Cutoff(now) <= e.EffectiveAt()
  }

  // ----- one event -----

  ghost predicate IndexesItsFacts(s: State) {
    Apart(s) && Indexes(s.daily, Facts(s), Daily)
  }

  lemma PutOnTheLeft(a: map<Id, Event>, b: map<Id, Event>, e: Event)
    ensures e.id !in b ==> a[e.id := e] + b == (a + b)[e.id := e]
    ensures e.id in b ==> a[e.id := e] + b == a + b
  {
  }

  lemma PutRawKeepsIndex(s: State, e: Event)
    requires IndexesItsFacts(s) && PutRaw(s, e).Ok? && e.id !in s.compacted
    ensures IndexesItsFacts(PutRaw(s, e).value)
    ensures Facts(PutRaw(s, e).value) == Facts(s)[e.id := e]
  {
    PutOnTheLeft(s.raw, s.compacted, e);
    if e.id in s.raw && s.raw[e.id] == e {
      assert s.raw[e.id := e] == s.raw;
    } else if e.id in s.raw {
      UpdateIndexes(s.daily, Facts(s), e.id, e, Daily);
    } else {
      AddIndexes(s.daily, Facts(s), e.id, e, Daily);
    }
  }

  lemma PutCompactKeepsIndex(s: State, e: Event)
    requires IndexesItsFacts(s) && PutCompact(s, e).Ok?
    ensures IndexesItsFacts(PutCompact(s, e).value)
    ensures Facts(PutCompact(s, e).value) == Facts(s)[e.id := e]
  {
    if e.id in s.raw {
      PutRawKeepsIndex(s, e);
    } else if e.id !in s.compacted {
      assert Facts(PutCompact(s, e).value) == Facts(s)[e.id := e];
      AddIndexes(s.daily, Facts(s), e.id, e, Daily);
    }
  }

  /** A returning event is added to the table a second time. */
  lemma ReturningCountsTwice(s: State, now: int, e: Event)
    requires IndexesItsFacts(s) && Put(s, now, e).Ok? && Returns(s, now, e)
    ensures Facts(Put(s, now, e).value) == Facts(s)
    ensures At(Put(s, now, e).value.daily, e.Key(Daily)).Get(Events)
            == Grouped(Facts(s), Daily)(e.Key(Daily), Events) + 1
  {
    PutOnTheLeft(s.raw, s.compacted, e);
    RowCountsItsFacts(s.daily, Facts(s), e.Key(Daily));
    OneMoreInTheRow(s.daily, e);
    assert Put(s, now, e).value.daily == Add(s.daily, Daily, e);
  }

  lemma RowCountsItsFacts(t: Rollup, facts: map<Id, Event>, key: RowKey)
    requires Indexes(t, facts, Daily)
    ensures At(t, key).Get(Events) == Grouped(facts, Daily)(key, Events)
  {
    assert ShowsAt(t, Grouped(facts, Daily), key);
  }

  lemma OneMoreInTheRow(t: Rollup, e: Event)
    ensures At(Add(t, Daily, e), e.Key(Daily)).Get(Events) == At(t, e.Key(Daily)).Get(Events) + 1
  {
  }

  /** An accepted event replaces its predecessor and the table follows, exactly when it does not return. */
  lemma PutKeepsIndexIffNotReturning(s: State, now: int, e: Event)
    requires IndexesItsFacts(s) && Put(s, now, e).Ok?
    ensures IndexesItsFacts(Put(s, now, e).value) <==> !Returns(s, now, e)
    ensures Indexes(Put(s, now, e).value.daily, Facts(Put(s, now, e).value), Daily) <==> !Returns(s, now, e)
    ensures !Returns(s, now, e) ==> Facts(Put(s, now, e).value) == Facts(s)[e.id := e]
  {
    if Returns(s, now, e) {
      ReturningCountsTwice(s, now, e);
      assert !ShowsAt(Put(s, now, e).value.daily, Grouped(Facts(s), Daily), e.Key(Daily));
    } else if e.EffectiveAt() < Cutoff(now) {
      PutCompactKeepsIndex(s, e);
    } else {
      PutRawKeepsIndex(s, e);
    }
  }

  /** An event the ledger already has is left alone, exactly when it does not return. */
  lemma ReplayIsUnchangedIffNotReturning(s: State, now: int, e: Event)
    requires Apart(s) && e.id in Facts(s) && Facts(s)[e.id] == e && Acceptable(e)
    ensures Put(s, now, e) == Ok(s) <==> !Returns(s, now, e)
  {
    if Returns(s, now, e) && Put(s, now, e).Ok? {
      assert e.id in Put(s, now, e).value.raw;
    }
  }

  /** An event conflicts exactly when a different one was compacted under its id and it does not return. */
  lemma ConflictIffCompactedDiffers(s: State, now: int, e: Event)
    requires Apart(s)
    ensures Put(s, now, e) == Err(CompactedEventConflict(e.id))
            <==> e.id in s.compacted && s.compacted[e.id] != e && !Returns(s, now, e)
  {
  }

  /** Such an event: it arrives expired, then again under a clock that is back before its expiry. */
  lemma ClockGoingBackCountsTwice(e: Event, now: int, back: int)
    requires Acceptable(e) && FitsColumns(e.usage) && Cutoff(back) <= e.EffectiveAt() < Cutoff(now)
    ensures Put(EMPTY, now, e).Ok? && Returns(Put(EMPTY, now, e).value, back, e)
    ensures Put(Put(EMPTY, now, e).value, back, e).Ok?
    ensures At(Put(Put(EMPTY, now, e).value, back, e).value.daily, e.Key(Daily)).Get(Events) == 2
  {
    var daily := Add(map[], Daily, e);
    assert Put(EMPTY, now, e).value.daily == daily;
    OneMoreInTheRow(map[], e);
    OneMoreInTheRow(daily, e);
  }

  lemma CompactKeepsFacts(s: State, chosen: set<Id>)
    requires Apart(s) && chosen <= s.raw.Keys
    ensures Apart(Compact(s, chosen)) && Facts(Compact(s, chosen)) == Facts(s)
  {
  }

  /** Compaction changes no fact and no aggregate. */
  lemma CompactionChangesNothing(s: State, chosen: set<Id>)
    requires IndexesItsFacts(s) && chosen <= s.raw.Keys
    ensures IndexesItsFacts(Compact(s, chosen)) && Facts(Compact(s, chosen)) == Facts(s)
    ensures Compact(s, chosen).daily == s.daily && Compact(s, chosen).hourly == s.hourly
  {
    CompactKeepsFacts(s, chosen);
  }

  // ----- what a table counts -----

  ghost function Lists(moved: seq<Event>, direct: seq<Event>, g: Grain): Tally {
    Both(Listed(moved, g), Listed(direct, g))
  }

  /** The table shows the raw events and the listed ones, each as often as it is listed. */
  ghost predicate Counts(t: Rollup, raw: map<Id, Event>, moved: seq<Event>, direct: seq<Event>, g: Grain) {
    Shows(t, Both(Grouped(raw, g), Lists(moved, direct, g)))
  }

  lemma ListsCountEvents(moved: seq<Event>, direct: seq<Event>, g: Grain)
    ensures CountsEvents(Lists(moved, direct, g))
  {
    ListedCountsEvents(moved, g);
    ListedCountsEvents(direct, g);
  }

  lemma InsertShows(t: Rollup, raw: map<Id, Event>, rest: Tally, e: Event, g: Grain)
    requires Shows(t, Both(Grouped(raw, g), rest)) && e.id !in raw
    ensures Shows(Add(t, g, e), Both(Grouped(raw[e.id := e], g), rest))
  {
    AddShows(t, Both(Grouped(raw, g), rest), g, e);
    GroupedAdds(raw, e.id, e, g);
    ShowsSame(Add(t, g, e), WithEvent(Both(Grouped(raw, g), rest), g, e), Both(Grouped(raw[e.id := e], g), rest));
  }

  lemma DeleteShows(t: Rollup, raw: map<Id, Event>, rest: Tally, id: Id, e: Event, g: Grain)
    requires Shows(t, Both(Grouped(raw[id := e], g), rest)) && id !in raw && CountsEvents(rest)
    ensures Shows(Take(t, g, e), Both(Grouped(raw, g), rest))
  {
    GroupedAdds(raw, id, e, g);
    ShowsSame(t, Both(Grouped(raw[id := e], g), rest), WithEvent(Both(Grouped(raw, g), rest), g, e));
    GroupedCountsEvents(raw, g);
    TakeShows(t, Both(Grouped(raw, g), rest), g, e);
  }

  /** A raw event is inserted, or replaces its predecessor. */
  lemma TriggersCount(t: Rollup, raw: map<Id, Event>, moved: seq<Event>, direct: seq<Event>, e: Event, g: Grain)
    requires Counts(t, raw, moved, direct, g)
    ensures Counts(Triggered(t, g, raw, e), raw[e.id := e], moved, direct, g)
  {
    var rest := Lists(moved, direct, g);
    if e.id in raw {
      var others := raw - {e.id};
      assert others[e.id := raw[e.id]] == raw && others[e.id := e] == raw[e.id := e];
      ListsCountEvents(moved, direct, g);
      DeleteShows(t, others, rest, e.id, raw[e.id], g);
      InsertShows(Take(t, g, raw[e.id]), others, rest, e, g);
    } else {
      InsertShows(t, raw, rest, e, g);
    }
  }

  /** An event is counted without becoming raw. */
  lemma DirectCounts(t: Rollup, raw: map<Id, Event>, moved: seq<Event>, direct: seq<Event>, e: Event, g: Grain)
    requires Counts(t, raw, moved, direct, g)
    ensures Counts(Add(t, g, e), raw, moved, direct + [e], g)
  {
    AddShows(t, Both(Grouped(raw, g), Lists(moved, direct, g)), g, e);
    ListedAdds(direct, e, g);
    ShowsSame(Add(t, g, e), WithEvent(Both(Grouped(raw, g), Lists(moved, direct, g)), g, e),
              Both(Grouped(raw, g), Lists(moved, direct + [e], g)));
  }

  lemma MoveOneCounts(t: Rollup, raw: map<Id, Event>, moved: seq<Event>, direct: seq<Event>, id: Id, g: Grain)
    requires Counts(t, raw, moved, direct, g) && id in raw
    ensures Counts(t, raw - {id}, moved + [raw[id]], direct, g)
  {
    var others := raw - {id};
    assert others[id := raw[id]] == raw;
    GroupedAdds(others, id, raw[id], g);
    ListedAdds(moved, raw[id], g);
    ShowsSame(t, Both(Grouped(raw, g), Lists(moved, direct, g)),
              Both(Grouped(others, g), Lists(moved + [raw[id]], direct, g)));
  }

  ghost function ListOf(raw: map<Id, Event>, chosen: set<Id>): (events: seq<Event>)
    requires chosen <= raw.Keys
    ensures |events| == |chosen|
    ensures forall i :: 0 <= i < |events| ==> exists id :: id in chosen && events[i] == raw[id]
  {
    if chosen == {} then [] else ListOf(raw, chosen - {Pick(chosen)}) + [raw[Pick(chosen)]]
  }

  /** A compaction moves raw events to a list; no table changes. */
  lemma {:induction false} MovingCounts(t: Rollup, raw: map<Id, Event>, chosen: set<Id>, moved: seq<Event>,
      direct: seq<Event>, g: Grain)
    requires Counts(t, raw, moved, direct, g) && chosen <= raw.Keys
    ensures Counts(t, raw - chosen, moved + ListOf(raw, chosen), direct, g)
    decreases chosen
  {
    if chosen == {} {
      assert raw - chosen == raw && moved + ListOf(raw, chosen) == moved;
    } else {
      var id := Pick(chosen);
      var rest := chosen - {id};
      MovingCounts(t, raw, rest, moved, direct, g);
      MoveOneCounts(t, raw - rest, moved + ListOf(raw, rest), direct, id, g);
      assert raw - rest - {id} == raw - chosen;
      assert moved + ListOf(raw, rest) + [raw[id]] == moved + ListOf(raw, chosen);
    }
  }

  // ----- runs -----

  /** The events compactions moved away, and those that were counted without becoming raw. */
  datatype History = History(moved: seq<Event>, direct: seq<Event>)

  predicate GoesDirect(s: State, now: int, e: Event) {
    e.EffectiveAt() < Cutoff(now) && e.id !in s.raw && e.id !in s.compacted
  }

  ghost function After(s: State, now: int, e: Event, h: History): History {
    if GoesDirect(s, now, e) then h.(direct := h.direct + [e]) else h
  }

  /** The ledger after a run, how it came about, what it was given, and whether an event returned on the way. */
  datatype Trace = Trace(s: State, h: History, given: map<Id, Event>, returned: bool)

  const START: Trace := Trace(EMPTY, History([], []), map[], false)

  /** One event of a transaction. */
  ghost function Receive(now: int, t: Trace, e: Event): Trace {
    var r := Put(t.s, now, e);
    if r.Err? then t
    else Trace(r.value, After(t.s, now, e, t.h), t.given[e.id := e], t.returned || Returns(t.s, now, e))
  }

  ghost function Receiver(now: int): (Trace, Event) -> Trace {
    (t: Trace, e: Event) => Receive(now, t, e)
  }

  ghost function Expire(t: Trace, chosen: set<Id>): Trace
    requires chosen <= t.s.raw.Keys
  {
    t.(s := Compact(t.s, chosen), h := t.h.(moved := t.h.moved + ListOf(t.s.raw, chosen)))
  }

  datatype Action =
    | Upsert(now: int, events: seq<Event>, cursor: Cursor)
    | Compaction(now: int, chosen: set<Id>)

  /** A transaction stores all its events and its cursor, or nothing. */
  ghost function Advance(t: Trace, a: Action): Trace {
    match a
    case Upsert(now, events, cursor) =>
      var r := Commit(t.s, now, events, cursor);
      if r.Err? then t else Iterate(Receiver(now), t, events, |events|).(s := r.value)
    case Compaction(_, chosen) =>
      if chosen <= t.s.raw.Keys then Expire(t, chosen) else t
  }

  ghost function Run(actions: seq<Action>, k: nat): Trace
    requires k <= |actions|
  {
    Iterate(Advance, START, actions, k)
  }

  ghost function Putter(now: int): (State, Event) -> Result<State, StoreError> {
    (s: State, e: Event) => Put(s, now, e)
  }

  lemma {:induction false} PutAllIsTryAll(s: State, now: int, events: seq<Event>, k: nat)
    requires k <= |events|
    ensures PutAll(s, now, events, k) == TryAll(Putter(now), s, events, k)
  {
    if k > 0 {
      PutAllIsTryAll(s, now, events, k - 1);
    }
  }

  lemma ReceiverTracks(now: int)
    ensures forall t: Trace, e: Event :: Putter(now)(t.s, e).Ok? ==> Receiver(now)(t, e).s == Putter(now)(t.s, e).value
  {
  }

  /** What a transaction that commits stores is what its events leave behind, but for the cursor. */
  lemma CommitIsReceiving(t: Trace, now: int, events: seq<Event>, cursor: Cursor)
    requires Commit(t.s, now, events, cursor).Ok?
    ensures Commit(t.s, now, events, cursor).value
            == Iterate(Receiver(now), t, events, |events|).s
               .(cursors := Commit(t.s, now, events, cursor).value.cursors)
  {
    PutAllIsTryAll(t.s, now, events, |events|);
    ReceiverTracks(now);
    IterateTracksTryAll(Putter(now), Receiver(now), (u: Trace) => u.s, t, events, |events|);
  }

  lemma {:induction false} EarlyEnough(events: seq<Event>, k: nat) returns (now: int)
    requires k <= |events|
    ensures forall i :: 0 <= i < k ==> Cutoff(now) <= events[i].EffectiveAt()
  {
    now := 0;
    if k > 0 {
      var before := EarlyEnough(events, k - 1);
      now := Min(before, events[k - 1].EffectiveAt());
    }
  }

  lemma {:induction false} VerifiedIsRecent(s: State, now: int, events: seq<Event>, k: nat)
    requires k <= |events| && forall i :: 0 <= i < k ==> Cutoff(now) <= events[i].EffectiveAt()
    ensures PutVerified(s, events, k) == PutAll(s, now, events, k)
  {
    if k > 0 {
      VerifiedIsRecent(s, now, events, k - 1);
    }
  }

  /** Verified events are stored as under a clock that makes them all recent, so runs include them. */
  lemma VerifiedImportIsAnUpsert(s: State, events: seq<Event>, cursor: Cursor) returns (now: int)
    ensures CommitVerified(s, events, cursor) == Commit(s, now, events, cursor)
  {
    now := EarlyEnough(events, |events|);
    VerifiedIsRecent(s, now, events, |events|);
  }

  ghost predicate KeptByReceive(good: Trace -> bool, now: int) {
    forall t, e :: good(t) ==> good(Receive(now, t, e))
  }

  ghost predicate KeptByExpire(good: Trace -> bool) {
    forall t, chosen :: good(t) && chosen <= t.s.raw.Keys ==> good(Expire(t, chosen))
  }

  ghost predicate IgnoresCursors(good: Trace -> bool) {
    forall t, cursors :: good(t) ==> good(t.(s := t.s.(cursors := cursors)))
  }

  lemma UpsertKeeps(good: Trace -> bool, t: Trace, now: int, events: seq<Event>, cursor: Cursor)
    requires good(t) && KeptByReceive(good, now) && IgnoresCursors(good)
    ensures good(Advance(t, Upsert(now, events, cursor)))
  {
    var r := Commit(t.s, now, events, cursor);
    if r.Ok? {
      CommitIsReceiving(t, now, events, cursor);
      Always(Receiver(now), good, t, events, |events|);
      var after := Iterate(Receiver(now), t, events, |events|);
      assert after.(s := r.value) == after.(s := after.s.(cursors := r.value.cursors));
    }
  }

  /** What every event, every compaction and every cursor leaves true stays true in every run. */
  lemma HoldsFromThenOn(good: Trace -> bool, actions: seq<Action>, j: nat, k: nat)
    requires j <= k <= |actions| && good(Run(actions, j))
    requires (forall now :: KeptByReceive(good, now)) && KeptByExpire(good) && IgnoresCursors(good)
    ensures good(Run(actions, k))
  {
    forall t: Trace, a: Action | good(t)
      ensures good(Advance(t, a))
    {
      match a
      case Upsert(now, events, cursor) =>
        assert KeptByReceive(good, now);
        UpsertKeeps(good, t, now, events, cursor);
      case Compaction(_, chosen) =>
    }
    AlwaysFrom(Advance, good, START, actions, j, k);
  }

  // ----- cursors in every run -----

  ghost function CursorOf(cursors: map<string, Cursor>, source: string): Option<Cursor> {
    if source in cursors then Some(cursors[source]) else None
  }

  /** The cursor of a source before each action of a run, and after the last. */
  ghost function Timeline(actions: seq<Action>, source: string): seq<Option<Cursor>> {
    seq(|actions| + 1, k requires 0 <= k <= |actions| => CursorOf(Run(actions, k).s.cursors, source))
  }

  ghost predicate StoresCursorOf(actions: seq<Action>, i: nat, source: string)
    requires i < |actions|
  {
    && actions[i].Upsert? && actions[i].cursor.source == source
    && Commit(Run(actions, i).s, actions[i].now, actions[i].events, actions[i].cursor).Ok?
  }

  /** The later cursor is not behind the earlier one unless the file changed. */
  ghost predicate Forward(before: Option<Cursor>, after: Option<Cursor>) {
    before.Some? ==>
      && after.Some?
      && (before.value.fileIdentity == after.value.fileIdentity ==> before.value.byteOffset <= after.value.byteOffset)
  }

  lemma NextCursor(actions: seq<Action>, k: nat, source: string)
    requires k < |actions|
    ensures Timeline(actions, source)[k + 1] ==
            if StoresCursorOf(actions, k, source) then Some(actions[k].cursor) else Timeline(actions, source)[k]
    ensures Forward(Timeline(actions, source)[k], Timeline(actions, source)[k + 1])
  {
    if actions[k].Upsert? {
      CommitMovesItsCursor(Run(actions, k).s, actions[k].now, actions[k].events, actions[k].cursor);
    }
  }

  lemma {:induction false} StaysTheSame<T>(xs: seq<T>, j: nat, k: nat)
    requires j <= k < |xs| && forall i :: j <= i < k ==> xs[i + 1] == xs[i]
    ensures xs[k] == xs[j]
    decreases k
  {
    if j < k {
      StaysTheSame(xs, j, k - 1);
    }
  }

  /** In every run the cursor of a source is the one its last stored transaction brought. */
  lemma CursorIsTheLastStored(actions: seq<Action>, i: nat, k: nat, source: string, line: seq<Option<Cursor>>)
    requires i < k <= |actions| && line == Timeline(actions, source) && StoresCursorOf(actions, i, source)
    requires forall h :: i < h < k ==> !StoresCursorOf(actions, h, source)
    ensures line[k] == Some(actions[i].cursor)
  {
    NextCursor(actions, i, source);
    forall h | i < h < k
      ensures line[h + 1] == line[h]
    {
      NextCursor(actions, h, source);
    }
    StaysTheSame(line, i + 1, k);
  }

  ghost predicate InFile(c: Option<Cursor>, fileIdentity: string) {
    c.Some? && c.value.fileIdentity == fileIdentity
  }

  lemma {:induction false} ForwardThroughout(line: seq<Option<Cursor>>, j: nat, k: nat, fileIdentity: string)
    requires j <= k < |line| && forall i :: j <= i < k ==> Forward(line[i], line[i + 1])
    requires InFile(line[j], fileIdentity) && InFile(line[k], fileIdentity)
    requires forall i :: j < i < k ==> InFile(line[i], fileIdentity)
    ensures line[j].value.byteOffset <= line[k].value.byteOffset
    decreases k
  {
    if j < k {
      ForwardThroughout(line, j, k - 1, fileIdentity);
      assert Forward(line[k - 1], line[k - 1 + 1]) && InFile(line[k - 1], fileIdentity);
    }
  }

  /** In every run the offset of a source never falls while its file stays the same. */
  lemma OffsetNeverFalls(actions: seq<Action>, j: nat, k: nat, source: string, fileIdentity: string,
      line: seq<Option<Cursor>>)
    requires j <= k <= |actions| && line == Timeline(actions, source)
    requires forall i :: j <= i <= k ==> InFile(line[i], fileIdentity)
    ensures line[j].Some? && line[k].Some? && line[j].value.byteOffset <= line[k].value.byteOffset
  {
    forall i | j <= i < k
      ensures Forward(line[i], line[i + 1])
    {
      NextCursor(actions, i, source);
    }
    assert InFile(line[j], fileIdentity) && InFile(line[k], fileIdentity);
    ForwardThroughout(line, j, k, fileIdentity);
  }

  ghost predicate HasSoundFacts(t: Trace) {
    SoundFacts(t.s)
  }

  lemma CompactKeepsSound(s: State, chosen: set<Id>)
    requires SoundFacts(s) && chosen <= s.raw.Keys
    ensures SoundFacts(Compact(s, chosen))
  {
  }

  /** In every run every fact is sound, so an event is refused exactly as stated for sound facts. */
  lemma StoredFactsAreSound(actions: seq<Action>, k: nat)
    requires k <= |actions|
    ensures SoundFacts(Run(actions, k).s)
  {
    forall now: int, t, e | HasSoundFacts(t)
      ensures HasSoundFacts(Receive(now, t, e))
    {
      PutSucceedsIff(t.s, now, e);
    }
    forall t: Trace, chosen | HasSoundFacts(t) && chosen <= t.s.raw.Keys
      ensures HasSoundFacts(Expire(t, chosen))
    {
      CompactKeepsSound(t.s, chosen);
    }
    assert IgnoresCursors(HasSoundFacts);
    HoldsFromThenOn(HasSoundFacts, actions, 0, k);
  }

  // ----- what the tables show in every run -----

  ghost predicate Traced(s: State, h: History) {
    && Counts(s.daily, s.raw, h.moved, h.direct, Daily)
    && Counts(s.hourly, s.raw, h.moved, [], Hourly)
  }

  lemma PutRawKeepsTraced(s: State, e: Event, h: History)
    requires Traced(s, h) && PutRaw(s, e).Ok?
    ensures Traced(PutRaw(s, e).value, h)
  {
    TriggersCount(s.daily, s.raw, h.moved, h.direct, e, Daily);
    TriggersCount(s.hourly, s.raw, h.moved, [], e, Hourly);
  }

  lemma PutKeepsTraced(s: State, now: int, e: Event, h: History)
    requires Traced(s, h) && Put(s, now, e).Ok?
    ensures Traced(Put(s, now, e).value, After(s, now, e, h))
  {
    if GoesDirect(s, now, e) {
      DirectCounts(s.daily, s.raw, h.moved, h.direct, e, Daily);
    } else if e.EffectiveAt() >= Cutoff(now) || e.id in s.raw {
      PutRawKeepsTraced(s, e, h);
    }
  }

  lemma ExpireKeepsTraced(s: State, chosen: set<Id>, h: History)
    requires Traced(s, h) && chosen <= s.raw.Keys
    ensures Traced(Compact(s, chosen), h.(moved := h.moved + ListOf(s.raw, chosen)))
  {
    MovingCounts(s.daily, s.raw, chosen, h.moved, h.direct, Daily);
    MovingCounts(s.hourly, s.raw, chosen, h.moved, [], Hourly);
  }

  lemma EmptyIsTraced()
    ensures Traced(EMPTY, History([], []))
  {
  }

  ghost predicate IsTraced(t: Trace) {
    Traced(t.s, t.h)
  }

  /**
   * In every run, whatever the clock does, the daily table shows what is raw, was moved or went
   * direct, and the hourly table shows what is raw or was moved.
   */
  lemma TablesShowTheHistory(actions: seq<Action>, k: nat)
    requires k <= |actions|
    ensures Traced(Run(actions, k).s, Run(actions, k).h)
  {
    forall now, t, e | IsTraced(t)
      ensures IsTraced(Receive(now, t, e))
    {
      if Put(t.s, now, e).Ok? {
        PutKeepsTraced(t.s, now, e, t.h);
      }
    }
    forall t, chosen | IsTraced(t) && chosen <= t.s.raw.Keys
      ensures IsTraced(Expire(t, chosen))
    {
      ExpireKeepsTraced(t.s, chosen, t.h);
    }
    EmptyIsTraced();
    HoldsFromThenOn(IsTraced, actions, 0, k);
    assert IsTraced(Run(actions, k));
  }

  // ----- how often an event is counted -----

  ghost function Joined(raw: map<Id, Event>, chosen: set<Id>, compacted: map<Id, Event>): map<Id, Event>
    requires chosen <= raw.Keys
  {
    (map id | id in chosen :: raw[id]) + compacted
  }

  ghost function Known(s: State): set<Id> {
    s.raw.Keys + s.compacted.Keys
  }

  /** Countings beyond one for each event the ledger knows. */
  ghost function Excess(s: State, h: History): int {
    |s.raw| + |h.moved| + |h.direct| - |Known(s)|
  }

  lemma PutCompacted(s: State, now: int, e: Event)
    requires Put(s, now, e).Ok?
    ensures Put(s, now, e).value.compacted == if GoesDirect(s, now, e) then s.compacted[e.id := e] else s.compacted
  {
  }

  ghost predicate IsPut(s: State, now: int, e: Event, t: State) {
    && t.raw == (if e.EffectiveAt() < Cutoff(now) && e.id !in s.raw then s.raw else s.raw[e.id := e])
    && t.compacted == if GoesDirect(s, now, e) then s.compacted[e.id := e] else s.compacted
  }

  lemma PutExcess(s: State, now: int, e: Event, h: History)
    requires Put(s, now, e).Ok?
    ensures Excess(Put(s, now, e).value, After(s, now, e, h)) == Excess(s, h) + if Returns(s, now, e) then 1 else 0
  {
    PutCompacted(s, now, e);
    PutRaws(s, now, e);
    PutGrows(s, now, e, h, Put(s, now, e).value);
  }

  lemma PutGrows(s: State, now: int, e: Event, h: History, t: State)
    requires IsPut(s, now, e, t)
    ensures Excess(t, After(s, now, e, h)) == Excess(s, h) + if Returns(s, now, e) then 1 else 0
  {
    OneMoreKey(s.raw, e);
    OneMoreKey(s.compacted, e);
    OneMoreKnown(s.raw.Keys, s.compacted.Keys, e.id);
  }

  lemma OneMoreKnown(raw: set<Id>, compacted: set<Id>, id: Id)
    ensures |raw + {id} + compacted| == |raw + compacted| + if id in raw + compacted then 0 else 1
    ensures |raw + (compacted + {id})| == |raw + compacted| + if id in raw + compacted then 0 else 1
  {
    assert raw + {id} + compacted == raw + compacted + {id} == raw + (compacted + {id});
    assert id in raw + compacted ==> raw + compacted + {id} == raw + compacted;
  }

  lemma OneMoreKey(events: map<Id, Event>, e: Event)
    ensures |events[e.id := e]| == |events| + if e.id in events then 0 else 1
    ensures events[e.id := e].Keys == events.Keys + {e.id}
  {
    assert events[e.id := e].Keys == events.Keys + {e.id};
    assert e.id in events ==> events[e.id := e].Keys == events.Keys;
    assert e.id !in events ==> |events.Keys + {e.id}| == |events.Keys| + 1;
  }

  lemma PutRaws(s: State, now: int, e: Event)
    requires Put(s, now, e).Ok?
    ensures Put(s, now, e).value.raw
            == if e.EffectiveAt() < Cutoff(now) && e.id !in s.raw then s.raw else s.raw[e.id := e]
  {
  }

  lemma CompactKeys(raw: map<Id, Event>, chosen: set<Id>, compacted: map<Id, Event>)
    requires chosen <= raw.Keys
    ensures |raw - chosen| + |chosen| == |raw|
    ensures (raw - chosen).Keys + Joined(raw, chosen, compacted).Keys == raw.Keys + compacted.Keys
  {
    KeysWithout(raw, chosen);
    JoinedKeys(raw, chosen, compacted);
  }

  lemma KeysWithout(raw: map<Id, Event>, chosen: set<Id>)
    requires chosen <= raw.Keys
    ensures |raw - chosen| + |chosen| == |raw| && (raw - chosen).Keys + chosen == raw.Keys
  {
    assert (raw - chosen).Keys == raw.Keys - chosen;
    assert raw.Keys - chosen + chosen == raw.Keys;
  }

  lemma JoinedKeys(raw: map<Id, Event>, chosen: set<Id>, compacted: map<Id, Event>)
    requires chosen <= raw.Keys
    ensures Joined(raw, chosen, compacted).Keys == chosen + compacted.Keys
  {
  }

  lemma CompactExcess(s: State, chosen: set<Id>, h: History)
    requires chosen <= s.raw.Keys
    ensures Excess(Compact(s, chosen), h.(moved := h.moved + ListOf(s.raw, chosen))) == Excess(s, h)
  {
    CompactKeys(s.raw, chosen, s.compacted);
    assert Known(Compact(s, chosen)) == (s.raw - chosen).Keys + Joined(s.raw, chosen, s.compacted).Keys;
  }

  lemma EmptyHasNoExcess()
    ensures Excess(EMPTY, History([], [])) == 0
  {
    assert Known(EMPTY) == {};
  }

  ghost predicate ExcessTells(t: Trace) {
    Excess(t.s, t.h) >= 0 && (t.returned <==> Excess(t.s, t.h) > 0)
  }

  /** Something is counted twice exactly when a committed event returned, and then for good. */
  lemma ExcessIffReturned(actions: seq<Action>, k: nat)
    requires k <= |actions|
    ensures Excess(Run(actions, k).s, Run(actions, k).h) >= 0
    ensures Run(actions, k).returned <==> Excess(Run(actions, k).s, Run(actions, k).h) > 0
  {
    forall now, t, e | ExcessTells(t)
      ensures ExcessTells(Receive(now, t, e))
    {
      if Put(t.s, now, e).Ok? {
        PutExcess(t.s, now, e, t.h);
      }
    }
    forall t, chosen | ExcessTells(t) && chosen <= t.s.raw.Keys
      ensures ExcessTells(Expire(t, chosen))
    {
      CompactExcess(t.s, chosen, t.h);
    }
    EmptyHasNoExcess();
    HoldsFromThenOn(ExcessTells, actions, 0, k);
    assert ExcessTells(Run(actions, k));
  }

  lemma ListsAddUp(moved: seq<Event>, direct: seq<Event>, g: Grain)
    ensures SameTally(Lists(moved, direct, g), Listed(moved + direct, g))
  {
    forall key: RowKey, m: Measure
      ensures Lists(moved, direct, g)(key, m) == Listed(moved + direct, g)(key, m)
    {
      SumSeqOfConcat(moved, direct, moved + direct, |direct|, |moved + direct|, ShareOf(g, key, m));
    }
  }

  /** The daily table adds up to what is raw, was moved, or went direct. */
  lemma DailyAddsUp(s: State, h: History, m: Measure)
    requires Traced(s, h)
    ensures RollupTotal(s.daily, m) == TotalOf(s.raw, m) + TotalOfList(h.moved + h.direct, m)
  {
    ListsAddUp(h.moved, h.direct, Daily);
    ShowsSame(s.daily, Both(Grouped(s.raw, Daily), Lists(h.moved, h.direct, Daily)),
              Both(Grouped(s.raw, Daily), Listed(h.moved + h.direct, Daily)));
    TableAddsUp(s.daily, s.raw, h.moved + h.direct, Daily, m);
  }

  lemma DailyCountsEvents(s: State, h: History)
    requires Traced(s, h)
    ensures RollupTotal(s.daily, Events) == |s.raw| + |h.moved| + |h.direct|
  {
    DailyAddsUp(s, h, Events);
    EventsAreCounted(s.raw);
    ListIsCounted(h.moved + h.direct, |h.moved + h.direct|);
  }

  lemma IndexCountsItsFacts(t: Rollup, facts: map<Id, Event>)
    requires Indexes(t, facts, Daily)
    ensures RollupTotal(t, Events) == |facts|
  {
    ShowsSame(t, Grouped(facts, Daily), Both(Grouped(facts, Daily), Listed([], Daily)));
    TableAddsUp(t, facts, [], Daily, Events);
    EventsAreCounted(facts);
  }

  // ----- without returning events -----

  /** The compacted events, grouped, are the listed ones. */
  ghost predicate Keeps(compacted: map<Id, Event>, moved: seq<Event>, direct: seq<Event>, g: Grain) {
    SameTally(Grouped(compacted, g), Lists(moved, direct, g))
  }

  ghost predicate Settled(s: State, h: History, given: map<Id, Event>) {
    && Apart(s) && Facts(s) == given
    && Keeps(s.compacted, h.moved, h.direct, Daily) && Keeps(s.compacted, h.moved, h.direct, Hourly)
  }

  lemma DirectKeeps(compacted: map<Id, Event>, moved: seq<Event>, direct: seq<Event>, e: Event, g: Grain)
    requires Keeps(compacted, moved, direct, g) && e.id !in compacted
    ensures Keeps(compacted[e.id := e], moved, direct + [e], g)
  {
    GroupedAdds(compacted, e.id, e, g);
    ListedAdds(direct, e, g);
  }

  lemma MoveOneKeeps(compacted: map<Id, Event>, moved: seq<Event>, direct: seq<Event>, id: Id, e: Event, g: Grain)
    requires Keeps(compacted, moved, direct, g) && id !in compacted
    ensures Keeps(compacted[id := e], moved + [e], direct, g)
  {
    GroupedAdds(compacted, id, e, g);
    ListedAdds(moved, e, g);
  }

  lemma NothingJoined(raw: map<Id, Event>, compacted: map<Id, Event>)
    ensures Joined(raw, {}, compacted) == compacted
  {
  }

  lemma OneMoreJoined(raw: map<Id, Event>, rest: set<Id>, id: Id, compacted: map<Id, Event>)
    requires rest <= raw.Keys && id in raw && id !in compacted
    ensures Joined(raw, rest, compacted)[id := raw[id]] == Joined(raw, rest + {id}, compacted)
  {
  }

  lemma {:induction false} MovingKeeps(raw: map<Id, Event>, chosen: set<Id>, compacted: map<Id, Event>,
      moved: seq<Event>, direct: seq<Event>, g: Grain)
    requires Keeps(compacted, moved, direct, g) && chosen <= raw.Keys && chosen !! compacted.Keys
    ensures Keeps(Joined(raw, chosen, compacted), moved + ListOf(raw, chosen), direct, g)
    decreases chosen
  {
    if chosen == {} {
      NothingJoined(raw, compacted);
      assert moved + ListOf(raw, chosen) == moved;
    } else {
      var id := Pick(chosen);
      var rest := chosen - {id};
      MovingKeeps(raw, rest, compacted, moved, direct, g);
      MoveOneMoreKeeps(raw, chosen, rest, id, compacted, moved + ListOf(raw, rest), direct, g);
      assert moved + ListOf(raw, rest) + [raw[id]] == moved + ListOf(raw, chosen);
    }
  }

  lemma MoveOneMoreKeeps(raw: map<Id, Event>, chosen: set<Id>, rest: set<Id>, id: Id, compacted: map<Id, Event>,
      moved: seq<Event>, direct: seq<Event>, g: Grain)
    requires chosen <= raw.Keys && id in chosen && rest == chosen - {id} && id !in compacted
    requires Keeps(Joined(raw, rest, compacted), moved, direct, g)
    ensures Keeps(Joined(raw, chosen, compacted), moved + [raw[id]], direct, g)
  {
    OneMoreJoined(raw, rest, id, compacted);
    assert rest + {id} == chosen;
    MoveOneKeeps(Joined(raw, rest, compacted), moved, direct, id, raw[id], g);
  }

  lemma PutKeepsFacts(s: State, now: int, e: Event)
    requires Apart(s) && Put(s, now, e).Ok? && !Returns(s, now, e)
    ensures Apart(Put(s, now, e).value) && Facts(Put(s, now, e).value) == Facts(s)[e.id := e]
  {
    PutOnTheLeft(s.raw, s.compacted, e);
    assert e.id in Facts(s) && Facts(s)[e.id] == e ==> Facts(s)[e.id := e] == Facts(s);
    assert s.raw + s.compacted[e.id := e] == Facts(s)[e.id := e];
  }

  lemma PutKeepsSettled(s: State, now: int, e: Event, h: History, given: map<Id, Event>)
    requires Settled(s, h, given) && Put(s, now, e).Ok? && !Returns(s, now, e)
    ensures Settled(Put(s, now, e).value, After(s, now, e, h), given[e.id := e])
  {
    PutKeepsFacts(s, now, e);
    PutCompacted(s, now, e);
    if GoesDirect(s, now, e) {
      DirectKeeps(s.compacted, h.moved, h.direct, e, Daily);
      DirectKeeps(s.compacted, h.moved, h.direct, e, Hourly);
    }
  }

  lemma CompactKeepsSettled(s: State, chosen: set<Id>, h: History, given: map<Id, Event>)
    requires Settled(s, h, given) && chosen <= s.raw.Keys
    ensures Settled(Compact(s, chosen), h.(moved := h.moved + ListOf(s.raw, chosen)), given)
  {
    CompactKeepsFacts(s, chosen);
    MovingKeeps(s.raw, chosen, s.compacted, h.moved, h.direct, Daily);
    MovingKeeps(s.raw, chosen, s.compacted, h.moved, h.direct, Hourly);
  }

  ghost predicate SettledUnlessReturned(t: Trace) {
    !t.returned ==> Settled(t.s, t.h, t.given)
  }

  /** As long as nothing returned, the ledger holds exactly what it was given, each event in one place. */
  lemma WithoutReturnsNothingIsLost(actions: seq<Action>, k: nat)
    requires k <= |actions| && !Run(actions, k).returned
    ensures Settled(Run(actions, k).s, Run(actions, k).h, Run(actions, k).given)
  {
    forall now, t, e | SettledUnlessReturned(t)
      ensures SettledUnlessReturned(Receive(now, t, e))
    {
      if Put(t.s, now, e).Ok? && !t.returned && !Returns(t.s, now, e) {
        PutKeepsSettled(t.s, now, e, t.h, t.given);
      }
    }
    forall t, chosen | SettledUnlessReturned(t) && chosen <= t.s.raw.Keys
      ensures SettledUnlessReturned(Expire(t, chosen))
    {
      if !t.returned {
        CompactKeepsSettled(t.s, chosen, t.h, t.given);
      }
    }
    EmptyIsSettled();
    HoldsFromThenOn(SettledUnlessReturned, actions, 0, k);
    assert SettledUnlessReturned(Run(actions, k));
  }

  lemma EmptyIsSettled()
    ensures Settled(EMPTY, History([], []), map[])
  {
  }

  lemma SettledIsIndexed(s: State, h: History, given: map<Id, Event>)
    requires Settled(s, h, given) && Traced(s, h)
    ensures Indexes(s.daily, given, Daily)
  {
    GroupedUnion(s.raw, s.compacted, Daily);
    var parts := Both(Grouped(s.raw, Daily), Grouped(s.compacted, Daily));
    ShowsSame(s.daily, Both(Grouped(s.raw, Daily), Lists(h.moved, h.direct, Daily)), parts);
    ShowsSame(s.daily, parts, Grouped(given, Daily));
  }

  lemma ExcessIsNotIndexed(s: State, h: History)
    requires Traced(s, h) && Excess(s, h) > 0
    ensures !Indexes(s.daily, Facts(s), Daily)
  {
    DailyCountsEvents(s, h);
    assert Facts(s).Keys == Known(s);
    if Indexes(s.daily, Facts(s), Daily) {
      IndexCountsItsFacts(s.daily, Facts(s));
      assert false;
    }
  }

  /**
   * Whatever transactions and compactions happened, in whatever order and under whatever clock: the
   * daily table is the grouped sum over the distinct events of the ledger exactly when no committed
   * event returned, and then those are the events it was given.
   */
  lemma DailyIndexesIffNothingReturned(actions: seq<Action>, k: nat)
    requires k <= |actions|
    ensures Indexes(Run(actions, k).s.daily, Facts(Run(actions, k).s), Daily) <==> !Run(actions, k).returned
    ensures !Run(actions, k).returned ==> Facts(Run(actions, k).s) == Run(actions, k).given
  {
    var t := Run(actions, k);
    TablesShowTheHistory(actions, k);
    if t.returned {
      ExcessIffReturned(actions, k);
      ExcessIsNotIndexed(t.s, t.h);
    } else {
      WithoutReturnsNothingIsLost(actions, k);
      SettledIsIndexed(t.s, t.h, t.given);
    }
  }

  // ----- verification before compaction -----

  lemma NoEventsNoTotal(m: Measure)
    ensures TotalOfList([], m) == 0
  {
  }

  lemma AgreeIffAllIsRaw(s: State, h: History)
    requires Traced(s, h)
    ensures TotalsAgree(s) <==> h == History([], [])
  {
    if h == History([], []) {
      forall m: Measure
        ensures TotalOf(s.raw, m) == RollupTotal(s.daily, m)
      {
        DailyAddsUp(s, h, m);
        assert h.moved + h.direct == [];
        NoEventsNoTotal(m);
      }
    } else {
      DailyCountsEvents(s, h);
      EventsAreCounted(s.raw);
      assert TotalOf(s.raw, Events) != RollupTotal(s.daily, Events);
    }
  }

  /** The comparison of raw events and daily table succeeds exactly while every counted event is still raw. */
  lemma TotalsAgreeIffAllIsRaw(actions: seq<Action>, k: nat)
    requires k <= |actions|
    ensures TotalsAgree(Run(actions, k).s) <==> Run(actions, k).h == History([], [])
  {
    TablesShowTheHistory(actions, k);
    AgreeIffAllIsRaw(Run(actions, k).s, Run(actions, k).h);
  }

  predicate Longer(h: History, later: History) {
    |h.moved| <= |later.moved| && |h.direct| <= |later.direct|
  }

  lemma HistoryOnlyGrows(actions: seq<Action>, j: nat, k: nat)
    requires j <= k <= |actions|
    ensures Longer(Run(actions, j).h, Run(actions, k).h)
  {
    var h := Run(actions, j).h;
    HoldsFromThenOn((t: Trace) => Longer(h, t.h), actions, j, k);
  }

  /** Once it fails it fails for good, whatever the ledger is given later. */
  lemma DisagreementIsPermanent(actions: seq<Action>, j: nat, k: nat)
    requires j <= k <= |actions| && !TotalsAgree(Run(actions, j).s)
    ensures !TotalsAgree(Run(actions, k).s)
  {
    TotalsAgreeIffAllIsRaw(actions, j);
    TotalsAgreeIffAllIsRaw(actions, k);
    HistoryOnlyGrows(actions, j, k);
    assert |Run(actions, j).h.moved| + |Run(actions, j).h.direct| > 0;
  }

  // ----- the hourly table -----

  ghost predicate HasKey(events: seq<Event>, g: Grain, key: RowKey) {
    exists i :: 0 <= i < |events| && events[i].Key(g) == key
  }

  lemma {:induction false} NoneOfTheKey(events: seq<Event>, k: nat, g: Grain, key: RowKey, m: Measure)
    requires k <= |events| && forall i :: 0 <= i < k ==> events[i].Key(g) != key
    ensures SumSeq(events, k, ShareOf(g, key, m)) == 0
  {
    if k > 0 {
      NoneOfTheKey(events, k - 1, g, key, m);
    }
  }

  lemma ListedIffHasKey(events: seq<Event>, g: Grain, key: RowKey)
    ensures HasKey(events, g, key) <==> Listed(events, g)(key, Events) > 0
    ensures !HasKey(events, g, key) ==> forall m: Measure :: Listed(events, g)(key, m) == 0
  {
    if HasKey(events, g, key) {
      var i :| 0 <= i < |events| && events[i].Key(g) == key;
      ElementIsCounted(events, |events|, i, g);
    } else {
      forall m: Measure
        ensures Listed(events, g)(key, m) == 0
      {
        NoneOfTheKey(events, |events|, g, key, m);
      }
    }
  }

  lemma HourRow(s: State, h: History, given: map<Id, Event>, key: RowKey, m: Measure)
    requires Settled(s, h, given) && Traced(s, h)
    ensures At(s.hourly, key).Get(m) + Listed(h.direct, Hourly)(key, m) == Grouped(given, Hourly)(key, m)
  {
    assert ShowsAt(s.hourly, Both(Grouped(s.raw, Hourly), Lists(h.moved, [], Hourly)), key);
    assert At(s.hourly, key).Get(m) == Both(Grouped(s.raw, Hourly), Lists(h.moved, [], Hourly))(key, m);
    assert Grouped(s.compacted, Hourly)(key, m) == Lists(h.moved, h.direct, Hourly)(key, m);
    GroupedUnionAt(s.raw, s.compacted, given, Hourly, key, m);
  }

  lemma RowShowsAllIffNoneWentDirect(s: State, h: History, given: map<Id, Event>, key: RowKey)
    requires Settled(s, h, given) && Traced(s, h)
    ensures ShowsAt(s.hourly, Grouped(given, Hourly), key) <==> !HasKey(h.direct, Hourly, key)
  {
    ListedIffHasKey(h.direct, Hourly, key);
    forall m: Measure
      ensures At(s.hourly, key).Get(m) + Listed(h.direct, Hourly)(key, m) == Grouped(given, Hourly)(key, m)
    {
      HourRow(s, h, given, key, m);
    }
    if HasKey(h.direct, Hourly, key) {
      assert At(s.hourly, key).Get(Events) != Grouped(given, Hourly)(key, Events);
    }
  }

  /** A row of the hourly table shows all its events exactly when none of them went direct. */
  lemma HourShowsAllIffNoneWentDirect(actions: seq<Action>, k: nat, key: RowKey)
    requires k <= |actions| && !Run(actions, k).returned
    ensures ShowsAt(Run(actions, k).s.hourly, Grouped(Run(actions, k).given, Hourly), key)
            <==> !HasKey(Run(actions, k).h.direct, Hourly, key)
  {
    TablesShowTheHistory(actions, k);
    WithoutReturnsNothingIsLost(actions, k);
    RowShowsAllIffNoneWentDirect(Run(actions, k).s, Run(actions, k).h, Run(actions, k).given, key);
  }

  lemma FirstArrival(e: Event, now: int, c: Cursor)
    requires Acceptable(e) && FitsColumns(e.usage) && e.EffectiveAt() < Cutoff(now)
    ensures Commit(EMPTY, now, [e], c).Ok?
    ensures Iterate(Receiver(now), START, [e], 1).h == History([], [e])
    ensures Iterate(Receiver(now), START, [e], 1).given == map[e.id := e]
    ensures !Iterate(Receiver(now), START, [e], 1).returned
  {
    assert PutAll(EMPTY, now, [e], 0) == Ok(EMPTY);
    assert PutAll(EMPTY, now, [e], 1) == Put(EMPTY, now, e);
    assert Iterate(Receiver(now), START, [e], 0) == START;
    assert Iterate(Receiver(now), START, [e], 1) == Receive(now, START, e);
  }

  /** An event that is already expired when it arrives: its hour stays empty. */
  lemma ExpiredArrivalIsMissedByTheHour(e: Event, now: int, c: Cursor)
    requires Acceptable(e) && FitsColumns(e.usage) && e.EffectiveAt() < Cutoff(now)
    ensures Run([Upsert(now, [e], c)], 1).given == map[e.id := e]
    ensures !ShowsAt(Run([Upsert(now, [e], c)], 1).s.hourly, Grouped(map[e.id := e], Hourly), e.Key(Hourly))
  {
    var actions := [Upsert(now, [e], c)];
    FirstArrival(e, now, c);
    assert Run(actions, 0) == START;
    assert Run(actions, 1) == Advance(Run(actions, 0), actions[0]);
    assert Run(actions, 1).h.direct[0].Key(Hourly) == e.Key(Hourly);
    HourShowsAllIffNoneWentDirect(actions, 1, e.Key(Hourly));
  }

  // ----- a clock that does not go back -----

  ghost predicate Expired(s: State, now: int, chosen: set<Id>) {
    forall id :: id in chosen ==> id in s.raw && s.raw[id].EffectiveAt() < Cutoff(now)
  }

  /** The clock never goes back, and only expired events are compacted. */
  ghost predicate Clocked(actions: seq<Action>, k: nat)
    requires k <= |actions|
  {
    k == 0 ||
    (&& Clocked(actions, k - 1)
     && (k > 1 ==> actions[k - 2].now <= actions[k - 1].now)
     && (actions[k - 1].Compaction? ==> Expired(Run(actions, k - 1).s, actions[k - 1].now, actions[k - 1].chosen)))
  }

  ghost predicate ListedBefore(events: seq<Event>, limit: int) {
    forall i :: 0 <= i < |events| ==> events[i].EffectiveAt() < limit
  }

  ghost predicate Past(events: map<Id, Event>, limit: int) {
    forall id :: id in events ==> events[id].EffectiveAt() < limit
  }

  /** Only expired events are no longer raw. */
  ghost predicate Aged(s: State, h: History, limit: int) {
    Past(s.compacted, limit) && ListedBefore(h.moved, limit) && ListedBefore(h.direct, limit)
  }

  lemma PutKeepsAged(s: State, now: int, e: Event, h: History)
    requires Aged(s, h, Cutoff(now)) && Put(s, now, e).Ok?
    ensures Aged(Put(s, now, e).value, After(s, now, e, h), Cutoff(now))
  {
  }

  lemma ExpireKeepsAged(s: State, chosen: set<Id>, h: History, now: int)
    requires Aged(s, h, Cutoff(now)) && Expired(s, now, chosen)
    ensures Aged(Compact(s, chosen), h.(moved := h.moved + ListOf(s.raw, chosen)), Cutoff(now))
  {
  }

  lemma AdvanceKeepsAged(t: Trace, a: Action)
    requires Aged(t.s, t.h, Cutoff(a.now)) && (a.Compaction? ==> Expired(t.s, a.now, a.chosen))
    ensures Aged(Advance(t, a).s, Advance(t, a).h, Cutoff(a.now))
  {
    match a
    case Upsert(now, events, cursor) =>
      var aged := (u: Trace) => Aged(u.s, u.h, Cutoff(now));
      forall u, e | aged(u)
        ensures aged(Receive(now, u, e))
      {
        if Put(u.s, now, e).Ok? {
          PutKeepsAged(u.s, now, e, u.h);
        }
      }
      UpsertKeeps(aged, t, now, events, cursor);
    case Compaction(now, chosen) =>
      ExpireKeepsAged(t.s, chosen, t.h, now);
  }

  lemma {:induction false} OnlyExpiredEventsLeave(actions: seq<Action>, k: nat, now: int)
    requires k <= |actions| && Clocked(actions, k) && (k > 0 ==> actions[k - 1].now <= now)
    ensures Aged(Run(actions, k).s, Run(actions, k).h, Cutoff(now))
  {
    if k > 0 {
      OnlyExpiredEventsLeave(actions, k - 1, actions[k - 1].now);
      AdvanceKeepsAged(Run(actions, k - 1), actions[k - 1]);
    }
  }

  /** Every event has one effective time, whichever version of it arrives. */
  ghost predicate Timed(events: seq<Event>, when: Id -> int) {
    forall i :: 0 <= i < |events| ==> events[i].EffectiveAt() == when(events[i].id)
  }

  ghost predicate TimedRun(actions: seq<Action>, k: nat, when: Id -> int)
    requires k <= |actions|
  {
    forall i :: 0 <= i < k && actions[i].Upsert? ==> Timed(actions[i].events, when)
  }

  ghost predicate Stamped(events: map<Id, Event>, when: Id -> int) {
    forall id :: id in events ==> events[id].EffectiveAt() == when(id)
  }

  ghost predicate BothStamped(s: State, when: Id -> int) {
    Stamped(s.raw, when) && Stamped(s.compacted, when)
  }

  ghost predicate InTime(t: Trace, now: int, when: Id -> int) {
    !t.returned && Past(t.s.compacted, Cutoff(now)) && BothStamped(t.s, when)
  }

  lemma OneDoesNotReturn(t: Trace, now: int, e: Event, when: Id -> int)
    requires InTime(t, now, when) && e.EffectiveAt() == when(e.id)
    ensures InTime(Receive(now, t, e), now, when)
  {
    if Put(t.s, now, e).Ok? {
      PutCompacted(t.s, now, e);
      PutRaws(t.s, now, e);
    }
  }

  lemma NoneOfThemReturns(t: Trace, now: int, events: seq<Event>, cursor: Cursor, when: Id -> int)
    requires InTime(t, now, when) && Timed(events, when)
    ensures InTime(Advance(t, Upsert(now, events, cursor)), now, when)
  {
    if Commit(t.s, now, events, cursor).Ok? {
      var inTime, timed := (u: Trace) => InTime(u, now, when), (e: Event) => e.EffectiveAt() == when(e.id);
      forall u, e | inTime(u) && timed(e)
        ensures inTime(Receiver(now)(u, e))
      {
        OneDoesNotReturn(u, now, e, when);
      }
      AlwaysOver(Receiver(now), inTime, timed, t, events, |events|);
      CommitIsReceiving(t, now, events, cursor);
    }
  }

  lemma CompactKeepsStamps(s: State, chosen: set<Id>, when: Id -> int)
    requires BothStamped(s, when) && chosen <= s.raw.Keys
    ensures BothStamped(Compact(s, chosen), when)
  {
  }

  lemma AdvanceKeepsStamps(t: Trace, a: Action, when: Id -> int)
    requires InTime(t, a.now, when) && (a.Upsert? ==> Timed(a.events, when))
    ensures !Advance(t, a).returned && BothStamped(Advance(t, a).s, when)
  {
    match a
    case Upsert(now, events, cursor) => NoneOfThemReturns(t, now, events, cursor, when);
    case Compaction(_, chosen) =>
      if chosen <= t.s.raw.Keys {
        CompactKeepsStamps(t.s, chosen, when);
      }
  }

  /** Under a clock that does not go back, an event whose time does not change never returns. */
  lemma {:induction false} NothingReturnsInTime(actions: seq<Action>, k: nat, when: Id -> int)
    requires k <= |actions| && Clocked(actions, k) && TimedRun(actions, k, when)
    ensures !Run(actions, k).returned && BothStamped(Run(actions, k).s, when)
  {
    if k > 0 {
      NothingReturnsInTime(actions, k - 1, when);
      OnlyExpiredEventsLeave(actions, k - 1, actions[k - 1].now);
      AdvanceKeepsStamps(Run(actions, k - 1), actions[k - 1], when);
    }
  }

  /** So in such a run every event is counted once, and nothing else is. */
  lemma DailyIndexesWhatWasGiven(actions: seq<Action>, k: nat, when: Id -> int)
    requires k <= |actions| && Clocked(actions, k) && TimedRun(actions, k, when)
    ensures Indexes(Run(actions, k).s.daily, Run(actions, k).given, Daily)
  {
    NothingReturnsInTime(actions, k, when);
    DailyIndexesIffNothingReturned(actions, k);
  }
}
