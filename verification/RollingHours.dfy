/**
 * The hourly rows a rolling window reads, in every run of the ledger (src/api/period.rs,
 * src/api/queries.rs, src/store/usage_repository.rs).
 */
module RollingHours {
  import opened Prelude
  import opened Types
  import opened Sums
  import opened UsageTables
  import opened Rollups
  import opened RollupRuns
  import opened HourWindow

  const ROLLING_DAYS := 7

  /** Where the rolling week begins. */
  function RollingStart(now: int): int {
    now - ROLLING_DAYS * DAY
  }

  /** What a query keeps, and the label it groups by. */
  datatype Query = Query(passes: RowKey -> bool, group: RowKey -> string)

  function Named(name: string): Option<string> {
    if name == "" then None else Some(name)
  }

  // ----- what is read -----

  ghost predicate Selects(q: Query, slot: Slot, key: RowKey) {
    key.bucket == slot.hour && q.passes(key) && Named(q.group(key)) == slot.group
  }

  ghost function Showing(t: Rollup, key: RowKey, m: Measure): nat {
    Max(0, At(t, key).Get(m))
  }

  ghost function RowShare(t: Rollup, q: Query, slot: Slot, m: Measure): RowKey -> nat {
    (key: RowKey) => if Selects(q, slot, key) then Showing(t, key, m) else 0
  }

  /** The rows that pass, summed by hour and label. */
  ghost predicate Reads(series: Series, t: Rollup, q: Query) {
    forall slot, m :: ValueAt(series, slot, m) == SumOver(t.Keys, RowShare(t, q, slot, m))
  }

  /** An absent label and an empty one have the same row. */
  ghost predicate IsFactOf(f: Fact, e: Event, q: Query) {
    f.event == e && f.at == e.EffectiveAt() && (if f.group.Some? then f.group.value else "") == q.group(e.Key(Hourly))
  }

  ghost predicate AreFactsOf(facts: seq<Fact>, ids: seq<Id>, events: map<Id, Event>, q: Query) {
    && |facts| == |ids|
    && forall i :: 0 <= i < |ids| ==>
         ids[i] in events && q.passes(events[ids[i]].Key(Hourly)) && IsFactOf(facts[i], events[ids[i]], q)
  }

  /** Every raw event that passes is listed once. */
  ghost predicate ListsRaw(facts: seq<Fact>, ids: seq<Id>, raw: map<Id, Event>, q: Query) {
    && AreFactsOf(facts, ids, raw, q) && AllDifferent(ids, |ids|)
    && forall id :: id in raw && q.passes(raw[id].Key(Hourly)) ==> id in FirstOnes(ids, |ids|)
  }

  ghost predicate Counted(e: Event, q: Query, zone: Zone, low: int, high: int, slot: Slot) {
    && low <= e.EffectiveAt() < high && HourIn(zone, e.EffectiveAt()) == slot.hour
    && q.passes(e.Key(Hourly)) && Named(q.group(e.Key(Hourly))) == slot.group
  }

  /** What each event weighs in a slot of the window [low, high). */
  ghost function InWindow(events: map<Id, Event>, q: Query, zone: Zone, low: int, high: int, slot: Slot,
      m: Measure): Id -> nat {
    (id: Id) => if id in events && Counted(events[id], q, zone, low, high, slot) then events[id].Weight(m) else 0
  }

  // ----- rows show raw events -----

  /** Rows of hours after `limit` show nothing but raw events, if only earlier ones were moved. */
  lemma LateRowsShowRaw(t: Rollup, raw: map<Id, Event>, moved: seq<Event>, limit: int, key: RowKey, m: Measure)
    requires Counts(t, raw, moved, [], Hourly) && ListedBefore(moved, limit) && limit <= HourStart(key.bucket)
    ensures At(t, key).Get(m) == Grouped(raw, Hourly)(key, m)
  {
    forall i | 0 <= i < |moved|
      ensures moved[i].Key(Hourly) != key
    {
      HourSpan(moved[i].EffectiveAt(), key.bucket);
    }
    assert !HasKey(moved, Hourly, key);
    ListedIffHasKey(moved, Hourly, key);
    assert ShowsAt(t, Both(Grouped(raw, Hourly), Lists(moved, [], Hourly)), key);
    assert At(t, key).Get(m) == Both(Grouped(raw, Hourly), Lists(moved, [], Hourly))(key, m);
    assert Listed([], Hourly)(key, m) == 0;
  }

  ghost function ShareInHour(raw: map<Id, Event>, q: Query, slot: Slot, m: Measure): Id -> nat {
    InWindow(raw, q, SHANGHAI, HourStart(slot.hour), HourStart(slot.hour) + HOUR, slot, m)
  }

  lemma InHourIffSelected(raw: map<Id, Event>, q: Query, slot: Slot, m: Measure, id: Id)
    requires id in raw
    ensures ShareInHour(raw, q, slot, m)(id) == if Selects(q, slot, raw[id].Key(Hourly)) then raw[id].Weight(m) else 0
  {
    HourSpan(raw[id].EffectiveAt(), slot.hour);
    RollupHour(raw[id].EffectiveAt());
  }

  /** A row weighs as much as the raw events of its key. */
  lemma RowIsGroup(t: Rollup, raw: map<Id, Event>, moved: seq<Event>, limit: int, q: Query, slot: Slot, m: Measure,
      key: RowKey)
    requires Counts(t, raw, moved, [], Hourly) && ListedBefore(moved, limit) && limit <= HourStart(slot.hour)
    ensures RowShare(t, q, slot, m)(key)
            == GroupOfSet(raw.Keys, KeyIn(raw, Hourly), ShareInHour(raw, q, slot, m))(key)
  {
    var part := Restrict(KeyIn(raw, Hourly), key, ShareInHour(raw, q, slot, m));
    forall id | id in raw.Keys
      ensures part(id) == if Selects(q, slot, key) then Share(raw, Hourly, key, m)(id) else 0
    {
      InHourIffSelected(raw, q, slot, m, id);
    }
    if Selects(q, slot, key) {
      LateRowsShowRaw(t, raw, moved, limit, key, m);
      SumOverSame(raw.Keys, part, Share(raw, Hourly, key, m));
    } else {
      SumOverZero(raw.Keys, part);
    }
  }

  lemma EveryRawEventHasARow(t: Rollup, raw: map<Id, Event>, moved: seq<Event>, id: Id)
    requires Counts(t, raw, moved, [], Hourly) && id in raw
    ensures raw[id].Key(Hourly) in t
  {
    FactIsCounted(raw, id, Hourly);
    RowIsThere(t, Both(Grouped(raw, Hourly), Lists(moved, [], Hourly)), raw[id].Key(Hourly));
  }

  /** The rows that are read for an hour and a label add up to its raw events. */
  lemma RowsAddUp(t: Rollup, raw: map<Id, Event>, moved: seq<Event>, limit: int, q: Query, slot: Slot, m: Measure)
    requires Counts(t, raw, moved, [], Hourly) && ListedBefore(moved, limit) && limit <= HourStart(slot.hour)
    ensures SumOver(t.Keys, RowShare(t, q, slot, m)) == SumOver(raw.Keys, ShareInHour(raw, q, slot, m))
  {
    var share := ShareInHour(raw, q, slot, m);
    forall id | id in raw.Keys
      ensures KeyIn(raw, Hourly)(id) in t.Keys
    {
      EveryRawEventHasARow(t, raw, moved, id);
    }
    forall key | key in t.Keys
      ensures RowShare(t, q, slot, m)(key) == GroupOfSet(raw.Keys, KeyIn(raw, Hourly), share)(key)
    {
      RowIsGroup(t, raw, moved, limit, q, slot, m, key);
    }
    SumOverSame(t.Keys, RowShare(t, q, slot, m), GroupOfSet(raw.Keys, KeyIn(raw, Hourly), share));
    SetGroupsAddUp(raw.Keys, KeyIn(raw, Hourly), t.Keys, share);
  }

  // ----- a list of raw events -----

  ghost predicate SameGroups(facts: seq<Fact>, q: Query) {
    forall i :: 0 <= i < |facts| ==> facts[i].group == Named(q.group(facts[i].event.Key(Hourly)))
  }

  lemma StoredGroups(facts: seq<Fact>, ids: seq<Id>, raw: map<Id, Event>, q: Query)
    requires ListsRaw(facts, ids, raw, q)
    ensures AreFactsOf(StoredFacts(facts), ids, raw, q) && SameGroups(StoredFacts(facts), q)
  {
  }

  lemma {:induction false} WindowIsSum(zone: Zone, facts: seq<Fact>, ids: seq<Id>, events: map<Id, Event>, q: Query,
      k: nat, low: int, high: int, slot: Slot, m: Measure)
    requires k <= |ids| && AreFactsOf(facts, ids, events, q) && SameGroups(facts, q)
    ensures Window(zone, facts, k, low, high, slot, m) == SumSeq(ids, k, InWindow(events, q, zone, low, high, slot, m))
  {
    if k > 0 {
      WindowIsSum(zone, facts, ids, events, q, k - 1, low, high, slot, m);
      assert IsFactOf(facts[k - 1], events[ids[k - 1]], q);
    }
  }

  ghost predicate OthersWeighNothing(ids: seq<Id>, events: map<Id, Event>, share: Id -> nat) {
    && (forall i :: 0 <= i < |ids| ==> ids[i] in events)
    && forall id :: id in events && id !in FirstOnes(ids, |ids|) ==> share(id) == 0
  }

  lemma ListIsWhole(ids: seq<Id>, events: map<Id, Event>, share: Id -> nat)
    requires AllDifferent(ids, |ids|) && OthersWeighNothing(ids, events, share)
    ensures SumSeq(ids, |ids|, share) == SumOver(events.Keys, share)
  {
    SumSeqIsSumOver(ids, |ids|, share);
    forall id | id in FirstOnes(ids, |ids|)
      ensures id in events.Keys
    {
      InFirstOnes(ids, |ids|, id);
    }
    SumOverPart(FirstOnes(ids, |ids|), events.Keys, share);
  }

  lemma HourIsRead(s: State, h: History, limit: int, series: Series, q: Query, facts: seq<Fact>, ids: seq<Id>,
      slot: Slot, m: Measure)
    requires Traced(s, h) && ListedBefore(h.moved, limit) && limit <= HourStart(slot.hour)
    requires Reads(series, s.hourly, q) && ListsRaw(facts, ids, s.raw, q)
    ensures HourShows(series, StoredFacts(facts), slot, m)
  {
    RowsAddUp(s.hourly, s.raw, h.moved, limit, q, slot, m);
    StoredIsSum(s.raw, q, facts, ids, HourStart(slot.hour), HourStart(slot.hour) + HOUR, slot, m);
    assert ValueAt(series, slot, m) == SumOver(s.hourly.Keys, RowShare(s.hourly, q, slot, m));
  }

  lemma StoredIsSum(raw: map<Id, Event>, q: Query, facts: seq<Fact>, ids: seq<Id>, low: int, high: int, slot: Slot,
      m: Measure)
    requires ListsRaw(facts, ids, raw, q)
    ensures Window(SHANGHAI, StoredFacts(facts), |facts|, low, high, slot, m)
            == SumOver(raw.Keys, InWindow(raw, q, SHANGHAI, low, high, slot, m))
  {
    StoredGroups(facts, ids, raw, q);
    WindowIsSum(SHANGHAI, StoredFacts(facts), ids, raw, q, |ids|, low, high, slot, m);
    ListedIsWhole(facts, ids, raw, q, InWindow(raw, q, SHANGHAI, low, high, slot, m));
  }

  lemma ListedIsWhole(facts: seq<Fact>, ids: seq<Id>, raw: map<Id, Event>, q: Query, share: Id -> nat)
    requires ListsRaw(facts, ids, raw, q)
    requires forall id :: id in raw && !q.passes(raw[id].Key(Hourly)) ==> share(id) == 0
    ensures SumSeq(ids, |ids|, share) == SumOver(raw.Keys, share)
  {
    ListIsWhole(ids, raw, share);
  }

  lemma HoursOnwards(first: int, hour: int)
    requires OnTheHour(first) && LocalHour(first) <= hour
    ensures first <= HourStart(hour)
  {
  }

  // ----- in every run -----

  /**
   * A window that starts within the retention period: under a clock that does not go back, its
   * complete hours are read as the sums of the raw events.
   */
  lemma RecentHoursIndexRaw(actions: seq<Action>, k: nat, now: int, start: int, end: int, series: Series, q: Query,
      facts: seq<Fact>, ids: seq<Id>)
    requires k <= |actions| && Clocked(actions, k) && (k > 0 ==> actions[k - 1].now <= now)
    requires Cutoff(now) <= start < end && FirstFull(start, end) < LastFull(start, end)
    requires Reads(series, Run(actions, k).s.hourly, q) && ListsRaw(facts, ids, Run(actions, k).s.raw, q)
    ensures HourlyIndexes(series, StoredFacts(facts), FirstFull(start, end), LastFull(start, end))
  {
    TablesShowTheHistory(actions, k);
    OnlyExpiredEventsLeave(actions, k, now);
    BoundariesAreOrdered(start, end);
    forall slot: Slot, m | LocalHour(FirstFull(start, end)) <= slot.hour <= LocalHour(LastFull(start, end) - 1)
      ensures HourShows(series, StoredFacts(facts), slot, m)
    {
      HoursOnwards(FirstFull(start, end), slot.hour);
      HourIsRead(Run(actions, k).s, Run(actions, k).h, Cutoff(now), series, q, facts, ids, slot, m);
    }
  }

  /** The series of the last seven days, read from the tables a run left behind. */
  method RollingSeries(zone: Zone, now: int, facts: seq<Fact>, hourly: Series, ghost actions: seq<Action>, ghost k: nat,
      ghost q: Query, ghost ids: seq<Id>) returns (merged: Series)
    requires k <= |actions| && Clocked(actions, k) && (k > 0 ==> actions[k - 1].now <= now)
    requires Reads(hourly, Run(actions, k).s.hourly, q) && ListsRaw(facts, ids, Run(actions, k).s.raw, q)
    ensures forall slot, m ::
              ValueAt(merged, slot, m) == Sat(Pieces(zone, facts, now - 604_800_000_000_000, now, slot, m))
  {
    var start := RollingStart(now);
    if FirstFull(start, now) < LastFull(start, now) {
      RecentHoursIndexRaw(actions, k, now, start, now, hourly, q, facts, ids);
    }
    merged := AggregateExactHourWindow(zone, facts, hourly, start, now);
  }

  lemma NoEmptyGroups(facts: seq<Fact>, ids: seq<Id>, raw: map<Id, Event>, q: Query)
    requires ListsRaw(facts, ids, raw, q) && Labelled(facts)
    ensures SameGroups(facts, q)
  {
  }

  /**
   * So it shows every event the ledger was ever given for those days, in every hour and under
   * every label, when the hours of the zone are the rollup's and no label is empty.
   */
  lemma RollingSeriesShowsWhatWasGiven(actions: seq<Action>, k: nat, when: Id -> int, now: int, zone: Zone, q: Query,
      facts: seq<Fact>, ids: seq<Id>, slot: Slot, m: Measure)
    requires k <= |actions| && Clocked(actions, k) && (k > 0 ==> actions[k - 1].now <= now)
    requires TimedRun(actions, k, when)
    requires ListsRaw(facts, ids, Run(actions, k).s.raw, q) && Labelled(facts)
    requires SameHours(zone, FirstFull(RollingStart(now), now), LastFull(RollingStart(now), now))
    ensures Pieces(zone, facts, RollingStart(now), now, slot, m)
            == SumOver(Run(actions, k).given.Keys,
                       InWindow(Run(actions, k).given, q, zone, RollingStart(now), now, slot, m))
  {
    NothingReturnsInTime(actions, k, when);
    WithoutReturnsNothingIsLost(actions, k);
    OnlyExpiredEventsLeave(actions, k, now);
    NoEmptyGroups(facts, ids, Run(actions, k).s.raw, q);
    WindowIsExact(zone, facts, RollingStart(now), now, slot, m);
    RecentGivenIsRaw(Run(actions, k).s, Run(actions, k).given, now, zone, q, facts, ids, slot, m);
  }

  lemma RecentGivenIsRaw(s: State, given: map<Id, Event>, now: int, zone: Zone, q: Query, facts: seq<Fact>,
      ids: seq<Id>, slot: Slot, m: Measure)
    requires Apart(s) && Facts(s) == given && Past(s.compacted, Cutoff(now))
    requires ListsRaw(facts, ids, s.raw, q) && SameGroups(facts, q)
    ensures Window(zone, facts, |facts|, RollingStart(now), now, slot, m)
            == SumOver(given.Keys, InWindow(given, q, zone, RollingStart(now), now, slot, m))
  {
    var share := InWindow(given, q, zone, RollingStart(now), now, slot, m);
    forall id | id in s.raw
      ensures id in given && given[id] == s.raw[id]
    {
    }
    WindowIsSum(zone, facts, ids, given, q, |ids|, RollingStart(now), now, slot, m);
    forall id | id in given && id !in FirstOnes(ids, |ids|)
      ensures share(id) == 0
    {
      assert id in s.compacted ==> given[id] == s.compacted[id];
    }
    ListIsWhole(ids, given, share);
  }
}
