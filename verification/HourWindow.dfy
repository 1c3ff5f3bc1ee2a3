/**
 * Rolling windows from complete hours and two partial boundary hours
 * (src/api/queries.rs, the hourly filter of src/store.rs). Instants are nanoseconds.
 */
module HourWindow {
  import opened Prelude
  import opened Types
  import opened UsageTables

  /** Offsets from UTC, instant by instant, as a time zone has them. */
  type Zone = int -> int

  /** The zone the rollup rows are keyed in. */
  const SHANGHAI: Zone := (at: int) => LOCAL_OFFSET

  function HourIn(zone: Zone, at: int): int {
    (at + zone(at)) / HOUR
  }

  /** An event as the series queries see it: its time, the label it is grouped by, and its weight. */
  datatype Fact = Fact(at: int, group: Option<string>, event: Event)

  /** A bucket of a series: a local hour and a label. */
  datatype Slot = Slot(hour: int, group: Option<string>)

  type Series = map<Slot, Totals>

  function FloorHour(at: int): int {
    at - at % HOUR
  }

  function CeilHour(at: int): int {
    if FloorHour(at) == at then at else FloorHour(at) + HOUR
  }

  function ValueAt(series: Series, slot: Slot, m: Measure): int {
    if slot in series then series[slot].Get(m) else 0
  }

  // ----- the specification: a sum over the half-open window -----

  predicate InSlot(zone: Zone, f: Fact, low: int, high: int, slot: Slot) {
    low <= f.at < high && HourIn(zone, f.at) == slot.hour && f.group == slot.group
  }

  /** The sum over the first `k` facts that lie in [low, high) and in the slot. */
  ghost function Window(zone: Zone, facts: seq<Fact>, k: nat, low: int, high: int, slot: Slot, m: Measure): nat
    requires k <= |facts|
  {
    if k == 0 then 0 else
      Window(zone, facts, k - 1, low, high, slot, m)
      + if InSlot(zone, facts[k - 1], low, high, slot) then facts[k - 1].event.Weight(m) else 0
  }

  lemma {:induction false} WindowSplits(zone: Zone, facts: seq<Fact>, k: nat, low: int, mid: int, high: int, slot: Slot,
      m: Measure)
    requires k <= |facts| && low <= mid <= high
    ensures Window(zone, facts, k, low, high, slot, m)
            == Window(zone, facts, k, low, mid, slot, m) + Window(zone, facts, k, mid, high, slot, m)
  {
    if k > 0 {
      WindowSplits(zone, facts, k - 1, low, mid, high, slot, m);
    }
  }

  lemma {:induction false} EmptyWindow(zone: Zone, facts: seq<Fact>, k: nat, low: int, high: int, slot: Slot,
      m: Measure)
    requires k <= |facts| && low >= high
    ensures Window(zone, facts, k, low, high, slot, m) == 0
  {
    if k > 0 {
      EmptyWindow(zone, facts, k - 1, low, high, slot, m);
    }
  }

  /** A window that misses the slot's hour holds nothing of it. */
  lemma {:induction false} OtherHours(facts: seq<Fact>, k: nat, low: int, high: int, slot: Slot, m: Measure)
    requires k <= |facts|
    requires slot.hour < LocalHour(low) || LocalHour(high - 1) < slot.hour
    ensures Window(SHANGHAI, facts, k, low, high, slot, m) == 0
  {
    if k > 0 {
      OtherHours(facts, k - 1, low, high, slot, m);
      if low <= facts[k - 1].at < high {
        HourIsMonotone(low, facts[k - 1].at);
        HourIsMonotone(facts[k - 1].at, high - 1);
        RollupHour(facts[k - 1].at);
      }
    }
  }

  lemma HourIsMonotone(a: int, b: int)
    requires a <= b
    ensures LocalHour(a) <= LocalHour(b)
  {
  }

  lemma RollupHour(at: int)
    ensures HourIn(SHANGHAI, at) == LocalHour(at)
  {
  }

  // ----- the hourly rollup -----

  /** In the rollup an empty label and an absent one are the same. */
  function Stored(f: Fact): Fact {
    if f.group == Some("") then f.(group := None) else f
  }

  ghost function StoredFacts(facts: seq<Fact>): (r: seq<Fact>)
    ensures |r| == |facts| && forall i :: 0 <= i < |r| ==> r[i] == Stored(facts[i])
  {
    seq(|facts|, i requires 0 <= i < |facts| => Stored(facts[i]))
  }

  /** The span of a slot's hour. */
  function HourStart(hour: int): int {
    hour * HOUR - LOCAL_OFFSET
  }

  /** What the row triggers keep: every hour from `low` to before `high` has the sums of its events by label. */
  ghost predicate HourlyIndexes(hourly: Series, stored: seq<Fact>, low: int, high: int) {
    forall slot: Slot, m: Measure ::
      LocalHour(low) <= slot.hour <= LocalHour(high - 1) ==> HourShows(hourly, stored, slot, m)
  }

  ghost predicate HourShows(hourly: Series, stored: seq<Fact>, slot: Slot, m: Measure) {
    ValueAt(hourly, slot, m)
    == Window(SHANGHAI, stored, |stored|, HourStart(slot.hour), HourStart(slot.hour) + HOUR, slot, m)
  }

  /** The rollup rows from the hour of `low` to the hour just before `high`. */
  function HourlySeries(hourly: Series, low: int, high: int): Series {
    map slot | slot in hourly && LocalHour(low) <= slot.hour <= LocalHour(high - 1) :: hourly[slot]
  }

  predicate OnTheHour(at: int) {
    at % HOUR == 0
  }

  lemma HoursAreWhole(at: int, low: int, high: int)
    requires OnTheHour(low) && OnTheHour(high) && low < high
    ensures low <= at < high <==> LocalHour(low) <= LocalHour(at) <= LocalHour(high - 1)
  {
  }

  lemma HourSpan(at: int, hour: int)
    ensures HourStart(hour) <= at < HourStart(hour) + HOUR <==> LocalHour(at) == hour
  {
  }

  lemma {:induction false} WholeHoursHoldTheSlot(facts: seq<Fact>, k: nat, low: int, high: int, slot: Slot, m: Measure)
    requires k <= |facts| && OnTheHour(low) && OnTheHour(high) && low < high
    requires LocalHour(low) <= slot.hour <= LocalHour(high - 1)
    ensures Window(SHANGHAI, facts, k, low, high, slot, m)
            == Window(SHANGHAI, facts, k, HourStart(slot.hour), HourStart(slot.hour) + HOUR, slot, m)
  {
    if k > 0 {
      WholeHoursHoldTheSlot(facts, k - 1, low, high, slot, m);
      HoursAreWhole(facts[k - 1].at, low, high);
      HourSpan(facts[k - 1].at, slot.hour);
      RollupHour(facts[k - 1].at);
    }
  }

  /** Between two full hours, the rollup rows are the sum over the window. */
  lemma HourlySeriesIsExact(hourly: Series, stored: seq<Fact>, low: int, high: int, slot: Slot, m: Measure)
    requires HourlyIndexes(hourly, stored, low, high) && OnTheHour(low) && OnTheHour(high) && low < high
    ensures ValueAt(HourlySeries(hourly, low, high), slot, m) == Window(SHANGHAI, stored, |stored|, low, high, slot, m)
  {
    if LocalHour(low) <= slot.hour <= LocalHour(high - 1) {
      assert HourShows(hourly, stored, slot, m);
      WholeHoursHoldTheSlot(stored, |stored|, low, high, slot, m);
    } else {
      OtherHours(stored, |stored|, low, high, slot, m);
    }
  }

  // ----- the computation -----

  function CellAt(series: Series, slot: Slot): Totals {
    if slot in series then series[slot] else NOTHING
  }

  /** A scan of the retained events of [low, high), grouped by label and by hour in the zone that was asked for. */
  method ExactTimeSeries(zone: Zone, facts: seq<Fact>, low: int, high: int) returns (series: Series)
    ensures forall slot, m :: ValueAt(series, slot, m) == Window(zone, facts, |facts|, low, high, slot, m)
  {
    series := map[];
    for i := 0 to |facts|
      invariant forall slot, m :: ValueAt(series, slot, m) == Window(zone, facts, i, low, high, slot, m)
    {
      if low <= facts[i].at < high {
        var slot := Slot(HourIn(zone, facts[i].at), facts[i].group);
        series := series[slot := CellAt(series, slot).Plus(facts[i].event, 1)];
      }
    }
  }

  function SatSum(a: int, b: int): int {
    if a + b <= U64_MAX then a + b else U64_MAX
  }

  function MergeCell(a: Totals, b: Totals): (t: Totals)
    ensures forall m: Measure :: t.Get(m) == SatSum(a.Get(m), b.Get(m))
  {
    Totals(SatSum(a.events, b.events), SatSum(a.input, b.input), SatSum(a.cached, b.cached),
           SatSum(a.cacheWrite, b.cacheWrite), SatSum(a.cacheWriteObserved, b.cacheWriteObserved),
           SatSum(a.output, b.output), SatSum(a.reasoning, b.reasoning), SatSum(a.total, b.total))
  }

  ghost predicate Bounded(series: Series) {
    forall slot, m :: 0 <= ValueAt(series, slot, m) <= U64_MAX
  }

  method Merge(merged: Series, part: Series) returns (r: Series)
    requires Bounded(merged)
    requires forall slot, m :: 0 <= ValueAt(part, slot, m)
    ensures Bounded(r)
    ensures forall slot, m :: ValueAt(r, slot, m) == SatSum(ValueAt(merged, slot, m), ValueAt(part, slot, m))
  {
    r := merged;
    var rest := part.Keys;
    while rest != {}
      invariant rest <= part.Keys && Bounded(r)
      invariant forall slot, m :: slot in rest ==> ValueAt(r, slot, m) == ValueAt(merged, slot, m)
      invariant forall slot, m :: slot !in rest ==>
        ValueAt(r, slot, m) == SatSum(ValueAt(merged, slot, m), ValueAt(part, slot, m))
      decreases rest
    {
      var slot :| slot in rest;
      MergeOne(r, part, slot);
      r := r[slot := MergeCell(CellAt(r, slot), part[slot])];
      rest := rest - {slot};
    }
  }

  lemma MergeOne(r: Series, part: Series, slot: Slot)
    requires Bounded(r) && slot in part && forall m :: 0 <= ValueAt(part, slot, m)
    ensures Bounded(r[slot := MergeCell(CellAt(r, slot), part[slot])])
    ensures forall m :: ValueAt(r[slot := MergeCell(CellAt(r, slot), part[slot])], slot, m)
                        == SatSum(ValueAt(r, slot, m), ValueAt(part, slot, m))
  {
    var after := r[slot := MergeCell(CellAt(r, slot), part[slot])];
    forall other, m
      ensures 0 <= ValueAt(after, other, m) <= U64_MAX
      ensures other == slot ==> ValueAt(after, other, m) == SatSum(ValueAt(r, slot, m), ValueAt(part, slot, m))
    {
      assert CellAt(r, slot).Get(m) == ValueAt(r, slot, m) && part[slot].Get(m) == ValueAt(part, slot, m) >= 0;
      assert other != slot ==> ValueAt(after, other, m) == ValueAt(r, other, m);
    }
  }

  /** The first and the last full hour of a window, both within it. */
  function FirstFull(start: int, end: int): int {
    Min(CeilHour(start), end)
  }

  function LastFull(start: int, end: int): int {
    Max(FloorHour(end), FirstFull(start, end))
  }

  /** What is read: events up to the first full hour, rollup rows up to the last one, then events again. */
  ghost function Pieces(zone: Zone, facts: seq<Fact>, start: int, end: int, slot: Slot, m: Measure): nat {
    Window(zone, facts, |facts|, start, FirstFull(start, end), slot, m)
    + Window(SHANGHAI, StoredFacts(facts), |facts|, FirstFull(start, end), LastFull(start, end), slot, m)
    + Window(zone, facts, |facts|, LastFull(start, end), end, slot, m)
  }

  /**
   * The series of a window, for a zone. `facts` are the retained events the query's other filters
   * let pass, and `hourly` the rollup rows they let pass.
   */
  method AggregateExactHourWindow(zone: Zone, facts: seq<Fact>, hourly: Series, start: int,
      end: int) returns (merged: Series)
    requires FirstFull(start, end) < LastFull(start, end) ==>
               HourlyIndexes(hourly, StoredFacts(facts), FirstFull(start, end), LastFull(start, end))
    ensures start < end ==>
              forall slot, m :: ValueAt(merged, slot, m) == Sat(Pieces(zone, facts, start, end, slot, m))
    ensures start >= end ==> merged == map[]
  {
    merged := map[];
    if start >= end {
      return;
    }
    var first := Min(CeilHour(start), end);
    var last := Max(FloorHour(end), first);
    BoundariesAreOrdered(start, end);
    if start < first {
      var part := ExactTimeSeries(zone, facts, start, first);
      merged := Merge(merged, part);
    } else {
      NothingBetween(zone, facts, start, first);
    }
    assert forall slot, m :: ValueAt(merged, slot, m) == SatSum(Window(zone, facts, |facts|, start, first, slot, m), 0);
    merged := AddMiddle(facts, hourly, merged, start, first, last);
    if last < end {
      var part := ExactTimeSeries(zone, facts, last, end);
      merged := Merge(merged, part);
    } else {
      NothingBetween(zone, facts, last, end);
    }
  }

  method AddMiddle(facts: seq<Fact>, hourly: Series, merged: Series, start: int, first: int,
      last: int) returns (r: Series)
    requires (first < last ==> HourlyIndexes(hourly, StoredFacts(facts), first, last)) && Bounded(merged)
    requires first <= last && (first < last ==> OnTheHour(first) && OnTheHour(last))
    ensures Bounded(r)
    ensures forall slot, m :: ValueAt(r, slot, m)
              == SatSum(ValueAt(merged, slot, m), Window(SHANGHAI, StoredFacts(facts), |facts|, first, last, slot, m))
  {
    r := merged;
    if first < last {
      var part := HourlySeries(hourly, first, last);
      forall slot, m
        ensures ValueAt(part, slot, m) == Window(SHANGHAI, StoredFacts(facts), |facts|, first, last, slot, m)
      {
        HourlySeriesIsExact(hourly, StoredFacts(facts), first, last, slot, m);
      }
      r := Merge(merged, part);
    } else {
      NothingBetween(SHANGHAI, StoredFacts(facts), first, last);
    }
  }

  lemma NothingBetween(zone: Zone, facts: seq<Fact>, low: int, high: int)
    requires low >= high
    ensures forall slot, m :: Window(zone, facts, |facts|, low, high, slot, m) == 0
  {
    forall slot, m
      ensures Window(zone, facts, |facts|, low, high, slot, m) == 0
    {
      EmptyWindow(zone, facts, |facts|, low, high, slot, m);
    }
  }

  /** Also inside one hour: then there is no full hour, and one boundary or both are empty. */
  lemma BoundariesAreOrdered(start: int, end: int)
    requires start < end
    ensures start <= FirstFull(start, end) <= LastFull(start, end) <= end
    ensures FirstFull(start, end) < LastFull(start, end) ==>
              OnTheHour(FirstFull(start, end)) && OnTheHour(LastFull(start, end))
  {
  }

  /** Every complete hour of the window is between the boundaries, so that less than an hour is left on each side. */
  lemma CompleteHoursAreInBetween(start: int, end: int, hour: int)
    requires start <= hour && hour + 3_600_000_000_000 <= end && hour % 3_600_000_000_000 == 0
    ensures FirstFull(start, end) <= hour && hour + 3_600_000_000_000 <= LastFull(start, end)
    ensures FirstFull(start, end) - start < 3_600_000_000_000 && end - LastFull(start, end) < 3_600_000_000_000
  {
  }

  // ----- the pieces are the window -----

  ghost predicate ExactEverywhere(zone: Zone, facts: seq<Fact>, start: int, end: int) {
    forall slot, m :: Pieces(zone, facts, start, end, slot, m) == Window(zone, facts, |facts|, start, end, slot, m)
  }

  /** In the complete hours no event has a label that is present but empty. */
  ghost predicate NoEmptyLabels(facts: seq<Fact>, k: nat, low: int, high: int)
    requires k <= |facts|
  {
    forall i :: 0 <= i < k && low <= facts[i].at < high ==> facts[i].group != Some("")
  }

  /** In the complete hours every event has the same hour in the zone asked for as in the rollup. */
  ghost predicate KeysAgree(zone: Zone, facts: seq<Fact>, k: nat, low: int, high: int)
    requires k <= |facts|
  {
    forall i :: 0 <= i < k && low <= facts[i].at < high ==> HourIn(zone, facts[i].at) == LocalHour(facts[i].at)
  }

  lemma {:induction false} StoredWindow(zone: Zone, facts: seq<Fact>, k: nat, low: int, high: int, slot: Slot,
      m: Measure)
    requires k <= |facts| && NoEmptyLabels(facts, k, low, high) && KeysAgree(zone, facts, k, low, high)
    ensures Window(SHANGHAI, StoredFacts(facts), k, low, high, slot, m) == Window(zone, facts, k, low, high, slot, m)
  {
    if k > 0 {
      StoredWindow(zone, facts, k - 1, low, high, slot, m);
      RollupHour(facts[k - 1].at);
    }
  }

  /** What the pieces show differs from the window by what the complete hours differ. */
  lemma OnlyTheMiddleMatters(zone: Zone, facts: seq<Fact>, start: int, end: int, slot: Slot, m: Measure)
    requires start < end
    ensures Pieces(zone, facts, start, end, slot, m) - Window(zone, facts, |facts|, start, end, slot, m)
            == Window(SHANGHAI, StoredFacts(facts), |facts|, FirstFull(start, end), LastFull(start, end), slot, m)
               - Window(zone, facts, |facts|, FirstFull(start, end), LastFull(start, end), slot, m)
  {
    BoundariesAreOrdered(start, end);
    WindowSplits(zone, facts, |facts|, start, FirstFull(start, end), end, slot, m);
    WindowSplits(zone, facts, |facts|, FirstFull(start, end), LastFull(start, end), end, slot, m);
  }

  /** Then every hour and label shows the sum over the half-open window, as far as a counter can. */
  lemma WindowIsExact(zone: Zone, facts: seq<Fact>, start: int, end: int, slot: Slot, m: Measure)
    requires start < end && NoEmptyLabels(facts, |facts|, FirstFull(start, end), LastFull(start, end))
    requires KeysAgree(zone, facts, |facts|, FirstFull(start, end), LastFull(start, end))
    ensures Pieces(zone, facts, start, end, slot, m) == Window(zone, facts, |facts|, start, end, slot, m)
  {
    OnlyTheMiddleMatters(zone, facts, start, end, slot, m);
    StoredWindow(zone, facts, |facts|, FirstFull(start, end), LastFull(start, end), slot, m);
  }

  // ----- when they are not -----

  lemma {:induction false} EmptyLabelIsNotStored(facts: seq<Fact>, k: nat, low: int, high: int, slot: Slot, m: Measure)
    requires k <= |facts| && slot.group == Some("")
    ensures Window(SHANGHAI, StoredFacts(facts), k, low, high, slot, m) == 0
  {
    if k > 0 {
      EmptyLabelIsNotStored(facts, k - 1, low, high, slot, m);
    }
  }

  lemma {:induction false} EventIsCounted(zone: Zone, facts: seq<Fact>, k: nat, low: int, high: int, i: nat)
    requires i < k <= |facts| && low <= facts[i].at < high
    ensures Window(zone, facts, k, low, high, Slot(HourIn(zone, facts[i].at), facts[i].group), Events) >= 1
  {
    if i < k - 1 {
      EventIsCounted(zone, facts, k - 1, low, high, i);
    }
  }

  /** One event with an empty label is enough to be missing under its label. */
  lemma EmptyLabelIsMissed(zone: Zone, facts: seq<Fact>, start: int, end: int, i: nat)
    requires start < end && i < |facts|
    requires FirstFull(start, end) <= facts[i].at < LastFull(start, end) && facts[i].group == Some("")
    ensures !ExactEverywhere(zone, facts, start, end)
  {
    var first, last, slot := FirstFull(start, end), LastFull(start, end), Slot(HourIn(zone, facts[i].at), Some(""));
    EmptyLabelIsNotStored(facts, |facts|, first, last, slot, Events);
    EventIsCounted(zone, facts, |facts|, first, last, i);
    OnlyTheMiddleMatters(zone, facts, start, end, slot, Events);
  }

  /** Between `low` and `high` the zone is never ahead of the rollup's, or never behind it. */
  ghost predicate Behind(zone: Zone, low: int, high: int) {
    forall at :: low <= at < high ==> zone(at) <= LOCAL_OFFSET
  }

  ghost predicate Ahead(zone: Zone, low: int, high: int) {
    forall at :: low <= at < high ==> LOCAL_OFFSET <= zone(at)
  }

  ghost predicate OneSided(zone: Zone, low: int, high: int) {
    Behind(zone, low, high) || Ahead(zone, low, high)
  }

  lemma HoursFollowOffsets(zone: Zone, at: int)
    ensures zone(at) <= LOCAL_OFFSET ==> HourIn(zone, at) <= LocalHour(at)
    ensures LOCAL_OFFSET <= zone(at) ==> LocalHour(at) <= HourIn(zone, at)
  {
  }

  ghost predicate Differs(zone: Zone, facts: seq<Fact>, low: int, high: int, i: int) {
    0 <= i < |facts| && low <= facts[i].at < high && HourIn(zone, facts[i].at) != LocalHour(facts[i].at)
  }

  lemma {:induction false} LatestDiffering(zone: Zone, facts: seq<Fact>, low: int, high: int, i: nat) returns (j: nat)
    requires Differs(zone, facts, low, high, i)
    ensures Differs(zone, facts, low, high, j)
    ensures forall n :: Differs(zone, facts, low, high, n) ==> LocalHour(facts[n].at) <= LocalHour(facts[j].at)
    decreases LocalHour(high) - LocalHour(facts[i].at)
  {
    if n :| Differs(zone, facts, low, high, n) && LocalHour(facts[i].at) < LocalHour(facts[n].at) {
      HourIsMonotone(facts[n].at, high);
      j := LatestDiffering(zone, facts, low, high, n);
    } else {
      j := i;
    }
  }

  lemma {:induction false} EarliestDiffering(zone: Zone, facts: seq<Fact>, low: int, high: int, i: nat) returns (j: nat)
    requires Differs(zone, facts, low, high, i)
    ensures Differs(zone, facts, low, high, j)
    ensures forall n :: Differs(zone, facts, low, high, n) ==> LocalHour(facts[j].at) <= LocalHour(facts[n].at)
    decreases LocalHour(facts[i].at) - LocalHour(low)
  {
    if n :| Differs(zone, facts, low, high, n) && LocalHour(facts[n].at) < LocalHour(facts[i].at) {
      HourIsMonotone(low, facts[n].at);
      j := EarliestDiffering(zone, facts, low, high, n);
    } else {
      j := i;
    }
  }

  /** Every event the zone puts into the hour is also there in the rollup. */
  ghost predicate StaysInHour(zone: Zone, facts: seq<Fact>, low: int, high: int, hour: int) {
    forall n :: Differs(zone, facts, low, high, n) ==> HourIn(zone, facts[n].at) != hour
  }

  lemma {:induction false} MoreInTheRollup(zone: Zone, facts: seq<Fact>, k: nat, low: int, high: int, slot: Slot,
      j: nat)
    requires k <= |facts| && NoEmptyLabels(facts, |facts|, low, high) && StaysInHour(zone, facts, low, high, slot.hour)
    requires Differs(zone, facts, low, high, j) && slot == Slot(LocalHour(facts[j].at), facts[j].group)
    ensures Window(SHANGHAI, StoredFacts(facts), k, low, high, slot, Events)
            >= Window(zone, facts, k, low, high, slot, Events) + if j < k then 1 else 0
  {
    if k > 0 {
      MoreInTheRollup(zone, facts, k - 1, low, high, slot, j);
      RollupHour(facts[k - 1].at);
      assert low <= facts[k - 1].at < high ==> Stored(facts[k - 1]) == facts[k - 1];
      assert InSlot(zone, facts[k - 1], low, high, slot) ==> !Differs(zone, facts, low, high, k - 1);
    }
  }

  /** The differing event that is furthest in the direction of the zone is missing from its hour. */
  lemma DifferingKeyShows(zone: Zone, facts: seq<Fact>, start: int, end: int, i: nat)
    requires start < end && OneSided(zone, FirstFull(start, end), LastFull(start, end))
    requires NoEmptyLabels(facts, |facts|, FirstFull(start, end), LastFull(start, end))
    requires Differs(zone, facts, FirstFull(start, end), LastFull(start, end), i)
    ensures !ExactEverywhere(zone, facts, start, end)
  {
    var first, last := FirstFull(start, end), LastFull(start, end);
    var j: nat;
    if Behind(zone, first, last) {
      j := LatestDiffering(zone, facts, first, last, i);
    } else {
      j := EarliestDiffering(zone, facts, first, last, i);
    }
    forall n | Differs(zone, facts, first, last, n)
      ensures HourIn(zone, facts[n].at) != LocalHour(facts[j].at)
    {
      HoursFollowOffsets(zone, facts[n].at);
    }
    var slot := Slot(LocalHour(facts[j].at), facts[j].group);
    MoreInTheRollup(zone, facts, |facts|, first, last, slot, j);
    OnlyTheMiddleMatters(zone, facts, start, end, slot, Events);
  }

  /**
   * Partial hours and complete hours together are the window exactly when, in between, no label is
   * empty and every event has the same hour in the zone asked for as in the rollup.
   */
  lemma ExactIffLabelsAndHoursAgree(zone: Zone, facts: seq<Fact>, start: int, end: int)
    requires start < end && OneSided(zone, FirstFull(start, end), LastFull(start, end))
    ensures ExactEverywhere(zone, facts, start, end)
            <==> && NoEmptyLabels(facts, |facts|, FirstFull(start, end), LastFull(start, end))
                 && KeysAgree(zone, facts, |facts|, FirstFull(start, end), LastFull(start, end))
  {
    var first, last := FirstFull(start, end), LastFull(start, end);
    if !NoEmptyLabels(facts, |facts|, first, last) {
      var i: nat :| i < |facts| && first <= facts[i].at < last && facts[i].group == Some("");
      EmptyLabelIsMissed(zone, facts, start, end, i);
    } else if !KeysAgree(zone, facts, |facts|, first, last) {
      var i: nat :| i < |facts| && first <= facts[i].at < last && HourIn(zone, facts[i].at) != LocalHour(facts[i].at);
      assert Differs(zone, facts, first, last, i);
      DifferingKeyShows(zone, facts, start, end, i);
    } else {
      forall slot, m
        ensures Pieces(zone, facts, start, end, slot, m) == Window(zone, facts, |facts|, start, end, slot, m)
      {
        WindowIsExact(zone, facts, start, end, slot, m);
      }
    }
  }

  function Swapping(mid: int): Zone {
    (at: int) => LOCAL_OFFSET + if at < mid then HOUR else -HOUR
  }

  lemma TwoEventsInWindow(zone: Zone, f: Fact, g: Fact, low: int, high: int, slot: Slot, m: Measure)
    ensures Window(zone, [f, g], 2, low, high, slot, m)
            == (if InSlot(zone, f, low, high, slot) then f.event.Weight(m) else 0)
               + if InSlot(zone, g, low, high, slot) then g.event.Weight(m) else 0
  {
    assert Window(zone, [f, g], 0, low, high, slot, m) == 0;
    assert Window(zone, [f, g], 1, low, high, slot, m)
        == if InSlot(zone, f, low, high, slot) then f.event.Weight(m) else 0;
  }

  /** Were a zone on both sides of the rollup's, two equal events could change places unseen. */
  lemma EventsOnBothSidesCanCancel(e: Event, start: int, end: int)
    requires start < end && FirstFull(start, end) + 2 * HOUR <= LastFull(start, end)
    ensures var first := FirstFull(start, end);
      var facts := [Fact(first, None, e), Fact(first + HOUR, None, e)];
      && ExactEverywhere(Swapping(first + HOUR), facts, start, end)
      && !KeysAgree(Swapping(first + HOUR), facts, 2, first, LastFull(start, end))
  {
    var first, last := FirstFull(start, end), LastFull(start, end);
    var f, g, zone := Fact(first, None, e), Fact(first + HOUR, None, e), Swapping(first + HOUR);
    assert HourIn(zone, f.at) == LocalHour(f.at) + 1 == LocalHour(g.at);
    assert HourIn(zone, g.at) == LocalHour(g.at) - 1 == LocalHour(f.at);
    assert StoredFacts([f, g]) == [f, g];
    RollupHour(f.at);
    RollupHour(g.at);
    forall slot, m
      ensures Pieces(zone, [f, g], start, end, slot, m) == Window(zone, [f, g], 2, start, end, slot, m)
    {
      OnlyTheMiddleMatters(zone, [f, g], start, end, slot, m);
      TwoEventsInWindow(zone, f, g, first, last, slot, m);
      TwoEventsInWindow(SHANGHAI, f, g, first, last, slot, m);
    }
    assert [f, g][0].at == first;
  }

  // ----- zones -----

  ghost predicate Labelled(facts: seq<Fact>) {
    forall i :: 0 <= i < |facts| ==> facts[i].group != Some("")
  }

  ghost predicate AlwaysExact(zone: Zone, start: int, end: int) {
    forall facts :: Labelled(facts) ==> ExactEverywhere(zone, facts, start, end)
  }

  ghost predicate SameHours(zone: Zone, low: int, high: int) {
    forall at :: low <= at < high ==> HourIn(zone, at) == LocalHour(at)
  }

  /** One event under another hour than the zone's: it shows where it is not, and not where it is. */
  lemma OneEventMoves(zone: Zone, f: Fact, start: int, end: int)
    requires start < end && FirstFull(start, end) <= f.at < LastFull(start, end) && f.group != Some("")
    requires HourIn(zone, f.at) != LocalHour(f.at)
    ensures Pieces(zone, [f], start, end, Slot(LocalHour(f.at), f.group), Events) == 1
    ensures Window(zone, [f], 1, start, end, Slot(LocalHour(f.at), f.group), Events) == 0
    ensures Pieces(zone, [f], start, end, Slot(HourIn(zone, f.at), f.group), Events) == 0
    ensures Window(zone, [f], 1, start, end, Slot(HourIn(zone, f.at), f.group), Events) == 1
  {
    BoundariesAreOrdered(start, end);
    OneEventInWindow(zone, f, start, FirstFull(start, end));
    OneEventInWindow(zone, f, LastFull(start, end), end);
    OneEventInWindow(zone, f, start, end);
    RollupHour(f.at);
    assert StoredFacts([f]) == [f];
    OneEventInWindow(SHANGHAI, f, FirstFull(start, end), LastFull(start, end));
  }

  lemma OneEventInWindow(zone: Zone, f: Fact, low: int, high: int)
    ensures forall slot :: Window(zone, [f], 1, low, high, slot, Events)
                           == if InSlot(zone, f, low, high, slot) then 1 else 0
  {
    forall slot
      ensures Window(zone, [f], 1, low, high, slot, Events) == if InSlot(zone, f, low, high, slot) then 1 else 0
    {
      assert Window(zone, [f], 0, low, high, slot, Events) == 0;
    }
  }

  /** A zone is safe to ask for, whatever the ledger holds, exactly when its hours are the rollup's. */
  lemma AlwaysExactIffSameHours(zone: Zone, start: int, end: int)
    requires start < end
    ensures AlwaysExact(zone, start, end) <==> SameHours(zone, FirstFull(start, end), LastFull(start, end))
  {
    var first, last := FirstFull(start, end), LastFull(start, end);
    if SameHours(zone, first, last) {
      forall facts, slot, m | Labelled(facts)
        ensures Pieces(zone, facts, start, end, slot, m) == Window(zone, facts, |facts|, start, end, slot, m)
      {
        WindowIsExact(zone, facts, start, end, slot, m);
      }
    } else {
      var at :| first <= at < last && HourIn(zone, at) != LocalHour(at);
      var e: Event := *;
      OneEventMoves(zone, Fact(at, None, e), start, end);
      assert Labelled([Fact(at, None, e)]) && !ExactEverywhere(zone, [Fact(at, None, e)], start, end);
    }
  }

  function Fixed(offset: int): Zone {
    (at: int) => offset
  }

  /** Of the zones with a fixed offset, only the rollup's own is safe, unless no hour is complete. */
  lemma FixedZoneIsExactIffRollupZone(offset: int, start: int, end: int)
    requires start < end
    ensures AlwaysExact(Fixed(offset), start, end)
            <==> FirstFull(start, end) == LastFull(start, end) || offset == LOCAL_OFFSET
  {
    var first, last := FirstFull(start, end), LastFull(start, end);
    BoundariesAreOrdered(start, end);
    AlwaysExactIffSameHours(Fixed(offset), start, end);
    if first < last && offset != LOCAL_OFFSET {
      FullHourFits(first, last);
      OffsetChangesAnHour(offset, first);
      assert HourIn(Fixed(offset), first) != LocalHour(first)
          || HourIn(Fixed(offset), first + HOUR - 1) != LocalHour(first + HOUR - 1);
    } else {
      forall at | first <= at < last
        ensures HourIn(Fixed(offset), at) == LocalHour(at)
      {
      }
    }
  }

  lemma FullHourFits(first: int, last: int)
    requires OnTheHour(first) && OnTheHour(last) && first < last
    ensures first + HOUR <= last
  {
  }

  lemma OffsetChangesAnHour(offset: int, first: int)
    requires OnTheHour(first) && offset != LOCAL_OFFSET
    ensures || (first + offset) / HOUR != LocalHour(first)
            || (first + HOUR - 1 + offset) / HOUR != LocalHour(first + HOUR - 1)
  {
  }

  const UTC: Zone := (at: int) => 0

  /** In UTC the window is right exactly when nothing happened in its complete hours. */
  lemma UtcIsExactIffNothingInBetween(facts: seq<Fact>, start: int, end: int)
    requires start < end
    ensures ExactEverywhere(UTC, facts, start, end)
            <==> forall i :: 0 <= i < |facts| ==> !(FirstFull(start, end) <= facts[i].at < LastFull(start, end))
  {
    ExactIffLabelsAndHoursAgree(UTC, facts, start, end);
    forall i | 0 <= i < |facts|
      ensures HourIn(UTC, facts[i].at) == LocalHour(facts[i].at) - 8
    {
      UtcIsEightHoursBehind(facts[i].at);
    }
  }

  lemma UtcIsEightHoursBehind(at: int)
    ensures HourIn(UTC, at) == LocalHour(at) - 8
  {
  }
}
