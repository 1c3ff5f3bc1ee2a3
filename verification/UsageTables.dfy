/**
 * Usage events and the rollup tables that count them (src/store/migrations.rs, src/store.rs).
 * Instants are nanoseconds.
 */
module UsageTables {
  import opened Prelude
  import opened Types
  import opened Sums

  const HOUR := 3_600_000_000_000
  const DAY := 24 * HOUR
  const LOCAL_OFFSET := 8 * HOUR

  type Id = nat

  datatype Quality = Confirmed | Quarantined | Unknown

  /** The two tables: one row per local hour, or per local day, and labels. */
  datatype Grain = Hourly | Daily

  function LocalHour(at: int): int {
    (at + LOCAL_OFFSET) / HOUR
  }

  function LocalDay(at: int): int {
    (at + LOCAL_OFFSET) / DAY
  }

  datatype Event = Event(
    id: Id,
    observedAt: int,
    sourceTimestamp: Option<int>,
    thread: string,
    account: string,
    project: string,
    model: string,
    quality: Quality,
    usage: TokenUsage)
  {
    function EffectiveAt(): int {
      if sourceTimestamp.Some? then sourceTimestamp.value else observedAt
    }

    function Key(g: Grain): RowKey {
      RowKey(if g == Hourly then LocalHour(EffectiveAt()) else LocalDay(EffectiveAt()),
             thread, account, project, model, quality)
    }

    function Weight(m: Measure): nat {
      match m
      case Events => 1
      case Tokens(d) => usage.Get(d)
    }
  }

  /** The key of a row: a local hour or day, and the labels it is grouped by. */
  datatype RowKey = RowKey(
    bucket: int,
    thread: string,
    account: string,
    project: string,
    model: string,
    quality: Quality)

  datatype Measure = Events | Tokens(d: Dimension)

  datatype Totals = Totals(events: int, input: int, cached: int, cacheWrite: int, cacheWriteObserved: int,
                           output: int, reasoning: int, total: int)
  {
    function Get(m: Measure): int {
      match m
      case Events => events
      case Tokens(Input) => input
      case Tokens(Cached) => cached
      case Tokens(CacheWrite) => cacheWrite
      case Tokens(CacheWriteObserved) => cacheWriteObserved
      case Tokens(Output) => output
      case Tokens(Reasoning) => reasoning
      case Tokens(Total) => total
    }

    function Plus(e: Event, sign: int): (t: Totals)
      ensures forall m: Measure :: t.Get(m) == Get(m) + sign * e.Weight(m)
    {
      var u := e.usage;
      Totals(events + sign, input + sign * u.input, cached + sign * u.cached, cacheWrite + sign * u.cacheWrite,
             cacheWriteObserved + sign * u.cacheWriteObserved, output + sign * u.output,
             reasoning + sign * u.reasoning, total + sign * u.total)
    }
  }

  const NOTHING: Totals := Totals(0, 0, 0, 0, 0, 0, 0, 0)

  type Rollup = map<RowKey, Totals>

  function At(t: Rollup, key: RowKey): Totals {
    if key in t then t[key] else NOTHING
  }

  /** The insert trigger: an event is added to the row it belongs to. */
  function Add(t: Rollup, g: Grain, e: Event): Rollup {
    t[e.Key(g) := At(t, e.Key(g)).Plus(e, 1)]
  }

  function Lowered(t: Rollup, g: Grain, e: Event): Rollup {
    if e.Key(g) in t then t[e.Key(g) := t[e.Key(g)].Plus(e, -1)] else t
  }

  /** The delete trigger: an event is taken from its row, and rows without events go. */
  function Take(t: Rollup, g: Grain, e: Event): Rollup {
    var lowered := Lowered(t, g, e);
    map key | key in lowered && lowered[key].events > 0 :: lowered[key]
  }

  /** The update trigger: the old version is taken, the new one added. */
  function Update(t: Rollup, g: Grain, before: Event, e: Event): Rollup {
    Add(Take(t, g, before), g, e)
  }

  // ----- what a table shows -----

  type Tally = (RowKey, Measure) -> nat

  ghost predicate ShowsAt(t: Rollup, tally: Tally, key: RowKey) {
    forall m: Measure :: At(t, key).Get(m) == tally(key, m)
  }

  ghost predicate Shows(t: Rollup, tally: Tally) {
    forall key: RowKey :: ShowsAt(t, tally, key)
  }

  /** A row that counts no event weighs nothing. */
  ghost predicate CountsEvents(tally: Tally) {
    forall key: RowKey, m: Measure :: tally(key, Events) == 0 ==> tally(key, m) == 0
  }

  ghost function WithEvent(tally: Tally, g: Grain, e: Event): Tally {
    (key: RowKey, m: Measure) => tally(key, m) + if e.Key(g) == key then e.Weight(m) else 0
  }

  ghost predicate SameTally(a: Tally, b: Tally) {
    forall key: RowKey, m: Measure :: a(key, m) == b(key, m)
  }

  lemma ShowsSame(t: Rollup, a: Tally, b: Tally)
    requires Shows(t, a) && SameTally(a, b)
    ensures Shows(t, b)
  {
    forall key: RowKey
      ensures ShowsAt(t, b, key)
    {
      assert ShowsAt(t, a, key);
    }
  }

  /** The insert trigger adds the event, and nothing else. */
  lemma AddShows(t: Rollup, tally: Tally, g: Grain, e: Event)
    requires Shows(t, tally)
    ensures Shows(Add(t, g, e), WithEvent(tally, g, e))
  {
    var added, more := Add(t, g, e), WithEvent(tally, g, e);
    forall key: RowKey
      ensures ShowsAt(added, more, key)
    {
      assert ShowsAt(t, tally, key);
    }
  }

  lemma LoweredShowsAt(t: Rollup, tally: Tally, g: Grain, e: Event, key: RowKey)
    requires Shows(t, WithEvent(tally, g, e))
    ensures ShowsAt(Lowered(t, g, e), tally, key)
  {
    assert ShowsAt(t, WithEvent(tally, g, e), key);
    assert key == e.Key(g) ==> At(t, key).Get(Events) == tally(key, Events) + e.Weight(Events);
    forall m: Measure
      ensures At(Lowered(t, g, e), key).Get(m) == tally(key, m)
    {
      assert At(t, key).Get(m) == WithEvent(tally, g, e)(key, m);
    }
  }

  /** The delete trigger takes the event back, also where its row goes. */
  lemma TakeShows(t: Rollup, tally: Tally, g: Grain, e: Event)
    requires Shows(t, WithEvent(tally, g, e)) && CountsEvents(tally)
    ensures Shows(Take(t, g, e), tally)
  {
    var taken := Take(t, g, e);
    forall key: RowKey
      ensures ShowsAt(taken, tally, key)
    {
      LoweredShowsAt(t, tally, g, e, key);
      if key !in taken {
        assert At(Lowered(t, g, e), key).Get(Events) == tally(key, Events) == 0;
      }
    }
  }

  // ----- tallies of events -----

  ghost function Share(facts: map<Id, Event>, g: Grain, key: RowKey, m: Measure): Id -> nat {
    (id: Id) => if id in facts && facts[id].Key(g) == key then facts[id].Weight(m) else 0
  }

  /** The grouped sum over the events of a map. */
  ghost function Grouped(facts: map<Id, Event>, g: Grain): Tally {
    (key: RowKey, m: Measure) => SumOver(facts.Keys, Share(facts, g, key, m))
  }

  ghost function ShareOf(g: Grain, key: RowKey, m: Measure): Event -> nat {
    (e: Event) => if e.Key(g) == key then e.Weight(m) else 0
  }

  /** The grouped sum over the events of a list. */
  ghost function Listed(events: seq<Event>, g: Grain): Tally {
    (key: RowKey, m: Measure) => SumSeq(events, |events|, ShareOf(g, key, m))
  }

  ghost function Both(a: Tally, b: Tally): Tally {
    (key: RowKey, m: Measure) => a(key, m) + b(key, m)
  }

  lemma GroupedCountsEvents(facts: map<Id, Event>, g: Grain)
    ensures CountsEvents(Grouped(facts, g))
  {
    forall key: RowKey, m: Measure | Grouped(facts, g)(key, Events) == 0
      ensures Grouped(facts, g)(key, m) == 0
    {
      forall id | id in facts.Keys
        ensures Share(facts, g, key, m)(id) == 0
      {
        PartOfZero(facts.Keys, Share(facts, g, key, Events), id);
      }
      SumOverZero(facts.Keys, Share(facts, g, key, m));
    }
  }

  lemma {:induction false} ListedCountsEventsAt(events: seq<Event>, k: nat, g: Grain, key: RowKey, m: Measure)
    requires k <= |events| && SumSeq(events, k, ShareOf(g, key, Events)) == 0
    ensures SumSeq(events, k, ShareOf(g, key, m)) == 0
  {
    if k > 0 {
      ListedCountsEventsAt(events, k - 1, g, key, m);
    }
  }

  lemma ListedCountsEvents(events: seq<Event>, g: Grain)
    ensures CountsEvents(Listed(events, g))
  {
    forall key: RowKey, m: Measure | Listed(events, g)(key, Events) == 0
      ensures Listed(events, g)(key, m) == 0
    {
      ListedCountsEventsAt(events, |events|, g, key, m);
    }
  }

  lemma GroupedAddsAt(facts: map<Id, Event>, id: Id, e: Event, g: Grain, key: RowKey, m: Measure)
    requires id !in facts
    ensures Grouped(facts[id := e], g)(key, m) == Grouped(facts, g)(key, m) + if e.Key(g) == key then e.Weight(m) else 0
  {
    var after := facts[id := e];
    SumOverRemove(after.Keys, Share(after, g, key, m), id);
    assert after.Keys - {id} == facts.Keys;
    SumOverSame(facts.Keys, Share(after, g, key, m), Share(facts, g, key, m));
  }

  lemma GroupedAdds(facts: map<Id, Event>, id: Id, e: Event, g: Grain)
    requires id !in facts
    ensures SameTally(Grouped(facts[id := e], g), WithEvent(Grouped(facts, g), g, e))
  {
    var a, b := Grouped(facts[id := e], g), WithEvent(Grouped(facts, g), g, e);
    forall key: RowKey, m: Measure
      ensures a(key, m) == b(key, m)
    {
      GroupedAddsAt(facts, id, e, g, key, m);
    }
  }

  lemma ListedAdds(events: seq<Event>, e: Event, g: Grain)
    ensures SameTally(Listed(events + [e], g), WithEvent(Listed(events, g), g, e))
  {
    forall key: RowKey, m: Measure
      ensures Listed(events + [e], g)(key, m) == WithEvent(Listed(events, g), g, e)(key, m)
    {
      SumSeqOnPrefix(events, events + [e], |events|, ShareOf(g, key, m));
    }
  }

  lemma SameShares(a: map<Id, Event>, b: map<Id, Event>, s: set<Id>, g: Grain, key: RowKey, m: Measure)
    requires forall id :: id in s ==> id in a && id in b && a[id] == b[id]
    ensures SumOver(s, Share(a, g, key, m)) == SumOver(s, Share(b, g, key, m))
  {
    SumOverSame(s, Share(a, g, key, m), Share(b, g, key, m));
  }

  lemma GroupedUnionAt(a: map<Id, Event>, b: map<Id, Event>, all: map<Id, Event>, g: Grain, key: RowKey, m: Measure)
    requires a.Keys !! b.Keys && all == a + b
    ensures Grouped(all, g)(key, m) == Grouped(a, g)(key, m) + Grouped(b, g)(key, m)
  {
    SumOverUnion(a.Keys, b.Keys, Share(all, g, key, m));
    SameShares(all, a, a.Keys, g, key, m);
    SameShares(all, b, b.Keys, g, key, m);
  }

  /** Two maps without common ids add up. */
  lemma GroupedUnion(a: map<Id, Event>, b: map<Id, Event>, g: Grain)
    requires a.Keys !! b.Keys
    ensures SameTally(Grouped(a + b, g), Both(Grouped(a, g), Grouped(b, g)))
  {
    var whole, parts := Grouped(a + b, g), Both(Grouped(a, g), Grouped(b, g));
    forall key: RowKey, m: Measure
      ensures whole(key, m) == parts(key, m)
    {
      GroupedUnionAt(a, b, a + b, g, key, m);
    }
  }

  // ----- a table as an index over facts -----

  /** Every row of the table is the grouped sum of the facts. */
  ghost predicate Indexes(t: Rollup, facts: map<Id, Event>, g: Grain) {
    Shows(t, Grouped(facts, g))
  }

  /** The insert trigger keeps the table an index over the rows. */
  lemma AddIndexes(t: Rollup, facts: map<Id, Event>, id: Id, e: Event, g: Grain)
    requires Indexes(t, facts, g) && id !in facts
    ensures Indexes(Add(t, g, e), facts[id := e], g)
  {
    AddShows(t, Grouped(facts, g), g, e);
    GroupedAdds(facts, id, e, g);
    ShowsSame(Add(t, g, e), WithEvent(Grouped(facts, g), g, e), Grouped(facts[id := e], g));
  }

  /** So does the delete trigger. */
  lemma TakeIndexes(t: Rollup, facts: map<Id, Event>, id: Id, e: Event, g: Grain)
    requires Indexes(t, facts[id := e], g) && id !in facts
    ensures Indexes(Take(t, g, e), facts, g)
  {
    GroupedAdds(facts, id, e, g);
    ShowsSame(t, Grouped(facts[id := e], g), WithEvent(Grouped(facts, g), g, e));
    GroupedCountsEvents(facts, g);
    TakeShows(t, Grouped(facts, g), g, e);
  }

  /** And so does the update trigger. */
  lemma UpdateIndexes(t: Rollup, facts: map<Id, Event>, id: Id, e: Event, g: Grain)
    requires Indexes(t, facts, g) && id in facts
    ensures Indexes(Update(t, g, facts[id], e), facts[id := e], g)
  {
    var others := facts - {id};
    assert others[id := facts[id]] == facts && others[id := e] == facts[id := e];
    TakeIndexes(t, others, id, facts[id], g);
    AddIndexes(Take(t, g, facts[id]), others, id, e, g);
  }

  // ----- what the columns mean -----

  /** The event happened in the local hour or day of the row, eight hours ahead of UTC, under its labels. */
  ghost predicate InRow(e: Event, g: Grain, key: RowKey) {
    var at := if e.sourceTimestamp.Some? then e.sourceTimestamp.value else e.observedAt;
    var length := if g == Hourly then 3_600_000_000_000 else 86_400_000_000_000;
    && key.bucket * length <= at + 28_800_000_000_000 < (key.bucket + 1) * length
    && e.thread == key.thread && e.account == key.account && e.project == key.project && e.model == key.model
    && e.quality == key.quality
  }

  ghost function EventsInRow(facts: map<Id, Event>, g: Grain, key: RowKey): set<Id> {
    set id | id in facts && InRow(facts[id], g, key)
  }

  ghost function DimensionIn(facts: map<Id, Event>, d: Dimension): Id -> nat {
    (id: Id) => if id in facts then facts[id].usage.Get(d) else 0
  }

  lemma InRowIffKey(e: Event, g: Grain, key: RowKey)
    ensures InRow(e, g, key) <==> e.Key(g) == key
  {
  }

  lemma RowSum(facts: map<Id, Event>, g: Grain, key: RowKey, m: Measure, f: Id -> nat)
    requires forall id :: id in facts ==> f(id) == facts[id].Weight(m)
    ensures Grouped(facts, g)(key, m) == SumOver(EventsInRow(facts, g, key), f)
  {
    forall id | id in facts
      ensures InRow(facts[id], g, key) <==> facts[id].Key(g) == key
    {
      InRowIffKey(facts[id], g, key);
    }
    SumOverWhere(facts.Keys, EventsInRow(facts, g, key), Share(facts, g, key, m), f);
  }

  /** The columns of a row are its count and its dimensions. */
  lemma TotalsAreTheirMeasures(t: Totals)
    ensures t == Totals(t.Get(Events), t.Get(Tokens(Input)), t.Get(Tokens(Cached)), t.Get(Tokens(CacheWrite)),
                        t.Get(Tokens(CacheWriteObserved)), t.Get(Tokens(Output)), t.Get(Tokens(Reasoning)),
                        t.Get(Tokens(Total)))
  {
  }

  /** A row of an index shows how many events it has and what each of their dimensions adds up to. */
  lemma RowsShowTheirColumns(t: Rollup, facts: map<Id, Event>, g: Grain, key: RowKey, d: Dimension)
    requires Indexes(t, facts, g)
    ensures At(t, key).Get(Events) == |EventsInRow(facts, g, key)|
    ensures At(t, key).Get(Tokens(d)) == SumOver(EventsInRow(facts, g, key), DimensionIn(facts, d))
  {
    assert ShowsAt(t, Grouped(facts, g), key);
    var one := (id: Id) => 1;
    RowSum(facts, g, key, Events, one);
    SumOfOnes(EventsInRow(facts, g, key), one);
    RowSum(facts, g, key, Tokens(d), DimensionIn(facts, d));
  }

  // ----- whole tables -----

  ghost function RowOf(t: Rollup, m: Measure): RowKey -> nat {
    (key: RowKey) => Max(0, At(t, key).Get(m))
  }

  ghost function RollupTotal(t: Rollup, m: Measure): nat {
    SumOver(t.Keys, RowOf(t, m))
  }

  ghost function TallyOf(tally: Tally, m: Measure): RowKey -> nat {
    (key: RowKey) => tally(key, m)
  }

  ghost function WeightIn(facts: map<Id, Event>, m: Measure): Id -> nat {
    (id: Id) => if id in facts then facts[id].Weight(m) else 0
  }

  ghost function TotalOf(facts: map<Id, Event>, m: Measure): nat {
    SumOver(facts.Keys, WeightIn(facts, m))
  }

  ghost function WeightOf(m: Measure): Event -> nat {
    (e: Event) => e.Weight(m)
  }

  ghost function TotalOfList(events: seq<Event>, m: Measure): nat {
    SumSeq(events, |events|, WeightOf(m))
  }

  lemma TableTotal(t: Rollup, tally: Tally, m: Measure)
    requires Shows(t, tally)
    ensures RollupTotal(t, m) == SumOver(t.Keys, TallyOf(tally, m))
  {
    forall key | key in t.Keys
      ensures RowOf(t, m)(key) == TallyOf(tally, m)(key)
    {
      assert ShowsAt(t, tally, key);
    }
    SumOverSame(t.Keys, RowOf(t, m), TallyOf(tally, m));
  }

  ghost function KeyIn(facts: map<Id, Event>, g: Grain): Id -> RowKey {
    (id: Id) => if id in facts then facts[id].Key(g) else RowKey(0, "", "", "", "", Unknown)
  }

  ghost function KeyOf(g: Grain): Event -> RowKey {
    (e: Event) => e.Key(g)
  }

  /** Over any rows that have all of its keys, a grouped sum adds up to the whole. */
  lemma GroupedAddsUp(facts: map<Id, Event>, g: Grain, keys: set<RowKey>, m: Measure)
    requires forall id :: id in facts ==> facts[id].Key(g) in keys
    ensures SumOver(keys, TallyOf(Grouped(facts, g), m)) == TotalOf(facts, m)
  {
    forall key | key in keys
      ensures TallyOf(Grouped(facts, g), m)(key) == GroupOfSet(facts.Keys, KeyIn(facts, g), WeightIn(facts, m))(key)
    {
      SumOverSame(facts.Keys, Share(facts, g, key, m), Restrict(KeyIn(facts, g), key, WeightIn(facts, m)));
    }
    SumOverSame(keys, TallyOf(Grouped(facts, g), m), GroupOfSet(facts.Keys, KeyIn(facts, g), WeightIn(facts, m)));
    SetGroupsAddUp(facts.Keys, KeyIn(facts, g), keys, WeightIn(facts, m));
  }

  lemma {:induction false} ListedIsGroup(events: seq<Event>, k: nat, g: Grain, key: RowKey, m: Measure)
    requires k <= |events|
    ensures SumSeq(events, k, ShareOf(g, key, m)) == GroupSum(events, k, KeyOf(g), key, WeightOf(m))
  {
    if k > 0 {
      ListedIsGroup(events, k - 1, g, key, m);
    }
  }

  lemma ListedAddsUp(events: seq<Event>, g: Grain, keys: set<RowKey>, m: Measure)
    requires forall i :: 0 <= i < |events| ==> events[i].Key(g) in keys
    ensures SumOver(keys, TallyOf(Listed(events, g), m)) == TotalOfList(events, m)
  {
    forall key | key in keys
      ensures TallyOf(Listed(events, g), m)(key) == GroupOf(events, |events|, KeyOf(g), WeightOf(m))(key)
    {
      ListedIsGroup(events, |events|, g, key, m);
    }
    SumOverSame(keys, TallyOf(Listed(events, g), m), GroupOf(events, |events|, KeyOf(g), WeightOf(m)));
    GroupsAddUp(events, |events|, KeyOf(g), keys, WeightOf(m));
  }

  lemma RowIsThere(t: Rollup, tally: Tally, key: RowKey)
    requires Shows(t, tally) && tally(key, Events) > 0
    ensures key in t
  {
    assert ShowsAt(t, tally, key);
    assert At(t, key).Get(Events) > 0;
  }

  /** A table that counts some events and a list of others adds up to all of them. */
  lemma TableAddsUp(t: Rollup, facts: map<Id, Event>, events: seq<Event>, g: Grain, m: Measure)
    requires Shows(t, Both(Grouped(facts, g), Listed(events, g)))
    ensures RollupTotal(t, m) == TotalOf(facts, m) + TotalOfList(events, m)
  {
    var a, b := Grouped(facts, g), Listed(events, g);
    forall id | id in facts
      ensures facts[id].Key(g) in t.Keys
    {
      FactIsCounted(facts, id, g);
      RowIsThere(t, Both(a, b), facts[id].Key(g));
    }
    forall i | 0 <= i < |events|
      ensures events[i].Key(g) in t.Keys
    {
      ElementIsCounted(events, |events|, i, g);
      RowIsThere(t, Both(a, b), events[i].Key(g));
    }
    TableTotal(t, Both(a, b), m);
    SumOfBoth(t.Keys, TallyOf(a, m), TallyOf(b, m), TallyOf(Both(a, b), m));
    GroupedAddsUp(facts, g, t.Keys, m);
    ListedAddsUp(events, g, t.Keys, m);
  }

  lemma FactIsCounted(facts: map<Id, Event>, id: Id, g: Grain)
    requires id in facts
    ensures Grouped(facts, g)(facts[id].Key(g), Events) > 0
  {
    SumOverRemove(facts.Keys, Share(facts, g, facts[id].Key(g), Events), id);
  }

  lemma {:induction false} ElementIsCounted(events: seq<Event>, k: nat, i: nat, g: Grain)
    requires i < k <= |events|
    ensures SumSeq(events, k, ShareOf(g, events[i].Key(g), Events)) > 0
  {
    if i < k - 1 {
      ElementIsCounted(events, k - 1, i, g);
    }
  }

  lemma EventsAreCounted(facts: map<Id, Event>)
    ensures TotalOf(facts, Events) == |facts|
  {
    SumOfOnes(facts.Keys, WeightIn(facts, Events));
  }

  lemma {:induction false} ListIsCounted(events: seq<Event>, k: nat)
    requires k <= |events|
    ensures SumSeq(events, k, WeightOf(Events)) == k
  {
    if k > 0 {
      ListIsCounted(events, k - 1);
    }
  }
}
