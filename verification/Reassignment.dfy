/** Moving rollup rows from one account to another (src/store/account_repository.rs). */
module Reassignment {
  import opened Prelude
  import opened Types
  import opened Sums
  import opened Folds
  import opened UsageTables
  import AccountEpochs
  import HourWindow

  const UNASSIGNED := ""

  /** From `low` on, and before `high` if there is one. */
  datatype Range = Range(low: int, high: Option<int>) {
    predicate Has(bucket: int) {
      low <= bucket && (high.None? || bucket < high.value)
    }
  }

  function ValueOf(t: Rollup, key: RowKey, m: Measure): int {
    At(t, key).Get(m)
  }

  function Plus(a: Totals, b: Totals): (t: Totals)
    ensures forall m: Measure :: t.Get(m) == a.Get(m) + b.Get(m)
  {
    Totals(a.events + b.events, a.input + b.input, a.cached + b.cached, a.cacheWrite + b.cacheWrite,
           a.cacheWriteObserved + b.cacheWriteObserved, a.output + b.output, a.reasoning + b.reasoning,
           a.total + b.total)
  }

  function Selected(t: Rollup, source: string, range: Range): set<RowKey> {
    set key | key in t && key.account == source && range.Has(key.bucket)
  }

  /** The insert: every selected row is added to the row of the same bucket and labels of account `to`. */
  function Merged(t: Rollup, source: string, to: string, range: Range): Rollup {
    var added := set key | key in Selected(t, source, range) :: key.(account := to);
    map key | key in t.Keys + added ::
      if key in added then
        if key in t then Plus(t[key], t[key.(account := source)]) else t[key.(account := source)]
      else t[key]
  }

  /** The delete that follows it. */
  function Move(t: Rollup, source: string, to: string, range: Range): Rollup {
    Merged(t, source, to, range) - Selected(Merged(t, source, to, range), source, range)
  }

  /** What a row shows after a move. */
  function MovedValue(t: Rollup, source: string, to: string, range: Range, key: RowKey, m: Measure): int {
    if !range.Has(key.bucket) then ValueOf(t, key, m)
    else if key.account == source then 0
    else if key.account == to then ValueOf(t, key, m) + ValueOf(t, key.(account := source), m)
    else ValueOf(t, key, m)
  }

  /** Selected rows join the other account's, and nothing else changes. */
  lemma MoveIsExact(t: Rollup, source: string, to: string, range: Range, key: RowKey, m: Measure)
    requires source != to
    ensures ValueOf(Move(t, source, to, range), key, m) == MovedValue(t, source, to, range, key, m)
  {
    var from := key.(account := source);
    assert from.(account := to) == key.(account := to);
    if key.account == to && range.Has(key.bucket) && from in t {
      assert from in Selected(t, source, range);
    }
  }

  /** Moving an account onto itself would lose it instead. */
  lemma MovingOntoItselfLoses(t: Rollup, source: string, range: Range, key: RowKey, m: Measure)
    requires range.Has(key.bucket) && key.account == source
    ensures ValueOf(Move(t, source, source, range), key, m) == 0
  {
  }

  // ----- conservation over accounts -----

  ghost function ByAccount(t: Rollup, key: RowKey, m: Measure): string -> nat {
    (account: string) => Max(0, ValueOf(t, key.(account := account), m))
  }

  ghost predicate NeverNegative(t: Rollup) {
    forall key, m :: ValueOf(t, key, m) >= 0
  }

  lemma MoveStaysNonNegative(t: Rollup, source: string, to: string, range: Range)
    requires source != to && NeverNegative(t)
    ensures NeverNegative(Move(t, source, to, range))
  {
    forall key, m
      ensures ValueOf(Move(t, source, to, range), key, m) >= 0
    {
      MoveIsExact(t, source, to, range, key, m);
    }
  }

  /** The bucket and labels of `key` weigh the same over all accounts. */
  ghost predicate SameSums(after: Rollup, before: Rollup, accounts: set<string>, key: RowKey, m: Measure) {
    SumOver(accounts, ByAccount(after, key, m)) == SumOver(accounts, ByAccount(before, key, m))
  }

  lemma MovedByAccount(t: Rollup, source: string, to: string, range: Range, key: RowKey, m: Measure, account: string)
    requires source != to && NeverNegative(t)
    ensures account != source && account != to ==>
              ByAccount(Move(t, source, to, range), key, m)(account) == ByAccount(t, key, m)(account)
    ensures ByAccount(Move(t, source, to, range), key, m)(source) + ByAccount(Move(t, source, to, range), key, m)(to)
            == ByAccount(t, key, m)(source) + ByAccount(t, key, m)(to)
  {
    MoveIsExact(t, source, to, range, key.(account := account), m);
    MoveIsExact(t, source, to, range, key.(account := source), m);
    MoveIsExact(t, source, to, range, key.(account := to), m);
    assert key.(account := to).(account := source) == key.(account := source);
  }

  /** Over any set of accounts with both, the sum of every bucket and label stays the same. */
  lemma MoveConserves(t: Rollup, source: string, to: string, range: Range, key: RowKey, m: Measure,
      accounts: set<string>)
    requires source != to && NeverNegative(t) && source in accounts && to in accounts
    ensures SameSums(Move(t, source, to, range), t, accounts, key, m)
  {
    MovesBetween(t, Move(t, source, to, range), source, to, range, key, m);
    PairKeepsSum(accounts, ByAccount(t, key, m), ByAccount(Move(t, source, to, range), key, m), source, to);
  }

  lemma MovesBetween(t: Rollup, after: Rollup, source: string, to: string, range: Range, key: RowKey, m: Measure)
    requires source != to && NeverNegative(t) && after == Move(t, source, to, range)
    ensures forall account :: account != source && account != to ==>
              ByAccount(after, key, m)(account) == ByAccount(t, key, m)(account)
    ensures ByAccount(after, key, m)(source) + ByAccount(after, key, m)(to)
            == ByAccount(t, key, m)(source) + ByAccount(t, key, m)(to)
  {
    forall account | account != source && account != to
      ensures ByAccount(after, key, m)(account) == ByAccount(t, key, m)(account)
    {
      MovedByAccount(t, source, to, range, key, m, account);
    }
    MovedByAccount(t, source, to, range, key, m, to);
  }

  lemma PairKeepsSum(s: set<string>, f: string -> nat, g: string -> nat, x: string, y: string)
    requires x in s && y in s && x != y && g(x) + g(y) == f(x) + f(y)
    requires forall z :: z != x && z != y ==> g(z) == f(z)
    ensures SumOver(s, g) == SumOver(s, f)
  {
    SumOverRemove(s, f, x);
    SumOverRemove(s - {x}, f, y);
    SumOverRemove(s, g, x);
    SumOverRemove(s - {x}, g, y);
    SumOverSame(s - {x} - {y}, f, g);
  }

  /** `u` is `t` after part of what `source` holds was handed to `to`, row by row. */
  ghost predicate PartlyMoved(u: Rollup, t: Rollup, source: string, to: string) {
    && (forall key: RowKey, m: Measure ::
          key.account != source && key.account != to ==> ValueOf(u, key, m) == ValueOf(t, key, m))
    && (forall key: RowKey, m: Measure :: key.account == to ==>
          ValueOf(u, key, m) + ValueOf(u, key.(account := source), m)
          == ValueOf(t, key, m) + ValueOf(t, key.(account := source), m))
  }

  lemma HandedOverTwice(v: Rollup, u: Rollup, t: Rollup, source: string, to: string)
    requires PartlyMoved(v, u, source, to) && PartlyMoved(u, t, source, to)
    ensures PartlyMoved(v, t, source, to)
  {
  }

  lemma ShownAt(t: Rollup, others: map<Id, Event>, id: Id, e: Event, g: Grain, key: RowKey, m: Measure)
    requires Indexes(t, others[id := e], g) && id !in others
    ensures ValueOf(t, key, m) == Grouped(others, g)(key, m) + if e.Key(g) == key then e.Weight(m) else 0
  {
    assert ShowsAt(t, Grouped(others[id := e], g), key);
    GroupedAddsAt(others, id, e, g, key, m);
  }

  /** The triggers hand over exactly the event whose account is rewritten. */
  lemma UpdateHandsOver(t: Rollup, facts: map<Id, Event>, id: Id, to: string, g: Grain)
    requires Indexes(t, facts, g) && id in facts && facts[id].account != to
    ensures PartlyMoved(Update(t, g, facts[id], facts[id].(account := to)), t, facts[id].account, to)
  {
    var e := facts[id].(account := to);
    var after, others := Update(t, g, facts[id], e), facts - {id};
    assert others[id := facts[id]] == facts && others[id := e] == facts[id := e];
    UpdateIndexes(t, facts, id, e, g);
    forall key: RowKey, m: Measure
      ensures ValueOf(t, key, m) == Grouped(others, g)(key, m) + if facts[id].Key(g) == key then e.Weight(m) else 0
      ensures ValueOf(after, key, m) == Grouped(others, g)(key, m) + if e.Key(g) == key then e.Weight(m) else 0
    {
      ShownAt(t, others, id, facts[id], g, key, m);
      ShownAt(after, others, id, e, g, key, m);
    }
    assert e.Key(g) == facts[id].Key(g).(account := to);
  }

  ghost function Renamed(facts: map<Id, Event>, ids: seq<Id>, to: string, k: nat): map<Id, Event>
    requires k <= |ids| && forall i :: 0 <= i < |ids| ==> ids[i] in facts
    ensures forall id :: id in facts ==> id in Renamed(facts, ids, to, k)
  {
    if k == 0 then facts
    else
      Renamed(facts, ids, to, k - 1)[ids[k - 1] := Renamed(facts, ids, to, k - 1)[ids[k - 1]].(account := to)]
  }

  /** The table after the first `k` events were rewritten. */
  ghost function Rewritten(t: Rollup, facts: map<Id, Event>, ids: seq<Id>, to: string, g: Grain, k: nat): Rollup
    requires k <= |ids| && forall i :: 0 <= i < |ids| ==> ids[i] in facts
  {
    if k == 0 then t
    else
      Update(Rewritten(t, facts, ids, to, g, k - 1), g, facts[ids[k - 1]], facts[ids[k - 1]].(account := to))
  }

  ghost predicate AllOfAccount(facts: map<Id, Event>, ids: seq<Id>, source: string) {
    forall i :: 0 <= i < |ids| ==> ids[i] in facts && facts[ids[i]].account == source
  }

  lemma {:induction false} NotYetRenamed(facts: map<Id, Event>, ids: seq<Id>, to: string, k: nat, i: nat)
    requires k <= i < |ids| && AllDifferent(ids, |ids|) && forall i :: 0 <= i < |ids| ==> ids[i] in facts
    ensures Renamed(facts, ids, to, k)[ids[i]] == facts[ids[i]]
  {
    if k > 0 {
      NotYetRenamed(facts, ids, to, k - 1, i);
    }
  }

  lemma {:induction false} RewritingHandsOver(t: Rollup, facts: map<Id, Event>, ids: seq<Id>, source: string,
      to: string, g: Grain, k: nat)
    requires k <= |ids| && source != to && Indexes(t, facts, g)
    requires AllOfAccount(facts, ids, source) && AllDifferent(ids, |ids|)
    ensures Indexes(Rewritten(t, facts, ids, to, g, k), Renamed(facts, ids, to, k), g)
    ensures PartlyMoved(Rewritten(t, facts, ids, to, g, k), t, source, to)
  {
    if k == 0 {
      NothingHandedOver(t, source, to);
    } else {
      RewritingHandsOver(t, facts, ids, source, to, g, k - 1);
      NotYetRenamed(facts, ids, to, k - 1, k - 1);
      OneMoreRewritten(Rewritten(t, facts, ids, to, g, k - 1), t, Renamed(facts, ids, to, k - 1), ids[k - 1],
                       source, to, g);
    }
  }

  lemma NothingHandedOver(t: Rollup, source: string, to: string)
    ensures PartlyMoved(t, t, source, to)
  {
  }

  lemma OneMoreRewritten(before: Rollup, t: Rollup, facts: map<Id, Event>, id: Id, source: string, to: string, g: Grain)
    requires PartlyMoved(before, t, source, to) && Indexes(before, facts, g)
    requires source != to && id in facts && facts[id].account == source
    ensures Indexes(Update(before, g, facts[id], facts[id].(account := to)), facts[id := facts[id].(account := to)], g)
    ensures PartlyMoved(Update(before, g, facts[id], facts[id].(account := to)), t, source, to)
  {
    UpdateIndexes(before, facts, id, facts[id].(account := to), g);
    UpdateHandsOver(before, facts, id, to, g);
    HandedOverTwice(Update(before, g, facts[id], facts[id].(account := to)), before, t, source, to);
  }

  /**
   * A remap first rewrites the retained events of an account, whose triggers hand over their part of
   * the rows, and then moves what is left. The rows end as if they had been moved at once.
   */
  lemma RemapMergesAccounts(t: Rollup, facts: map<Id, Event>, ids: seq<Id>, source: string, to: string, range: Range,
      g: Grain, key: RowKey, m: Measure)
    requires source != to && Indexes(t, facts, g) && range.Has(key.bucket)
    requires AllOfAccount(facts, ids, source) && AllDifferent(ids, |ids|)
    ensures ValueOf(Move(Rewritten(t, facts, ids, to, g, |ids|), source, to, range), key, m)
            == ValueOf(Move(t, source, to, range), key, m)
  {
    var u := Rewritten(t, facts, ids, to, g, |ids|);
    RewritingHandsOver(t, facts, ids, source, to, g, |ids|);
    MoveIsExact(u, source, to, range, key, m);
    MoveIsExact(t, source, to, range, key, m);
  }

  // ----- moving unassigned rows, range after range -----

  datatype Transfer = Transfer(to: string, range: Range)

  /** Moves the unassigned rows of the range. */
  function Mover(): (Rollup, Transfer) -> Rollup {
    (t: Rollup, x: Transfer) => Move(t, UNASSIGNED, x.to, x.range)
  }

  ghost predicate IsExact(f: (Rollup, Transfer) -> Rollup) {
    forall t: Rollup, x: Transfer, key: RowKey, m: Measure :: x.to != UNASSIGNED ==>
      ValueOf(f(t, x), key, m) == MovedValue(t, UNASSIGNED, x.to, x.range, key, m)
  }

  lemma MoverIsExact()
    ensures IsExact(Mover())
  {
    forall t: Rollup, x: Transfer, key: RowKey, m: Measure | x.to != UNASSIGNED
      ensures ValueOf(Mover()(t, x), key, m) == MovedValue(t, UNASSIGNED, x.to, x.range, key, m)
    {
      MoveIsExact(t, UNASSIGNED, x.to, x.range, key, m);
    }
  }

  /** The first of the first `k` transfers whose range has the bucket. */
  function TakerOf(transfers: seq<Transfer>, k: nat, bucket: int): (taker: Option<nat>)
    requires k <= |transfers|
    ensures taker.Some? ==> taker.value < k && transfers[taker.value].range.Has(bucket)
    ensures taker.None? ==> forall i :: 0 <= i < k ==> !transfers[i].range.Has(bucket)
  {
    if k == 0 then None
    else if TakerOf(transfers, k - 1, bucket).Some? then TakerOf(transfers, k - 1, bucket)
    else if transfers[k - 1].range.Has(bucket) then Some(k - 1) else None
  }

  /** What a row shows in the end: an unassigned row went to one account, or stayed. */
  function AfterTransfers(t: Rollup, transfers: seq<Transfer>, taker: Option<nat>, key: RowKey, m: Measure): int
    requires taker.Some? ==> taker.value < |transfers|
  {
    if taker.None? then ValueOf(t, key, m)
    else if key.account == UNASSIGNED then 0
    else if key.account == transfers[taker.value].to
    then ValueOf(t, key, m) + ValueOf(t, key.(account := UNASSIGNED), m)
    else ValueOf(t, key, m)
  }

  ghost predicate NamedAccounts(transfers: seq<Transfer>) {
    forall i :: 0 <= i < |transfers| ==> transfers[i].to != UNASSIGNED
  }

  /**
   * Every unassigned row moves at most once, to the first transfer that has its bucket,
   * and every other row only gains what moved there.
   */
  lemma {:induction false} RowsMoveOnce(
    f: (Rollup, Transfer) -> Rollup, t: Rollup, transfers: seq<Transfer>, k: nat, key: RowKey, m: Measure)
    requires k <= |transfers| && NamedAccounts(transfers) && IsExact(f)
    ensures ValueOf(Iterate(f, t, transfers, k), key, m)
            == AfterTransfers(t, transfers, TakerOf(transfers, k, key.bucket), key, m)
  {
    if k > 0 {
      RowsMoveOnce(f, t, transfers, k - 1, key, m);
      RowsMoveOnce(f, t, transfers, k - 1, key.(account := UNASSIGNED), m);
    }
  }

  ghost predicate AllSameSums(after: Rollup, before: Rollup, accounts: set<string>) {
    forall key, m :: SameSums(after, before, accounts, key, m)
  }

  ghost predicate Conserves(f: (Rollup, Transfer) -> Rollup, accounts: set<string>) {
    forall t: Rollup, x: Transfer :: ConservesAt(f(t, x), t, x, accounts)
  }

  ghost predicate ConservesAt(after: Rollup, t: Rollup, x: Transfer, accounts: set<string>) {
    x.to != UNASSIGNED && x.to in accounts && NeverNegative(t) ==>
      NeverNegative(after) && AllSameSums(after, t, accounts)
  }

  lemma MoverConserves(accounts: set<string>)
    requires UNASSIGNED in accounts
    ensures Conserves(Mover(), accounts)
  {
    forall t: Rollup, x: Transfer
      ensures ConservesAt(Mover()(t, x), t, x, accounts)
    {
      if x.to != UNASSIGNED && x.to in accounts && NeverNegative(t) {
        MoveStaysNonNegative(t, UNASSIGNED, x.to, x.range);
        forall key, m
          ensures SameSums(Move(t, UNASSIGNED, x.to, x.range), t, accounts, key, m)
        {
          MoveConserves(t, UNASSIGNED, x.to, x.range, key, m, accounts);
        }
      }
    }
  }

  /** No bucket gains or loses over all accounts together. */
  lemma {:induction false} TransfersConserve(
    f: (Rollup, Transfer) -> Rollup, t: Rollup, transfers: seq<Transfer>, k: nat, accounts: set<string>)
    requires k <= |transfers| && NeverNegative(t) && NamedAccounts(transfers) && Conserves(f, accounts)
    requires forall i :: 0 <= i < k ==> transfers[i].to in accounts
    ensures NeverNegative(Iterate(f, t, transfers, k))
    ensures AllSameSums(Iterate(f, t, transfers, k), t, accounts)
  {
    if k > 0 {
      TransfersConserve(f, t, transfers, k - 1, accounts);
      var before, after := Iterate(f, t, transfers, k - 1), Iterate(f, t, transfers, k);
      assert ConservesAt(after, before, transfers[k - 1], accounts);
      forall key, m
        ensures SameSums(after, t, accounts, key, m)
      {
        assert SameSums(after, before, accounts, key, m) && SameSums(before, t, accounts, key, m);
      }
    }
  }

  // ----- claiming complete hours for inferred epochs -----

  /** An epoch with the account its workspace was resolved to. */
  datatype Claim = Claim(observedFrom: int, observedTo: Option<int>, account: string)

  function CeilLocalHour(at: int): int {
    LocalHour(HourWindow.CeilHour(at))
  }

  function HoursOf(c: Claim): Range {
    Range(CeilLocalHour(c.observedFrom),
          if c.observedTo.Some? then Some(LocalHour(c.observedTo.value)) else None)
  }

  /** Every instant of the hour lies in the epoch. */
  predicate HoldsHour(c: Claim, hour: int) {
    && c.observedFrom <= HourWindow.HourStart(hour)
    && (c.observedTo.Some? ==> HourWindow.HourStart(hour) + HOUR <= c.observedTo.value)
  }

  /** An epoch claims exactly the hours it holds completely. */
  lemma OnlyCompleteHours(c: Claim, hour: int)
    ensures HoursOf(c).Has(hour) <==> HoldsHour(c, hour)
  {
    FromFullHour(c.observedFrom, hour);
    if c.observedTo.Some? {
      ToFullHour(c.observedTo.value, hour);
    }
  }

  lemma FromFullHour(at: int, hour: int)
    ensures CeilLocalHour(at) <= hour <==> at <= HourWindow.HourStart(hour)
  {
  }

  lemma ToFullHour(at: int, hour: int)
    ensures hour < LocalHour(at) <==> HourWindow.HourStart(hour) + HOUR <= at
  {
  }

  // ----- days -----

  function DayStart(day: int): int {
    day * DAY - LOCAL_OFFSET
  }

  function CeilLocalDay(at: int): int {
    if DayStart(LocalDay(at)) == at then LocalDay(at) else LocalDay(at) + 1
  }

  /** The first epoch starts with the day it begins in; later ones with their first full day. */
  function DaysOf(c: Claim, index: nat): Range {
    Range(if index == 0 then LocalDay(c.observedFrom) else CeilLocalDay(c.observedFrom),
          if c.observedTo.Some? then Some(LocalDay(c.observedTo.value)) else None)
  }

  predicate HoldsDay(c: Claim, day: int) {
    && c.observedFrom <= DayStart(day)
    && (c.observedTo.Some? ==> DayStart(day) + DAY <= c.observedTo.value)
  }

  /**
   * A day is claimed exactly if the epoch holds it completely, except that the first epoch also takes
   * the day it begins in.
   */
  lemma DaysAreCompleteExceptTheFirst(c: Claim, index: nat, day: int)
    ensures DaysOf(c, index).Has(day) <==>
              || HoldsDay(c, day)
              || (&& index == 0 && day == LocalDay(c.observedFrom)
                  && (c.observedTo.Some? ==> DayStart(day) + DAY <= c.observedTo.value))
  {
    FromFullDay(c.observedFrom, day);
    if c.observedTo.Some? {
      ToFullDay(c.observedTo.value, day);
    }
  }

  lemma FromFullDay(at: int, day: int)
    ensures CeilLocalDay(at) <= day <==> at <= DayStart(day)
    ensures LocalDay(at) <= day <==> at < DayStart(day) + DAY
    ensures LocalDay(at) == day <==> DayStart(day) <= at < DayStart(day) + DAY
  {
  }

  lemma ToFullDay(at: int, day: int)
    ensures day < LocalDay(at) <==> DayStart(day) + DAY <= at
  {
  }

  // ----- the transaction -----

  function HourTransfer(c: Claim): Transfer {
    Transfer(c.account, HoursOf(c))
  }

  function DayTransfer(c: Claim, index: nat): Transfer {
    Transfer(c.account, DaysOf(c, index))
  }

  function HourTransfers(claims: seq<Claim>): (r: seq<Transfer>)
    ensures |r| == |claims|
    ensures forall i :: 0 <= i < |r| ==> r[i] == HourTransfer(claims[i])
  {
    seq(|claims|, i requires 0 <= i < |claims| => HourTransfer(claims[i]))
  }

  function DayTransfers(claims: seq<Claim>): (r: seq<Transfer>)
    ensures |r| == |claims|
    ensures forall i :: 0 <= i < |r| ==> r[i] == DayTransfer(claims[i], i)
  {
    seq(|claims|, i requires 0 <= i < |claims| => DayTransfer(claims[i], i))
  }

  /** The loop over the epochs, whatever a table is and whatever moves its rows. */
  method MoveByEpoch<T>(move: (T, Transfer) -> T, hourly: T, daily: T, claims: seq<Claim>) returns (hours: T, days: T)
    ensures hours == Iterate(move, hourly, HourTransfers(claims), |claims|)
    ensures days == Iterate(move, daily, DayTransfers(claims), |claims|)
  {
    hours, days := hourly, daily;
    for i := 0 to |claims|
      invariant hours == Iterate(move, hourly, HourTransfers(claims), i)
      invariant days == Iterate(move, daily, DayTransfers(claims), i)
    {
      hours := move(hours, HourTransfer(claims[i]));
      days := move(days, DayTransfer(claims[i], i));
    }
  }

  /** Epoch by epoch, complete hours and then days of unassigned usage go to the account of the epoch. */
  method ReassignRollups(hourly: Rollup, daily: Rollup, claims: seq<Claim>) returns (hours: Rollup, days: Rollup)
    ensures hours == Iterate(Mover(), hourly, HourTransfers(claims), |claims|)
    ensures days == Iterate(Mover(), daily, DayTransfers(claims), |claims|)
  {
    hours, days := MoveByEpoch(Mover(), hourly, daily, claims);
  }

  /** Whoever takes an hour holds all of it, and an hour nobody takes is held by nobody. */
  lemma HoursGoToTheirEpoch(claims: seq<Claim>, hour: int)
    ensures var taker := TakerOf(HourTransfers(claims), |claims|, hour);
      && (taker.Some? ==> taker.value < |claims| && HoldsHour(claims[taker.value], hour))
      && (taker.None? ==> forall i :: 0 <= i < |claims| ==> !HoldsHour(claims[i], hour))
  {
    forall i | 0 <= i < |claims|
      ensures HourTransfers(claims)[i].range.Has(hour) <==> HoldsHour(claims[i], hour)
    {
      OnlyCompleteHours(claims[i], hour);
    }
  }

  /** The claims of inferred epochs: each has the account its workspace was resolved to. */
  ghost predicate AreClaims(claims: seq<Claim>, epochs: seq<AccountEpochs.Epoch>, accountOf: string -> string) {
    && |claims| == |epochs|
    && forall i :: 0 <= i < |claims| ==>
         claims[i] == Claim(epochs[i].observedFrom, epochs[i].observedTo, accountOf(epochs[i].workspace))
  }

  lemma DisjointClaims(claims: seq<Claim>, epochs: seq<AccountEpochs.Epoch>, accountOf: string -> string, hour: int,
      i: nat, j: nat)
    requires AreClaims(claims, epochs, accountOf) && AccountEpochs.Disjoint(epochs)
    requires i < |claims| && j < |claims| && i != j && HoldsHour(claims[i], hour)
    ensures !HoldsHour(claims[j], hour)
  {
    assert i < j ==> AccountEpochs.ClosedBefore(epochs[i], epochs[j].observedFrom);
    assert j < i ==> AccountEpochs.ClosedBefore(epochs[j], epochs[i].observedFrom);
  }

  /** Of disjoint epochs, the one that takes an hour is the one that holds it. */
  lemma DisjointEpochsTakeTheirHours(epochs: seq<AccountEpochs.Epoch>, claims: seq<Claim>,
      accountOf: string -> string, hour: int, i: nat)
    requires AreClaims(claims, epochs, accountOf) && AccountEpochs.Disjoint(epochs) && i < |claims|
    ensures TakerOf(HourTransfers(claims), |claims|, hour) == Some(i) <==> HoldsHour(claims[i], hour)
  {
    HoursGoToTheirEpoch(claims, hour);
    forall j | 0 <= j < |claims| && j != i && HoldsHour(claims[i], hour)
      ensures !HoldsHour(claims[j], hour)
    {
      DisjointClaims(claims, epochs, accountOf, hour, i, j);
    }
  }

  /**
   * From login traces to hours: when no logout ahead of the clock stands between two inferred epochs,
   * an hour moves to the account of an epoch exactly when that epoch holds all of it.
   */
  lemma InferredEpochsTakeTheirHours(markers: seq<AccountEpochs.Marker>, earliest: int, now: int, bounds: seq<int>,
      claims: seq<Claim>, accountOf: string -> string, hour: int, i: nat)
    requires bounds == AccountEpochs.Bounds(markers, earliest, now) && i < |claims|
    requires AccountEpochs.NoneAfterOpen(markers, bounds, now, |bounds| - 1)
    requires AreClaims(claims, AccountEpochs.EpochsOf(markers, bounds, now, |bounds| - 1), accountOf)
    ensures TakerOf(HourTransfers(claims), |claims|, hour) == Some(i) <==> HoldsHour(claims[i], hour)
  {
    AccountEpochs.InferredEpochsAreDisjointIff(markers, earliest, now, bounds);
    var epochs := AccountEpochs.EpochsOf(markers, bounds, now, |bounds| - 1);
    DisjointEpochsTakeTheirHours(epochs, claims, accountOf, hour, i);
  }

  /** What the transaction does to the hours: whole hours to their epoch, once, and nothing lost. */
  lemma HoursAreReassigned(hourly: Rollup, claims: seq<Claim>, key: RowKey, m: Measure, accounts: set<string>)
    requires NeverNegative(hourly) && UNASSIGNED in accounts
    requires forall i :: 0 <= i < |claims| ==> claims[i].account != UNASSIGNED && claims[i].account in accounts
    ensures ValueOf(Iterate(Mover(), hourly, HourTransfers(claims), |claims|), key, m)
            == AfterTransfers(hourly, HourTransfers(claims), TakerOf(HourTransfers(claims), |claims|, key.bucket),
                              key, m)
    ensures SameSums(Iterate(Mover(), hourly, HourTransfers(claims), |claims|), hourly, accounts, key, m)
  {
    MoverIsExact();
    MoverConserves(accounts);
    RowsMoveOnce(Mover(), hourly, HourTransfers(claims), |claims|, key, m);
    TransfersConserve(Mover(), hourly, HourTransfers(claims), |claims|, accounts);
  }
}
