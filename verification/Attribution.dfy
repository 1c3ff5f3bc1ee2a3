/**
 * Facts and the rows that count them, across changes of account: the rows of compacted events are
 * moved, those of retained events follow their event (src/store/account_repository.rs,
 * src/store/migrations.rs).
 */
module Attribution {
  import opened Prelude
  import opened Types
  import opened Sums
  import opened Folds
  import opened UsageTables
  import opened Rollups
  import opened RollupRuns
  import opened Reassignment

  // ----- every fact is counted once, under some account -----

  /** The events are the same but for the account. */
  ghost predicate SameButAccounts(counted: map<Id, Event>, facts: map<Id, Event>) {
    counted.Keys == facts.Keys && forall id :: id in facts ==> counted[id] == facts[id].(account := counted[id].account)
  }

  /** `counted` are the facts as the daily table counts them: each once, under an account of its own choice. */
  ghost predicate Follows(s: State, counted: map<Id, Event>) {
    Apart(s) && SameButAccounts(counted, Facts(s)) && Indexes(s.daily, counted, Daily)
  }

  /** Retained events are counted under the account they have. */
  ghost predicate Aligned(raw: map<Id, Event>, counted: map<Id, Event>) {
    forall id :: id in raw ==> id in counted && counted[id] == raw[id]
  }

  /** The key of an event's row, whatever its account. */
  function Unattributed(key: RowKey): RowKey {
    key.(account := UNASSIGNED)
  }

  ghost function AnyAccount(facts: map<Id, Event>, key: RowKey, m: Measure): Id -> nat {
    (id: Id) =>
      if id in facts && Unattributed(facts[id].Key(Daily)) == Unattributed(key) then facts[id].Weight(m) else 0
  }

  ghost function AccountIn(counted: map<Id, Event>): Id -> string {
    (id: Id) => if id in counted then counted[id].account else UNASSIGNED
  }

  lemma AccountShare(daily: Rollup, counted: map<Id, Event>, key: RowKey, m: Measure, account: string)
    requires Indexes(daily, counted, Daily)
    ensures ByAccount(daily, key, m)(account)
            == GroupOfSet(counted.Keys, AccountIn(counted), AnyAccount(counted, key, m))(account)
  {
    var row := key.(account := account);
    assert ShowsAt(daily, Grouped(counted, Daily), row);
    assert At(daily, row).Get(m) == Grouped(counted, Daily)(row, m);
    SumOverSame(counted.Keys, Share(counted, Daily, row, m),
                Restrict(AccountIn(counted), account, AnyAccount(counted, key, m)));
  }

  lemma SameOverAnyAccount(counted: map<Id, Event>, facts: map<Id, Event>, key: RowKey, m: Measure)
    requires SameButAccounts(counted, facts)
    ensures SumOver(counted.Keys, AnyAccount(counted, key, m)) == SumOver(facts.Keys, AnyAccount(facts, key, m))
  {
    forall id | id in facts
      ensures AnyAccount(counted, key, m)(id) == AnyAccount(facts, key, m)(id)
    {
      assert counted[id] == facts[id].(account := counted[id].account);
    }
    SumOverSame(facts.Keys, AnyAccount(counted, key, m), AnyAccount(facts, key, m));
  }

  /** Then the rows of all accounts together are the grouped sum of the facts. */
  lemma AccountsAddUpToFacts(s: State, counted: map<Id, Event>, key: RowKey, m: Measure, accounts: set<string>)
    requires Follows(s, counted) && forall id :: id in counted ==> counted[id].account in accounts
    ensures SumOver(accounts, ByAccount(s.daily, key, m)) == SumOver(Facts(s).Keys, AnyAccount(Facts(s), key, m))
  {
    forall account | account in accounts
      ensures ByAccount(s.daily, key, m)(account)
              == GroupOfSet(counted.Keys, AccountIn(counted), AnyAccount(counted, key, m))(account)
    {
      AccountShare(s.daily, counted, key, m, account);
    }
    SumOverSame(accounts, ByAccount(s.daily, key, m),
                GroupOfSet(counted.Keys, AccountIn(counted), AnyAccount(counted, key, m)));
    SetGroupsAddUp(counted.Keys, AccountIn(counted), accounts, AnyAccount(counted, key, m));
    SameOverAnyAccount(counted, Facts(s), key, m);
  }

  // ----- a retained event changes -----

  /** The trigger looks for the event in the row of the account it has. */
  lemma MisplacedRow(daily: Rollup, counted: map<Id, Event>, raw: Event, e: Event)
    requires Indexes(daily, counted, Daily) && e.id in counted && counted[e.id].Key(Daily) != raw.Key(Daily)
    ensures !Indexes(Update(daily, Daily, raw, e), counted[e.id := e], Daily)
  {
    var key, after := counted[e.id].Key(Daily), Update(daily, Daily, raw, e);
    var others := counted - {e.id};
    assert others[e.id := counted[e.id]] == counted && others[e.id := e] == counted[e.id := e];
    GroupedAddsAt(others, e.id, counted[e.id], Daily, key, Events);
    GroupedAddsAt(others, e.id, e, Daily, key, Events);
    assert ShowsAt(daily, Grouped(counted, Daily), key);
    assert At(daily, key).Get(Events) == Grouped(counted, Daily)(key, Events) > 0;
    OtherRowsStay(daily, raw, key);
    assert At(after, key).Get(Events) == At(daily, key).Get(Events) + if e.Key(Daily) == key then 1 else 0;
    assert !ShowsAt(after, Grouped(counted[e.id := e], Daily), key);
  }

  lemma OtherRowsStay(daily: Rollup, raw: Event, key: RowKey)
    requires key != raw.Key(Daily) && At(daily, key).Get(Events) > 0
    ensures At(Take(daily, Daily, raw), key) == At(daily, key)
  {
  }

  lemma UpdateKeepsFacts(s: State, counted: map<Id, Event>, e: Event)
    requires Apart(s) && SameButAccounts(counted, Facts(s))
    requires e.id in s.raw && s.raw[e.id] != e && PutRaw(s, e).Ok?
    ensures Apart(PutRaw(s, e).value) && SameButAccounts(counted[e.id := e], Facts(PutRaw(s, e).value))
    ensures PutRaw(s, e).value.daily == Update(s.daily, Daily, s.raw[e.id], e)
    ensures counted[e.id] == s.raw[e.id].(account := counted[e.id].account)
  {
    RetainedEventUpdates(s, e);
    PutOnTheLeft(s.raw, s.compacted, e);
    SameButAccountsAfter(counted, Facts(s), e);
    assert Facts(s)[e.id] == s.raw[e.id];
  }

  lemma RetainedEventUpdates(s: State, e: Event)
    requires e.id in s.raw && s.raw[e.id] != e && PutRaw(s, e).Ok?
    ensures PutRaw(s, e).value.raw == s.raw[e.id := e] && PutRaw(s, e).value.compacted == s.compacted
    ensures PutRaw(s, e).value.daily == Update(s.daily, Daily, s.raw[e.id], e)
  {
  }

  lemma SameButAccountsAfter(counted: map<Id, Event>, facts: map<Id, Event>, e: Event)
    requires SameButAccounts(counted, facts)
    ensures SameButAccounts(counted[e.id := e], facts[e.id := e])
  {
  }

  /** A retained event changes: the table follows exactly when it counts the event under the account it has. */
  lemma UpdateFollowsIffAligned(s: State, counted: map<Id, Event>, e: Event)
    requires Follows(s, counted) && e.id in s.raw && s.raw[e.id] != e && PutRaw(s, e).Ok?
    ensures Follows(PutRaw(s, e).value, counted[e.id := e]) <==> counted[e.id] == s.raw[e.id]
  {
    UpdateKeepsFacts(s, counted, e);
    if counted[e.id] == s.raw[e.id] {
      UpdateIndexes(s.daily, counted, e.id, e, Daily);
    } else {
      MisplacedRow(s.daily, counted, s.raw[e.id], e);
    }
  }

  lemma NothingToTake(daily: Rollup, counted: map<Id, Event>, raw: Event, key: RowKey)
    requires Indexes(daily, counted, Daily) && At(daily, raw.Key(Daily)).Get(Events) == 0
    ensures forall m: Measure :: At(Take(daily, Daily, raw), key).Get(m) == At(daily, key).Get(m)
  {
    assert ShowsAt(daily, Grouped(counted, Daily), key);
    GroupedCountsEvents(counted, Daily);
    assert At(daily, key).Get(Events) == Grouped(counted, Daily)(key, Events) >= 0;
    forall m: Measure
      ensures At(Take(daily, Daily, raw), key).Get(m) == At(daily, key).Get(m)
    {
      assert At(daily, key).Get(m) == Grouped(counted, Daily)(key, m);
    }
  }

  /** If the row it is looked for in has no events left, nothing is taken and the event is counted twice. */
  lemma EmptyRowCountsTwice(daily: Rollup, counted: map<Id, Event>, raw: Event, e: Event, key: RowKey, m: Measure)
    requires Indexes(daily, counted, Daily) && At(daily, raw.Key(Daily)).Get(Events) == 0
    ensures At(Update(daily, Daily, raw, e), key).Get(m)
            == At(daily, key).Get(m) + if e.Key(Daily) == key then e.Weight(m) else 0
  {
    NothingToTake(daily, counted, raw, key);
  }

  // ----- rows move -----

  predicate Moves(e: Event, source: string, range: Range) {
    e.account == source && range.Has(e.Key(Daily).bucket)
  }

  /** The counted events of the rows that move have the other account. */
  ghost function Reattributed(counted: map<Id, Event>, source: string, to: string, range: Range): map<Id, Event> {
    map id | id in counted ::
      if Moves(counted[id], source, range) then counted[id].(account := to) else counted[id]
  }

  lemma MovedShare(counted: map<Id, Event>, source: string, to: string, range: Range, key: RowKey, m: Measure, id: Id)
    requires source != to && id in counted
    ensures var share := Share(Reattributed(counted, source, to, range), Daily, key, m)(id);
      if !range.Has(key.bucket) || (key.account != source && key.account != to)
      then share == Share(counted, Daily, key, m)(id)
      else if key.account == source then share == 0
      else share == Share(counted, Daily, key, m)(id) + Share(counted, Daily, key.(account := source), m)(id)
  {
  }

  lemma MovedGroup(counted: map<Id, Event>, source: string, to: string, range: Range, key: RowKey, m: Measure)
    requires source != to
    ensures var group := Grouped(Reattributed(counted, source, to, range), Daily)(key, m);
      if !range.Has(key.bucket) || (key.account != source && key.account != to)
      then group == Grouped(counted, Daily)(key, m)
      else if key.account == source then group == 0
      else group == Grouped(counted, Daily)(key, m) + Grouped(counted, Daily)(key.(account := source), m)
  {
    var after := Reattributed(counted, source, to, range);
    var share := Share(after, Daily, key, m);
    assert after.Keys == counted.Keys;
    forall id | id in counted
      ensures var now := share(id);
        if !range.Has(key.bucket) || (key.account != source && key.account != to)
        then now == Share(counted, Daily, key, m)(id)
        else if key.account == source then now == 0
        else now == Share(counted, Daily, key, m)(id) + Share(counted, Daily, key.(account := source), m)(id)
    {
      MovedShare(counted, source, to, range, key, m, id);
    }
    if !range.Has(key.bucket) || (key.account != source && key.account != to) {
      SumOverSame(counted.Keys, share, Share(counted, Daily, key, m));
    } else if key.account == source {
      SumOverZero(counted.Keys, share);
    } else {
      SumOfBoth(counted.Keys, Share(counted, Daily, key, m), Share(counted, Daily, key.(account := source), m), share);
    }
  }

  /** Moving rows moves the events they count, and no other. */
  lemma MoveFollows(t: Rollup, counted: map<Id, Event>, source: string, to: string, range: Range)
    requires source != to && Indexes(t, counted, Daily)
    ensures Indexes(Move(t, source, to, range), Reattributed(counted, source, to, range), Daily)
  {
    var moved, after := Move(t, source, to, range), Grouped(Reattributed(counted, source, to, range), Daily);
    forall key: RowKey
      ensures ShowsAt(moved, after, key)
    {
      assert ShowsAt(t, Grouped(counted, Daily), key);
      assert ShowsAt(t, Grouped(counted, Daily), key.(account := source));
      forall m: Measure
        ensures At(moved, key).Get(m) == after(key, m)
      {
        MoveIsExact(t, source, to, range, key, m);
        MovedGroup(counted, source, to, range, key, m);
      }
    }
  }

  /** It leaves a retained event behind exactly when the event's own row moves. */
  lemma MoveKeepsAlignedIff(raw: map<Id, Event>, counted: map<Id, Event>, source: string, to: string, range: Range)
    requires source != to && Aligned(raw, counted)
    ensures Aligned(raw, Reattributed(counted, source, to, range))
            <==> forall id :: id in raw ==> !Moves(raw[id], source, range)
  {
    var after := Reattributed(counted, source, to, range);
    forall id | id in raw
      ensures id in after && (after[id] == raw[id] <==> !Moves(raw[id], source, range))
    {
    }
  }

  // ----- runs -----

  /** One event arrives; one retained event is given another account; expired events go; rows move. */
  datatype Change =
    | Deliver(now: int, e: Event)
    | Assign(e: Event)
    | Expire(chosen: set<Id>)
    | MoveRows(source: string, to: string, range: Range)

  ghost function Changed(s: State, c: Change): State {
    match c
    case Deliver(now, e) => if Put(s, now, e).Ok? then Put(s, now, e).value else s
    case Assign(e) => if e.id in s.raw && PutRaw(s, e).Ok? then PutRaw(s, e).value else s
    case Expire(chosen) => if chosen <= s.raw.Keys then Compact(s, chosen) else s
    case MoveRows(source, to, range) => s.(daily := Move(s.daily, source, to, range))
  }

  ghost function Recounted(s: State, c: Change, counted: map<Id, Event>): map<Id, Event> {
    match c
    case MoveRows(source, to, range) => Reattributed(counted, source, to, range)
    case Expire(_) => counted
    case _ => if Changed(s, c) == s then counted else counted[c.e.id := c.e]
  }

  /** A retained event changes that is counted under another account than it has. */
  ghost predicate IsMisplaced(s: State, counted: map<Id, Event>, e: Event) {
    e.id in s.raw && s.raw[e.id] != e && e.id in counted && counted[e.id] != s.raw[e.id]
  }

  ghost predicate Slips(s: State, counted: map<Id, Event>, c: Change) {
    match c
    case Deliver(now, e) => Put(s, now, e).Ok? && (Returns(s, now, e) || IsMisplaced(s, counted, e))
    case Assign(e) => PutRaw(s, e).Ok? && IsMisplaced(s, counted, e)
    case Expire(_) => false
    case MoveRows(source, to, _) => source == to
  }

  lemma RawPutFollowsIff(s: State, counted: map<Id, Event>, e: Event)
    requires Follows(s, counted) && e.id in s.raw && PutRaw(s, e).Ok?
    ensures Follows(PutRaw(s, e).value, if PutRaw(s, e).value == s then counted else counted[e.id := e])
            <==> !IsMisplaced(s, counted, e)
  {
    assert e.id in counted;
    if s.raw[e.id] != e {
      UpdateFollowsIffAligned(s, counted, e);
      assert PutRaw(s, e).value.raw[e.id] == e;
    }
  }

  lemma NewEventFollows(s: State, counted: map<Id, Event>, now: int, e: Event)
    requires Follows(s, counted) && e.id !in s.raw && e.id !in s.compacted && Put(s, now, e).Ok?
    ensures Follows(Put(s, now, e).value, counted[e.id := e]) && Put(s, now, e).value != s
  {
    assert e.id !in Facts(s) && e.id !in counted;
    PutKeepsFacts(s, now, e);
    NewEventIsAdded(s, now, e);
    AddIndexes(s.daily, counted, e.id, e, Daily);
    assert e.id in Facts(Put(s, now, e).value);
  }

  lemma NewEventIsAdded(s: State, now: int, e: Event)
    requires e.id !in s.raw && e.id !in s.compacted && Put(s, now, e).Ok?
    ensures Put(s, now, e).value.daily == Add(s.daily, Daily, e)
  {
  }

  /** An arriving event is followed exactly when it neither returns nor replaces a misplaced one. */
  lemma DeliveryFollowsIff(s: State, counted: map<Id, Event>, now: int, e: Event)
    requires Follows(s, counted) && Put(s, now, e).Ok?
    ensures Follows(Put(s, now, e).value, if Put(s, now, e).value == s then counted else counted[e.id := e])
            <==> !(Returns(s, now, e) || IsMisplaced(s, counted, e))
  {
    if e.id in s.raw {
      RawPutFollowsIff(s, counted, e);
      assert Put(s, now, e) == PutRaw(s, e);
    } else if e.id !in s.compacted {
      NewEventFollows(s, counted, now, e);
    } else if Returns(s, now, e) {
      assert e.id in Put(s, now, e).value.raw && e.id in Put(s, now, e).value.compacted;
    }
  }

  lemma CompactFollows(s: State, counted: map<Id, Event>, chosen: set<Id>)
    requires Follows(s, counted) && chosen <= s.raw.Keys
    ensures Follows(Compact(s, chosen), counted)
  {
    CompactKeepsFacts(s, chosen);
  }

  lemma ChangeFollowsUnlessItSlips(s: State, counted: map<Id, Event>, c: Change)
    requires Follows(s, counted) && !Slips(s, counted, c)
    ensures Follows(Changed(s, c), Recounted(s, c, counted))
  {
    match c
    case Deliver(now, e) =>
      if Put(s, now, e).Ok? {
        DeliveryFollowsIff(s, counted, now, e);
      }
    case Assign(e) =>
      if e.id in s.raw && PutRaw(s, e).Ok? {
        RawPutFollowsIff(s, counted, e);
      }
    case Expire(chosen) =>
      if chosen <= s.raw.Keys {
        CompactFollows(s, counted, chosen);
      }
    case MoveRows(source, to, range) =>
      MoveFollows(s.daily, counted, source, to, range);
  }

  datatype Course = Course(s: State, counted: map<Id, Event>, slipped: bool)

  ghost function Next(l: Course, c: Change): Course {
    Course(Changed(l.s, c), Recounted(l.s, c, l.counted), l.slipped || Slips(l.s, l.counted, c))
  }

  ghost function CourseOf(changes: seq<Change>, k: nat): Course
    requires k <= |changes|
  {
    Iterate(Next, Course(EMPTY, map[], false), changes, k)
  }

  ghost predicate FollowsUnlessSlipped(l: Course) {
    !l.slipped ==> Follows(l.s, l.counted)
  }

  lemma NextFollows(l: Course, c: Change)
    requires FollowsUnlessSlipped(l)
    ensures FollowsUnlessSlipped(Next(l, c))
  {
    if !Next(l, c).slipped {
      ChangeFollowsUnlessItSlips(l.s, l.counted, c);
    }
  }

  /**
   * Deliveries, assignments, compactions and moves in any order: as long as no event returned and no
   * misplaced event changed, the table counts every event of the ledger once, under one account.
   */
  lemma TableFollowsTheFacts(changes: seq<Change>, k: nat)
    requires k <= |changes| && !CourseOf(changes, k).slipped
    ensures Follows(CourseOf(changes, k).s, CourseOf(changes, k).counted)
  {
    forall l: Course, c: Change | FollowsUnlessSlipped(l)
      ensures FollowsUnlessSlipped(Next(l, c))
    {
      NextFollows(l, c);
    }
    EmptyFollows();
    Always(Next, FollowsUnlessSlipped, Course(EMPTY, map[], false), changes, k);
    assert FollowsUnlessSlipped(CourseOf(changes, k));
  }

  lemma EmptyFollows()
    ensures Follows(EMPTY, map[])
  {
  }

  // ----- the days of inferred epochs -----

  ghost function ReattributedAll(counted: map<Id, Event>, transfers: seq<Transfer>, k: nat): map<Id, Event>
    requires k <= |transfers|
  {
    if k == 0 then counted
    else
      Reattributed(ReattributedAll(counted, transfers, k - 1), UNASSIGNED, transfers[k - 1].to, transfers[k - 1].range)
  }

  ghost predicate FollowsMoves(f: (Rollup, Transfer) -> Rollup) {
    forall t: Rollup, x: Transfer, counted: map<Id, Event> :: x.to != UNASSIGNED && Indexes(t, counted, Daily) ==>
      Indexes(f(t, x), Reattributed(counted, UNASSIGNED, x.to, x.range), Daily)
  }

  lemma MoverFollows()
    ensures FollowsMoves(Mover())
  {
    forall t: Rollup, x: Transfer, counted: map<Id, Event> | x.to != UNASSIGNED && Indexes(t, counted, Daily)
      ensures Indexes(Mover()(t, x), Reattributed(counted, UNASSIGNED, x.to, x.range), Daily)
    {
      MoveFollows(t, counted, UNASSIGNED, x.to, x.range);
    }
  }

  lemma {:induction false} TransfersFollow(f: (Rollup, Transfer) -> Rollup, t: Rollup, counted: map<Id, Event>,
      transfers: seq<Transfer>, k: nat)
    requires k <= |transfers| && NamedAccounts(transfers) && FollowsMoves(f) && Indexes(t, counted, Daily)
    ensures Indexes(Iterate(f, t, transfers, k), ReattributedAll(counted, transfers, k), Daily)
  {
    if k > 0 {
      TransfersFollow(f, t, counted, transfers, k - 1);
      OneTransferFollows(f, Iterate(f, t, transfers, k - 1), ReattributedAll(counted, transfers, k - 1),
                         transfers[k - 1]);
    }
  }

  lemma OneTransferFollows(f: (Rollup, Transfer) -> Rollup, t: Rollup, counted: map<Id, Event>, x: Transfer)
    requires FollowsMoves(f) && x.to != UNASSIGNED && Indexes(t, counted, Daily)
    ensures Indexes(f(t, x), Reattributed(counted, UNASSIGNED, x.to, x.range), Daily)
  {
  }

  /** An unassigned event goes to the account of the first transfer that has its day. */
  lemma {:induction false} AccountAfterTransfers(counted: map<Id, Event>, transfers: seq<Transfer>, k: nat, id: Id)
    requires k <= |transfers| && NamedAccounts(transfers) && id in counted
    ensures id in ReattributedAll(counted, transfers, k)
    ensures var taker := TakerOf(transfers, k, counted[id].Key(Daily).bucket);
      ReattributedAll(counted, transfers, k)[id]
      == if counted[id].account == UNASSIGNED && taker.Some? then counted[id].(account := transfers[taker.value].to)
         else counted[id]
  {
    if k > 0 {
      AccountAfterTransfers(counted, transfers, k - 1, id);
    }
  }

  predicate InEpoch(c: Claim, at: int) {
    c.observedFrom <= at && (c.observedTo.Some? ==> at < c.observedTo.value)
  }

  /** The retained events of every epoch have been given its account before rows move. */
  ghost predicate EpochsAreAssigned(raw: map<Id, Event>, claims: seq<Claim>) {
    forall id, i :: id in raw && raw[id].account == UNASSIGNED && 0 <= i < |claims| ==>
      !InEpoch(claims[i], raw[id].EffectiveAt())
  }

  /** Unassigned, and on the day the first epoch begins in. */
  predicate OnFirstDay(e: Event, claims: seq<Claim>) {
    && |claims| > 0 && e.account == UNASSIGNED && LocalDay(e.EffectiveAt()) == LocalDay(claims[0].observedFrom)
    && DaysOf(claims[0], 0).Has(LocalDay(e.EffectiveAt()))
  }

  lemma OnlyTheFirstDayIsTaken(raw: map<Id, Event>, claims: seq<Claim>, id: Id)
    requires EpochsAreAssigned(raw, claims) && id in raw && raw[id].account == UNASSIGNED
    ensures TakerOf(DayTransfers(claims), |claims|, LocalDay(raw[id].EffectiveAt())).Some?
            <==> OnFirstDay(raw[id], claims)
  {
    var at := raw[id].EffectiveAt();
    FromFullDay(at, LocalDay(at));
    forall i | 0 <= i < |claims|
      ensures DayTransfers(claims)[i].range.Has(LocalDay(at)) <==> i == 0 && OnFirstDay(raw[id], claims)
    {
      DaysAreCompleteExceptTheFirst(claims[i], i, LocalDay(at));
      assert !InEpoch(claims[i], at);
    }
  }

  ghost predicate NamedClaims(claims: seq<Claim>) {
    forall i :: 0 <= i < |claims| ==> claims[i].account != UNASSIGNED
  }

  /**
   * Moving the days of inferred epochs leaves every retained event where it is counted exactly when no
   * unassigned one lies on the day the first epoch begins in.
   */
  lemma DaysKeepAlignedIffFirstDayIsClear(raw: map<Id, Event>, counted: map<Id, Event>, claims: seq<Claim>)
    requires Aligned(raw, counted) && NamedClaims(claims) && EpochsAreAssigned(raw, claims)
    ensures Aligned(raw, ReattributedAll(counted, DayTransfers(claims), |claims|))
            <==> forall id :: id in raw ==> !OnFirstDay(raw[id], claims)
  {
    var after := ReattributedAll(counted, DayTransfers(claims), |claims|);
    forall id | id in raw
      ensures id in after && (after[id] == raw[id] <==> !OnFirstDay(raw[id], claims))
    {
      AccountAfterTransfers(counted, DayTransfers(claims), |claims|, id);
      if raw[id].account == UNASSIGNED {
        OnlyTheFirstDayIsTaken(raw, claims, id);
      }
    }
  }

  /** And such an event is counted twice when a later pass gives it an account. */
  lemma FirstDayEventIsCountedTwice(daily: Rollup, counted: map<Id, Event>, claims: seq<Claim>, raw: Event, e: Event,
      key: RowKey, m: Measure)
    requires Indexes(daily, counted, Daily) && NamedClaims(claims) && OnFirstDay(raw, claims)
    ensures var moved := Iterate(Mover(), daily, DayTransfers(claims), |claims|);
      At(Update(moved, Daily, raw, e), key).Get(m)
      == At(moved, key).Get(m) + if e.Key(Daily) == key then e.Weight(m) else 0
  {
    var transfers := DayTransfers(claims);
    var moved := Iterate(Mover(), daily, transfers, |claims|);
    MoverFollows();
    TransfersFollow(Mover(), daily, counted, transfers, |claims|);
    MoverIsExact();
    RowsMoveOnce(Mover(), daily, transfers, |claims|, raw.Key(Daily), Events);
    assert transfers[0].range.Has(raw.Key(Daily).bucket);
    EmptyRowCountsTwice(moved, ReattributedAll(counted, transfers, |claims|), raw, e, key, m);
  }
}
