/**
 * Account days put together from official and local usage, and the total shown for the
 * same window (src/api/reconciliation.rs). Days are numbered; both sources count them in
 * the rollup's time zone.
 */
module ReconciledDays {
  import opened Prelude
  import opened Sums

  type Day = int

  /** Tokens by account and day: what the service reported, and what was recorded locally. */
  datatype Evidence = Evidence(
    official: map<string, map<Day, u64>>,
    local: map<string, map<Day, u64>>,
    coverageStart: map<string, Day>,
    coverageThrough: map<string, Day>)
  {
    function Official(account: string, day: Day): u64 {
      if account in official && day in official[account] then official[account][day] else 0
    }

    function Local(account: string, day: Day): u64 {
      if account in local && day in local[account] then local[account][day] else 0
    }

    predicate HasReports(account: string) {
      account in official && official[account] != map[]
    }

    /** Coverage is the span of an account's reported days. */
    ghost predicate CoverageIsRight() {
      && (forall a :: HasReports(a) <==> a in coverageStart)
      && (forall a :: a in coverageStart <==> a in coverageThrough)
      && (forall a, d :: a in official && d in official[a] ==>
            && a in coverageStart && a in coverageThrough && coverageStart[a] <= d <= coverageThrough[a])
      && (forall a :: a in coverageStart && a in coverageThrough ==> coverageStart[a] <= coverageThrough[a])
    }
  }

  datatype Kind = Covered | Tail | OnlyLocal | Gap

  function KindOf(e: Evidence, account: string, day: Day): Kind {
    if account in e.coverageStart && account in e.coverageThrough
       && e.coverageStart[account] <= day <= e.coverageThrough[account] then Covered
    else if account !in e.coverageStart && account !in e.coverageThrough then OnlyLocal
    else if account in e.coverageThrough && day > e.coverageThrough[account] then Tail
    else Gap
  }

  datatype Status = ExactOfficial | LocalTail | LocalOnlyAccount | UnknownDay

  datatype ReconciledDay = ReconciledDay(
    date: Day,
    value: u64,
    officialTokens: u64,
    localTailTokens: u64,
    localOnlyTokens: u64,
    status: Status,
    coveredAccounts: u64,
    knownAccounts: u64)

  // ----- sums over days and accounts -----

  ghost function SumDays(f: Day -> nat, low: Day, high: Day): nat
    decreases high - low
  {
    if high <= low then 0 else SumDays(f, low, high - 1) + f(high - 1)
  }

  ghost function OnDay(f: (string, Day) -> nat, day: Day): string -> nat {
    (a: string) => f(a, day)
  }

  ghost function OfAccount(f: (string, Day) -> nat, account: string): Day -> nat {
    (d: Day) => f(account, d)
  }

  ghost function AllAccounts(f: (string, Day) -> nat, accounts: seq<string>, k: nat): Day -> nat
    requires k <= |accounts|
  {
    (d: Day) => SumSeq(accounts, k, OnDay(f, d))
  }

  ghost function Window(f: (string, Day) -> nat, low: Day, high: Day): string -> nat {
    (a: string) => SumDays(OfAccount(f, a), low, high)
  }

  lemma {:induction false} SumDaysAdds(f: Day -> nat, g: Day -> nat, h: Day -> nat, low: Day, high: Day)
    requires forall d :: low <= d < high ==> h(d) == f(d) + g(d)
    ensures SumDays(h, low, high) == SumDays(f, low, high) + SumDays(g, low, high)
    decreases high - low
  {
    if low < high {
      SumDaysAdds(f, g, h, low, high - 1);
    }
  }

  lemma {:induction false} SumDaysZero(f: Day -> nat, low: Day, high: Day)
    requires forall d :: low <= d < high ==> f(d) == 0
    ensures SumDays(f, low, high) == 0
    decreases high - low
  {
    if low < high {
      SumDaysZero(f, low, high - 1);
    }
  }

  /** Summing days account by account, or accounts day by day, is the same. */
  lemma {:induction false} SumsSwap(f: (string, Day) -> nat, accounts: seq<string>, k: nat, low: Day, high: Day)
    requires k <= |accounts|
    ensures SumDays(AllAccounts(f, accounts, k), low, high) == SumSeq(accounts, k, Window(f, low, high))
  {
    if k == 0 {
      SumDaysZero(AllAccounts(f, accounts, 0), low, high);
    } else {
      SumsSwap(f, accounts, k - 1, low, high);
      SumDaysAdds(AllAccounts(f, accounts, k - 1), OfAccount(f, accounts[k - 1]), AllAccounts(f, accounts, k),
                  low, high);
    }
  }

  // ----- what a day adds up -----

  /** What the first `k` accounts reported for a day that their reports cover. */
  ghost function CoveredSum(e: Evidence, accounts: seq<string>, k: nat, day: Day): nat
    requires k <= |accounts|
  {
    if k == 0 then 0 else
      CoveredSum(e, accounts, k - 1, day)
      + if KindOf(e, accounts[k - 1], day) == Covered then e.Official(accounts[k - 1], day) else 0
  }

  /** What was recorded locally after their reports end. */
  ghost function TailSum(e: Evidence, accounts: seq<string>, k: nat, day: Day): nat
    requires k <= |accounts|
  {
    if k == 0 then 0 else
      TailSum(e, accounts, k - 1, day)
      + if KindOf(e, accounts[k - 1], day) == Tail then e.Local(accounts[k - 1], day) else 0
  }

  /** What was recorded locally without reports, or before they start. */
  ghost function LocalOnlySum(e: Evidence, accounts: seq<string>, k: nat, day: Day): nat
    requires k <= |accounts|
  {
    if k == 0 then 0 else
      LocalOnlySum(e, accounts, k - 1, day)
      + if KindOf(e, accounts[k - 1], day) == OnlyLocal || KindOf(e, accounts[k - 1], day) == Gap
        then e.Local(accounts[k - 1], day) else 0
  }

  /** What a day shows of an account: its report, or what was recorded locally. */
  ghost function ShownPart(e: Evidence): (string, Day) -> nat {
    (a: string, d: Day) => if KindOf(e, a, d) == Covered then e.Official(a, d) else e.Local(a, d)
  }

  ghost function CoveredCount(e: Evidence, accounts: seq<string>, k: nat, day: Day): nat
    requires k <= |accounts|
  {
    if k == 0 then 0 else
      CoveredCount(e, accounts, k - 1, day) + if KindOf(e, accounts[k - 1], day) == Covered then 1 else 0
  }

  ghost predicate SomeKind(e: Evidence, accounts: seq<string>, k: nat, day: Day, kind: Kind)
    requires k <= |accounts|
  {
    k > 0 && (SomeKind(e, accounts, k - 1, day, kind) || KindOf(e, accounts[k - 1], day) == kind)
  }

  lemma {:induction false} SomeKindMeansSome(e: Evidence, accounts: seq<string>, k: nat, day: Day, kind: Kind)
    requires k <= |accounts|
    ensures SomeKind(e, accounts, k, day, kind) <==> exists i :: 0 <= i < k && KindOf(e, accounts[i], day) == kind
  {
    if k > 0 {
      SomeKindMeansSome(e, accounts, k - 1, day, kind);
    }
  }

  ghost predicate TokensAdded(e: Evidence, accounts: seq<string>, k: nat, day: Day, official: u64, tail: u64,
      localOnly: u64)
    requires k <= |accounts|
  {
    && official == Sat(CoveredSum(e, accounts, k, day))
    && tail == Sat(TailSum(e, accounts, k, day))
    && localOnly == Sat(LocalOnlySum(e, accounts, k, day))
  }

  /** A day is exact exactly if every known account reported it; otherwise the worst gap names it. */
  ghost function StatusOf(e: Evidence, accounts: seq<string>, known: u64, day: Day): Status {
    if Sat(CoveredCount(e, accounts, |accounts|, day)) == known then ExactOfficial
    else if SomeKind(e, accounts, |accounts|, day, OnlyLocal) then LocalOnlyAccount
    else if SomeKind(e, accounts, |accounts|, day, Gap) || known > |accounts| then UnknownDay
    else if SomeKind(e, accounts, |accounts|, day, Tail) then LocalTail
    else UnknownDay
  }

  ghost predicate ShowsTokens(e: Evidence, accounts: seq<string>, p: ReconciledDay) {
    && TokensAdded(e, accounts, |accounts|, p.date, p.officialTokens, p.localTailTokens, p.localOnlyTokens)
    && p.value == SatAdd(SatAdd(p.officialTokens, p.localTailTokens), p.localOnlyTokens)
  }

  ghost predicate IsDay(e: Evidence, accounts: seq<string>, known: u64, p: ReconciledDay) {
    && ShowsTokens(e, accounts, p)
    && p.coveredAccounts == Sat(CoveredCount(e, accounts, |accounts|, p.date))
    && p.knownAccounts == known
    && p.status == StatusOf(e, accounts, known, p.date)
  }

  method ReconcileDay(e: Evidence, accounts: seq<string>, known: u64, day: Day) returns (p: ReconciledDay)
    ensures p.date == day && IsDay(e, accounts, known, p)
  {
    var official, tail, localOnly, covered := 0, 0, 0, 0;
    var hasTail, hasLocalOnly, hasGap := false, false, false;
    for i := 0 to |accounts|
      invariant TokensAdded(e, accounts, i, day, official, tail, localOnly)
      invariant covered == Sat(CoveredCount(e, accounts, i, day))
      invariant hasTail == SomeKind(e, accounts, i, day, Tail)
      invariant hasLocalOnly == SomeKind(e, accounts, i, day, OnlyLocal)
      invariant hasGap == SomeKind(e, accounts, i, day, Gap)
    {
      var account := accounts[i];
      match KindOf(e, account, day) {
        case Covered =>
          covered := SatInc(covered);
          official := SatAdd(official, e.Official(account, day));
        case OnlyLocal =>
          hasLocalOnly := true;
          localOnly := SatAdd(localOnly, e.Local(account, day));
        case Tail =>
          hasTail := true;
          tail := SatAdd(tail, e.Local(account, day));
        case Gap =>
          hasGap := true;
          localOnly := SatAdd(localOnly, e.Local(account, day));
      }
    }
    hasGap := hasGap || known > |accounts|;
    var status :=
      if covered == known then ExactOfficial
      else if hasLocalOnly then LocalOnlyAccount
      else if hasGap then UnknownDay
      else if hasTail then LocalTail
      else UnknownDay;
    p := ReconciledDay(day, SatAdd(SatAdd(official, tail), localOnly), official, tail, localOnly, status, covered,
                       known);
  }

  ghost predicate Consecutive(good: ReconciledDay -> bool, start: Day, days: seq<ReconciledDay>) {
    forall i :: 0 <= i < |days| ==> days[i].date == start + i && good(days[i])
  }

  lemma OneMoreDay(good: ReconciledDay -> bool, start: Day, days: seq<ReconciledDay>, p: ReconciledDay)
    requires Consecutive(good, start, days) && p.date == start + |days| && good(p)
    ensures Consecutive(good, start, days + [p])
  {
  }

  ghost function DayOf(e: Evidence, accounts: seq<string>, known: u64): ReconciledDay -> bool {
    (p: ReconciledDay) => IsDay(e, accounts, known, p)
  }

  /** Consecutive days from `start` on, each as its evidence makes it. */
  ghost predicate AreDays(e: Evidence, accounts: seq<string>, known: u64, start: Day, days: seq<ReconciledDay>) {
    Consecutive(DayOf(e, accounts, known), start, days)
  }

  method ReconcileAccountDays(e: Evidence, accounts: seq<string>, known: u64, start: Day, end: Day)
    returns (days: seq<ReconciledDay>)
    ensures |days| == if end <= start || accounts == [] then 0 else end - start
    ensures AreDays(e, accounts, known, start, days)
  {
    days := [];
    if end <= start || accounts == [] {
      return;
    }
    var day := start;
    while day < end
      invariant start <= day <= end && |days| == day - start
      invariant AreDays(e, accounts, known, start, days)
    {
      var p := ReconcileDay(e, accounts, known, day);
      OneMoreDay(DayOf(e, accounts, known), start, days, p);
      days := days + [p];
      day := day + 1;
    }
  }

  ghost function ValueOf(): ReconciledDay -> nat {
    (p: ReconciledDay) => p.value
  }

  lemma {:induction false} PartsAddUp(e: Evidence, accounts: seq<string>, k: nat, day: Day)
    requires k <= |accounts|
    ensures SumSeq(accounts, k, OnDay(ShownPart(e), day))
            == CoveredSum(e, accounts, k, day) + TailSum(e, accounts, k, day)
               + LocalOnlySum(e, accounts, k, day)
  {
    if k > 0 {
      PartsAddUp(e, accounts, k - 1, day);
    }
  }

  lemma SatOfThree(a: nat, b: nat, c: nat, x: u64, y: u64, z: u64)
    requires x == Sat(a) && y == Sat(b) && z == Sat(c)
    ensures SatAdd(SatAdd(x, y), z) == Sat(a + b + c)
  {
  }

  lemma DayValueIsSaturated(e: Evidence, accounts: seq<string>, p: ReconciledDay, covered: nat, tail: nat,
      localOnly: nat)
    requires ShowsTokens(e, accounts, p)
    requires covered == CoveredSum(e, accounts, |accounts|, p.date) && tail == TailSum(e, accounts, |accounts|, p.date)
    requires localOnly == LocalOnlySum(e, accounts, |accounts|, p.date)
    ensures p.value == Sat(covered + tail + localOnly)
  {
    SatOfThree(covered, tail, localOnly, p.officialTokens, p.localTailTokens, p.localOnlyTokens);
  }

  lemma DayValueIsSum(e: Evidence, accounts: seq<string>, p: ReconciledDay, shown: nat)
    requires ShowsTokens(e, accounts, p) && shown == SumSeq(accounts, |accounts|, OnDay(ShownPart(e), p.date))
    ensures p.value == Sat(shown)
  {
    PartsAddUp(e, accounts, |accounts|, p.date);
    DayValueIsSaturated(e, accounts, p, CoveredSum(e, accounts, |accounts|, p.date),
                        TailSum(e, accounts, |accounts|, p.date), LocalOnlySum(e, accounts, |accounts|, p.date));
  }

  /** Days whose values are those of `f` add up to its sum. */
  lemma {:induction false} ValuesAddUp(f: Day -> nat, start: Day, days: seq<ReconciledDay>, k: nat)
    requires k <= |days|
    requires forall i :: 0 <= i < |days| ==> days[i].value == Sat(f(start + i))
    ensures Sat(SumSeq(days, k, ValueOf())) == Sat(SumDays(f, start, start + k))
  {
    if k > 0 {
      ValuesAddUp(f, start, days, k - 1);
      SatOfLast(SumSeq(days, k - 1, ValueOf()), SumDays(f, start, start + k - 1), f(start + k - 1));
    }
  }

  lemma SatOfLast(a: nat, b: nat, c: nat)
    requires Sat(a) == Sat(b)
    ensures Sat(a + Sat(c)) == Sat(b + c)
  {
  }

  lemma DaysAddUp(e: Evidence, accounts: seq<string>, known: u64, start: Day, days: seq<ReconciledDay>)
    requires AreDays(e, accounts, known, start, days)
    ensures Sat(SumSeq(days, |days|, ValueOf()))
            == Sat(SumDays(AllAccounts(ShownPart(e), accounts, |accounts|), start, start + |days|))
  {
    var f := AllAccounts(ShownPart(e), accounts, |accounts|);
    forall i | 0 <= i < |days|
      ensures days[i].value == Sat(f(start + i))
    {
      assert DayOf(e, accounts, known)(days[i]);
      DayValueIsSum(e, accounts, days[i], f(start + i));
    }
    ValuesAddUp(f, start, days, |days|);
  }

  // ----- what the columns and the status of a day mean -----

  /** The day lies within the reports of the account, after them or before them. */
  ghost predicate ReportsOn(e: Evidence, account: string, day: Day) {
    account in e.coverageStart && account in e.coverageThrough
    && e.coverageStart[account] <= day <= e.coverageThrough[account]
  }

  ghost predicate ReportsEnded(e: Evidence, account: string, day: Day) {
    account in e.coverageThrough && e.coverageThrough[account] < day
  }

  ghost predicate ReportsLater(e: Evidence, account: string, day: Day) {
    account in e.coverageStart && day < e.coverageStart[account]
  }

  lemma KindIs(e: Evidence, account: string, day: Day)
    requires e.CoverageIsRight()
    ensures KindOf(e, account, day) == Covered <==> ReportsOn(e, account, day)
    ensures KindOf(e, account, day) == Tail <==> ReportsEnded(e, account, day)
    ensures KindOf(e, account, day) == OnlyLocal <==> !e.HasReports(account)
    ensures KindOf(e, account, day) == Gap <==> ReportsLater(e, account, day)
  {
  }

  ghost function ReportPart(e: Evidence): (string, Day) -> nat {
    (a: string, d: Day) => if ReportsOn(e, a, d) then e.Official(a, d) else 0
  }

  ghost function EndedPart(e: Evidence): (string, Day) -> nat {
    (a: string, d: Day) => if ReportsEnded(e, a, d) then e.Local(a, d) else 0
  }

  ghost function UnreportedPart(e: Evidence): (string, Day) -> nat {
    (a: string, d: Day) => if !e.HasReports(a) || ReportsLater(e, a, d) then e.Local(a, d) else 0
  }

  ghost function ReportedOnce(e: Evidence): (string, Day) -> nat {
    (a: string, d: Day) => if ReportsOn(e, a, d) then 1 else 0
  }

  lemma {:induction false} PartsAre(e: Evidence, accounts: seq<string>, k: nat, day: Day)
    requires e.CoverageIsRight() && k <= |accounts|
    ensures CoveredSum(e, accounts, k, day) == SumSeq(accounts, k, OnDay(ReportPart(e), day))
    ensures TailSum(e, accounts, k, day) == SumSeq(accounts, k, OnDay(EndedPart(e), day))
    ensures LocalOnlySum(e, accounts, k, day) == SumSeq(accounts, k, OnDay(UnreportedPart(e), day))
    ensures CoveredCount(e, accounts, k, day) == SumSeq(accounts, k, OnDay(ReportedOnce(e), day))
  {
    if k > 0 {
      PartsAre(e, accounts, k - 1, day);
      KindIs(e, accounts[k - 1], day);
    }
  }

  /**
   * The columns of a day: reports where an account's reports cover it, local usage after they end, and
   * local usage of accounts that never reported or that start to report later.
   */
  lemma DayTellsItsParts(e: Evidence, accounts: seq<string>, known: u64, p: ReconciledDay)
    requires e.CoverageIsRight() && IsDay(e, accounts, known, p)
    ensures p.officialTokens == Sat(SumSeq(accounts, |accounts|, OnDay(ReportPart(e), p.date)))
    ensures p.localTailTokens == Sat(SumSeq(accounts, |accounts|, OnDay(EndedPart(e), p.date)))
    ensures p.localOnlyTokens == Sat(SumSeq(accounts, |accounts|, OnDay(UnreportedPart(e), p.date)))
    ensures p.coveredAccounts == Sat(SumSeq(accounts, |accounts|, OnDay(ReportedOnce(e), p.date)))
    ensures p.knownAccounts == known
  {
    PartsAre(e, accounts, |accounts|, p.date);
  }

  lemma {:induction false} CoversAllIff(e: Evidence, accounts: seq<string>, k: nat, day: Day)
    requires k <= |accounts|
    ensures SumSeq(accounts, k, OnDay(ReportedOnce(e), day)) <= k
    ensures SumSeq(accounts, k, OnDay(ReportedOnce(e), day)) == k <==>
              forall i :: 0 <= i < k ==> ReportsOn(e, accounts[i], day)
  {
    if k > 0 {
      CoversAllIff(e, accounts, k - 1, day);
    }
  }

  /** Where all known accounts are listed, a day is exact exactly if each reported it; else the worst case names it. */
  lemma DayTellsItsStatus(e: Evidence, accounts: seq<string>, known: u64, p: ReconciledDay)
    requires e.CoverageIsRight() && IsDay(e, accounts, known, p) && known == |accounts|
    ensures p.status == ExactOfficial <==> forall i :: 0 <= i < |accounts| ==> ReportsOn(e, accounts[i], p.date)
    ensures p.status == LocalOnlyAccount <==> exists i :: 0 <= i < |accounts| && !e.HasReports(accounts[i])
    ensures p.status == UnknownDay <==>
              && (forall i :: 0 <= i < |accounts| ==> e.HasReports(accounts[i]))
              && exists i :: 0 <= i < |accounts| && ReportsLater(e, accounts[i], p.date)
    ensures p.status == LocalTail <==>
              && (forall i :: 0 <= i < |accounts| ==>
                    e.HasReports(accounts[i]) && !ReportsLater(e, accounts[i], p.date))
              && exists i :: 0 <= i < |accounts| && ReportsEnded(e, accounts[i], p.date)
  {
    forall i | 0 <= i < |accounts|
      ensures KindOf(e, accounts[i], p.date) == Covered <==> ReportsOn(e, accounts[i], p.date)
      ensures KindOf(e, accounts[i], p.date) == Tail <==> ReportsEnded(e, accounts[i], p.date)
      ensures KindOf(e, accounts[i], p.date) == OnlyLocal <==> !e.HasReports(accounts[i])
      ensures KindOf(e, accounts[i], p.date) == Gap <==> ReportsLater(e, accounts[i], p.date)
    {
      KindIs(e, accounts[i], p.date);
    }
    PartsAre(e, accounts, |accounts|, p.date);
    CoversAllIff(e, accounts, |accounts|, p.date);
    SomeKindMeansSome(e, accounts, |accounts|, p.date, OnlyLocal);
    SomeKindMeansSome(e, accounts, |accounts|, p.date, Gap);
    SomeKindMeansSome(e, accounts, |accounts|, p.date, Tail);
  }

  /** With known accounts that are not listed a day is never exact. */
  lemma UnlistedAccountsAreUnknown(e: Evidence, accounts: seq<string>, known: u64, p: ReconciledDay)
    requires e.CoverageIsRight() && IsDay(e, accounts, known, p) && known > |accounts|
    ensures p.status == if exists i :: 0 <= i < |accounts| && !e.HasReports(accounts[i]) then LocalOnlyAccount
                        else UnknownDay
  {
    forall i | 0 <= i < |accounts|
      ensures KindOf(e, accounts[i], p.date) == OnlyLocal <==> !e.HasReports(accounts[i])
    {
      KindIs(e, accounts[i], p.date);
    }
    PartsAre(e, accounts, |accounts|, p.date);
    CoversAllIff(e, accounts, |accounts|, p.date);
    SomeKindMeansSome(e, accounts, |accounts|, p.date, OnlyLocal);
  }

  // ----- the total shown -----

  ghost function OfficialPart(e: Evidence): (string, Day) -> nat {
    (a: string, d: Day) => e.Official(a, d)
  }

  ghost function LocalPart(e: Evidence): (string, Day) -> nat {
    (a: string, d: Day) => e.Local(a, d)
  }

  function ComplementStart(e: Evidence, account: string, start: Day): Day {
    if account in e.coverageThrough then Max(start, e.coverageThrough[account] + 1) else start
  }

  /** Local usage of an account after its reports end, or all of it if there are none. */
  ghost function Complement(e: Evidence, start: Day, end: Day): string -> nat {
    (a: string) => ComplementIn(e, a, start, end)
  }

  ghost function ComplementIn(e: Evidence, account: string, start: Day, end: Day): nat {
    SumDays(OfAccount(LocalPart(e), account), ComplementStart(e, account, start), end)
  }

  /** The same for the accounts that report, or for those that do not. */
  ghost function ComplementOf(e: Evidence, start: Day, end: Day, reporting: bool): string -> nat {
    (a: string) => if (a in e.coverageThrough) == reporting then ComplementIn(e, a, start, end) else 0
  }

  /** Local usage of an account dated before its reports start. */
  ghost function BeforeCoverage(e: Evidence): (string, Day) -> nat {
    (a: string, d: Day) => if a in e.coverageStart && d < e.coverageStart[a] then e.Local(a, d) else 0
  }

  ghost function ReportedTotal(e: Evidence, accounts: seq<string>, start: Day, end: Day): nat {
    SumSeq(accounts, |accounts|, Window(OfficialPart(e), start, end))
  }

  ghost function ComplementTotal(e: Evidence, accounts: seq<string>, start: Day, end: Day): nat {
    SumSeq(accounts, |accounts|, Complement(e, start, end))
  }

  ghost function TotalBeforeCoverage(e: Evidence, accounts: seq<string>, start: Day, end: Day): nat {
    SumSeq(accounts, |accounts|, Window(BeforeCoverage(e), start, end))
  }

  /** The sum of `f` over [start, end), as SQL and the folds add it up. */
  method SumWindow(rows: map<Day, u64>, start: Day, end: Day, ghost f: Day -> nat) returns (sum: u64)
    requires forall d :: f(d) == if d in rows then rows[d] else 0
    ensures sum == Sat(SumDays(f, start, end))
  {
    sum := 0;
    var day := start;
    while day < end
      invariant start <= end ==> start <= day <= end
      invariant end < start ==> day == start
      invariant sum == Sat(SumDays(f, start, day))
    {
      sum := SatAdd(sum, if day in rows then rows[day] else 0);
      day := day + 1;
    }
    if end < start {
      assert SumDays(f, start, end) == 0;
    }
  }

  lemma NextPart(accounts: seq<string>, i: nat, g: string -> nat, total: u64, part: u64)
    requires i < |accounts| && total == Sat(SumSeq(accounts, i, g)) && part == Sat(g(accounts[i]))
    ensures SatAdd(total, part) == Sat(SumSeq(accounts, i + 1, g))
  {
  }

  /** Reported usage of the window, account by account. */
  method BucketTotal(e: Evidence, officialAccounts: seq<string>, start: Day, end: Day) returns (total: u64)
    ensures total == Sat(ReportedTotal(e, officialAccounts, start, end))
  {
    total := 0;
    for i := 0 to |officialAccounts|
      invariant total == Sat(SumSeq(officialAccounts, i, Window(OfficialPart(e), start, end)))
    {
      var sum := ReportedIn(e, officialAccounts[i], start, end);
      NextPart(officialAccounts, i, Window(OfficialPart(e), start, end), total, sum);
      total := SatAdd(total, sum);
    }
  }

  method ReportedIn(e: Evidence, account: string, start: Day, end: Day) returns (sum: u64)
    ensures sum == Sat(Window(OfficialPart(e), start, end)(account))
  {
    var rows := if account in e.official then e.official[account] else map[];
    sum := SumWindow(rows, start, end, OfAccount(OfficialPart(e), account));
  }

  /** Local usage to add, split into tails of covered accounts and accounts without reports. */
  method LocalComplement(e: Evidence, accounts: seq<string>, start: Day, end: Day) returns (tail: u64, missing: u64)
    ensures tail == Sat(SumSeq(accounts, |accounts|, ComplementOf(e, start, end, true)))
    ensures missing == Sat(SumSeq(accounts, |accounts|, ComplementOf(e, start, end, false)))
    ensures SatAdd(tail, missing) == Sat(ComplementTotal(e, accounts, start, end))
  {
    tail, missing := 0, 0;
    for i := 0 to |accounts|
      invariant tail == Sat(SumSeq(accounts, i, ComplementOf(e, start, end, true)))
      invariant missing == Sat(SumSeq(accounts, i, ComplementOf(e, start, end, false)))
      invariant SatAdd(tail, missing) == Sat(SumSeq(accounts, i, Complement(e, start, end)))
    {
      var account := accounts[i];
      var rows := if account in e.local then e.local[account] else map[];
      var usage := SumWindow(rows, ComplementStart(e, account, start), end, OfAccount(LocalPart(e), account));
      if account in e.coverageThrough {
        tail := SatAdd(tail, usage);
      } else {
        missing := SatAdd(missing, usage);
      }
    }
  }

  /** The last reported day of any official account. */
  ghost predicate IsCoverageThrough(e: Evidence, officialAccounts: seq<string>, through: Option<Day>) {
    forall i :: 0 <= i < |officialAccounts| && officialAccounts[i] in e.coverageThrough ==>
      through.Some? && e.coverageThrough[officialAccounts[i]] <= through.value
  }

  /**
   * The official part of a window that is not the lifetime. `reporting` are the official
   * accounts that were ever captured; without them, or from the end of all reports on, it is
   * taken as nothing.
   */
  method SelectedTotal(e: Evidence, officialAccounts: seq<string>, reporting: nat, through: Option<Day>, start: Day,
      end: Day)
    returns (selected: u64)
    requires e.CoverageIsRight() && IsCoverageThrough(e, officialAccounts, through)
    requires reporting == 0 ==> forall i :: 0 <= i < |officialAccounts| ==> !e.HasReports(officialAccounts[i])
    ensures selected == Sat(ReportedTotal(e, officialAccounts, start, end))
  {
    if reporting == 0 || through.None? || start >= through.value + 1 {
      NothingBeforeReports(e, officialAccounts, reporting, through, start, end);
      return 0;
    }
    selected := BucketTotal(e, officialAccounts, start, end);
  }

  /** The total shown in the primary scope. */
  method DisplayTotal(e: Evidence, officialAccounts: seq<string>, accounts: seq<string>, reporting: nat,
                      through: Option<Day>, start: Day, end: Day) returns (total: u64)
    requires e.CoverageIsRight() && IsCoverageThrough(e, officialAccounts, through)
    requires reporting == 0 ==> forall i :: 0 <= i < |officialAccounts| ==> !e.HasReports(officialAccounts[i])
    ensures total == Sat(ReportedTotal(e, officialAccounts, start, end) + ComplementTotal(e, accounts, start, end))
  {
    var selected := SelectedTotal(e, officialAccounts, reporting, through, start, end);
    var tail, missing := LocalComplement(e, accounts, start, end);
    total := SatAdd(selected, SatAdd(tail, missing));
    SatOfSats(ReportedTotal(e, officialAccounts, start, end), ComplementTotal(e, accounts, start, end));
  }

  lemma NothingBeforeReports(e: Evidence, officialAccounts: seq<string>, reporting: nat, through: Option<Day>,
      start: Day, end: Day)
    requires e.CoverageIsRight() && IsCoverageThrough(e, officialAccounts, through)
    requires reporting == 0 ==> forall i :: 0 <= i < |officialAccounts| ==> !e.HasReports(officialAccounts[i])
    ensures reporting == 0 || through.None? || start >= through.value + 1 ==>
              SumSeq(officialAccounts, |officialAccounts|, Window(OfficialPart(e), start, end)) == 0
  {
    if reporting == 0 || through.None? || start >= through.value + 1 {
      NoReportsInWindow(e, officialAccounts, |officialAccounts|, reporting, through, start, end);
    }
  }

  lemma {:induction false} NoReportsInWindow(e: Evidence, officialAccounts: seq<string>, k: nat, reporting: nat,
                                             through: Option<Day>, start: Day, end: Day)
    requires k <= |officialAccounts| && e.CoverageIsRight() && IsCoverageThrough(e, officialAccounts, through)
    requires reporting == 0 || through.None? || start >= through.value + 1
    requires reporting == 0 ==> forall i :: 0 <= i < |officialAccounts| ==> !e.HasReports(officialAccounts[i])
    ensures SumSeq(officialAccounts, k, Window(OfficialPart(e), start, end)) == 0
  {
    if k > 0 {
      NoReportsInWindow(e, officialAccounts, k - 1, reporting, through, start, end);
      SumDaysZero(OfAccount(OfficialPart(e), officialAccounts[k - 1]), start, end);
    }
  }

  // ----- both paths agree -----

  /** Whatever a day shows of an account is a report, the complement, or dated before the reports. */
  lemma DayAgrees(e: Evidence, account: string, start: Day, day: Day)
    requires e.CoverageIsRight() && start <= day
    ensures ShownPart(e)(account, day)
            == e.Official(account, day)
               + (if ComplementStart(e, account, start) <= day then e.Local(account, day) else 0)
               + BeforeCoverage(e)(account, day)
  {
  }

  lemma ComplementGrows(e: Evidence, account: string, start: Day, end: Day)
    requires start < end
    ensures Complement(e, start, end)(account) == Complement(e, start, end - 1)(account)
              + if ComplementStart(e, account, start) <= end - 1 then e.Local(account, end - 1) else 0
  {
  }

  lemma {:induction false} AccountAgrees(e: Evidence, account: string, start: Day, end: Day)
    requires e.CoverageIsRight() && start <= end
    ensures Window(ShownPart(e), start, end)(account)
            == Window(OfficialPart(e), start, end)(account) + Complement(e, start, end)(account)
               + Window(BeforeCoverage(e), start, end)(account)
    decreases end - start
  {
    if start < end {
      AccountAgrees(e, account, start, end - 1);
      DayAgrees(e, account, start, end - 1);
      ComplementGrows(e, account, start, end);
    }
  }

  lemma {:induction false} AccountsAgree(e: Evidence, accounts: seq<string>, k: nat, start: Day, end: Day)
    requires k <= |accounts| && e.CoverageIsRight() && start <= end
    ensures SumSeq(accounts, k, Window(ShownPart(e), start, end))
            == SumSeq(accounts, k, Window(OfficialPart(e), start, end))
               + SumSeq(accounts, k, Complement(e, start, end))
               + SumSeq(accounts, k, Window(BeforeCoverage(e), start, end))
  {
    if k > 0 {
      AccountsAgree(e, accounts, k - 1, start, end);
      AccountAgrees(e, accounts[k - 1], start, end);
    }
  }

  lemma ShownIsEverything(e: Evidence, accounts: seq<string>, start: Day, end: Day)
    requires e.CoverageIsRight() && start <= end
    ensures SumDays(AllAccounts(ShownPart(e), accounts, |accounts|), start, end)
            == ReportedTotal(e, accounts, start, end) + ComplementTotal(e, accounts, start, end)
               + TotalBeforeCoverage(e, accounts, start, end)
  {
    SumsSwap(ShownPart(e), accounts, |accounts|, start, end);
    AccountsAgree(e, accounts, |accounts|, start, end);
  }

  lemma DaysOfWindow(e: Evidence, accounts: seq<string>, known: u64, start: Day, end: Day, days: seq<ReconciledDay>)
    requires |days| == end - start && AreDays(e, accounts, known, start, days)
    ensures Sat(SumSeq(days, |days|, ValueOf()))
            == Sat(SumDays(AllAccounts(ShownPart(e), accounts, |accounts|), start, end))
  {
    DaysAddUp(e, accounts, known, start, days);
  }

  lemma DaysShowEverything(e: Evidence, accounts: seq<string>, known: u64, start: Day, end: Day,
      days: seq<ReconciledDay>,
                           reported: nat, complement: nat, gap: nat)
    requires e.CoverageIsRight() && |days| == end - start && AreDays(e, accounts, known, start, days)
    requires reported == ReportedTotal(e, accounts, start, end)
    requires complement == ComplementTotal(e, accounts, start, end)
    requires gap == TotalBeforeCoverage(e, accounts, start, end)
    ensures Sat(SumSeq(days, |days|, ValueOf())) == Sat(reported + complement + gap)
  {
    DaysOfWindow(e, accounts, known, start, end, days);
    ShownIsEverything(e, accounts, start, end);
  }

  /**
   * The days of a window show together what its total shows, plus the local usage dated
   * before the reports of its own account start. The total may be taken over any accounts
   * that have the same reports, as the official ones among the known accounts do.
   */
  lemma DaysAgreeWithTotal(e: Evidence, accounts: seq<string>, known: u64, start: Day, end: Day,
      days: seq<ReconciledDay>,
                           reported: nat, complement: nat, gap: nat, total: u64)
    requires e.CoverageIsRight() && |days| == end - start && AreDays(e, accounts, known, start, days)
    requires reported == ReportedTotal(e, accounts, start, end)
    requires complement == ComplementTotal(e, accounts, start, end)
    requires gap == TotalBeforeCoverage(e, accounts, start, end)
    requires total == Sat(reported + complement)
    ensures Sat(SumSeq(days, |days|, ValueOf())) == SatAdd(total, Sat(gap))
  {
    DaysShowEverything(e, accounts, known, start, end, days, reported, complement, gap);
    SatOfSats(reported + complement, gap);
  }

  ghost predicate NothingBefore(e: Evidence, account: string, start: Day, end: Day) {
    forall d :: start <= d < end ==> BeforeCoverage(e)(account, d) == 0
  }

  /** So they are the same exactly as far as nothing local is dated before reports start. */
  lemma {:induction false} AgreementIsExact(e: Evidence, accounts: seq<string>, k: nat, start: Day, end: Day)
    requires k <= |accounts|
    ensures SumSeq(accounts, k, Window(BeforeCoverage(e), start, end)) == 0 <==>
              forall i :: 0 <= i < k ==> NothingBefore(e, accounts[i], start, end)
  {
    if k > 0 {
      AgreementIsExact(e, accounts, k - 1, start, end);
      NothingBeforeIsZero(e, accounts[k - 1], start, end);
    }
  }

  lemma NothingBeforeIsZero(e: Evidence, account: string, start: Day, end: Day)
    ensures Window(BeforeCoverage(e), start, end)(account) == 0 <==> NothingBefore(e, account, start, end)
  {
    ZeroIffAllZero(OfAccount(BeforeCoverage(e), account), start, end);
    assert forall d :: OfAccount(BeforeCoverage(e), account)(d) == BeforeCoverage(e)(account, d);
  }

  lemma {:induction false} ZeroIffAllZero(f: Day -> nat, low: Day, high: Day)
    ensures SumDays(f, low, high) == 0 <==> forall d :: low <= d < high ==> f(d) == 0
    decreases high - low
  {
    if low < high {
      ZeroIffAllZero(f, low, high - 1);
    }
  }

  /** Counting reports over the official accounts or over all known ones makes no difference. */
  lemma SameReportsOverKnownAccounts(e: Evidence, officialAccounts: seq<string>, accounts: seq<string>, start: Day,
      end: Day)
    requires AllDifferent(officialAccounts, |officialAccounts|) && AllDifferent(accounts, |accounts|)
    requires FirstOnes(officialAccounts, |officialAccounts|) <= FirstOnes(accounts, |accounts|)
    requires forall a ::
               a in FirstOnes(accounts, |accounts|) && a !in FirstOnes(officialAccounts, |officialAccounts|) ==>
               !e.HasReports(a)
    ensures ReportedTotal(e, officialAccounts, start, end) == ReportedTotal(e, accounts, start, end)
  {
    var f := Window(OfficialPart(e), start, end);
    SumSeqIsSumOver(officialAccounts, |officialAccounts|, f);
    SumSeqIsSumOver(accounts, |accounts|, f);
    var part, whole := FirstOnes(officialAccounts, |officialAccounts|), FirstOnes(accounts, |accounts|);
    forall a | a in whole - part
      ensures f(a) == 0
    {
      SumDaysZero(OfAccount(OfficialPart(e), a), start, end);
    }
    SumOverPart(part, whole, f);
  }

  // ----- weeks and months -----

  datatype Field = Value | OfficialTokens | LocalTailTokens | LocalOnlyTokens

  function Get(p: ReconciledDay, f: Field): u64 {
    match f
    case Value => p.value
    case OfficialTokens => p.officialTokens
    case LocalTailTokens => p.localTailTokens
    case LocalOnlyTokens => p.localOnlyTokens
  }

  function Rank(s: Status): nat {
    match s
    case ExactOfficial => 0
    case LocalTail => 1
    case UnknownDay => 2
    case LocalOnlyAccount => 3
  }

  ghost function FieldOf(f: Field): ReconciledDay -> nat {
    (p: ReconciledDay) => Get(p, f)
  }

  ghost function PeriodOf(period: Day -> Day): ReconciledDay -> Day {
    (p: ReconciledDay) => period(p.date)
  }

  /** No day of the group is worse, or knows more accounts, or has fewer of them covered. */
  ghost predicate IsWorst(g: ReconciledDay, points: seq<ReconciledDay>, k: nat, period: Day -> Day)
    requires k <= |points|
  {
    && (forall i :: 0 <= i < k && period(points[i].date) == g.date ==>
          && Rank(points[i].status) <= Rank(g.status)
          && g.coveredAccounts <= points[i].coveredAccounts && points[i].knownAccounts <= g.knownAccounts)
    && (g.status != ExactOfficial ==>
          exists i :: 0 <= i < k && period(points[i].date) == g.date && points[i].status == g.status)
  }

  ghost predicate HasSums(g: ReconciledDay, points: seq<ReconciledDay>, k: nat, period: Day -> Day)
    requires k <= |points|
  {
    forall f: Field :: Get(g, f) == Sat(GroupSum(points, k, PeriodOf(period), g.date, FieldOf(f)))
  }

  function Join(g: ReconciledDay, p: ReconciledDay): ReconciledDay {
    ReconciledDay(g.date, SatAdd(g.value, p.value), SatAdd(g.officialTokens, p.officialTokens),
                  SatAdd(g.localTailTokens, p.localTailTokens), SatAdd(g.localOnlyTokens, p.localOnlyTokens),
                  if Rank(p.status) > Rank(g.status) then p.status else g.status,
                  Min(g.coveredAccounts, p.coveredAccounts), Max(g.knownAccounts, p.knownAccounts))
  }

  function EmptyGroup(date: Day, p: ReconciledDay): ReconciledDay {
    ReconciledDay(date, 0, 0, 0, 0, ExactOfficial, p.coveredAccounts, p.knownAccounts)
  }

  ghost predicate IsGroup(g: ReconciledDay, date: Day, points: seq<ReconciledDay>, k: nat, period: Day -> Day)
    requires k <= |points|
  {
    g.date == date && HasSums(g, points, k, period) && IsWorst(g, points, k, period)
  }

  /** Every one of the first `k` days has a group, and every group is that of its days. */
  ghost predicate AreGroups(groups: map<Day, ReconciledDay>, points: seq<ReconciledDay>, k: nat, period: Day -> Day)
    requires k <= |points|
  {
    && (forall i :: 0 <= i < k ==> period(points[i].date) in groups)
    && (forall date :: date in groups ==> IsGroup(groups[date], date, points, k, period))
    && (forall date :: date in groups ==> IsAttained(groups[date], points, k, period))
  }

  /** Some day has as few accounts covered, and some knows as many. */
  ghost predicate IsAttained(g: ReconciledDay, points: seq<ReconciledDay>, k: nat, period: Day -> Day)
    requires k <= |points|
  {
    && (exists i :: 0 <= i < k && period(points[i].date) == g.date && points[i].coveredAccounts == g.coveredAccounts)
    && (exists i :: 0 <= i < k && period(points[i].date) == g.date && points[i].knownAccounts == g.knownAccounts)
  }

  lemma JoinAttained(g: ReconciledDay, points: seq<ReconciledDay>, i: nat, period: Day -> Day)
    requires i < |points| && g.date == period(points[i].date)
    requires IsAttained(g, points, i, period) || g == EmptyGroup(g.date, points[i])
    ensures IsAttained(Join(g, points[i]), points, i + 1, period)
  {
  }

  lemma StillAttained(g: ReconciledDay, points: seq<ReconciledDay>, i: nat, period: Day -> Day)
    requires i < |points| && IsAttained(g, points, i, period)
    ensures IsAttained(g, points, i + 1, period)
  {
  }

  /** Days put together by the first day of their week or month, as `period` gives it. */
  method AggregateReconciledAccountDays(points: seq<ReconciledDay>, period: Day -> Day)
    returns (groups: map<Day, ReconciledDay>)
    ensures AreGroups(groups, points, |points|, period)
  {
    groups := map[];
    for i := 0 to |points|
      invariant AreGroups(groups, points, i, period)
    {
      var key := period(points[i].date);
      var entry := if key in groups then groups[key] else EmptyGroup(key, points[i]);
      NextPoint(groups, entry, points, i, period, key);
      groups := groups[key := Join(entry, points[i])];
    }
  }

  lemma {:induction false} NoneBefore(points: seq<ReconciledDay>, k: nat, period: Day -> Day, key: Day, f: Field)
    requires k <= |points| && forall j :: 0 <= j < k ==> period(points[j].date) != key
    ensures GroupSum(points, k, PeriodOf(period), key, FieldOf(f)) == 0
  {
    if k > 0 {
      NoneBefore(points, k - 1, period, key, f);
    }
  }

  lemma NewGroup(points: seq<ReconciledDay>, i: nat, period: Day -> Day, key: Day)
    requires i < |points| && key == period(points[i].date)
    requires forall j :: 0 <= j < i ==> period(points[j].date) != key
    ensures IsGroup(EmptyGroup(key, points[i]), key, points, i, period)
  {
    forall f: Field
      ensures GroupSum(points, i, PeriodOf(period), key, FieldOf(f)) == 0
    {
      NoneBefore(points, i, period, key, f);
    }
  }

  lemma JoinSums(g: ReconciledDay, points: seq<ReconciledDay>, i: nat, period: Day -> Day)
    requires i < |points| && g.date == period(points[i].date) && HasSums(g, points, i, period)
    ensures HasSums(Join(g, points[i]), points, i + 1, period)
  {
    forall f: Field
      ensures Get(Join(g, points[i]), f) == Sat(GroupSum(points, i + 1, PeriodOf(period), g.date, FieldOf(f)))
    {
      assert Get(Join(g, points[i]), f) == SatAdd(Get(g, f), Get(points[i], f));
    }
  }

  lemma JoinWorst(g: ReconciledDay, points: seq<ReconciledDay>, i: nat, period: Day -> Day)
    requires i < |points| && g.date == period(points[i].date) && IsWorst(g, points, i, period)
    ensures IsWorst(Join(g, points[i]), points, i + 1, period)
  {
  }

  lemma JoinGroup(g: ReconciledDay, points: seq<ReconciledDay>, i: nat, period: Day -> Day)
    requires i < |points| && IsGroup(g, period(points[i].date), points, i, period)
    ensures IsGroup(Join(g, points[i]), period(points[i].date), points, i + 1, period)
  {
    JoinSums(g, points, i, period);
    JoinWorst(g, points, i, period);
  }

  lemma OtherGroup(g: ReconciledDay, points: seq<ReconciledDay>, i: nat, period: Day -> Day)
    requires i < |points| && g.date != period(points[i].date) && IsGroup(g, g.date, points, i, period)
    ensures IsGroup(g, g.date, points, i + 1, period)
  {
  }

  lemma NextPoint(groups: map<Day, ReconciledDay>, entry: ReconciledDay, points: seq<ReconciledDay>, i: nat,
                  period: Day -> Day, key: Day)
    requires i < |points| && key == period(points[i].date) && AreGroups(groups, points, i, period)
    requires entry == if key in groups then groups[key] else EmptyGroup(key, points[i])
    ensures AreGroups(groups[key := Join(entry, points[i])], points, i + 1, period)
  {
    if key !in groups {
      NewGroup(points, i, period, key);
    }
    JoinGroup(entry, points, i, period);
    JoinAttained(entry, points, i, period);
    forall date | date in groups && date != key
      ensures IsGroup(groups[date], date, points, i + 1, period) && IsAttained(groups[date], points, i + 1, period)
    {
      StillAttained(groups[date], points, i, period);
      OtherGroup(groups[date], points, i, period);
    }
  }

  ghost function GroupValue(groups: map<Day, ReconciledDay>, f: Field): Day -> nat {
    (date: Day) => if date in groups then Get(groups[date], f) else 0
  }

  /** Weeks and months show together what their days show, in every column. */
  lemma CoarseningKeepsTotals(points: seq<ReconciledDay>, period: Day -> Day, groups: map<Day, ReconciledDay>, f: Field)
    requires AreGroups(groups, points, |points|, period)
    ensures Sat(SumOver(groups.Keys, GroupValue(groups, f))) == Sat(SumSeq(points, |points|, FieldOf(f)))
  {
    GroupsAddUp(points, |points|, PeriodOf(period), groups.Keys, FieldOf(f));
    forall date | date in groups.Keys
      ensures GroupValue(groups, f)(date) == Sat(GroupOf(points, |points|, PeriodOf(period), FieldOf(f))(date))
    {
      assert HasSums(groups[date], points, |points|, period);
    }
    SumOfSaturated(groups.Keys, GroupValue(groups, f), GroupOf(points, |points|, PeriodOf(period), FieldOf(f)));
  }

  ghost predicate SomeDayIs(status: Status, date: Day, points: seq<ReconciledDay>, period: Day -> Day) {
    exists i :: 0 <= i < |points| && period(points[i].date) == date && points[i].status == status
  }

  /** A week or month is exact exactly if each of its days is; otherwise it has the worst status of a day. */
  lemma ExactIffEveryDayExact(g: ReconciledDay, points: seq<ReconciledDay>, period: Day -> Day)
    requires IsGroup(g, g.date, points, |points|, period)
    ensures g.status == ExactOfficial <==>
              forall i :: 0 <= i < |points| && period(points[i].date) == g.date ==> points[i].status == ExactOfficial
    ensures g.status == LocalOnlyAccount <==> SomeDayIs(LocalOnlyAccount, g.date, points, period)
    ensures g.status == UnknownDay <==>
              SomeDayIs(UnknownDay, g.date, points, period) && !SomeDayIs(LocalOnlyAccount, g.date, points, period)
    ensures g.status == LocalTail <==>
              && SomeDayIs(LocalTail, g.date, points, period)
              && !SomeDayIs(LocalOnlyAccount, g.date, points, period) && !SomeDayIs(UnknownDay, g.date, points, period)
  {
  }
}
