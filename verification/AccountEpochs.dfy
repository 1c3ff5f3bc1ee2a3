/**
 * Account windows inferred from login traces, and the usage they claim
 * (src/account_history.rs, src/store/account_repository.rs). Instants are nanoseconds.
 */
module AccountEpochs {
  import opened Prelude
  import opened Sorting

  const SECOND := 1_000_000_000
  const FAR_FUTURE := 3650 * 86_400 * SECOND

  datatype Kind = Logout | LoginSuccess | AccountSeen

  datatype Marker = Marker(at: int, kind: Kind, workspace: Option<string>)

  datatype Epoch = Epoch(observedFrom: int, observedTo: Option<int>, workspace: string)

  // ----- windows between logouts -----

  function AtMost(): (int, int) -> bool {
    (a: int, b: int) => a <= b
  }

  /** The logout times among the first `k` markers. */
  function LogoutTimes(markers: seq<Marker>, k: nat): seq<int>
    requires k <= |markers|
  {
    if k == 0 then [] else
      LogoutTimes(markers, k - 1) + if markers[k - 1].kind == Logout then [markers[k - 1].at] else []
  }

  /** Of times in order, those at least two seconds after the last one kept. */
  function Deduplicated(times: seq<int>, k: nat): seq<int>
    requires k <= |times|
  {
    if k == 0 then [] else
      var kept := Deduplicated(times, k - 1);
      if kept != [] && Abs(times[k - 1] - kept[|kept| - 1]) / SECOND <= 1 then kept else kept + [times[k - 1]]
  }

  function Bounds(markers: seq<Marker>, earliest: int, now: int): (b: seq<int>)
    ensures |b| >= 2
  {
    var logouts := Sort(AtMost(), LogoutTimes(markers, |markers|), |LogoutTimes(markers, |markers|)|);
    [earliest] + Deduplicated(logouts, |logouts|) + [now + FAR_FUTURE]
  }

  predicate Ascending(times: seq<int>) {
    forall i, j :: 0 <= i < j < |times| ==> times[i] <= times[j]
  }

  /** What is kept is in order and really apart. */
  lemma {:induction false} DeduplicatedIsApart(times: seq<int>, k: nat)
    requires k <= |times| && Ascending(times)
    ensures forall x :: x in Deduplicated(times, k) ==> x in times[..k]
    ensures Ascending(Deduplicated(times, k))
    ensures forall i :: 0 < i < |Deduplicated(times, k)| ==>
              Deduplicated(times, k)[i] >= Deduplicated(times, k)[i - 1] + 2 * SECOND
  {
    if k > 0 {
      DeduplicatedIsApart(times, k - 1);
      assert times[..k] == times[..k - 1] + [times[k - 1]];
      var kept := Deduplicated(times, k - 1);
      forall i | 0 <= i < |kept|
        ensures kept[i] <= times[k - 1]
      {
        assert kept[i] in kept && kept[i] in times[..k - 1];
      }
    }
  }

  lemma {:induction false} LogoutTimesAreMarkers(markers: seq<Marker>, k: nat, t: int)
    requires k <= |markers| && t in LogoutTimes(markers, k)
    ensures exists m :: m in markers && m.kind == Logout && m.at == t
  {
    if t !in LogoutTimes(markers, k - 1) {
      assert markers[k - 1] in markers;
    } else {
      LogoutTimesAreMarkers(markers, k - 1, t);
    }
  }

  /** Every logout lies before `now`, as it does unless the clock went back after one was logged. */
  ghost predicate LogoutsArePast(markers: seq<Marker>, now: int) {
    forall m :: m in markers && m.kind == Logout ==> m.at <= now
  }

  lemma SortedIsAscending(times: seq<int>)
    requires SortedBy(AtMost(), times)
    ensures Ascending(times)
  {
    forall i, j | 0 <= i < j < |times|
      ensures times[i] <= times[j]
    {
      assert AtMost()(times[i], times[j]);
    }
  }

  ghost predicate AreLogouts(times: seq<int>, markers: seq<Marker>) {
    forall i :: 0 <= i < |times| ==> exists m :: m in markers && m.kind == Logout && m.at == times[i]
  }

  /** The logouts that are kept are in order, and the same as some marker's. */
  lemma KeptLogouts(markers: seq<Marker>, times: seq<int>, kept: seq<int>)
    requires times == LogoutTimes(markers, |markers|)
    requires kept == Deduplicated(Sort(AtMost(), times, |times|), |times|)
    ensures Ascending(kept) && AreLogouts(kept, markers)
  {
    var logouts := Sort(AtMost(), times, |times|);
    var dom := set t | t in times;
    SortIsRight(AtMost(), times, |times|, dom);
    assert times[..|times|] == times;
    SortedIsAscending(logouts);
    DeduplicatedIsApart(logouts, |logouts|);
    forall i | 0 <= i < |kept|
      ensures exists m :: m in markers && m.kind == Logout && m.at == kept[i]
    {
      assert kept[i] in kept && kept[i] in logouts[..|logouts|] && kept[i] in times;
      LogoutTimesAreMarkers(markers, |markers|, kept[i]);
    }
  }

  lemma BoundsInOrder(markers: seq<Marker>, earliest: int, now: int)
    ensures InnerAscending(Bounds(markers, earliest, now))
    ensures AreLogouts(Bounds(markers, earliest, now)[1..|Bounds(markers, earliest, now)| - 1], markers)
  {
    var times := LogoutTimes(markers, |markers|);
    var kept := Deduplicated(Sort(AtMost(), times, |times|), |times|);
    KeptLogouts(markers, times, kept);
    var b := Bounds(markers, earliest, now);
    assert b == [earliest] + kept + [now + FAR_FUTURE];
    assert b[1..|b| - 1] == kept;
    assert forall i :: 0 < i < |b| - 1 ==> b[i] == kept[i - 1];
  }

  /** The first bound is where sampling began and the last is far ahead; the others are logouts. */
  ghost predicate InnerAscending(bounds: seq<int>) {
    forall i, j :: 0 < i < j < |bounds| - 1 ==> bounds[i] <= bounds[j]
  }

  // ----- one window -----

  predicate InWindow(m: Marker, start: int, end: int) {
    start <= m.at < end
  }

  function WorkspacesSeen(markers: seq<Marker>, start: int, end: int): set<string> {
    set m | m in markers && m.kind == AccountSeen && m.workspace.Some? && InWindow(m, start, end) :: m.workspace.value
  }

  /** When the workspace first appears in the window. */
  function FirstSeen(markers: seq<Marker>, workspace: string, start: int, end: int, k: nat): Option<int>
    requires k <= |markers|
  {
    if k == 0 then None else
      var first := FirstSeen(markers, workspace, start, end, k - 1);
      var m := markers[k - 1];
      if m.workspace != Some(workspace) || !InWindow(m, start, end) then first
      else if first.Some? && first.value <= m.at then first else Some(m.at)
  }

  /** The latest login of the window not after `first`. */
  function LatestLogin(markers: seq<Marker>, start: int, first: int, k: nat): Option<int>
    requires k <= |markers|
  {
    if k == 0 then None else
      var login := LatestLogin(markers, start, first, k - 1);
      var m := markers[k - 1];
      if m.kind != LoginSuccess || m.at < start || m.at > first then login
      else if login.Some? && login.value >= m.at then login else Some(m.at)
  }

  function OrElse(x: Option<int>, y: int): int {
    if x.Some? then x.value else y
  }

  function EpochFor(markers: seq<Marker>, workspace: string, start: int, end: int, now: int): Epoch {
    var first := OrElse(FirstSeen(markers, workspace, start, end, |markers|), start);
    Epoch(OrElse(LatestLogin(markers, start, first, |markers|), start), if end <= now then Some(end) else None,
          workspace)
  }

  ghost function TheOne(s: set<string>): string
    requires |s| == 1
    ensures s == {TheOne(s)}
  {
    var x :| x in s;
    OneElement(s, x);
    x
  }

  lemma OneElement(s: set<string>, x: string)
    requires |s| == 1 && x in s
    ensures s == {x}
  {
    assert |s - {x}| == 0;
  }

  ghost function WindowEpoch(markers: seq<Marker>, start: int, end: int, now: int): Option<Epoch> {
    var workspaces := WorkspacesSeen(markers, start, end);
    if |workspaces| != 1 then None else Some(EpochFor(markers, TheOne(workspaces), start, end, now))
  }

  /** The epochs of the first `k` windows. */
  ghost function EpochsOf(markers: seq<Marker>, bounds: seq<int>, now: int, k: nat): seq<Epoch>
    requires k < |bounds|
  {
    if k == 0 then [] else
      var e := WindowEpoch(markers, bounds[k - 1], bounds[k], now);
      EpochsOf(markers, bounds, now, k - 1) + if e.Some? then [e.value] else []
  }

  method InferEpochs(markers: seq<Marker>, earliestSampling: Option<int>, now: int) returns (epochs: seq<Epoch>)
    ensures earliestSampling.None? ==> epochs == []
    ensures earliestSampling.Some? ==>
              epochs == EpochsOf(markers, Bounds(markers, earliestSampling.value, now), now,
                                 |Bounds(markers, earliestSampling.value, now)| - 1)
  {
    epochs := [];
    if earliestSampling.None? {
      return;
    }
    var logouts := CollectLogouts(markers);
    var bounds := [earliestSampling.value] + logouts + [now + FAR_FUTURE];
    for i := 0 to |bounds| - 1
      invariant epochs == EpochsOf(markers, bounds, now, i)
    {
      var start, end := bounds[i], bounds[i + 1];
      var workspaces := WorkspacesSeen(markers, start, end);
      if |workspaces| == 1 {
        var workspace :| workspace in workspaces;
        OneElement(workspaces, workspace);
        var first := SeenFirst(markers, workspace, start, end);
        var login := LoggedInLast(markers, start, OrElse(first, start));
        epochs := epochs + [Epoch(OrElse(login, start), if end <= now then Some(end) else None, workspace)];
      }
    }
  }

  method CollectLogouts(markers: seq<Marker>) returns (kept: seq<int>)
    ensures kept == Deduplicated(Sort(AtMost(), LogoutTimes(markers, |markers|), |LogoutTimes(markers, |markers|)|),
                                 |LogoutTimes(markers, |markers|)|)
  {
    var times: seq<int> := [];
    for i := 0 to |markers|
      invariant times == LogoutTimes(markers, i)
    {
      if markers[i].kind == Logout {
        times := times + [markers[i].at];
      }
    }
    var logouts := Sort(AtMost(), times, |times|);
    kept := [];
    for i := 0 to |logouts|
      invariant kept == Deduplicated(logouts, i)
    {
      if kept == [] || Abs(logouts[i] - kept[|kept| - 1]) / SECOND > 1 {
        kept := kept + [logouts[i]];
      }
    }
  }

  method SeenFirst(markers: seq<Marker>, workspace: string, start: int, end: int) returns (first: Option<int>)
    ensures first == FirstSeen(markers, workspace, start, end, |markers|)
  {
    first := None;
    for i := 0 to |markers|
      invariant first == FirstSeen(markers, workspace, start, end, i)
    {
      if markers[i].workspace == Some(workspace) && InWindow(markers[i], start, end)
         && (first.None? || markers[i].at < first.value) {
        first := Some(markers[i].at);
      }
    }
  }

  method LoggedInLast(markers: seq<Marker>, start: int, first: int) returns (login: Option<int>)
    ensures login == LatestLogin(markers, start, first, |markers|)
  {
    login := None;
    for i := 0 to |markers|
      invariant login == LatestLogin(markers, start, first, i)
    {
      if markers[i].kind == LoginSuccess && start <= markers[i].at <= first
         && (login.None? || markers[i].at > login.value) {
        login := Some(markers[i].at);
      }
    }
  }

  // ----- what an epoch says -----

  ghost predicate SightedAt(markers: seq<Marker>, workspace: string, at: int) {
    exists i :: 0 <= i < |markers| && markers[i].workspace == Some(workspace) && markers[i].at == at
  }

  ghost predicate LoggedInAt(markers: seq<Marker>, at: int) {
    exists i :: 0 <= i < |markers| && markers[i].kind == LoginSuccess && markers[i].at == at
  }

  lemma {:induction false} FirstSeenIsEarliest(markers: seq<Marker>, workspace: string, start: int, end: int, k: nat)
    requires k <= |markers|
    ensures var first := FirstSeen(markers, workspace, start, end, k);
      && (first.Some? ==> start <= first.value < end && SightedAt(markers, workspace, first.value))
      && (forall i :: 0 <= i < k && markers[i].workspace == Some(workspace) && InWindow(markers[i], start, end) ==>
            first.Some? && first.value <= markers[i].at)
  {
    if k > 0 {
      FirstSeenIsEarliest(markers, workspace, start, end, k - 1);
    }
  }

  lemma {:induction false} LatestLoginIsLatest(markers: seq<Marker>, start: int, first: int, k: nat)
    requires k <= |markers|
    ensures var login := LatestLogin(markers, start, first, k);
      && (login.Some? ==> start <= login.value <= first && LoggedInAt(markers, login.value))
      && (forall i :: 0 <= i < k && markers[i].kind == LoginSuccess && start <= markers[i].at <= first ==>
            login.Some? && markers[i].at <= login.value)
  {
    if k > 0 {
      LatestLoginIsLatest(markers, start, first, k - 1);
    }
  }

  /** An epoch lies in its window, ends with it, and every account seen in the window is its own. */
  ghost predicate FitsWindow(e: Epoch, markers: seq<Marker>, start: int, end: int, now: int) {
    && start <= e.observedFrom < end
    && e.observedTo == (if end <= now then Some(end) else None)
    && WorkspacesSeen(markers, start, end) == {e.workspace}
  }

  lemma WindowEpochFits(markers: seq<Marker>, start: int, end: int, now: int)
    requires WindowEpoch(markers, start, end, now).Some?
    ensures FitsWindow(WindowEpoch(markers, start, end, now).value, markers, start, end, now)
  {
    var workspace := TheOne(WorkspacesSeen(markers, start, end));
    assert workspace in WorkspacesSeen(markers, start, end);
    FirstSeenIsEarliest(markers, workspace, start, end, |markers|);
    var first := OrElse(FirstSeen(markers, workspace, start, end, |markers|), start);
    LatestLoginIsLatest(markers, start, first, |markers|);
  }

  /** The account of a workspace is seen in the window. */
  ghost predicate SeenIn(markers: seq<Marker>, workspace: string, start: int, end: int) {
    exists i :: 0 <= i < |markers| && markers[i].kind == AccountSeen && markers[i].workspace == Some(workspace)
                && start <= markers[i].at < end
  }

  /** A window yields an epoch exactly for the only account that is seen in it. */
  lemma EpochIffOneAccount(markers: seq<Marker>, start: int, end: int, now: int, workspace: string)
    ensures (WindowEpoch(markers, start, end, now).Some?
             && WindowEpoch(markers, start, end, now).value.workspace == workspace) <==>
              && SeenIn(markers, workspace, start, end)
              && forall other :: SeenIn(markers, other, start, end) ==> other == workspace
  {
    var seen := WorkspacesSeen(markers, start, end);
    forall w
      ensures w in seen <==> SeenIn(markers, w, start, end)
    {
      if SeenIn(markers, w, start, end) {
        var i :| 0 <= i < |markers| && markers[i].kind == AccountSeen && markers[i].workspace == Some(w)
                 && start <= markers[i].at < end;
        assert markers[i] in markers;
      }
    }
    if workspace in seen && forall other :: other in seen ==> other == workspace {
      assert seen == {workspace};
      TheOneOf(seen, workspace);
    }
  }

  /** The workspace is first seen in the window at `first`. */
  ghost predicate IsFirstSighting(markers: seq<Marker>, workspace: string, start: int, end: int, first: int) {
    && start <= first < end && SightedAt(markers, workspace, first)
    && forall i :: 0 <= i < |markers| && markers[i].workspace == Some(workspace) && start <= markers[i].at < end ==>
         first <= markers[i].at
  }

  /** An epoch starts with the last login of its window before its account is first seen, or with the window. */
  lemma EpochStartsAtLastLogin(markers: seq<Marker>, start: int, end: int, now: int, e: Epoch) returns (first: int)
    requires WindowEpoch(markers, start, end, now) == Some(e)
    ensures IsFirstSighting(markers, e.workspace, start, end, first)
    ensures e.observedFrom == start || (start <= e.observedFrom <= first && LoggedInAt(markers, e.observedFrom))
    ensures forall i :: 0 <= i < |markers| && markers[i].kind == LoginSuccess && start <= markers[i].at <= first ==>
              markers[i].at <= e.observedFrom
  {
    assert e.workspace in WorkspacesSeen(markers, start, end);
    FirstSeenIsEarliest(markers, e.workspace, start, end, |markers|);
    first := FirstSeen(markers, e.workspace, start, end, |markers|).value;
    LatestLoginIsLatest(markers, start, first, |markers|);
  }

  // ----- the windows -----

  /** Some bound of the list is a logout less than two seconds before `at`, or at it. */
  ghost predicate JustBefore(kept: seq<int>, at: int) {
    exists i :: 0 <= i < |kept| && kept[i] <= at < kept[i] + 2_000_000_000
  }

  lemma {:induction false} DroppedAreClose(times: seq<int>, k: nat)
    requires k <= |times| && Ascending(times)
    ensures forall i :: 0 <= i < k ==> JustBefore(Deduplicated(times, k), times[i])
  {
    if k > 0 {
      DroppedAreClose(times, k - 1);
      DeduplicatedIsApart(times, k - 1);
      var kept, more := Deduplicated(times, k - 1), Deduplicated(times, k);
      forall i | 0 <= i < k - 1
        ensures JustBefore(more, times[i])
      {
        assert JustBefore(kept, times[i]);
        var j :| 0 <= j < |kept| && kept[j] <= times[i] < kept[j] + 2_000_000_000;
        assert more[j] == kept[j];
      }
      var last := |more| - 1;
      if more == kept {
        assert kept[last] in kept && kept[last] in times[..k - 1];
      }
      assert more[last] <= times[k - 1] < more[last] + 2_000_000_000;
    }
  }

  lemma {:induction false} AllLogoutsAreListed(markers: seq<Marker>, k: nat, i: nat)
    requires i < k <= |markers| && markers[i].kind == Logout
    ensures markers[i].at in LogoutTimes(markers, k)
  {
    if i < k - 1 {
      AllLogoutsAreListed(markers, k - 1, i);
    }
  }

  /**
   * The windows lie between the earliest sample, logouts at least two seconds apart such that every
   * other logout follows one of them by less, and ten years from now. That leaves no choice.
   */
  lemma BoundsAreApart(markers: seq<Marker>, earliest: int, now: int, b: seq<int>, kept: seq<int>)
    requires b == Bounds(markers, earliest, now) && kept == b[1..|b| - 1]
    ensures b[0] == earliest && b[|b| - 1] == now + 3_650 * 86_400_000_000_000
    ensures AreLogouts(kept, markers)
    ensures forall i :: 0 < i < |kept| ==> kept[i] >= kept[i - 1] + 2_000_000_000
    ensures forall m :: m in markers && m.kind == Logout ==> JustBefore(kept, m.at)
  {
    var times := LogoutTimes(markers, |markers|);
    var logouts := Sort(AtMost(), times, |times|);
    assert kept == Deduplicated(logouts, |logouts|);
    BoundsInOrder(markers, earliest, now);
    var dom := set t | t in times;
    SortIsRight(AtMost(), times, |times|, dom);
    assert times[..|times|] == times;
    SortedIsAscending(logouts);
    DeduplicatedIsApart(logouts, |logouts|);
    DroppedAreClose(logouts, |logouts|);
    forall m | m in markers && m.kind == Logout
      ensures JustBefore(kept, m.at)
    {
      var i :| 0 <= i < |markers| && markers[i] == m;
      AllLogoutsAreListed(markers, |markers|, i);
      assert m.at in logouts;
    }
  }

  ghost predicate ClosedBefore(e: Epoch, t: int) {
    e.observedTo.Some? && e.observedTo.value <= t
  }

  /** Each epoch is closed before the next one starts. */
  ghost predicate Disjoint(epochs: seq<Epoch>) {
    forall i, j :: 0 <= i < j < |epochs| ==> ClosedBefore(epochs[i], epochs[j].observedFrom)
  }

  /** The window after bound `i` yields an epoch. */
  ghost predicate Emits(markers: seq<Marker>, bounds: seq<int>, now: int, i: nat) {
    i < |bounds| - 1 && WindowEpoch(markers, bounds[i], bounds[i + 1], now).Some?
  }

  ghost function EpochOf(markers: seq<Marker>, bounds: seq<int>, now: int, i: nat): Epoch
    requires Emits(markers, bounds, now, i)
  {
    WindowEpoch(markers, bounds[i], bounds[i + 1], now).value
  }

  lemma {:induction false} EpochsAreOfWindows(markers: seq<Marker>, bounds: seq<int>, now: int, k: nat)
    requires k < |bounds|
    ensures forall i: nat :: i < k && Emits(markers, bounds, now, i) ==>
              EpochOf(markers, bounds, now, i) in EpochsOf(markers, bounds, now, k)
    ensures forall e :: e in EpochsOf(markers, bounds, now, k) ==>
              exists i: nat :: i < k && Emits(markers, bounds, now, i) && EpochOf(markers, bounds, now, i) == e
  {
    if k > 0 {
      EpochsAreOfWindows(markers, bounds, now, k - 1);
      var e := WindowEpoch(markers, bounds[k - 1], bounds[k], now);
      if e.Some? {
        assert Emits(markers, bounds, now, k - 1) && EpochOf(markers, bounds, now, k - 1) == e.value;
      }
    }
  }

  /** An epoch is closed before a later one starts exactly when its window ends by now. */
  lemma ClosedIffEndsByNow(markers: seq<Marker>, bounds: seq<int>, now: int, i: nat, j: nat)
    requires InnerAscending(bounds) && i < j && Emits(markers, bounds, now, i) && Emits(markers, bounds, now, j)
    ensures ClosedBefore(EpochOf(markers, bounds, now, i), EpochOf(markers, bounds, now, j).observedFrom)
            <==> bounds[i + 1] <= now
    ensures bounds[i + 1] > now ==> EpochOf(markers, bounds, now, i).observedTo.None?
    ensures EpochOf(markers, bounds, now, i).observedFrom <= EpochOf(markers, bounds, now, j).observedFrom
  {
    WindowEpochFits(markers, bounds[i], bounds[i + 1], now);
    WindowEpochFits(markers, bounds[j], bounds[j + 1], now);
    assert i + 1 < j ==> bounds[i + 1] <= bounds[j];
  }

  /** No epoch comes after one whose window ends ahead of the clock. */
  ghost predicate NoneAfterOpen(markers: seq<Marker>, bounds: seq<int>, now: int, k: nat) {
    forall i: nat, j: nat ::
      i < j < k && Emits(markers, bounds, now, i) && Emits(markers, bounds, now, j) ==> bounds[i + 1] <= now
  }

  ghost predicate AllEndByNow(markers: seq<Marker>, bounds: seq<int>, now: int, k: nat) {
    forall i: nat :: i < k && Emits(markers, bounds, now, i) ==> bounds[i + 1] <= now
  }

  ghost predicate AllClosedBefore(epochs: seq<Epoch>, t: int) {
    forall i :: 0 <= i < |epochs| ==> ClosedBefore(epochs[i], t)
  }

  lemma DisjointWithOneMore(epochs: seq<Epoch>, e: Epoch)
    ensures Disjoint(epochs + [e]) <==> Disjoint(epochs) && AllClosedBefore(epochs, e.observedFrom)
  {
    var more := epochs + [e];
    if Disjoint(more) {
      forall i | 0 <= i < |epochs|
        ensures ClosedBefore(epochs[i], e.observedFrom)
      {
        assert ClosedBefore(more[i], more[|epochs|].observedFrom);
      }
      forall i, j | 0 <= i < j < |epochs|
        ensures ClosedBefore(epochs[i], epochs[j].observedFrom)
      {
        assert ClosedBefore(more[i], more[j].observedFrom);
      }
    }
  }

  lemma AllClosedIffEndByNow(markers: seq<Marker>, bounds: seq<int>, now: int, k: nat)
    requires InnerAscending(bounds) && Emits(markers, bounds, now, k)
    ensures AllClosedBefore(EpochsOf(markers, bounds, now, k), EpochOf(markers, bounds, now, k).observedFrom)
            <==> AllEndByNow(markers, bounds, now, k)
  {
    var epochs, from := EpochsOf(markers, bounds, now, k), EpochOf(markers, bounds, now, k).observedFrom;
    EpochsAreOfWindows(markers, bounds, now, k);
    forall i: nat | i < k && Emits(markers, bounds, now, i)
      ensures ClosedBefore(EpochOf(markers, bounds, now, i), from) <==> bounds[i + 1] <= now
    {
      ClosedIffEndsByNow(markers, bounds, now, i, k);
    }
    if AllClosedBefore(epochs, from) {
      forall i: nat | i < k && Emits(markers, bounds, now, i)
        ensures bounds[i + 1] <= now
      {
        assert EpochOf(markers, bounds, now, i) in epochs;
      }
    }
    if AllEndByNow(markers, bounds, now, k) {
      forall x | 0 <= x < |epochs|
        ensures ClosedBefore(epochs[x], from)
      {
        assert epochs[x] in epochs;
      }
    }
  }

  lemma OneMoreWindow(markers: seq<Marker>, bounds: seq<int>, now: int, k: nat, next: nat)
    requires next == k + 1 < |bounds|
    ensures NoneAfterOpen(markers, bounds, now, next)
            <==> && NoneAfterOpen(markers, bounds, now, k)
                 && (Emits(markers, bounds, now, k) ==> AllEndByNow(markers, bounds, now, k))
    ensures EpochsOf(markers, bounds, now, next)
            == EpochsOf(markers, bounds, now, k)
               + if Emits(markers, bounds, now, k) then [EpochOf(markers, bounds, now, k)] else []
  {
  }

  lemma {:induction false} DisjointIffNoneAfterOpen(markers: seq<Marker>, bounds: seq<int>, now: int, k: nat)
    requires k < |bounds| && InnerAscending(bounds)
    ensures Disjoint(EpochsOf(markers, bounds, now, k)) <==> NoneAfterOpen(markers, bounds, now, k)
  {
    if k > 0 {
      var before := EpochsOf(markers, bounds, now, k - 1);
      DisjointIffNoneAfterOpen(markers, bounds, now, k - 1);
      OneMoreWindow(markers, bounds, now, k - 1, k);
      if Emits(markers, bounds, now, k - 1) {
        DisjointWithOneMore(before, EpochOf(markers, bounds, now, k - 1));
        AllClosedIffEndByNow(markers, bounds, now, k - 1);
      } else {
        assert before + [] == before;
      }
    }
  }

  /**
   * Inferred epochs are disjoint exactly when no logout ahead of the clock closes the window of one
   * epoch and is followed by another.
   */
  lemma InferredEpochsAreDisjointIff(markers: seq<Marker>, earliest: int, now: int, bounds: seq<int>)
    requires bounds == Bounds(markers, earliest, now)
    ensures Disjoint(EpochsOf(markers, bounds, now, |bounds| - 1))
            <==> NoneAfterOpen(markers, bounds, now, |bounds| - 1)
  {
    BoundsInOrder(markers, earliest, now);
    DisjointIffNoneAfterOpen(markers, bounds, now, |bounds| - 1);
  }

  /** So they are when all logouts are past. */
  lemma PastLogoutsMakeEpochsDisjoint(markers: seq<Marker>, earliest: int, now: int)
    requires LogoutsArePast(markers, now)
    ensures var b := Bounds(markers, earliest, now); Disjoint(EpochsOf(markers, b, now, |b| - 1))
  {
    var b := Bounds(markers, earliest, now);
    BoundsInOrder(markers, earliest, now);
    InferredEpochsAreDisjointIff(markers, earliest, now, b);
    forall i | 0 < i < |b| - 1
      ensures b[i] <= now
    {
      assert b[i] == b[1..|b| - 1][i - 1];
    }
  }

  ghost predicate Covers(e: Epoch, t: int) {
    e.observedFrom <= t && (e.observedTo.None? || t < e.observedTo.value)
  }

  /** An account is only seen in epochs of its own workspace; open epochs speak for the time until now. */
  lemma {:induction false} SightingsAgree(markers: seq<Marker>, bounds: seq<int>, now: int, k: nat, e: Epoch, m: Marker)
    requires k < |bounds| && e in EpochsOf(markers, bounds, now, k) && (e.observedTo.Some? || m.at <= now)
    requires m in markers && m.kind == AccountSeen && m.workspace.Some? && Covers(e, m.at)
    ensures m.workspace == Some(e.workspace)
  {
    var last := WindowEpoch(markers, bounds[k - 1], bounds[k], now);
    if last == Some(e) {
      WindowEpochFits(markers, bounds[k - 1], bounds[k], now);
      assert m.workspace.value in WorkspacesSeen(markers, bounds[k - 1], bounds[k]);
    } else {
      SightingsAgree(markers, bounds, now, k - 1, e, m);
    }
  }

  /** Otherwise the earlier epoch is open, and both cover the instant the later one starts. */
  lemma EpochsOverlapAfterFutureLogout(markers: seq<Marker>, earliest: int, now: int, i: nat, j: nat)
    requires var b := Bounds(markers, earliest, now);
      i < j && Emits(markers, b, now, i) && Emits(markers, b, now, j) && b[i + 1] > now
    ensures var b := Bounds(markers, earliest, now);
      && EpochOf(markers, b, now, i).observedTo.None?
      && Covers(EpochOf(markers, b, now, i), EpochOf(markers, b, now, j).observedFrom)
      && Covers(EpochOf(markers, b, now, j), EpochOf(markers, b, now, j).observedFrom)
  {
    var b := Bounds(markers, earliest, now);
    BoundsInOrder(markers, earliest, now);
    ClosedIffEndsByNow(markers, b, now, i, j);
    WindowEpochFits(markers, b[j], b[j + 1], now);
  }

  /** Such an input: one account, a logout that lies ahead since the clock went back, another account. */
  function SeenAroundLogout(a: string, b: string): seq<Marker> {
    [Marker(0, AccountSeen, Some(a)), Marker(SECOND, Logout, None), Marker(2 * SECOND, AccountSeen, Some(b))]
  }

  lemma OneLogout(a: string, b: string, now: int)
    ensures Bounds(SeenAroundLogout(a, b), 0, now) == [0, SECOND, now + FAR_FUTURE]
  {
    var markers := SeenAroundLogout(a, b);
    assert LogoutTimes(markers, 0) == [];
    assert LogoutTimes(markers, 1) == [];
    assert LogoutTimes(markers, 2) == [SECOND];
    assert LogoutTimes(markers, 3) == [SECOND];
    assert Sort(AtMost(), [SECOND], 0) == [];
    assert Sort(AtMost(), [SECOND], 1) == [SECOND];
    assert Deduplicated([SECOND], 0) == [];
    assert Deduplicated([SECOND], 1) == [SECOND];
  }

  lemma TheOneOf(s: set<string>, x: string)
    requires s == {x}
    ensures |s| == 1 && TheOne(s) == x
  {
    assert TheOne(s) in s;
  }

  lemma FirstAccount(a: string, b: string, now: int)
    requires now < SECOND
    ensures WindowEpoch(SeenAroundLogout(a, b), 0, SECOND, now) == Some(Epoch(0, None, a))
  {
    var markers := SeenAroundLogout(a, b);
    assert markers[0] in markers;
    TheOneOf(WorkspacesSeen(markers, 0, SECOND), a);
    assert FirstSeen(markers, a, 0, SECOND, 0) == None;
    assert FirstSeen(markers, a, 0, SECOND, 1) == Some(0);
    assert FirstSeen(markers, a, 0, SECOND, 2) == Some(0);
    assert LatestLogin(markers, 0, 0, 1) == None;
    assert LatestLogin(markers, 0, 0, 2) == None;
  }

  lemma SecondAccount(a: string, b: string, now: int)
    requires 0 <= now
    ensures WindowEpoch(SeenAroundLogout(a, b), SECOND, now + FAR_FUTURE, now) == Some(Epoch(SECOND, None, b))
  {
    var markers := SeenAroundLogout(a, b);
    assert markers[2] in markers;
    TheOneOf(WorkspacesSeen(markers, SECOND, now + FAR_FUTURE), b);
    var first := OrElse(FirstSeen(markers, b, SECOND, now + FAR_FUTURE, 3), SECOND);
    assert LatestLogin(markers, SECOND, first, 1) == None;
    assert LatestLogin(markers, SECOND, first, 2) == None;
    assert LatestLogin(markers, SECOND, first, 3) == None;
  }

  /** Both epochs are open, and the first covers all of the second. */
  lemma BothEpochsStayOpen(a: string, b: string, now: int)
    requires 0 <= now < SECOND
    ensures var bounds := Bounds(SeenAroundLogout(a, b), 0, now);
      |bounds| == 3 && EpochsOf(SeenAroundLogout(a, b), bounds, now, 2) == [Epoch(0, None, a), Epoch(SECOND, None, b)]
  {
    var markers, bounds := SeenAroundLogout(a, b), [0, SECOND, now + FAR_FUTURE];
    OneLogout(a, b, now);
    FirstAccount(a, b, now);
    SecondAccount(a, b, now);
    assert EpochsOf(markers, bounds, now, 0) == [];
    assert EpochsOf(markers, bounds, now, 1) == [Epoch(0, None, a)];
  }
}
