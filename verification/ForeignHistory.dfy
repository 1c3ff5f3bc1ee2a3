/**
 * Where the replay guard stands, told by the records alone (src/replay.rs): which session is the
 * rollout's own, what is foreign history, and what is counted.
 */
module ForeignHistory {
  import opened Prelude
  import opened Types
  import opened Folds
  import opened Replay

  // ----- on the records alone -----

  ghost predicate IsSession(r: Record) {
    r.SessionMeta? && r.id != ""
  }

  /** Line `c` opens the rollout: it is the first session record, and before line `k`. */
  ghost predicate Opens(lines: seq<Line>, c: nat, k: nat) {
    c < k <= |lines| && IsSession(lines[c].record) && forall h :: 0 <= h < c ==> !IsSession(lines[h].record)
  }

  /**
   * A task is of the stream that session `s` opened if its identifier is not older than that of the
   * session, or if it started no more than two seconds before the session was written.
   */
  ghost predicate OfStream(config: Config, s: Record, task: Record)
    requires s.SessionMeta? && task.TaskStarted?
  {
    || (exists turn: u64, rollout: u64 :: rollout <= turn && AreTimes(config, s, task, rollout, turn))
    || (exists seconds: u64, at: u64 :: at <= 1_000 * seconds + 2_000 && AreClocks(s, task, at, seconds))
  }

  ghost predicate AreTimes(config: Config, s: Record, task: Record, rollout: u64, turn: u64)
    requires s.SessionMeta? && task.TaskStarted?
  {
    config.millis(s.id) == Some(rollout) && config.millis(task.turnId) == Some(turn)
  }

  ghost predicate AreClocks(s: Record, task: Record, at: u64, seconds: u64)
    requires s.SessionMeta? && task.TaskStarted?
  {
    s.atMillis == Some(at) && task.startedAt == Some(seconds)
  }

  ghost predicate IsTaskOf(config: Config, s: Record, r: Record)
    requires s.SessionMeta?
  {
    r.TaskStarted? && OfStream(config, s, r)
  }

  /** Another session was met at line `j`, and no task of the rollout since. */
  ghost predicate ForeignSince(config: Config, lines: seq<Line>, c: nat, j: nat, k: nat)
    requires Opens(lines, c, k)
  {
    && c < j < k && IsSession(lines[j].record) && lines[j].record.id != lines[c].record.id
    && forall t :: j < t < k ==> !IsTaskOf(config, lines[c].record, lines[t].record)
  }

  ghost predicate InForeignHistory(config: Config, lines: seq<Line>, c: nat, k: nat)
    requires Opens(lines, c, k)
  {
    exists j: nat :: ForeignSince(config, lines, c, j, k)
  }

  /** The rollout is open and line `k` is not in foreign history. */
  ghost predicate LiveAt(config: Config, lines: seq<Line>, k: nat) {
    exists c :: Opens(lines, c, k) && !InForeignHistory(config, lines, c, k)
  }

  ghost function IdentityOf(r: Record): Canonical
    requires r.SessionMeta?
  {
    Canonical(r.id, r.parent, r.initialCwd, r.atMillis)
  }

  // ----- the guard knows -----

  lemma BelongsIff(config: Config, s: Record, task: Record)
    requires s.SessionMeta? && task.TaskStarted?
    ensures TaskBelongs(config, IdentityOf(s), task.turnId, task.startedAt) <==> OfStream(config, s, task)
  {
    if TaskBelongs(config, IdentityOf(s), task.turnId, task.startedAt) {
      var turn, rollout := config.millis(task.turnId), config.millis(s.id);
      if turn.Some? && rollout.Some? && turn.value >= rollout.value {
        assert AreTimes(config, s, task, rollout.value, turn.value);
      } else {
        assert AreClocks(s, task, s.atMillis.value, task.startedAt.value);
      }
    }
  }

  lemma {:induction false} UnopenedAwaits(config: Config, lines: seq<Line>, k: nat)
    requires k <= |lines| && forall h :: 0 <= h < k ==> !IsSession(lines[h].record)
    ensures After(config, lines, k) == INITIAL
  {
    if k > 0 {
      UnopenedAwaits(config, lines, k - 1);
    }
  }

  lemma NextForeign(config: Config, lines: seq<Line>, c: nat, k: nat)
    requires Opens(lines, c, k) && k < |lines| && Opens(lines, c, k + 1)
    ensures InForeignHistory(config, lines, c, k + 1) <==>
              || (IsSession(lines[k].record) && lines[k].record.id != lines[c].record.id)
              || (InForeignHistory(config, lines, c, k) && !IsTaskOf(config, lines[c].record, lines[k].record))
  {
    var after := k + 1;
    if InForeignHistory(config, lines, c, after) {
      var j: nat :| ForeignSince(config, lines, c, j, after);
      if j < k {
        assert ForeignSince(config, lines, c, j, k);
      }
    }
    if IsSession(lines[k].record) && lines[k].record.id != lines[c].record.id {
      assert ForeignSince(config, lines, c, k, after);
    } else if InForeignHistory(config, lines, c, k) && !IsTaskOf(config, lines[c].record, lines[k].record) {
      var j: nat :| ForeignSince(config, lines, c, j, k);
      assert ForeignSince(config, lines, c, j, after);
    }
  }

  lemma StepInOpen(config: Config, g: Guard, line: Line, s: Record)
    requires s.SessionMeta? && g.canonical == Some(IdentityOf(s)) && g.phase != AwaitingCanonical
    ensures Step(config, g, line).0.canonical == g.canonical && Step(config, g, line).0.phase != AwaitingCanonical
    ensures Step(config, g, line).0.phase == ReplayingForeignHistory <==>
              || (IsSession(line.record) && line.record.id != s.id)
              || (g.phase == ReplayingForeignHistory && !IsTaskOf(config, s, line.record))
  {
    if line.record.TaskStarted? {
      BelongsIff(config, s, line.record);
    }
  }

  /**
   * Once a session has opened the rollout its identity is that of this session, and the guard
   * replays exactly while the line is in foreign history.
   */
  lemma {:induction false} ReplaysIffInForeignHistory(config: Config, lines: seq<Line>, c: nat, k: nat)
    requires Opens(lines, c, k)
    ensures After(config, lines, k).canonical == Some(IdentityOf(lines[c].record))
    ensures After(config, lines, k).phase
            == if InForeignHistory(config, lines, c, k) then ReplayingForeignHistory else Live
    decreases k
  {
    if k == c + 1 {
      UnopenedAwaits(config, lines, c);
    } else {
      ReplaysIffInForeignHistory(config, lines, c, k - 1);
      StepInOpen(config, After(config, lines, k - 1), lines[k - 1], lines[c].record);
      NextForeign(config, lines, c, k - 1);
    }
  }

  lemma {:induction false} OpenOrNot(lines: seq<Line>, k: nat)
    requires k <= |lines|
    ensures (exists c :: Opens(lines, c, k)) || forall h :: 0 <= h < k ==> !IsSession(lines[h].record)
  {
    if k > 0 {
      var before := k - 1;
      OpenOrNot(lines, before);
      if c :| Opens(lines, c, before) {
        assert Opens(lines, c, k);
      } else if IsSession(lines[k - 1].record) {
        assert Opens(lines, k - 1, k);
      }
    }
  }

  lemma LiveIff(config: Config, lines: seq<Line>, k: nat)
    requires k <= |lines|
    ensures After(config, lines, k).phase == Live <==> LiveAt(config, lines, k)
  {
    OpenOrNot(lines, k);
    if c :| Opens(lines, c, k) {
      ReplaysIffInForeignHistory(config, lines, c, k);
      forall d | Opens(lines, d, k)
        ensures d == c
      {
      }
    } else {
      UnopenedAwaits(config, lines, k);
    }
  }

  /** Nothing that is not live is confirmed, and it leaves the counters as they are. */
  lemma NotLiveCountsNothing(config: Config, lines: seq<Line>, k: nat)
    requires k < |lines| && !LiveAt(config, lines, k)
    ensures After(config, lines, k + 1).previousTotal == After(config, lines, k).previousTotal
    ensures After(config, lines, k + 1).counterEpoch == After(config, lines, k).counterEpoch
    ensures forall e :: Step(config, After(config, lines, k), lines[k]).2 == Some(e) ==> e.quality == Quarantined
  {
    LiveIff(config, lines, k);
  }

  /** So foreign history, from the session that opens it to the task that ends it, counts for nothing. */
  lemma {:induction false} ForeignHistoryCountsNothing(config: Config, lines: seq<Line>, c: nat, j: nat, k: nat)
    requires Opens(lines, c, k) && ForeignSince(config, lines, c, j, k)
    ensures After(config, lines, k).previousTotal == After(config, lines, j).previousTotal
    ensures After(config, lines, k).counterEpoch == After(config, lines, j).counterEpoch
    ensures forall i, e :: j <= i < k && Step(config, After(config, lines, i), lines[i]).2 == Some(e) ==>
              e.quality == Quarantined
    decreases k
  {
    if k == j + 1 {
    } else {
      assert Opens(lines, c, k - 1) && ForeignSince(config, lines, c, j, k - 1);
      ForeignHistoryCountsNothing(config, lines, c, j, k - 1);
      assert !LiveAt(config, lines, k - 1) by {
        ReplaysIffInForeignHistory(config, lines, c, k - 1);
        LiveIff(config, lines, k - 1);
      }
      NotLiveCountsNothing(config, lines, k - 1);
    }
  }

  // ----- erasing foreign history -----

  /** The rollout's own records: the session that opens it, and what keeps it live. */
  ghost predicate OwnAt(config: Config, lines: seq<Line>, k: nat) {
    Opens(lines, k, k + 1) || (LiveAt(config, lines, k) && LiveAt(config, lines, k + 1))
  }

  ghost function Kept(config: Config, lines: seq<Line>, k: nat): seq<Line>
    requires k <= |lines|
  {
    if k == 0 then [] else Kept(config, lines, k - 1) + if OwnAt(config, lines, k - 1) then [lines[k - 1]] else []
  }

  lemma OwnIff(config: Config, lines: seq<Line>, k: nat)
    requires k < |lines|
    ensures Own(After(config, lines, k), lines[k].record) <==> OwnAt(config, lines, k)
  {
    LiveIff(config, lines, k);
    LiveIff(config, lines, k + 1);
    ReachableIsCoherent(config, lines, k);
    OpenOrNot(lines, k);
    if c: nat :| Opens(lines, c, k) {
      ReplaysIffInForeignHistory(config, lines, c, k);
      assert !Opens(lines, k, k + 1);
    } else {
      UnopenedAwaits(config, lines, k);
    }
  }

  lemma {:induction false} KeptIsOwn(config: Config, lines: seq<Line>, k: nat)
    requires k <= |lines|
    ensures KeptAt(StepOf(config), OwnRecords(), INITIAL, lines, k) == Kept(config, lines, k)
  {
    if k > 0 {
      KeptIsOwn(config, lines, k - 1);
      OwnIff(config, lines, k - 1);
    }
  }

  /**
   * Foreign history leaves no trace. Deleting every record outside the live stream, and every
   * record that opens foreign history, changes neither what is confirmed nor the counters and
   * the identity the guard ends with.
   */
  lemma ForeignHistoryIsErased(config: Config, lines: seq<Line>, own: seq<Line>)
    requires own == Kept(config, lines, |lines|)
    ensures ConfirmedCounts(config, own) == ConfirmedCounts(config, lines)
    ensures Erases(After(config, own, |own|), After(config, lines, |lines|))
  {
    KeptIsOwn(config, lines, |lines|);
    ConfirmedStepsAreErasable(config);
    RunErases(ConfirmedStep(config), ConfirmedStep(config), OwnRecords(), CoherentGuards(), Erasure(),
              INITIAL, lines, |lines|);
    OwnLinesOf(ConfirmedStep(config), config, lines, |lines|);
    SameStates(ConfirmedStep(config), StepOf(config), INITIAL, lines, |lines|);
    SameStates(ConfirmedStep(config), StepOf(config), INITIAL, own, |own|);
  }

  /** What line `k` counts for if it is live, trusted or not. */
  ghost function LiveCountAt(config: Config, lines: seq<Line>, k: nat): Option<Counted>
    requires k < |lines|
  {
    if LiveAt(config, lines, k) then Count(Step(config, After(config, lines, k), lines[k]).2) else None
  }

  ghost function LiveCounts(config: Config, lines: seq<Line>, k: nat): seq<Counted>
    requires k <= |lines|
  {
    if k == 0 then [] else
      var counted := LiveCountAt(config, lines, k - 1);
      LiveCounts(config, lines, k - 1) + if counted.Some? then [counted.value] else []
  }

  lemma LiveStepEmits(config: Config, lines: seq<Line>, k: nat)
    requires k < |lines|
    ensures LiveStep(config)(StateAt(LiveStep(config), INITIAL, lines, k), lines[k]).1 == LiveCountAt(config, lines, k)
  {
    SameStates(LiveStep(config), StepOf(config), INITIAL, lines, k);
    LiveIff(config, lines, k);
  }

  lemma {:induction false} LiveCountsAreEmitted(config: Config, lines: seq<Line>, k: nat)
    requires k <= |lines|
    ensures EmittedAt(LiveStep(config), INITIAL, lines, k) == LiveCounts(config, lines, k)
  {
    if k > 0 {
      LiveCountsAreEmitted(config, lines, k - 1);
      LiveStepEmits(config, lines, k - 1);
    }
  }

  /** What is left counts everything that was live, and nothing else. */
  lemma OnlyLiveRecordsAreLeft(config: Config, lines: seq<Line>)
    ensures AllCounts(config, Kept(config, lines, |lines|)) == LiveCounts(config, lines, |lines|)
  {
    KeptIsOwn(config, lines, |lines|);
    LiveCountsAreEmitted(config, lines, |lines|);
    LiveStepsAreErasable(config);
    RunErases(LiveStep(config), CountingStep(config), OwnRecords(), CoherentGuards(), Erasure(),
              INITIAL, lines, |lines|);
    OwnLinesOf(LiveStep(config), config, lines, |lines|);
  }

  // ----- the counters -----

  /** The totals of live token counts, in order. */
  ghost function LiveTotals(config: Config, lines: seq<Line>, k: nat): seq<TokenUsage>
    requires k <= |lines|
  {
    if k == 0 then [] else
      LiveTotals(config, lines, k - 1)
      + if LiveAt(config, lines, k - 1) then TotalIn(lines[k - 1].record) else []
  }

  ghost function TotalIn(r: Record): seq<TokenUsage> {
    if r.TokenCount? && r.total.Some? then [r.total.value] else []
  }

  ghost function LastOf(totals: seq<TokenUsage>): Option<TokenUsage> {
    if totals == [] then None else Some(totals[|totals| - 1])
  }

  ghost predicate FallsBelow(u: TokenUsage, v: TokenUsage) {
    exists d: Dimension :: u.Get(d) < v.Get(d)
  }

  /** How often, among the first `n` totals, some dimension falls below its predecessor. */
  ghost function Drops(totals: seq<TokenUsage>, n: nat): nat
    requires n <= |totals|
  {
    if n <= 1 then 0 else
      Drops(totals, n - 1)
      + if FallsBelow(totals[n - 1], totals[n - 2]) then 1 else 0
  }

  ghost predicate Follows(g: Guard, totals: seq<TokenUsage>) {
    g.counterEpoch == Drops(totals, |totals|) && g.previousTotal == LastOf(totals)
  }

  lemma {:induction false} DropsOnPrefix(a: seq<TokenUsage>, b: seq<TokenUsage>, n: nat)
    requires n <= |a| && a <= b
    ensures Drops(a, n) == Drops(b, n)
  {
    if n > 1 {
      DropsOnPrefix(a, b, n - 1);
    }
  }

  lemma NoDeltaIffFallsBelow(u: TokenUsage, v: TokenUsage)
    ensures u.CheckedDelta(v).None? <==> FallsBelow(u, v)
  {
  }

  lemma StepFollows(config: Config, g: Guard, line: Line, totals: seq<TokenUsage>, after: seq<TokenUsage>)
    requires Follows(g, totals) && after == totals + if g.phase == Live then TotalIn(line.record) else []
    ensures Follows(Step(config, g, line).0, after)
  {
    if after == totals {
      assert Step(config, g, line).0.previousTotal == g.previousTotal;
    } else {
      DropsOnPrefix(totals, after, |totals|);
      if totals != [] {
        NoDeltaIffFallsBelow(after[|totals|], totals[|totals| - 1]);
      }
    }
  }

  /** Over any run, the guard holds the last live total, and its epoch counts the drops between live totals. */
  lemma {:induction false} CountersFollowLiveTotals(config: Config, lines: seq<Line>, k: nat)
    requires k <= |lines|
    ensures Follows(After(config, lines, k), LiveTotals(config, lines, k))
  {
    if k > 0 {
      CountersFollowLiveTotals(config, lines, k - 1);
      LiveIff(config, lines, k - 1);
      StepFollows(config, After(config, lines, k - 1), lines[k - 1], LiveTotals(config, lines, k - 1),
                  LiveTotals(config, lines, k));
    }
  }

  // ----- the events -----

  ghost predicate Shows(e: Option<Event>, usage: TokenUsage, quality: Quality) {
    e.Some? && e.value.usage == usage && e.value.quality == quality
  }

  /** A line is confirmed exactly when it brings, live, a valid nonzero last usage with a new total or none. */
  lemma ConfirmedIffNewLastUsage(config: Config, lines: seq<Line>, k: nat, usage: TokenUsage)
    requires k < |lines|
    ensures var r := lines[k].record;
      Shows(Step(config, After(config, lines, k), lines[k]).2, usage, Confirmed) <==>
      && LiveAt(config, lines, k) && r.TokenCount? && r.last == Some(usage) && usage.Valid() && !usage.IsZero()
      && (r.total == None || r.total != LastOf(LiveTotals(config, lines, k)))
  {
    LiveIff(config, lines, k);
    CountersFollowLiveTotals(config, lines, k);
  }

  /** `usage` is what `later` exceeds `earlier` by; without an earlier total, or where it fell, all of it. */
  ghost predicate IsRise(usage: TokenUsage, earlier: Option<TokenUsage>, later: TokenUsage) {
    if earlier.None? || FallsBelow(later, earlier.value) then usage == later
    else forall d: Dimension :: earlier.value.Get(d) + usage.Get(d) == later.Get(d)
  }

  /** What is shown but not trusted. */
  ghost predicate Doubtful(usage: TokenUsage, live: bool, previous: Option<TokenUsage>, r: Record)
    requires r.TokenCount?
  {
    if !live then if r.last.Some? then usage == r.last.value else r.total == Some(usage)
    else
      && (r.total == None || r.total != previous)
      && if r.last.Some? then usage == r.last.value && !usage.Valid()
         else r.total.Some? && IsRise(usage, previous, r.total.value)
  }

  lemma RiseIsWorth(previous: Option<TokenUsage>, total: TokenUsage, usage: TokenUsage)
    ensures Worth(previous, Some(total), None) == (usage, Quarantined) <==> IsRise(usage, previous, total)
  {
    if previous.Some? {
      NoDeltaIffFallsBelow(total, previous.value);
      if !FallsBelow(total, previous.value) && IsRise(usage, previous, total) {
        var delta := total.CheckedDelta(previous.value).value;
        forall d: Dimension
          ensures usage.Get(d) == delta.Get(d)
        {
          assert previous.value.Get(d) + usage.Get(d) == total.Get(d);
        }
        SameUsage(usage, delta);
      }
    }
  }

  lemma StepIsDoubtful(config: Config, g: Guard, line: Line, usage: TokenUsage)
    ensures Shows(Step(config, g, line).2, usage, Quarantined) <==>
              line.record.TokenCount? && Doubtful(usage, g.phase == Live, g.previousTotal, line.record)
  {
    var r := line.record;
    if r.TokenCount? && r.total.Some? {
      RiseIsWorth(g.previousTotal, r.total.value, usage);
    }
  }

  /** A line is shown without being trusted exactly with such a usage. */
  lemma QuarantinedIffDoubtful(config: Config, lines: seq<Line>, k: nat, usage: TokenUsage)
    requires k < |lines|
    ensures Shows(Step(config, After(config, lines, k), lines[k]).2, usage, Quarantined) <==>
              && lines[k].record.TokenCount?
              && Doubtful(usage, LiveAt(config, lines, k), LastOf(LiveTotals(config, lines, k)), lines[k].record)
  {
    LiveIff(config, lines, k);
    CountersFollowLiveTotals(config, lines, k);
    StepIsDoubtful(config, After(config, lines, k), lines[k], usage);
  }

  /** A task of the rollout, met in foreign history, takes it back to its first context. */
  ghost predicate Returns(config: Config, lines: seq<Line>, k: nat)
    requires k < |lines|
  {
    exists c: nat :: Opens(lines, c, k) && InForeignHistory(config, lines, c, k)
                && IsTaskOf(config, lines[c].record, lines[k].record)
  }

  ghost function NextModel(config: Config, lines: seq<Line>, before: Option<string>, k: nat): Option<string>
    requires k < |lines|
  {
    var r := lines[k].record;
    if r.TurnContext? && r.model != "" && LiveAt(config, lines, k) then Some(r.model)
    else if Returns(config, lines, k) then None
    else before
  }

  /** The model of the last live context that named one since the rollout opened or returned. */
  ghost function LastModel(config: Config, lines: seq<Line>, k: nat): Option<string>
    requires k <= |lines|
  {
    if k == 0 then None else NextModel(config, lines, LastModel(config, lines, k - 1), k - 1)
  }

  ghost function FirstCwd(lines: seq<Line>, k: nat): Option<string> {
    if c: nat :| Opens(lines, c, k) then lines[c].record.initialCwd else None
  }

  ghost function NextCwd(config: Config, lines: seq<Line>, before: Option<string>, k: nat): Option<string>
    requires k < |lines|
  {
    var r := lines[k].record;
    if r.TurnContext? && r.cwd != "" && LiveAt(config, lines, k) then Some(r.cwd)
    else if Returns(config, lines, k) || Opens(lines, k, k + 1) then FirstCwd(lines, k + 1)
    else before
  }

  /** The directory of the last live context that named one since then, or that of the opening session. */
  ghost function LastCwd(config: Config, lines: seq<Line>, k: nat): Option<string>
    requires k <= |lines|
  {
    if k == 0 then None else NextCwd(config, lines, LastCwd(config, lines, k - 1), k - 1)
  }

  lemma OpensOnce(lines: seq<Line>, c: nat, j: nat, k: nat)
    requires Opens(lines, c, j) && j <= k <= |lines|
    ensures forall d: nat :: Opens(lines, d, k) ==> d == c
  {
  }

  lemma ReturnsInOpen(config: Config, lines: seq<Line>, c: nat, k: nat)
    requires k < |lines| && Opens(lines, c, k)
    ensures Returns(config, lines, k) <==>
              && After(config, lines, k).phase == ReplayingForeignHistory
              && IsTaskOf(config, lines[c].record, lines[k].record)
  {
    ReplaysIffInForeignHistory(config, lines, c, k);
    OpensOnce(lines, c, k, k);
  }

  lemma StepContext(config: Config, g: Guard, line: Line, s: Record)
    requires s.SessionMeta? && g.canonical == Some(IdentityOf(s))
    ensures var r := line.record;
      var back := g.phase == ReplayingForeignHistory && IsTaskOf(config, s, r);
      && Step(config, g, line).0.model ==
         (if r.TurnContext? && r.model != "" && g.phase == Live then Some(r.model)
          else if back then None else g.model)
      && Step(config, g, line).0.cwd ==
         (if r.TurnContext? && r.cwd != "" && g.phase == Live then Some(r.cwd)
          else if back then s.initialCwd else g.cwd)
  {
    if line.record.TaskStarted? {
      BelongsIff(config, s, line.record);
    }
  }

  lemma ContextInOpen(config: Config, lines: seq<Line>, c: nat, k: nat)
    requires k < |lines| && Opens(lines, c, k)
    ensures After(config, lines, k + 1).model == NextModel(config, lines, After(config, lines, k).model, k)
    ensures After(config, lines, k + 1).cwd == NextCwd(config, lines, After(config, lines, k).cwd, k)
  {
    ReplaysIffInForeignHistory(config, lines, c, k);
    ReturnsInOpen(config, lines, c, k);
    StepContext(config, After(config, lines, k), lines[k], lines[c].record);
    OpensOnce(lines, c, k, k + 1);
    assert Opens(lines, c, k + 1);
    LiveIff(config, lines, k);
  }

  lemma ContextBeforeOpen(config: Config, lines: seq<Line>, k: nat)
    requires k < |lines| && forall h :: 0 <= h < k ==> !IsSession(lines[h].record)
    ensures After(config, lines, k + 1).model == NextModel(config, lines, After(config, lines, k).model, k)
    ensures After(config, lines, k + 1).cwd == NextCwd(config, lines, After(config, lines, k).cwd, k)
  {
    UnopenedAwaits(config, lines, k);
    LiveIff(config, lines, k);
    assert !Returns(config, lines, k);
    if IsSession(lines[k].record) {
      var after := k + 1;
      assert Opens(lines, k, after);
      assert forall d: nat :: Opens(lines, d, after) ==> d == k;
    }
  }

  /** The model and the directory every event is shown under. */
  lemma {:induction false} ContextIsTheLast(config: Config, lines: seq<Line>, k: nat)
    requires k <= |lines|
    ensures After(config, lines, k).model == LastModel(config, lines, k)
    ensures After(config, lines, k).cwd == LastCwd(config, lines, k)
  {
    if k > 0 {
      var before := k - 1;
      ContextIsTheLast(config, lines, before);
      OpenOrNot(lines, before);
      if c: nat :| Opens(lines, c, before) {
        ContextInOpen(config, lines, c, before);
      } else {
        ContextBeforeOpen(config, lines, before);
      }
    }
  }

  /** An event tells its line, the rollout and the context in force. */
  lemma EventTellsItsContext(config: Config, lines: seq<Line>, k: nat, e: Event)
    requires k < |lines| && Step(config, After(config, lines, k), lines[k]).2 == Some(e)
    ensures e.byteOffset == lines[k].byteOffset && e.lineNumber == lines[k].lineNumber
    ensures forall c: nat :: Opens(lines, c, k) ==> e.rolloutId == lines[c].record.id
    ensures (forall c: nat :: !Opens(lines, c, k)) ==> e.rolloutId == "unknown:{" + config.fileIdentity + "}"
    ensures e.model == LastModel(config, lines, k) && e.cwd == LastCwd(config, lines, k)
  {
    ContextIsTheLast(config, lines, k);
    OpenOrNot(lines, k);
    if c: nat :| Opens(lines, c, k) {
      ReplaysIffInForeignHistory(config, lines, c, k);
      assert forall d: nat :: Opens(lines, d, k) ==> d == c;
    } else {
      UnopenedAwaits(config, lines, k);
    }
  }

  // ----- the dispositions -----

  ghost function DispositionAt(config: Config, lines: seq<Line>, k: nat): Disposition
    requires k < |lines|
  {
    Step(config, After(config, lines, k), lines[k]).1
  }

  /** Session `k` carries, or does not carry, the identifier of the session that opened the rollout. */
  ghost predicate MeetsSession(lines: seq<Line>, k: nat, same: bool)
    requires k < |lines|
  {
    exists c: nat :: Opens(lines, c, k) && IsSession(lines[k].record)
                     && (lines[k].record.id == lines[c].record.id) == same
  }

  lemma SessionDisposition(config: Config, lines: seq<Line>, k: nat)
    requires k < |lines|
    ensures DispositionAt(config, lines, k) == CanonicalSessionEstablished <==> Opens(lines, k, k + 1)
    ensures DispositionAt(config, lines, k) == ForeignSessionQuarantined <==> MeetsSession(lines, k, false)
    ensures DispositionAt(config, lines, k) == DuplicateSessionQuarantined <==> MeetsSession(lines, k, true)
    ensures DispositionAt(config, lines, k) == ReplayEnded <==> Returns(config, lines, k)
  {
    OpenOrNot(lines, k);
    if c: nat :| Opens(lines, c, k) {
      ReplaysIffInForeignHistory(config, lines, c, k);
      assert forall d: nat :: Opens(lines, d, k) ==> d == c;
      if lines[k].record.TaskStarted? {
        BelongsIff(config, lines[c].record, lines[k].record);
      }
    } else {
      UnopenedAwaits(config, lines, k);
    }
  }

  /** A live count whose total falls below the one before. */
  ghost predicate DropsAt(config: Config, lines: seq<Line>, k: nat)
    requires k < |lines|
  {
    var r, totals := lines[k].record, LiveTotals(config, lines, k);
    && LiveAt(config, lines, k) && r.TokenCount? && r.total.Some?
    && totals != [] && FallsBelow(r.total.value, totals[|totals| - 1])
  }

  lemma UsageDisposition(config: Config, lines: seq<Line>, k: nat)
    requires k < |lines|
    ensures DispositionAt(config, lines, k) == CounterReset <==> DropsAt(config, lines, k)
    ensures DispositionAt(config, lines, k) == ContextUpdated <==>
              LiveAt(config, lines, k) && lines[k].record.TurnContext?
    ensures DispositionAt(config, lines, k) == Malformed <==>
              || lines[k].record.Invalid? || (lines[k].record.SessionMeta? && lines[k].record.id == "")
              || (lines[k].record.TokenCount? && lines[k].record.total == None && lines[k].record.last == None)
    ensures DispositionAt(config, lines, k) in {ConfirmedUsage, QuarantinedUsage, CounterUnchanged} ==>
              LiveAt(config, lines, k) && lines[k].record.TokenCount? && !DropsAt(config, lines, k)
  {
    LiveIff(config, lines, k);
    CountersFollowLiveTotals(config, lines, k);
    var r, totals := lines[k].record, LiveTotals(config, lines, k);
    if r.TokenCount? && r.total.Some? && totals != [] {
      NoDeltaIffFallsBelow(r.total.value, totals[|totals| - 1]);
    }
  }

  /** A live count that does not drop is unchanged without an event, and is called what its event is. */
  lemma CountDisposition(config: Config, g: Guard, line: Line)
    requires g.phase == Live && line.record.TokenCount? && Step(config, g, line).1 !in {CounterReset, Malformed}
    ensures Step(config, g, line).1 == (
              match Step(config, g, line).2
              case None => CounterUnchanged
              case Some(e) => if e.quality == Confirmed then ConfirmedUsage else QuarantinedUsage)
  {
  }

  /** Outside the live stream nothing is read; in foreign history even unrelated records are set aside. */
  lemma QuarantineDisposition(config: Config, lines: seq<Line>, k: nat)
    requires k < |lines|
    ensures DispositionAt(config, lines, k) == ReplayRecordQuarantined <==>
              && !LiveAt(config, lines, k)
              && (|| lines[k].record.TurnContext?
                  || (lines[k].record.TokenCount? && (lines[k].record.total.Some? || lines[k].record.last.Some?))
                  || ((lines[k].record.Unrelated? || lines[k].record.TaskStarted?)
                      && !Returns(config, lines, k) && exists c: nat :: Opens(lines, c, k)))
  {
    LiveIff(config, lines, k);
    SessionDisposition(config, lines, k);
    OpenOrNot(lines, k);
    if c: nat :| Opens(lines, c, k) {
      ReplaysIffInForeignHistory(config, lines, c, k);
    } else {
      UnopenedAwaits(config, lines, k);
    }
  }
}
