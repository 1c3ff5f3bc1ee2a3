/** Quarantine of replayed foreign history inside one rollout (src/replay.rs). */
module Replay {
  import opened Prelude
  import opened Types
  import opened Folds

  const SCHEMA_VERSION := 1

  /** The start of a task may lie this many milliseconds before the canonical record. */
  const TASK_TOLERANCE_MILLIS: u64 := 2_000

  /** `millis` reads the time prefix of an identifier; identifiers are not interpreted otherwise. */
  datatype Config = Config(fileIdentity: string, millis: string -> Option<u64>)

  datatype Canonical = Canonical(
    rolloutId: string,
    parent: Option<string>,
    initialCwd: Option<string>,
    atMillis: Option<int>)

  datatype Phase = AwaitingCanonical | Live | ReplayingForeignHistory

  /** A parsed line. An absent text field is the empty string. */
  datatype Record =
    | Blank
    | Invalid
    | SessionMeta(id: string, parent: Option<string>, initialCwd: Option<string>, atMillis: Option<int>)
    | TurnContext(model: string, cwd: string)
    | TaskStarted(turnId: string, startedAt: Option<u64>)
    | TokenCount(total: Option<TokenUsage>, last: Option<TokenUsage>)
    | Unrelated

  datatype Line = Line(byteOffset: nat, lineNumber: nat, record: Record)

  datatype Disposition =
    | Ignored | Malformed
    | CanonicalSessionEstablished | ForeignSessionQuarantined | DuplicateSessionQuarantined
    | ReplayRecordQuarantined | ReplayEnded | ContextUpdated
    | ConfirmedUsage | QuarantinedUsage | CounterUnchanged | CounterReset

  datatype Quality = Confirmed | Quarantined

  datatype Event = Event(
    byteOffset: nat,
    lineNumber: nat,
    rolloutId: string,
    model: Option<string>,
    cwd: Option<string>,
    usage: TokenUsage,
    quality: Quality)

  datatype Guard = Guard(
    canonical: Option<Canonical>,
    phase: Phase,
    model: Option<string>,
    cwd: Option<string>,
    previousTotal: Option<TokenUsage>,
    counterEpoch: nat)

  const INITIAL: Guard := Guard(None, AwaitingCanonical, None, None, None, 0)

  // ----- one step, as a function -----

  function EventOf(config: Config, g: Guard, line: Line, usage: TokenUsage, quality: Quality): Event {
    var rolloutId := if g.canonical.Some? then g.canonical.value.rolloutId else "unknown:{" + config.fileIdentity + "}";
    Event(line.byteOffset, line.lineNumber, rolloutId, g.model, g.cwd, usage, quality)
  }

  /** A task belongs to the canonical stream by its identifier, or by its starting time. */
  predicate TaskBelongs(config: Config, c: Canonical, turnId: string, startedAt: Option<u64>) {
    var turn, rollout := config.millis(turnId), config.millis(c.rolloutId);
    || (turn.Some? && rollout.Some? && turn.value >= rollout.value)
    || (&& startedAt.Some? && c.atMillis.Some? && 0 <= c.atMillis.value
        && SatAdd(Sat(startedAt.value * 1_000), TASK_TOLERANCE_MILLIS) >= c.atMillis.value)
  }

  predicate IsReset(previous: Option<TokenUsage>, total: Option<TokenUsage>) {
    previous.Some? && total.Some? && total.value.CheckedDelta(previous.value).None?
  }

  /** What a live token count is worth: the explicit last usage, or an untrusted difference. */
  function Worth(previous: Option<TokenUsage>, total: Option<TokenUsage>, last: Option<TokenUsage>): (TokenUsage,
      Quality) {
    if last.Some? then (last.value, if last.value.Valid() then Confirmed else Quarantined)
    else if previous.Some? && total.Some? && !IsReset(previous, total)
    then (total.value.CheckedDelta(previous.value).value, Quarantined)
    else (if total.Some? then total.value else ZERO, Quarantined)
  }

  function CountLive(config: Config, g: Guard, line: Line, total: Option<TokenUsage>, last: Option<TokenUsage>)
    : (Guard, Disposition, Option<Event>)
  {
    if total.Some? && total == g.previousTotal then (g, CounterUnchanged, None)
    else
      var reset := IsReset(g.previousTotal, total);
      var next := g.(previousTotal := if total.Some? then total else g.previousTotal,
                     counterEpoch := if reset then g.counterEpoch + 1 else g.counterEpoch);
      var (usage, quality) := Worth(g.previousTotal, total, last);
      if usage.IsZero() && quality == Confirmed then (next, if reset then CounterReset else CounterUnchanged, None)
      else
        var disposition := if reset then CounterReset
                           else if quality == Confirmed then ConfirmedUsage else QuarantinedUsage;
        (next, disposition, Some(EventOf(config, next, line, usage, quality)))
  }

  function CountToken(config: Config, g: Guard, line: Line, total: Option<TokenUsage>, last: Option<TokenUsage>)
    : (Guard, Disposition, Option<Event>)
  {
    if total.None? && last.None? then (g, Malformed, None)
    else if g.phase != Live then
      var usage := if last.Some? then last.value else total.value;
      (g, ReplayRecordQuarantined, Some(EventOf(config, g, line, usage, Quarantined)))
    else CountLive(config, g, line, total, last)
  }

  function MeetSession(g: Guard, r: Record): (Guard, Disposition, Option<Event>)
    requires r.SessionMeta?
  {
    if r.id == "" then (g, Malformed, None)
    else if g.canonical.None? then
      (g.(canonical := Some(Canonical(r.id, r.parent, r.initialCwd, r.atMillis)), phase := Live, cwd := r.initialCwd),
       CanonicalSessionEstablished, None)
    else if r.id == g.canonical.value.rolloutId then (g, DuplicateSessionQuarantined, None)
    else (g.(phase := ReplayingForeignHistory), ForeignSessionQuarantined, None)
  }

  function StartTask(config: Config, g: Guard, r: Record): (Guard, Disposition, Option<Event>)
    requires r.TaskStarted?
  {
    if g.phase != ReplayingForeignHistory then (g, Ignored, None)
    else if g.canonical.None? || !TaskBelongs(config, g.canonical.value, r.turnId, r.startedAt)
    then (g, ReplayRecordQuarantined, None)
    else (g.(phase := Live, model := None, cwd := g.canonical.value.initialCwd), ReplayEnded, None)
  }

  function TakeContext(g: Guard, r: Record): (Guard, Disposition, Option<Event>)
    requires r.TurnContext?
  {
    if g.phase != Live then (g, ReplayRecordQuarantined, None)
    else
      (g.(model := if r.model != "" then Some(r.model) else g.model, cwd := if r.cwd != "" then Some(r.cwd) else g.cwd),
       ContextUpdated, None)
  }

  function Step(config: Config, g: Guard, line: Line): (Guard, Disposition, Option<Event>) {
    match line.record
    case Blank => (g, Ignored, None)
    case Invalid => (g, Malformed, None)
    case SessionMeta(_, _, _, _) => MeetSession(g, line.record)
    case TurnContext(_, _) => TakeContext(g, line.record)
    case TaskStarted(_, _) => StartTask(config, g, line.record)
    case TokenCount(total, last) => CountToken(config, g, line, total, last)
    case Unrelated => (g, if g.phase == ReplayingForeignHistory then ReplayRecordQuarantined else Ignored, None)
  }

  // ----- the guard itself -----

  datatype CheckpointError =
    | UnsupportedSchemaVersion(version: nat)
    | FileIdentityMismatch(checkpoint: string, configured: string)
    | MissingCanonicalRollout

  datatype Checkpoint = Checkpoint(schemaVersion: nat, fileIdentity: Option<string>, guard: Guard)

  /** What a checkpoint restores to, or why it is refused. */
  function Restored(config: Config, c: Checkpoint): Result<Guard, CheckpointError> {
    if c.schemaVersion == 0 || c.schemaVersion > SCHEMA_VERSION then Err(UnsupportedSchemaVersion(c.schemaVersion))
    else if c.fileIdentity.Some? && c.fileIdentity.value != config.fileIdentity
    then Err(FileIdentityMismatch(c.fileIdentity.value, config.fileIdentity))
    else if c.guard.canonical.None? && c.guard.phase != AwaitingCanonical then Err(MissingCanonicalRollout)
    else Ok(c.guard)
  }

  class ReplayGuard {
    const config: Config
    var canonical: Option<Canonical>
    var phase: Phase
    var model: Option<string>
    var cwd: Option<string>
    var previousTotal: Option<TokenUsage>
    var counterEpoch: nat

    function Value(): Guard
      reads this
    {
      Guard(canonical, phase, model, cwd, previousTotal, counterEpoch)
    }

    constructor (config: Config)
      ensures Value() == INITIAL && this.config == config
    {
      this.config := config;
      canonical, phase, model, cwd, previousTotal, counterEpoch := None, AwaitingCanonical, None, None, None, 0;
    }

    constructor Resume(config: Config, g: Guard)
      ensures Value() == g && this.config == config
    {
      this.config := config;
      canonical, phase, model, cwd := g.canonical, g.phase, g.model, g.cwd;
      previousTotal, counterEpoch := g.previousTotal, g.counterEpoch;
    }

    static method FromCheckpoint(config: Config, c: Checkpoint) returns (r: Result<ReplayGuard, CheckpointError>)
      ensures r.Ok? <==> Restored(config, c).Ok?
      ensures r.Ok? ==> fresh(r.value) && Ok(r.value.Value()) == Restored(config, c) && r.value.config == config
      ensures r.Err? ==> Restored(config, c) == Err(r.error)
    {
      if c.schemaVersion == 0 || c.schemaVersion > SCHEMA_VERSION {
        return Err(UnsupportedSchemaVersion(c.schemaVersion));
      }
      if c.fileIdentity.Some? && c.fileIdentity.value != config.fileIdentity {
        return Err(FileIdentityMismatch(c.fileIdentity.value, config.fileIdentity));
      }
      if c.guard.canonical.None? && c.guard.phase != AwaitingCanonical {
        return Err(MissingCanonicalRollout);
      }
      var guard := new ReplayGuard.Resume(config, c.guard);
      return Ok(guard);
    }

    method MakeCheckpoint() returns (c: Checkpoint)
      ensures c == CheckpointOf(config, Value())
    {
      c := Checkpoint(SCHEMA_VERSION, Some(config.fileIdentity),
                      Guard(canonical, phase, model, cwd, previousTotal, counterEpoch));
    }

    method ProcessLine(line: Line) returns (disposition: Disposition, event: Option<Event>)
      modifies this
      ensures (Value(), disposition, event) == Step(config, old(Value()), line)
    {
      event := None;
      match line.record {
        case Blank => disposition := Ignored;
        case Invalid => disposition := Malformed;
        case SessionMeta(_, _, _, _) => disposition := ProcessSessionMeta(line.record);
        case TurnContext(_, _) => disposition := ProcessTurnContext(line.record);
        case TaskStarted(_, _) => disposition := ProcessTaskStarted(line.record);
        case TokenCount(total, last) => disposition, event := ProcessTokenCount(line, total, last);
        case Unrelated =>
          disposition := if phase == ReplayingForeignHistory then ReplayRecordQuarantined else Ignored;
      }
    }

    method ProcessSessionMeta(r: Record) returns (disposition: Disposition)
      requires r.SessionMeta?
      modifies this
      ensures (Value(), disposition, None) == MeetSession(old(Value()), r)
      ensures r.id != "" && old(canonical).Some? && r.id != old(canonical).value.rolloutId ==>
                phase == ReplayingForeignHistory && canonical == old(canonical)
      ensures r.id != "" && old(canonical).None? ==>
                phase == Live && canonical == Some(Canonical(r.id, r.parent, r.initialCwd, r.atMillis))
    {
      if r.id == "" {
        return Malformed;
      }
      if canonical.None? {
        cwd := r.initialCwd;
        canonical := Some(Canonical(r.id, r.parent, r.initialCwd, r.atMillis));
        phase := Live;
        return CanonicalSessionEstablished;
      }
      if r.id == canonical.value.rolloutId {
        return DuplicateSessionQuarantined;
      }
      phase := ReplayingForeignHistory;
      return ForeignSessionQuarantined;
    }

    method ProcessTaskStarted(r: Record) returns (disposition: Disposition)
      requires r.TaskStarted?
      modifies this
      ensures (Value(), disposition, None) == StartTask(config, old(Value()), r)
    {
      if phase != ReplayingForeignHistory {
        return Ignored;
      }
      if canonical.None? || !TaskBelongs(config, canonical.value, r.turnId, r.startedAt) {
        return ReplayRecordQuarantined;
      }
      phase := Live;
      model := None;
      cwd := canonical.value.initialCwd;
      return ReplayEnded;
    }

    method ProcessTurnContext(r: Record) returns (disposition: Disposition)
      requires r.TurnContext?
      modifies this
      ensures (Value(), disposition, None) == TakeContext(old(Value()), r)
    {
      if phase != Live {
        return ReplayRecordQuarantined;
      }
      if r.model != "" {
        model := Some(r.model);
      }
      if r.cwd != "" {
        cwd := Some(r.cwd);
      }
      return ContextUpdated;
    }

    method ProcessTokenCount(line: Line, total: Option<TokenUsage>, last: Option<TokenUsage>)
      returns (disposition: Disposition, event: Option<Event>)
      modifies this
      ensures (Value(), disposition, event) == CountToken(config, old(Value()), line, total, last)
    {
      if total.None? && last.None? {
        return Malformed, None;
      }
      if phase != Live {
        var usage := if last.Some? then last.value else total.value;
        return ReplayRecordQuarantined, Some(EventOf(config, Value(), line, usage, Quarantined));
      }
      var previous := previousTotal;
      var reset := IsReset(previous, total);
      if total.Some? && total == previous {
        return CounterUnchanged, None;
      }
      var delta := if previous.Some? && total.Some? && !reset then total.value.CheckedDelta(previous.value) else None;
      if total.Some? {
        previousTotal := total;
      }
      if reset {
        counterEpoch := counterEpoch + 1;
      }
      var usage, quality := ZERO, Quarantined;
      if last.Some? {
        usage, quality := last.value, if last.value.Valid() then Confirmed else Quarantined;
      } else if delta.Some? {
        usage := delta.value;
      } else if total.Some? {
        usage := total.value;
      }
      if usage.IsZero() && quality == Confirmed {
        return if reset then CounterReset else CounterUnchanged, None;
      }
      disposition := if reset then CounterReset else if quality == Confirmed then ConfirmedUsage else QuarantinedUsage;
      event := Some(EventOf(config, Value(), line, usage, quality));
    }
  }

  function CheckpointOf(config: Config, g: Guard): Checkpoint {
    Checkpoint(SCHEMA_VERSION, Some(config.fileIdentity), g)
  }

  // ----- runs -----

  ghost function StepOf(config: Config): (Guard, Line) -> (Guard, Option<Event>) {
    (g: Guard, line: Line) => (Step(config, g, line).0, Step(config, g, line).2)
  }

  ghost function After(config: Config, lines: seq<Line>, k: nat): Guard
    requires k <= |lines|
  {
    StateAt(StepOf(config), INITIAL, lines, k)
  }

  /** The phase tells whether the rollout is known. */
  ghost predicate Coherent(g: Guard) {
    g.canonical.None? <==> g.phase == AwaitingCanonical
  }

  lemma StepKeepsCoherent(config: Config, g: Guard, line: Line)
    requires Coherent(g)
    ensures Coherent(Step(config, g, line).0)
    ensures g.canonical.Some? ==> Step(config, g, line).0.canonical == g.canonical
  {
  }

  lemma {:induction false} ReachableIsCoherent(config: Config, lines: seq<Line>, k: nat)
    requires k <= |lines|
    ensures Coherent(After(config, lines, k))
  {
    if k > 0 {
      ReachableIsCoherent(config, lines, k - 1);
      StepKeepsCoherent(config, After(config, lines, k - 1), lines[k - 1]);
    }
  }

  /** Whoever writes a session record later, the rollout keeps its first identity. */
  lemma {:induction false} CanonicalIsFixed(config: Config, lines: seq<Line>, j: nat, k: nat)
    requires j <= k <= |lines| && After(config, lines, j).canonical.Some?
    ensures After(config, lines, k).canonical == After(config, lines, j).canonical
  {
    if j < k {
      CanonicalIsFixed(config, lines, j, k - 1);
      ReachableIsCoherent(config, lines, k - 1);
      StepKeepsCoherent(config, After(config, lines, k - 1), lines[k - 1]);
    }
  }

  /** A checkpoint of a reachable guard is accepted for the same file, and only for it. */
  lemma CheckpointRoundTrip(config: Config, other: Config, lines: seq<Line>, k: nat)
    requires k <= |lines|
    ensures Restored(other, CheckpointOf(config, After(config, lines, k))) ==
            if other.fileIdentity == config.fileIdentity then Ok(After(config, lines, k))
            else Err(FileIdentityMismatch(config.fileIdentity, other.fileIdentity))
  {
    ReachableIsCoherent(config, lines, k);
  }

  /** Stopping anywhere, saving, restoring and going on is the same as never having stopped. */
  lemma RestoredGuardContinues(config: Config, a: seq<Line>, b: seq<Line>, all: seq<Line>)
    requires all == a + b
    ensures Restored(config, CheckpointOf(config, After(config, a, |a|))).Ok?
    ensures var g := Restored(config, CheckpointOf(config, After(config, a, |a|))).value;
      && StateAt(StepOf(config), g, b, |b|) == After(config, all, |all|)
      && EmittedAt(StepOf(config), INITIAL, a, |a|) + EmittedAt(StepOf(config), g, b, |b|)
         == EmittedAt(StepOf(config), INITIAL, all, |all|)
  {
    CheckpointRoundTrip(config, config, a, |a|);
    RunResumes(StepOf(config), INITIAL, a, b, all, |b|, |all|, After(config, a, |a|));
  }

  // ----- erasing foreign history -----

  /** What an event counts for, whatever model or directory it is shown under. */
  datatype Counted = Counted(byteOffset: nat, lineNumber: nat, rolloutId: string, usage: TokenUsage, quality: Quality)

  ghost function Count(e: Option<Event>): Option<Counted> {
    if e.None? then None
    else Some(Counted(e.value.byteOffset, e.value.lineNumber, e.value.rolloutId, e.value.usage, e.value.quality))
  }

  ghost predicate OpensForeign(g: Guard, r: Record) {
    r.SessionMeta? && r.id != "" && g.canonical.Some? && r.id != g.canonical.value.rolloutId
  }

  ghost predicate Establishes(g: Guard, r: Record) {
    r.SessionMeta? && r.id != "" && g.canonical.None?
  }

  /** The rollout's own records: the one that establishes it, and what it handles live. */
  ghost predicate Own(g: Guard, r: Record) {
    Establishes(g, r) || (g.phase == Live && !OpensForeign(g, r))
  }

  ghost function OwnRecords(): (Guard, Line) -> bool {
    (g: Guard, line: Line) => Own(g, line.record)
  }

  /** The step, emitting what all records, those handled live, or those confirmed count for. */
  ghost function CountingStep(config: Config): (Guard, Line) -> (Guard, Option<Counted>) {
    (g: Guard, line: Line) => (Step(config, g, line).0, Count(Step(config, g, line).2))
  }

  ghost function LiveStep(config: Config): (Guard, Line) -> (Guard, Option<Counted>) {
    (g: Guard, line: Line) =>
      (Step(config, g, line).0, if g.phase == Live then Count(Step(config, g, line).2) else None)
  }

  ghost function ConfirmedStep(config: Config): (Guard, Line) -> (Guard, Option<Counted>) {
    (g: Guard, line: Line) => (Step(config, g, line).0, OnlyConfirmed(Count(Step(config, g, line).2)))
  }

  ghost function OnlyConfirmed(c: Option<Counted>): Option<Counted> {
    if c.Some? && c.value.quality == Confirmed then c else None
  }

  ghost function AllCounts(config: Config, lines: seq<Line>): seq<Counted> {
    EmittedAt(CountingStep(config), INITIAL, lines, |lines|)
  }

  ghost function ConfirmedCounts(config: Config, lines: seq<Line>): seq<Counted> {
    EmittedAt(ConfirmedStep(config), INITIAL, lines, |lines|)
  }

  /** `t` is `g` without its foreign history: still live where `g` replays, in some other context. */
  ghost predicate Erases(t: Guard, g: Guard) {
    && t.canonical == g.canonical && t.previousTotal == g.previousTotal && t.counterEpoch == g.counterEpoch
    && t.phase == if g.phase == ReplayingForeignHistory then Live else g.phase
  }

  lemma StepIsErasable(config: Config, t: Guard, g: Guard, line: Line)
    requires Coherent(g) && Erases(t, g)
    ensures Coherent(Step(config, g, line).0)
    ensures !Own(g, line.record) ==> Erases(t, Step(config, g, line).0)
    ensures !Own(g, line.record) ==> g.phase != Live || Step(config, g, line).2.None?
    ensures !Own(g, line.record) ==> OnlyConfirmed(Count(Step(config, g, line).2)).None?
    ensures Own(g, line.record) ==> Erases(Step(config, t, line).0, Step(config, g, line).0)
    ensures Own(g, line.record) ==> Count(Step(config, t, line).2) == Count(Step(config, g, line).2)
    ensures Own(g, line.record) ==> g.phase == Live || Step(config, g, line).2.None?
  {
  }

  ghost function CoherentGuards(): Guard -> bool {
    (g: Guard) => Coherent(g)
  }

  ghost function Erasure(): (Guard, Guard) -> bool {
    (t: Guard, g: Guard) => Erases(t, g)
  }

  lemma LiveStepsAreErasable(config: Config)
    ensures Erasable(LiveStep(config), CountingStep(config), OwnRecords(), CoherentGuards(), Erasure())
  {
    forall t, g, line
      ensures ErasableAt(LiveStep(config), CountingStep(config), OwnRecords(), CoherentGuards(), Erasure(), t, g, line)
    {
      if Coherent(g) && Erases(t, g) {
        StepIsErasable(config, t, g, line);
      }
    }
  }

  lemma ConfirmedStepsAreErasable(config: Config)
    ensures Erasable(ConfirmedStep(config), ConfirmedStep(config), OwnRecords(), CoherentGuards(), Erasure())
  {
    forall t, g, line
      ensures ErasableAt(ConfirmedStep(config), ConfirmedStep(config), OwnRecords(), CoherentGuards(), Erasure(),
                         t, g, line)
    {
      if Coherent(g) && Erases(t, g) {
        StepIsErasable(config, t, g, line);
      }
    }
  }

  lemma {:induction false} OwnLinesOf<E>(step: (Guard, Line) -> (Guard,
      Option<E>), config: Config, lines: seq<Line>, k: nat)
    requires k <= |lines| && forall g, line :: step(g, line).0 == StepOf(config)(g, line).0
    ensures KeptAt(step, OwnRecords(), INITIAL, lines, k) == KeptAt(StepOf(config), OwnRecords(), INITIAL, lines, k)
  {
    if k > 0 {
      OwnLinesOf(step, config, lines, k - 1);
      SameStates(step, StepOf(config), INITIAL, lines, k - 1);
    }
  }

  /** A checkpoint is refused for any version but the first, for another file, or for a phase without rollout. */
  lemma RestoredIff(config: Config, c: Checkpoint)
    ensures Restored(config, c) == Ok(c.guard) <==>
              && c.schemaVersion == 1
              && (c.fileIdentity == None || c.fileIdentity == Some(config.fileIdentity))
              && (c.guard.canonical == None ==> c.guard.phase == AwaitingCanonical)
    ensures Restored(config, c).Ok? ==> Restored(config, c).value == c.guard
    ensures Restored(config, c) == Err(UnsupportedSchemaVersion(c.schemaVersion)) <==> c.schemaVersion != 1
    ensures c.schemaVersion == 1 && c.fileIdentity.Some? ==>
              (Restored(config, c) == Err(FileIdentityMismatch(c.fileIdentity.value, config.fileIdentity))
               <==> c.fileIdentity.value != config.fileIdentity)
  {
  }

  /** Writing a live total again is not counted again, whatever last usage comes with it. */
  lemma RepeatedTotalIsNotCounted(config: Config, g: Guard, line: Line, again: Line)
    requires g.phase == Live && line.record.TokenCount? && line.record.total.Some?
    requires again.record.TokenCount? && again.record.total == line.record.total
    ensures Step(config, Step(config, g, line).0, again) == (Step(config, g, line).0, CounterUnchanged, None)
  {
  }
}
