/**
 * Whole runs of one source: whatever slices, crashes, failures and replacements happen, the
 * stored facts are those of a single pass over the complete lines of one physical file.
 */
module ExactlyOnce {
  import opened Prelude
  import opened Types
  import opened Ingest
  import opened Tailing
  import opened Reconstruction
  import opened Accounting
  import opened ReconstructionStore

  // ----- the events of a slice and where they come from -----

  /** Valid events in file order, at offsets between `from` and `to`. */
  ghost predicate EventsWithin(events: seq<Event>, from: nat, to: nat) {
    && (forall i :: 0 <= i < |events| ==> from <= events[i].byteOffset < to)
    && (forall i, j :: 0 <= i < j < |events| ==> events[i].byteOffset < events[j].byteOffset)
    && (forall i :: 0 <= i < |events| ==> events[i].usage.Valid())
  }

  lemma StepEvent(p: Progress, target: Target, line: JsonlLine, record: Record)
    ensures var e := Step(p, target, line, record).1;
      e.Some? ==> e.value.byteOffset == line.byteOffset && e.value.usage.Valid()
  {
  }

  lemma {:induction false} EventsComeFromLines(
    p: Progress, target: Target, lines: seq<JsonlLine>, parse: JsonlLine -> Record, k: nat, from: nat, to: nat)
    requires k <= |lines| && OffsetsIncrease(lines, from, to)
    ensures EventsWithin(EventsAfter(p, target, lines, parse, k), from, if k < |lines| then lines[k].byteOffset else to)
  {
    if k > 0 {
      EventsComeFromLines(p, target, lines, parse, k - 1, from, to);
      StepEvent(StateAfter(p, target, lines, parse, k - 1), target, lines[k - 1], parse(lines[k - 1]));
    }
  }

  // ----- what the fact table holds -----

  ghost predicate Below(facts: map<EventKey, Fact>, identity: string, bound: nat) {
    forall key :: key in facts ==> key.identity == identity && key.byteOffset < bound
  }

  ghost predicate Stored(facts: map<EventKey, Fact>, identity: string, e: Event) {
    var key := EventKey(identity, e.byteOffset);
    key in facts && facts[key].event == e
  }

  /** Every event is stored, and nothing else: each one exactly once. */
  ghost predicate Matches(facts: map<EventKey, Fact>, identity: string, events: seq<Event>) {
    && |facts| == |events|
    && forall i :: 0 <= i < |events| ==> Stored(facts, identity, events[i])
  }

  /** `after` is `before` plus the first `k` of the `events`. */
  ghost predicate Extended(
    before: map<EventKey, Fact>, after: map<EventKey, Fact>, identity: string, events: seq<Event>, k: nat)
    requires k <= |events|
  {
    && |after| == |before| + k
    && (forall key :: key in before ==> key in after && after[key] == before[key])
    && (forall i :: 0 <= i < k ==> Stored(after, identity, events[i]))
  }

  /** Events at new offsets never conflict: only an unrepresentable usage stops them. */
  lemma {:induction false} NewEventsAreInserted(
    facts: map<EventKey, Fact>, identity: string, events: seq<Event>, k: nat, now: int, from: nat, to: nat)
    requires k <= |events| && EventsWithin(events, from, to) && Below(facts, identity, from)
    requires UpsertAll(facts, identity, events, k, now).Ok?
    ensures var after := UpsertAll(facts, identity, events, k, now).value;
      && Below(after, identity, if k == 0 then from else events[k - 1].byteOffset + 1)
      && Extended(facts, after, identity, events, k)
  {
    if k > 0 {
      NewEventsAreInserted(facts, identity, events, k - 1, now, from, to);
      InsertOne(facts, UpsertAll(facts, identity, events, k - 1, now).value, identity, events, k, now);
    }
  }

  predicate AllStorable(events: seq<Event>, k: nat)
    requires k <= |events|
  {
    k == 0 || (AllStorable(events, k - 1) && Storable(events[k - 1].usage))
  }

  lemma {:induction false} NewEventsFailIff(
    facts: map<EventKey, Fact>, identity: string, events: seq<Event>, k: nat, now: int, from: nat, to: nat)
    requires k <= |events| && EventsWithin(events, from, to) && Below(facts, identity, from)
    ensures var r := UpsertAll(facts, identity, events, k, now);
      && (r.Ok? <==> AllStorable(events, k))
      && (r.Err? ==> r.error == NotStorable)
  {
    if k > 0 {
      NewEventsFailIff(facts, identity, events, k - 1, now, from, to);
      if UpsertAll(facts, identity, events, k - 1, now).Ok? {
        NewEventsAreInserted(facts, identity, events, k - 1, now, from, to);
      }
    }
  }

  lemma InsertOne(facts: map<EventKey, Fact>, before: map<EventKey, Fact>, identity: string, events: seq<Event>,
      k: nat, now: int)
    requires 0 < k <= |events| && Extended(facts, before, identity, events, k - 1)
    requires EventKey(identity, events[k - 1].byteOffset) !in before
    ensures Extended(facts, before[EventKey(identity, events[k - 1].byteOffset) := Fact(events[k - 1], now)],
                     identity, events, k)
  {
  }

  lemma MatchesExtended(before: map<EventKey, Fact>, after: map<EventKey, Fact>, identity: string,
      earlier: seq<Event>, later: seq<Event>)
    requires Matches(before, identity, earlier) && Extended(before, after, identity, later, |later|)
    ensures Matches(after, identity, earlier + later)
  {
    var all := earlier + later;
    forall i | 0 <= i < |all|
      ensures Stored(after, identity, all[i])
    {
      if i < |earlier| {
        assert Stored(before, identity, earlier[i]);
      } else {
        assert Stored(after, identity, later[i - |earlier|]);
      }
    }
  }

  // ----- the invariant -----

  /** The cursor is the state of one pass over `seen`, the bytes consumed so far. */
  ghost predicate CursorSafe(s: Source, seen: seq<Byte>, target: Target, parse: JsonlLine -> Record)
    requires s.cursor.Some?
  {
    var c := s.cursor.value;
    var lines := LinesOf(seen, |seen|);
    && c.identity == s.identity && SameFile(c.tail, c.identity)
    && Tracks(c.tail, seen) && c.tail.nextOffset == |seen|
    && Fits(seen, |seen|, DEFAULT_MAX_LINE_BYTES)
    && c.byteOffset == |seen| && c.lineNumber == |lines| && s.bytesProcessed == |seen|
    && c.progress == StateAfter(INITIAL, target, lines, parse, |lines|)
  }

  /** The facts are those of one pass over `seen`; without a cursor there are none to repeat. */
  ghost predicate SourceSafe(s: Source, seen: seq<Byte>, target: Target, parse: JsonlLine -> Record) {
    var lines := LinesOf(seen, |seen|);
    && Matches(s.facts, s.identity, EventsAfter(INITIAL, target, lines, parse, |lines|))
    && Below(s.facts, s.identity, LineStart(seen, |seen|))
    && (s.cursor.Some? ==> CursorSafe(s, seen, target, parse))
    && (s.cursor.None? && s.status != Unrecoverable ==> seen == [] && s.bytesProcessed == 0)
  }

  /**
   * What the environment may do to a file a cursor points into: append, or truncate below the
   * bytes already consumed. A truncation hidden by regrowth is not observable and excluded.
   */
  ghost predicate Observable(s: Source, seen: seq<Byte>, file: FileView) {
    s.cursor.Some? && s.cursor.value.identity == file.identity
    ==> seen <= file.bytes || |file.bytes| < |seen|
  }

  // ----- one slice -----

  lemma RewoundTracks(c: TailCheckpoint, file: seq<Byte>)
    requires Tracks(c, file)
    ensures var r := Rewound(c);
      && Tracks(r, file) && r.nextOffset == LineStart(file, c.nextOffset) == c.partialOffset
      && r.partialLine == [] && LinesOf(file, r.nextOffset) == LinesOf(file, c.nextOffset)
  {
    RecordsStartAfterNewlines(file, c.nextOffset);
    NoLineInProgress(file, c.nextOffset);
  }

  /** How far a slice of `file` reads when the bytes `seen` were consumed before. */
  function SliceEnd(seen: seq<Byte>, file: seq<Byte>): nat {
    Min(LineStart(seen, |seen|) + DEFAULT_MAX_LINE_BYTES + 1, |file|)
  }

  /** The batch of a slice continues the lines of `seen` up to `next`. */
  ghost predicate Continues(batch: TailBatch, seen: seq<Byte>, file: FileView, next: nat)
    requires next <= |file.bytes|
  {
    && batch.reset == None
    && Tracks(batch.checkpoint, file.bytes) && batch.checkpoint.nextOffset == next
    && SameFile(batch.checkpoint, file.identity)
    && LinesOf(file.bytes, next) == LinesOf(seen, |seen|) + batch.lines
    && LineStart(seen, |seen|) <= LineStart(file.bytes, next)
    && OffsetsIncrease(batch.lines, LineStart(seen, |seen|), LineStart(file.bytes, next))
  }

  lemma LinesFromOffset(file: seq<Byte>, from: nat, next: nat, lines: seq<JsonlLine>)
    requires from <= |file| && next <= |file|
    requires LinesOf(file, next) == LinesOf(file, from) + lines
    requires LineStart(file, from) == from && from <= next
    ensures OffsetsIncrease(lines, from, LineStart(file, next))
  {
    LineOffsetsIncrease(file, next, 0, 0);
    var before, all := LinesOf(file, from), LinesOf(file, next);
    forall i | 0 <= i < |lines|
      ensures from <= lines[i].byteOffset < LineStart(file, next)
    {
      assert lines[i] == all[|before| + i];
      LaterLinesStartLater(file, from, next, |before| + i);
    }
    assert forall i :: 0 <= i < |lines| ==> lines[i] == all[|before| + i];
  }

  lemma {:induction false} LaterLinesStartLater(s: seq<Byte>, from: nat, k: nat, i: nat)
    requires from <= k <= |s| && LineStart(s, from) == from
    requires |LinesOf(s, from)| <= i < |LinesOf(s, k)|
    ensures LinesOf(s, k)[i].byteOffset >= from
    decreases k
  {
    assert from < k;
    LinesMonotone(s, from, k - 1, 0, 0);
    if i < |LinesOf(s, k - 1)| {
      LaterLinesStartLater(s, from, k - 1, i);
    } else {
      assert LinesOf(s, k)[i].byteOffset == LineStart(s, k - 1);
    }
  }

  lemma StartTracks(s: Source, seen: seq<Byte>, target: Target, parse: JsonlLine -> Record, file: FileView)
    requires SourceSafe(s, seen, target, parse) && s.status != Unrecoverable && seen <= file.bytes
    requires s.cursor.Some? ==> s.cursor.value.identity == file.identity
    ensures var tail := StartTail(s);
      && Tracks(tail, file.bytes) && SameFile(tail, file.identity)
      && tail.nextOffset == LineStart(seen, |seen|) == LineStart(file.bytes, tail.nextOffset)
      && LinesOf(file.bytes, tail.nextOffset) == LinesOf(seen, |seen|)
      && Fits(file.bytes, tail.nextOffset, DEFAULT_MAX_LINE_BYTES)
  {
    if s.cursor.Some? {
      var c := s.cursor.value.tail;
      TracksGrownFile(c, seen, file.bytes);
      RewoundTracks(c, file.bytes);
      PrefixStable(seen, file.bytes, |seen|, DEFAULT_MAX_LINE_BYTES);
      FitsMonotone(file.bytes, StartTail(s).nextOffset, |seen|, DEFAULT_MAX_LINE_BYTES);
      RecordsStartAfterNewlines(file.bytes, c.nextOffset);
    }
  }

  lemma SliceContinues(s: Source, seen: seq<Byte>, target: Target, parse: JsonlLine -> Record, file: FileView)
    requires SourceSafe(s, seen, target, parse) && s.status != Unrecoverable && seen <= file.bytes
    requires s.cursor.Some? ==> s.cursor.value.identity == file.identity
    ensures var r := Poll(StartTail(s), LIMITS, file.bytes, file.identity);
      var next := SliceEnd(seen, file.bytes);
      && next >= |seen|
      && (r.Ok? <==> Fits(file.bytes, next, DEFAULT_MAX_LINE_BYTES))
      && (r.Ok? ==> Continues(r.value, seen, file, next))
  {
    var tail := StartTail(s);
    var next := SliceEnd(seen, file.bytes);
    StartTracks(s, seen, target, parse, file);
    PollAdvances(tail, LIMITS, file.bytes, file.identity);
    assert NextOffset(tail, LIMITS, file.bytes) == next;
    PendingIsShort(s, seen, target, parse);
    var r := Poll(tail, LIMITS, file.bytes, file.identity);
    if r.Ok? {
      LinesMonotone(file.bytes, tail.nextOffset, next, 0, 0);
      LinesFromOffset(file.bytes, tail.nextOffset, next, r.value.lines);
    }
  }

  lemma PendingIsShort(s: Source, seen: seq<Byte>, target: Target, parse: JsonlLine -> Record)
    requires SourceSafe(s, seen, target, parse) && s.status != Unrecoverable
    ensures |seen| - LineStart(seen, |seen|) <= DEFAULT_MAX_LINE_BYTES
  {
  }

  /** The events a slice adds. */
  ghost function SliceEvents(s: Source, target: Target, parse: JsonlLine -> Record, file: FileView): seq<Event>
    requires Poll(StartTail(s), LIMITS, file.bytes, file.identity).Ok?
  {
    var lines := Poll(StartTail(s), LIMITS, file.bytes, file.identity).value.lines;
    EventsAfter(StartProgress(s), target, lines, parse, |lines|)
  }

  /** A slice starts from the state of the pass over what was consumed before. */
  lemma StartsFromPass(s: Source, seen: seq<Byte>, target: Target, parse: JsonlLine -> Record)
    requires SourceSafe(s, seen, target, parse) && s.status != Unrecoverable
    ensures var before := LinesOf(seen, |seen|);
      StartProgress(s) == StateAfter(INITIAL, target, before, parse, |before|)
  {
  }

  /** The bytes consumed once a slice has succeeded. */
  function SeenAfter(seen: seq<Byte>, file: seq<Byte>): seq<Byte> {
    file[..SliceEnd(seen, file)]
  }

  lemma CommitIsSafe(s: Source, seen: seq<Byte>, target: Target,
      parse: JsonlLine -> Record, file: FileView, batch: TailBatch,
                     statLength: nat, now: int, next: nat)
    requires SourceSafe(s, seen, target, parse) && s.status != Unrecoverable
    requires s.cursor.Some? ==> s.identity == file.identity
    requires next <= |file.bytes| && Continues(batch, seen, file, next)
    requires Fits(file.bytes, next, DEFAULT_MAX_LINE_BYTES)
    requires Store(s, target, parse, file, batch, statLength, now).Ok?
    ensures SourceSafe(Store(s, target, parse, file, batch, statLength, now).value, file.bytes[..next], target, parse)
  {
    var now' := file.bytes[..next];
    var after := Store(s, target, parse, file, batch, statLength, now).value;
    var events := EventsAfter(StartProgress(s), target, batch.lines, parse, |batch.lines|);
    StartsFromPass(s, seen, target, parse);
    ResumeEqualsOnePass(INITIAL, target, LinesOf(seen, |seen|), batch.lines, LinesOf(file.bytes, next), parse,
                        StartProgress(s));
    PrefixStable(now', file.bytes, next, DEFAULT_MAX_LINE_BYTES);
    TracksGrownFile(batch.checkpoint, now', file.bytes);
    StoredFacts(s, seen, target, parse, file, events, batch, next, now);
    assert CursorSafe(after, now', target, parse);
  }

  lemma StoredFacts(s: Source, seen: seq<Byte>, target: Target, parse: JsonlLine -> Record, file: FileView,
                    events: seq<Event>, batch: TailBatch, next: nat, now: int)
    requires SourceSafe(s, seen, target, parse) && s.status != Unrecoverable
    requires s.cursor.Some? ==> s.identity == file.identity
    requires next <= |file.bytes| && Continues(batch, seen, file, next)
    requires events == EventsAfter(StartProgress(s), target, batch.lines, parse, |batch.lines|)
    requires UpsertAll(s.facts, file.identity, events, |events|, now).Ok?
    ensures var facts := UpsertAll(s.facts, file.identity, events, |events|, now).value;
      var before := LinesOf(seen, |seen|);
      && Matches(facts, file.identity, EventsAfter(INITIAL, target, before, parse, |before|) + events)
      && Below(facts, file.identity, LineStart(file.bytes, next))
  {
    var from, to := LineStart(seen, |seen|), LineStart(file.bytes, next);
    EventsComeFromLines(StartProgress(s), target, batch.lines, parse, |batch.lines|, from, to);
    NewEventsAreInserted(s.facts, file.identity, events, |events|, now, from, to);
    var facts := UpsertAll(s.facts, file.identity, events, |events|, now).value;
    var before := LinesOf(seen, |seen|);
    MatchesExtended(s.facts, facts, file.identity, EventsAfter(INITIAL, target, before, parse, |before|), events);
  }

  /** A slice of a file that was truncated below the consumed bytes always fails. */
  lemma TruncationIsDetected(s: Source, seen: seq<Byte>, target: Target,
      parse: JsonlLine -> Record, file: FileView, statLength: nat, now: int)
    requires SourceSafe(s, seen, target, parse) && s.cursor.Some? && |file.bytes| < |seen|
    ensures IngestSlice(s, target, parse, file, statLength, now).Err?
  {
  }

  /** A successful slice keeps the invariant: it is one more stretch of the same single pass. */
  lemma SliceIsSafe(s: Source, seen: seq<Byte>, target: Target,
      parse: JsonlLine -> Record, file: FileView, statLength: nat, now: int)
    requires SourceSafe(s, seen, target, parse) && s.status != Unrecoverable && Observable(s, seen, file)
    requires IngestSlice(s, target, parse, file, statLength, now).Ok?
    ensures seen <= file.bytes
    ensures SourceSafe(IngestSlice(s, target, parse, file, statLength, now).value, SeenAfter(seen, file.bytes), target,
                       parse)
  {
    if s.cursor.Some? && |file.bytes| < |seen| {
      TruncationIsDetected(s, seen, target, parse, file, statLength, now);
    }
    SliceContinues(s, seen, target, parse, file);
    var batch := Poll(StartTail(s), LIMITS, file.bytes, file.identity).value;
    CommitIsSafe(s, seen, target, parse, file, batch, statLength, now, SliceEnd(seen, file.bytes));
  }

  /**
   * Exactly when a slice of an append-only file fails: a record over the limit, or a usage the
   * store cannot represent. Conflicts and cursor regressions never happen.
   */
  lemma SliceFailsIff(s: Source, seen: seq<Byte>, target: Target,
      parse: JsonlLine -> Record, file: FileView, statLength: nat, now: int)
    requires SourceSafe(s, seen, target, parse) && s.status != Unrecoverable && seen <= file.bytes
    requires s.cursor.Some? ==> s.cursor.value.identity == file.identity
    ensures var readable := Poll(StartTail(s), LIMITS, file.bytes, file.identity).Ok?;
      && (readable <==> Fits(file.bytes, SliceEnd(seen, file.bytes), DEFAULT_MAX_LINE_BYTES))
      && (IngestSlice(s, target, parse, file, statLength, now).Ok?
          <==> readable && AllStorable(SliceEvents(s, target, parse, file), |SliceEvents(s, target, parse, file)|))
  {
    SliceContinues(s, seen, target, parse, file);
    var poll := Poll(StartTail(s), LIMITS, file.bytes, file.identity);
    if poll.Ok? {
      var from, to := LineStart(seen, |seen|), LineStart(file.bytes, SliceEnd(seen, file.bytes));
      var events := SliceEvents(s, target, parse, file);
      EventsComeFromLines(StartProgress(s), target, poll.value.lines, parse, |poll.value.lines|, from, to);
      NewEventsFailIff(s.facts, file.identity, events, |events|, now, from, to);
    }
  }

  // ----- whole runs -----

  /** One durable change to a source, or a crash that changes nothing. */
  datatype RunStep =
    | Slice(file: FileView, statLength: nat, now: int)
    | GiveUp
    | DropCursor
    | Replace(file: FileView)
    | Crash

  /** When the reconstruction loop takes a step; the file may change freely in between. */
  ghost predicate Enabled(s: Source, seen: seq<Byte>, step: RunStep) {
    match step
    case Slice(file, _, _) => s.status != Unrecoverable && Observable(s, seen, file)
    case GiveUp => true
    case DropCursor => s.status == Unrecoverable
    case Replace(file) => true
    case Crash => true
  }

  /** A failed slice changes nothing itself; the error path then gives up in two transactions. */
  ghost function Apply(s: Source, target: Target, parse: JsonlLine -> Record, step: RunStep): Source {
    match step
    case Slice(file, statLength, now) =>
      var r := IngestSlice(s, target, parse, file, statLength, now);
      if r.Ok? then r.value else s
    case GiveUp => s.(status := Unrecoverable)
    case DropCursor => s.(cursor := None)
    case Replace(file) => Fresh(file)
    case Crash => s
  }

  ghost function ApplySeen(s: Source, seen: seq<Byte>, target: Target,
      parse: JsonlLine -> Record, step: RunStep): seq<Byte> {
    match step
    case Slice(file, statLength, now) =>
      if IngestSlice(s, target, parse, file, statLength, now).Ok? then SeenAfter(seen, file.bytes) else seen
    case Replace(_) => []
    case _ => seen
  }

  lemma FreshIsSafe(file: FileView, target: Target, parse: JsonlLine -> Record)
    ensures SourceSafe(Fresh(file), [], target, parse)
  {
  }

  lemma StepIsSafe(s: Source, seen: seq<Byte>, target: Target, parse: JsonlLine -> Record, step: RunStep)
    requires SourceSafe(s, seen, target, parse) && Enabled(s, seen, step)
    ensures SourceSafe(Apply(s, target, parse, step), ApplySeen(s, seen, target, parse, step), target, parse)
  {
    match step
    case Slice(file, statLength, now) =>
      if IngestSlice(s, target, parse, file, statLength, now).Ok? {
        SliceIsSafe(s, seen, target, parse, file, statLength, now);
      }
    case Replace(file) => FreshIsSafe(file, target, parse);
    case _ =>
  }

  ghost function SourceAfter(first: FileView, target: Target,
      parse: JsonlLine -> Record, steps: seq<RunStep>, k: nat): Source
    requires k <= |steps|
  {
    if k == 0 then Fresh(first)
    else Apply(SourceAfter(first, target, parse, steps, k - 1), target, parse, steps[k - 1])
  }

  ghost function BytesSeen(first: FileView, target: Target,
      parse: JsonlLine -> Record, steps: seq<RunStep>, k: nat): seq<Byte>
    requires k <= |steps|
  {
    if k == 0 then [] else
      ApplySeen(SourceAfter(first, target, parse, steps, k - 1), BytesSeen(first, target, parse, steps, k - 1),
                target, parse, steps[k - 1])
  }

  /** Each of the first `k` steps is enabled where it is taken. */
  ghost predicate LegalRun(first: FileView, target: Target, parse: JsonlLine -> Record, steps: seq<RunStep>, k: nat)
    requires k <= |steps|
  {
    k == 0 ||
    (&& LegalRun(first, target, parse, steps, k - 1)
     && Enabled(SourceAfter(first, target, parse, steps, k - 1), BytesSeen(first, target, parse, steps, k - 1),
                steps[k - 1]))
  }

  lemma {:induction false} RunIsSafe(first: FileView, target: Target,
      parse: JsonlLine -> Record, steps: seq<RunStep>, k: nat)
    requires k <= |steps| && LegalRun(first, target, parse, steps, k)
    ensures SourceSafe(SourceAfter(first, target, parse, steps, k), BytesSeen(first, target, parse, steps, k), target,
                       parse)
  {
    if k == 0 {
      FreshIsSafe(first, target, parse);
    } else {
      RunIsSafe(first, target, parse, steps, k - 1);
      StepIsSafe(SourceAfter(first, target, parse, steps, k - 1), BytesSeen(first, target, parse, steps, k - 1),
                 target, parse, steps[k - 1]);
    }
  }

  /**
   * The ledger's promise. In every run the stored facts are exactly the events of the declarative
   * accounting of the complete lines consumed so far, each once; and a source that still has
   * facts never starts over, because without a cursor it is either empty or given up.
   */
  lemma EveryTokenCountedOnce(first: FileView, target: Target, parse: JsonlLine -> Record, steps: seq<RunStep>, k: nat)
    requires k <= |steps| && LegalRun(first, target, parse, steps, k)
    ensures var s, seen := SourceAfter(first, target, parse, steps, k), BytesSeen(first, target, parse, steps, k);
      && Matches(s.facts, s.identity, RolloutEvents(target, LinesOf(seen, |seen|), parse))
      && (s.cursor.Some? ==>
            s.cursor.value.byteOffset == |seen| && s.cursor.value.tail.partialOffset == LineStart(seen, |seen|))
      && (s.cursor.None? && s.status != Unrecoverable ==> s.facts == map[])
  {
    RunIsSafe(first, target, parse, steps, k);
    var seen := BytesSeen(first, target, parse, steps, k);
    RolloutIsAccounted(target, LinesOf(seen, |seen|), parse);
  }

  // ----- the status row -----

  /** The row is complete once nothing of the file as it was is left and no record is in progress. */
  ghost predicate RowTells(s: Source, seen: seq<Byte>, target: Target, parse: JsonlLine -> Record) {
    && CountersTell(target, LinesOf(seen, |seen|), parse, s.prefixEvents, s.unchangedEvents, s.counterResets)
    && s.bytesProcessed == |seen|
    && (s.status == Reconstructed ==> s.bytesTotal <= |seen| && LineStart(seen, |seen|) == |seen|)
    && (s.status == Reconstructing ==> |seen| < s.bytesTotal || LineStart(seen, |seen|) < |seen|)
    && (s.status == Pending ==> seen == [] && s.cursor.None?)
  }

  /** A slice keeps every stored fact and writes the row, the cursor and the facts together. */
  lemma SliceCommits(s: Source, target: Target, parse: JsonlLine -> Record, file: FileView, statLength: nat, now: int,
      after: Source)
    requires IngestSlice(s, target, parse, file, statLength, now) == Ok(after)
    ensures after.cursor.Some? && after.identity == file.identity && after.bytesTotal == statLength
    ensures after == Committed(s, file.identity, after.cursor.value.tail, after.cursor.value.progress, after.facts,
                               statLength)
    ensures forall key :: key in s.facts ==> key in after.facts && after.facts[key] == s.facts[key]
  {
    var events := SliceEvents(s, target, parse, file);
    UpsertAllKeepsFacts(s.facts, file.identity, events, |events|, now);
  }

  ghost predicate CursorTells(s: Source, seen: seq<Byte>, target: Target, parse: JsonlLine -> Record) {
    && s.cursor.Some?
    && Tracks(s.cursor.value.tail, seen) && s.cursor.value.tail.nextOffset == |seen|
    && s.cursor.value.progress == StateAfter(INITIAL, target, LinesOf(seen, |seen|), parse, |LinesOf(seen, |seen|)|)
  }

  lemma SafeCursorTells(s: Source, seen: seq<Byte>, target: Target, parse: JsonlLine -> Record)
    requires SourceSafe(s, seen, target, parse) && s.cursor.Some?
    ensures CursorTells(s, seen, target, parse)
  {
  }

  lemma TellingCursorTellingRow(s: Source, seen: seq<Byte>, target: Target, parse: JsonlLine -> Record)
    requires CursorTells(s, seen, target, parse)
    requires s == Committed(s, s.identity, s.cursor.value.tail, s.cursor.value.progress, s.facts, s.bytesTotal)
    ensures RowTells(s, seen, target, parse)
  {
    ProgressTells(target, LinesOf(seen, |seen|), parse, s.cursor.value.progress);
  }

  /** A slice reads on from the start of the record in progress, at most 64 MiB and one byte. */
  lemma SliceReadsOn(seen: seq<Byte>, file: seq<Byte>)
    ensures SeenAfter(seen, file) <= file
    ensures |SeenAfter(seen, file)| == Min(|file|, LineStart(seen, |seen|) + 67_108_865)
  {
  }

  /** What a slice writes: the row tells where it ended and how long the file was said to be. */
  lemma SliceTellsItsProgress(s: Source, seen: seq<Byte>, target: Target,
      parse: JsonlLine -> Record, file: FileView, statLength: nat, now: int, after: Source)
    requires SourceSafe(s, seen, target, parse) && s.status != Unrecoverable && Observable(s, seen, file)
    requires IngestSlice(s, target, parse, file, statLength, now) == Ok(after)
    ensures RowTells(after, SeenAfter(seen, file.bytes), target, parse) && after.bytesTotal == statLength
  {
    SliceCommits(s, target, parse, file, statLength, now, after);
    assert CursorTells(after, SeenAfter(seen, file.bytes), target, parse) by {
      SliceIsSafe(s, seen, target, parse, file, statLength, now);
      SafeCursorTells(after, SeenAfter(seen, file.bytes), target, parse);
    }
    TellingCursorTellingRow(after, SeenAfter(seen, file.bytes), target, parse);
  }

  /** In every run the row of a source tells the truth about the bytes consumed. */
  lemma {:induction false} EveryRowTells(first: FileView, target: Target,
      parse: JsonlLine -> Record, steps: seq<RunStep>, k: nat)
    requires k <= |steps| && LegalRun(first, target, parse, steps, k)
    ensures RowTells(SourceAfter(first, target, parse, steps, k), BytesSeen(first, target, parse, steps, k), target,
                     parse)
  {
    if k > 0 {
      EveryRowTells(first, target, parse, steps, k - 1);
      RunIsSafe(first, target, parse, steps, k - 1);
      StepTells(SourceAfter(first, target, parse, steps, k - 1), BytesSeen(first, target, parse, steps, k - 1),
                target, parse, steps[k - 1]);
    }
  }

  lemma StepTells(s: Source, seen: seq<Byte>, target: Target, parse: JsonlLine -> Record, step: RunStep)
    requires SourceSafe(s, seen, target, parse) && Enabled(s, seen, step) && RowTells(s, seen, target, parse)
    ensures RowTells(Apply(s, target, parse, step), ApplySeen(s, seen, target, parse, step), target, parse)
  {
    match step
    case Slice(file, statLength, now) =>
      var r := IngestSlice(s, target, parse, file, statLength, now);
      if r.Ok? {
        SliceTellsItsProgress(s, seen, target, parse, file, statLength, now, r.value);
      }
    case _ =>
  }

  /** A slice of another file than the cursor's is refused, and of a file that became shorter fails as well. */
  lemma OtherFilesAreRefused(s: Source, target: Target, parse: JsonlLine -> Record, file: FileView, statLength: nat,
      now: int)
    ensures IngestSlice(s, target, parse, file, statLength, now) == Err(IdentityChanged) <==>
              s.cursor.Some? && s.cursor.value.identity != file.identity
  {
    if Poll(StartTail(s), LIMITS, file.bytes, file.identity).Ok? {
      var batch := Poll(StartTail(s), LIMITS, file.bytes, file.identity).value;
      var events := EventsAfter(StartProgress(s), target, batch.lines, parse, |batch.lines|);
      UpsertErrors(s.facts, file.identity, events, |events|, now);
    }
  }

  lemma {:induction false} UpsertErrors(facts: map<EventKey, Fact>, identity: string, events: seq<Event>, k: nat,
      now: int)
    requires k <= |events|
    ensures UpsertAll(facts, identity, events, k, now).Err? ==>
              UpsertAll(facts, identity, events, k, now).error in {InvalidUsage, EventConflict, NotStorable}
  {
    if k > 0 {
      UpsertErrors(facts, identity, events, k - 1, now);
    }
  }
}
