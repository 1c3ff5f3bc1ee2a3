/**
 * The reconstruction ledger of one machine (src/reconstruction.rs, src/store.rs and
 * src/store/ingest_repository.rs): facts, source status and cursor of a source change together.
 */
module ReconstructionStore {
  import opened Prelude
  import opened Types
  import opened Ingest
  import opened Tailing
  import opened Reconstruction

  const DEFAULT_MAX_LINE_BYTES: nat := 64 * 1024 * 1024
  /** One byte more than the longest record, for its newline. */
  const LIMITS: TailLimits := TailLimits(DEFAULT_MAX_LINE_BYTES + 1, DEFAULT_MAX_LINE_BYTES)

  datatype Status = Pending | Reconstructing | Reconstructed | Unrecoverable

  /** A physical file: its identity and its bytes at one moment. */
  datatype FileView = FileView(identity: string, bytes: seq<Byte>)

  datatype FileCursor = FileCursor(
    identity: string, byteOffset: nat, lineNumber: nat, tail: TailCheckpoint, progress: Progress)

  /** Stands for the event id, a digest of thread, file identity and byte offset. */
  datatype EventKey = EventKey(identity: string, byteOffset: nat)

  /** Stands for a stored row and its hash, which covers the time of observation as well. */
  datatype Fact = Fact(event: Event, observedAt: int)

  /** Status row, cursor row and fact rows of one source. */
  datatype Source = Source(
    identity: string,
    status: Status,
    bytesTotal: nat,
    bytesProcessed: nat,
    prefixEvents: u64,
    unchangedEvents: u64,
    counterResets: u64,
    cursor: Option<FileCursor>,
    facts: map<EventKey, Fact>)

  datatype IngestError =
    | IdentityChanged | RecordTooLong | TruncatedAfterStart
    | InvalidUsage | EventConflict | NotStorable | CursorRegression

  /** Whether every dimension fits the signed 64-bit columns of the store. */
  predicate Storable(u: TokenUsage) {
    && u.input <= I64_MAX && u.cached <= I64_MAX && u.cacheWrite <= I64_MAX
    && u.cacheWriteObserved <= I64_MAX && u.output <= I64_MAX && u.reasoning <= I64_MAX && u.total <= I64_MAX
  }

  // ----- storing events -----

  function Upsert(facts: map<EventKey, Fact>, key: EventKey, fact: Fact): Result<map<EventKey, Fact>, IngestError> {
    if !fact.event.usage.Valid() then Err(InvalidUsage)
    else if key in facts then (if facts[key] == fact then Ok(facts) else Err(EventConflict))
    else if !Storable(fact.event.usage) then Err(NotStorable)
    else Ok(facts[key := fact])
  }

  function UpsertAll(facts: map<EventKey, Fact>, identity: string, events: seq<Event>, k: nat, now: int)
    : Result<map<EventKey, Fact>, IngestError>
    requires k <= |events|
  {
    if k == 0 then Ok(facts) else
      var before := UpsertAll(facts, identity, events, k - 1, now);
      if before.Err? then before
      else Upsert(before.value, EventKey(identity, events[k - 1].byteOffset), Fact(events[k - 1], now))
  }

  /** A stored fact never changes: it is stored anew without effect, or something else in its place is a conflict. */
  lemma UpsertKeepsFacts(facts: map<EventKey, Fact>, key: EventKey, fact: Fact)
    ensures Upsert(facts, key, fact).Ok? <==>
              && fact.event.usage.Valid()
              && if key in facts then facts[key] == fact
                 else forall d: Dimension :: fact.event.usage.Get(d) <= 0x7FFF_FFFF_FFFF_FFFF
    ensures Upsert(facts, key, fact) == Err(EventConflict) <==>
              fact.event.usage.Valid() && key in facts && facts[key] != fact
    ensures Upsert(facts, key, fact).Ok? ==> Upsert(facts, key, fact).value == facts[key := fact]
  {
    UsageIsItsDimensions(fact.event.usage);
    if key in facts && facts[key] == fact {
      assert facts[key := fact] == facts;
    }
  }

  /** So a batch keeps what was stored and stores every event. */
  lemma {:induction false} UpsertAllKeepsFacts(facts: map<EventKey, Fact>, identity: string, events: seq<Event>, k: nat,
      now: int)
    requires k <= |events| && UpsertAll(facts, identity, events, k, now).Ok?
    ensures var after := UpsertAll(facts, identity, events, k, now).value;
      && (forall key :: key in facts ==> key in after && after[key] == facts[key])
      && (forall i :: 0 <= i < k ==> HasFact(after, EventKey(identity, events[i].byteOffset), Fact(events[i], now)))
  {
    if k > 0 {
      UpsertAllKeepsFacts(facts, identity, events, k - 1, now);
      UpsertKeepsFacts(UpsertAll(facts, identity, events, k - 1, now).value,
                       EventKey(identity, events[k - 1].byteOffset), Fact(events[k - 1], now));
    }
  }

  ghost predicate HasFact(facts: map<EventKey, Fact>, key: EventKey, fact: Fact) {
    key in facts && facts[key] == fact
  }

  // ----- one slice -----

  /** Older checkpoints may hold part of a record: go back to where that record starts. */
  function Rewound(c: TailCheckpoint): TailCheckpoint {
    if c.partialLine != [] then c.(nextOffset := c.partialOffset, partialLine := []) else c
  }

  function StartTail(s: Source): TailCheckpoint {
    if s.cursor.Some? then Rewound(s.cursor.value.tail) else FRESH
  }

  function StartProgress(s: Source): Progress {
    if s.cursor.Some? then s.cursor.value.progress else INITIAL
  }

  /** The rows written after a slice that ended with `batch`. */
  function Committed(s: Source, identity: string, tail: TailCheckpoint, progress: Progress,
      facts: map<EventKey, Fact>, statLength: nat)
    : Source
  {
    var complete := tail.nextOffset >= statLength && tail.partialLine == [];
    Source(identity, if complete then Reconstructed else Reconstructing, statLength, tail.nextOffset,
           progress.prefixEvents, progress.unchangedEvents, progress.counterResets,
           Some(FileCursor(identity, tail.nextOffset, tail.completedLines, tail, progress)), facts)
  }

  /** Reads, interprets and stores one slice of `file`; an error stores nothing at all. */
  ghost function IngestSlice(s: Source, target: Target,
      parse: JsonlLine -> Record, file: FileView, statLength: nat, now: int)
    : Result<Source, IngestError>
  {
    if s.cursor.Some? && s.cursor.value.identity != file.identity then Err(IdentityChanged) else
      var poll := Poll(StartTail(s), LIMITS, file.bytes, file.identity);
      if poll.Err? then Err(RecordTooLong)
      else if poll.value.reset.Some? && s.cursor.Some? then Err(TruncatedAfterStart)
      else Store(s, target, parse, file, poll.value, statLength, now)
  }

  ghost function Store(s: Source, target: Target,
      parse: JsonlLine -> Record, file: FileView, batch: TailBatch, statLength: nat, now: int)
    : Result<Source, IngestError>
  {
    var events := EventsAfter(StartProgress(s), target, batch.lines, parse, |batch.lines|);
    var progress := StateAfter(StartProgress(s), target, batch.lines, parse, |batch.lines|);
    var facts := UpsertAll(s.facts, file.identity, events, |events|, now);
    if facts.Err? then Err(facts.error)
    else if s.cursor.Some? && s.cursor.value.identity == file.identity
            && batch.checkpoint.nextOffset < s.cursor.value.byteOffset then Err(CursorRegression)
    else Ok(Committed(s, file.identity, batch.checkpoint, progress, facts.value, statLength))
  }

  /** Interprets a batch line by line from a saved state. */
  method ProcessLines(p: Progress, target: Target, parse: JsonlLine -> Record, lines: seq<JsonlLine>)
    returns (progress: Progress, events: seq<Event>)
    ensures progress == StateAfter(p, target, lines, parse, |lines|)
    ensures events == EventsAfter(p, target, lines, parse, |lines|)
  {
    var state := new ReconstructionState.Resume(p);
    events := [];
    for i := 0 to |lines|
      invariant fresh(state)
      invariant state.Value() == StateAfter(p, target, lines, parse, i)
      invariant events == EventsAfter(p, target, lines, parse, i)
    {
      var event := state.ProcessLine(lines[i], parse(lines[i]), target);
      if event.Some? {
        events := events + [event.value];
      }
    }
    progress := state.Value();
  }

  /** Source ids in the order of their strings. */
  type SourceId = nat

  class LedgerStore {
    var sources: map<SourceId, Source>

    constructor ()
      ensures sources == map[]
    {
      sources := map[];
    }

    /** One transaction: all events, the status and the cursor, or none of them. */
    method UpsertReconstructionEventsAndCursor(
      id: SourceId, identity: string, events: seq<Event>, tail: TailCheckpoint, progress: Progress, statLength: nat,
      now: int)
      returns (r: Result<(), IngestError>)
      requires id in sources
      modifies this
      ensures var s := old(sources[id]);
        var facts := UpsertAll(s.facts, identity, events, |events|, now);
        var regresses := s.cursor.Some? && s.cursor.value.identity == identity
                         && tail.nextOffset < s.cursor.value.byteOffset;
        if facts.Err? then r == Err(facts.error) && sources == old(sources)
        else if regresses then r == Err(CursorRegression) && sources == old(sources)
        else
          && r == Ok(())
          && sources == old(sources)[id := Committed(s, identity, tail, progress, facts.value, statLength)]
    {
      var s := sources[id];
      var facts := s.facts;
      for i := 0 to |events|
        invariant UpsertAll(s.facts, identity, events, i, now) == Ok(facts)
        invariant sources == old(sources)
      {
        var step := Upsert(facts, EventKey(identity, events[i].byteOffset), Fact(events[i], now));
        if step.Err? {
          UpsertStopsAtError(s.facts, identity, events, i + 1, |events|, now);
          return Err(step.error);
        }
        facts := step.value;
      }
      if s.cursor.Some? && s.cursor.value.identity == identity && tail.nextOffset < s.cursor.value.byteOffset {
        return Err(CursorRegression);
      }
      sources := sources[id := Committed(s, identity, tail, progress, facts, statLength)];
      return Ok(());
    }

    /** Advances one source by one slice. */
    method IngestTarget(
      id: SourceId, target: Target, parse: JsonlLine -> Record, file: FileView, statLength: nat, now: int)
      returns (r: Result<(), IngestError>)
      requires id in sources
      modifies this
      ensures var spec := IngestSlice(old(sources[id]), target, parse, file, statLength, now);
        && r == (if spec.Ok? then Ok(()) else Err(spec.error))
        && sources == (if spec.Ok? then old(sources)[id := spec.value] else old(sources))
    {
      var s := sources[id];
      if s.cursor.Some? && s.cursor.value.identity != file.identity {
        return Err(IdentityChanged);
      }
      var tail, progress := StartTail(s), StartProgress(s);
      var tailer := new IncrementalJsonlTailer.WithLimits(tail, LIMITS);
      var polled := tailer.PollReader(file.bytes, file.identity);
      if polled.Err? {
        return Err(RecordTooLong);
      }
      var batch := polled.value;
      if batch.reset.Some? && s.cursor.Some? {
        return Err(TruncatedAfterStart);
      }
      var events;
      progress, events := ProcessLines(progress, target, parse, batch.lines);
      r := UpsertReconstructionEventsAndCursor(id, file.identity, events, batch.checkpoint, progress, statLength, now);
    }

    /** The error path: keep the facts, give up the source and drop its parser state. */
    method MarkUnrecoverable(id: SourceId)
      requires id in sources
      modifies this
      ensures sources == old(sources)[id := GivenUp(old(sources[id]))]
      ensures sources[id].facts == old(sources[id]).facts
      ensures sources[id].cursor == None && sources[id].status == Unrecoverable
    {
      sources := sources[id := sources[id].(status := Unrecoverable)];
      sources := sources[id := sources[id].(cursor := None)];
    }

    /** A new physical file stands behind the source: forget everything derived from the old one. */
    method ReplaceReconstructionSource(id: SourceId, file: FileView)
      requires id in sources
      modifies this
      ensures sources == old(sources)[id := Fresh(file)]
      ensures IsNew(sources[id], file)
    {
      sources := sources[id := Fresh(file)];
    }
  }

  /** Nothing is known of the file but its identity and its length. */
  ghost predicate IsNew(s: Source, file: FileView) {
    && s.identity == file.identity && s.bytesTotal == |file.bytes| && s.status == Pending && s.bytesProcessed == 0
    && s.facts == map[] && s.cursor == None && s.prefixEvents == s.unchangedEvents == s.counterResets == 0
  }

  function GivenUp(s: Source): Source {
    s.(status := Unrecoverable, cursor := None)
  }

  function Fresh(file: FileView): Source {
    Source(file.identity, Pending, |file.bytes|, 0, 0, 0, 0, None, map[])
  }

  lemma {:induction false} UpsertStopsAtError(
    facts: map<EventKey, Fact>, identity: string, events: seq<Event>, j: nat, k: nat, now: int)
    requires j <= k <= |events| && UpsertAll(facts, identity, events, j, now).Err?
    ensures UpsertAll(facts, identity, events, k, now) == UpsertAll(facts, identity, events, j, now)
    decreases k
  {
    if j < k {
      UpsertStopsAtError(facts, identity, events, j, k - 1, now);
    }
  }
}
