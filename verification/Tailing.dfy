/** Whole runs of the tailer: any chunking of a growing file emits exactly its lines. */
module Tailing {
  import opened Prelude
  import opened Ingest

  function LinesOf(file: seq<Byte>, k: nat): seq<JsonlLine>
    requires k <= |file|
  {
    Lines(file, k, 0, 0)
  }

  /** The checkpoint describes the first `nextOffset` bytes of `file`. */
  ghost predicate Tracks(c: TailCheckpoint, file: seq<Byte>) {
    && c.nextOffset <= |file|
    && c.partialOffset == LineStart(file, c.nextOffset)
    && c.partialLine == file[c.partialOffset..c.nextOffset]
    && c.completedLines == |LinesOf(file, c.nextOffset)|
  }

  ghost predicate SameFile(c: TailCheckpoint, identity: string) {
    c.fileIdentity.None? || c.fileIdentity == Some(identity)
  }

  // ----- append-only growth changes nothing that was already read -----

  lemma {:induction false} PrefixStable(a: seq<Byte>, b: seq<Byte>, k: nat, max: nat)
    requires a <= b && k <= |a|
    ensures LineStart(a, k) == LineStart(b, k)
    ensures LinesOf(a, k) == LinesOf(b, k)
    ensures Fits(a, k, max) <==> Fits(b, k, max)
  {
    if k > 0 {
      PrefixStable(a, b, k - 1, max);
      assert a[k - 1] == b[k - 1];
      assert a[LineStart(a, k - 1)..k - 1] == b[LineStart(b, k - 1)..k - 1];
    }
  }

  lemma TracksGrownFile(c: TailCheckpoint, a: seq<Byte>, b: seq<Byte>)
    requires a <= b && c.nextOffset <= |a|
    ensures Tracks(c, a) <==> Tracks(c, b)
  {
    PrefixStable(a, b, c.nextOffset, 0);
    assert a[LineStart(a, c.nextOffset)..c.nextOffset] == b[LineStart(b, c.nextOffset)..c.nextOffset];
  }

  // ----- one poll -----

  lemma {:induction false} RecordsStartAfterNewlines(s: seq<Byte>, k: nat)
    requires k <= |s|
    ensures LineStart(s, LineStart(s, k)) == LineStart(s, k)
  {
    if k > 0 && s[k - 1] != NEWLINE {
      RecordsStartAfterNewlines(s, k - 1);
    }
  }

  /** The partial record has produced no line yet. */
  lemma {:induction false} NoLineInProgress(s: seq<Byte>, k: nat)
    requires k <= |s|
    ensures LinesOf(s, LineStart(s, k)) == LinesOf(s, k)
  {
    if k > 0 && s[k - 1] != NEWLINE {
      NoLineInProgress(s, k - 1);
    }
  }

  lemma TrackedWindow(c: TailCheckpoint, limits: TailLimits, file: seq<Byte>)
    requires Tracks(c, file)
    ensures var w := Window(c, limits, file);
      && BaseOffset(c) == c.partialOffset
      && c.partialOffset + |w| == c.nextOffset + ReadLength(c, limits, |file|)
      && w == file[c.partialOffset..c.partialOffset + |w|]
      && IsWindow(w, file, c.partialOffset)
  {
    RecordsStartAfterNewlines(file, c.nextOffset);
  }

  /** `batch` carries the lines of `file` between `from` and `next`, and its checkpoint says so. */
  ghost predicate Advances(batch: TailBatch, file: seq<Byte>, identity: string, from: nat, next: nat)
    requires from <= |file| && next <= |file|
  {
    && batch.reset == None
    && batch.checkpoint.fileIdentity == Some(identity)
    && batch.checkpoint.nextOffset == next
    && Tracks(batch.checkpoint, file)
    && batch.hasMore == (next < |file|) && batch.bytesRead == next - from
    && LinesOf(file, next) == LinesOf(file, from) + batch.lines
  }

  function NextOffset(c: TailCheckpoint, limits: TailLimits, file: seq<Byte>): (next: nat)
    requires c.nextOffset <= |file|
    ensures c.nextOffset <= next <= |file|
    ensures c.nextOffset < |file| && limits.readChunkBytes > 0 ==> c.nextOffset < next
    ensures next == |file| || next == c.nextOffset + limits.readChunkBytes
    ensures next <= c.nextOffset + limits.readChunkBytes
  {
    c.nextOffset + ReadLength(c, limits, |file|)
  }

  lemma WindowEmits(c: TailCheckpoint, limits: TailLimits, file: seq<Byte>, w: seq<Byte>, next: nat)
    requires Tracks(c, file) && w == Window(c, limits, file) && next == NextOffset(c, limits, file)
    ensures LinesOf(file, next) == LinesOf(file, c.nextOffset) + Lines(w, |w|, c.partialOffset, c.completedLines)
  {
    TrackedWindow(c, limits, file);
    NoLineInProgress(file, c.nextOffset);
    WindowLines(w, file, c.partialOffset, |w|, next, c.completedLines);
  }

  lemma WindowLeaves(c: TailCheckpoint, limits: TailLimits, file: seq<Byte>, w: seq<Byte>, next: nat)
    requires Tracks(c, file) && w == Window(c, limits, file) && next == NextOffset(c, limits, file)
    ensures LineStart(file, next) == c.partialOffset + LineStart(w, |w|)
    ensures w[LineStart(w, |w|)..] == file[LineStart(file, next)..next]
  {
    TrackedWindow(c, limits, file);
    WindowStart(w, file, c.partialOffset, |w|);
  }

  lemma BatchAdvances(c: TailCheckpoint, limits: TailLimits, file: seq<Byte>, identity: string)
    requires Tracks(c, file) && c.fileIdentity == Some(identity)
    ensures Advances(BatchOf(c, None, Window(c, limits, file), ReadLength(c, limits, |file|), |file|),
                     file, identity, c.nextOffset, NextOffset(c, limits, file))
  {
    var w := Window(c, limits, file);
    var next := NextOffset(c, limits, file);
    TrackedWindow(c, limits, file);
    WindowEmits(c, limits, file, w, next);
    WindowLeaves(c, limits, file, w, next);
  }

  lemma WindowFitsIff(c: TailCheckpoint, limits: TailLimits, file: seq<Byte>)
    requires Tracks(c, file) && Fits(file, c.nextOffset, limits.maxLineBytes)
    ensures var w := Window(c, limits, file);
      Fits(w, |w|, limits.maxLineBytes) <==> Fits(file, NextOffset(c, limits, file), limits.maxLineBytes)
  {
    var w := Window(c, limits, file);
    TrackedWindow(c, limits, file);
    FitsMonotone(file, c.partialOffset, c.nextOffset, limits.maxLineBytes);
    WindowFits(w, file, c.partialOffset, |w|, limits.maxLineBytes);
  }

  lemma PollOfSameFile(c: TailCheckpoint, limits: TailLimits, file: seq<Byte>, identity: string, start: TailCheckpoint)
    requires Tracks(c, file) && SameFile(c, identity) && start == c.(fileIdentity := Some(identity))
    ensures Tracks(start, file) && NextOffset(start, limits, file) == NextOffset(c, limits, file)
    ensures Poll(c, limits, file, identity) == PollWindow(start, None, Window(start, limits, file), limits, |file|)
  {
  }

  /** A poll succeeds exactly when what it has seen so far fits, and then emits the next lines. */
  lemma PollAdvances(c: TailCheckpoint, limits: TailLimits, file: seq<Byte>, identity: string)
    requires Tracks(c, file) && SameFile(c, identity) && Fits(file, c.nextOffset, limits.maxLineBytes)
    ensures Poll(c, limits, file, identity).Ok? <==> Fits(file, NextOffset(c, limits, file), limits.maxLineBytes)
    ensures Poll(c, limits, file, identity).Ok? ==>
      Advances(Poll(c, limits, file, identity).value, file, identity, c.nextOffset, NextOffset(c, limits, file))
  {
    var start := c.(fileIdentity := Some(identity));
    PollOfSameFile(c, limits, file, identity, start);
    WindowFitsIff(start, limits, file);
    BatchAdvances(start, limits, file, identity);
  }

  /**
   * A poll that finds another file, or one that is shorter than what was read, says so and starts
   * over: it emits the first lines of the file as it is now.
   */
  lemma ReplacedFileStartsOver(c: TailCheckpoint, limits: TailLimits, file: seq<Byte>, identity: string, next: nat)
    requires !SameFile(c, identity) || |file| < c.nextOffset
    requires next == NextOffset(FRESH, limits, file)
    ensures Poll(c, limits, file, identity).Ok? <==> Fits(file, next, limits.maxLineBytes)
    ensures Poll(c, limits, file, identity).Ok? ==>
              var batch := Poll(c, limits, file, identity).value;
              && batch.reset == Some(if SameFile(c, identity) then FileTruncated else FileIdentityChanged)
              && Advances(batch.(reset := None), file, identity, 0, next)
  {
    var start := FRESH.(fileIdentity := Some(identity));
    assert Tracks(start, file);
    WindowFitsIff(start, limits, file);
    BatchAdvances(start, limits, file, identity);
  }

  // ----- any sequence of polls over a growing file -----

  /** A poll with some chunk size while the file has some content. */
  datatype Snapshot = Snapshot(chunk: nat, bytes: seq<Byte>)

  function CheckpointAfter(polls: seq<Snapshot>, k: nat, max: nat, identity: string): TailCheckpoint
    requires k <= |polls|
  {
    if k == 0 then FRESH else
      var c := CheckpointAfter(polls, k - 1, max, identity);
      var r := Poll(c, TailLimits(polls[k - 1].chunk, max), polls[k - 1].bytes, identity);
      if r.Ok? then r.value.checkpoint else c
  }

  function EmittedBy(polls: seq<Snapshot>, k: nat, max: nat, identity: string): seq<JsonlLine>
    requires k <= |polls|
  {
    if k == 0 then [] else
      var c := CheckpointAfter(polls, k - 1, max, identity);
      var r := Poll(c, TailLimits(polls[k - 1].chunk, max), polls[k - 1].bytes, identity);
      EmittedBy(polls, k - 1, max, identity) + if r.Ok? then r.value.lines else []
  }

  /** The file only grows, towards `file`. */
  ghost predicate AppendOnly(polls: seq<Snapshot>, file: seq<Byte>) {
    && (forall i :: 0 <= i < |polls| ==> polls[i].bytes <= file)
    && (forall i, j :: 0 <= i < j < |polls| ==> |polls[i].bytes| <= |polls[j].bytes|)
  }

  /** `emitted` is the newline split of the file up to the checkpoint `c`. */
  ghost predicate Faithful(c: TailCheckpoint, emitted: seq<JsonlLine>, file: seq<Byte>, max: nat, identity: string) {
    && Tracks(c, file) && SameFile(c, identity)
    && Fits(file, c.nextOffset, max)
    && emitted == LinesOf(file, c.nextOffset)
  }

  lemma FaithfulAfterPoll(c: TailCheckpoint, emitted: seq<JsonlLine>, p: Snapshot, max: nat, identity: string,
      file: seq<Byte>)
    requires Faithful(c, emitted, file, max, identity)
    requires p.bytes <= file && c.nextOffset <= |p.bytes|
    ensures var r := Poll(c, TailLimits(p.chunk, max), p.bytes, identity);
      r.Ok? ==> Faithful(r.value.checkpoint, emitted + r.value.lines, file, max, identity)
                && r.value.checkpoint.nextOffset <= |p.bytes|
  {
    var limits := TailLimits(p.chunk, max);
    TracksGrownFile(c, p.bytes, file);
    PrefixStable(p.bytes, file, c.nextOffset, max);
    PollAdvances(c, limits, p.bytes, identity);
    var r := Poll(c, limits, p.bytes, identity);
    if r.Ok? {
      PrefixStable(p.bytes, file, NextOffset(c, limits, p.bytes), max);
      TracksGrownFile(r.value.checkpoint, p.bytes, file);
    }
  }

  /**
   * Whatever the chunk sizes, and whether or not some polls fail, the lines emitted so far are
   * the newline split of the file up to the checkpoint, and the saved partial is the rest.
   */
  lemma {:induction false} AnyPollsEmitTheFile(polls: seq<Snapshot>, k: nat, max: nat, identity: string,
      file: seq<Byte>)
    requires k <= |polls| && AppendOnly(polls, file)
    ensures Faithful(CheckpointAfter(polls, k, max, identity), EmittedBy(polls, k, max, identity), file, max, identity)
    ensures CheckpointAfter(polls, k, max, identity).nextOffset <= if k == 0 then 0 else |polls[k - 1].bytes|
  {
    if k > 0 {
      AnyPollsEmitTheFile(polls, k - 1, max, identity, file);
      FaithfulAfterPoll(CheckpointAfter(polls, k - 1, max, identity), EmittedBy(polls, k - 1, max, identity),
                        polls[k - 1], max, identity, file);
    }
  }

  // ----- draining -----

  /** Polls until nothing is left to read or a poll fails. */
  ghost function Drain(c: TailCheckpoint, limits: TailLimits, file: seq<Byte>, identity: string)
    : Result<(seq<JsonlLine>, TailCheckpoint), TailError>
    requires limits.readChunkBytes > 0
    requires Tracks(c, file) && SameFile(c, identity) && Fits(file, c.nextOffset, limits.maxLineBytes)
    decreases |file| - c.nextOffset
  {
    var r := Poll(c, limits, file, identity);
    PollAdvances(c, limits, file, identity);
    if r.Err? then Err(r.error)
    else if !r.value.hasMore then Ok((r.value.lines, r.value.checkpoint))
    else
      var later := Drain(r.value.checkpoint, limits, file, identity);
      if later.Err? then later else Ok((r.value.lines + later.value.0, later.value.1))
  }

  /** `lines` are all further lines of `file`, and nothing is left to read. */
  ghost predicate Drained(from: nat, lines: seq<JsonlLine>, c: TailCheckpoint, file: seq<Byte>)
    requires from <= |file|
  {
    && Tracks(c, file) && c.nextOffset == |file|
    && LinesOf(file, |file|) == LinesOf(file, from) + lines
  }

  /**
   * Draining fails if and only if some record of the file, the unterminated tail included, is
   * over the limit. The chunk size does not matter.
   */
  lemma {:induction false} DrainFailsIffRecordTooLong(c: TailCheckpoint, limits: TailLimits, file: seq<Byte>,
      identity: string)
    requires limits.readChunkBytes > 0
    requires Tracks(c, file) && SameFile(c, identity) && Fits(file, c.nextOffset, limits.maxLineBytes)
    ensures Drain(c, limits, file, identity).Ok? <==> Fits(file, |file|, limits.maxLineBytes)
    decreases |file| - c.nextOffset
  {
    PollAdvances(c, limits, file, identity);
    var r := Poll(c, limits, file, identity);
    if r.Err? {
      if Fits(file, |file|, limits.maxLineBytes) {
        FitsMonotone(file, NextOffset(c, limits, file), |file|, limits.maxLineBytes);
      }
    } else if r.value.hasMore {
      DrainFailsIffRecordTooLong(r.value.checkpoint, limits, file, identity);
    }
  }

  /** Nor does it matter for what is emitted: always all further lines of the file. */
  lemma {:induction false} DrainEmitsTheFile(c: TailCheckpoint, limits: TailLimits, file: seq<Byte>, identity: string)
    requires limits.readChunkBytes > 0
    requires Tracks(c, file) && SameFile(c, identity) && Fits(file, c.nextOffset, limits.maxLineBytes)
    requires Drain(c, limits, file, identity).Ok?
    ensures Drained(c.nextOffset, Drain(c, limits, file, identity).value.0, Drain(c, limits, file, identity).value.1,
                    file)
    decreases |file| - c.nextOffset
  {
    PollAdvances(c, limits, file, identity);
    var batch := Poll(c, limits, file, identity).value;
    if batch.hasMore {
      DrainEmitsTheFile(batch.checkpoint, limits, file, identity);
      var later := Drain(batch.checkpoint, limits, file, identity);
      DrainedInTwo(c.nextOffset, batch.lines, batch.checkpoint.nextOffset, later.value.0, later.value.1, file);
    }
  }

  lemma DrainedInTwo(from: nat, lines: seq<JsonlLine>, mid: nat, more: seq<JsonlLine>, c: TailCheckpoint,
      file: seq<Byte>)
    requires from <= |file| && mid <= |file| && LinesOf(file, mid) == LinesOf(file, from) + lines
    requires Drained(mid, more, c, file)
    ensures Drained(from, lines + more, c, file)
  {
    assert LinesOf(file, |file|) == LinesOf(file, from) + (lines + more);
  }

  /** `Fits` in terms of the records between newlines. */
  lemma {:induction false} FitsIffRecordsFit(s: seq<Byte>, k: nat, max: nat)
    requires k <= |s|
    ensures Fits(s, k, max) <==> RecordsFit(NewlinePositions(s, k), max) && k - LineStart(s, k) <= max
  {
    OneLinePerNewline(s, k, 0, 0);
    if k > 0 {
      FitsIffRecordsFit(s, k - 1, max);
      OneLinePerNewline(s, k - 1, 0, 0);
      if s[k - 1] == NEWLINE {
        OneMoreRecordFits(NewlinePositions(s, k - 1), k - 1, max);
      }
    }
  }

  ghost function RecordLength(ends: seq<nat>, i: nat): int
    requires i < |ends|
  {
    var start: int := if i == 0 then 0 else ends[i - 1] + 1;
    var end: int := ends[i];
    end - start
  }

  ghost predicate RecordsFit(ends: seq<nat>, max: nat) {
    forall i :: 0 <= i < |ends| ==> RecordLength(ends, i) <= max
  }

  lemma OneMoreRecordFits(ends: seq<nat>, end: nat, max: nat)
    ensures RecordsFit(ends + [end], max)
            <==> RecordsFit(ends, max) && end - (if ends == [] then 0 else ends[|ends| - 1] + 1) <= max
  {
    var more := ends + [end];
    assert forall i :: 0 <= i < |ends| ==> RecordLength(more, i) == RecordLength(ends, i);
    assert RecordLength(more, |ends|) == end - (if ends == [] then 0 else ends[|ends| - 1] + 1);
  }
}
