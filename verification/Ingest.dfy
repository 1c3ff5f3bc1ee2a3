/** Incremental JSONL tailing (src/ingest.rs). */
module Ingest {
  import opened Prelude

  type Byte = x: int | 0 <= x < 256

  const NEWLINE: Byte := 10
  const CARRIAGE_RETURN: Byte := 13

  datatype TailLimits = TailLimits(readChunkBytes: nat, maxLineBytes: nat)

  datatype TailCheckpoint = TailCheckpoint(
    fileIdentity: Option<string>,
    nextOffset: nat,
    completedLines: nat,
    partialOffset: nat,
    partialLine: seq<Byte>)

  const FRESH: TailCheckpoint := TailCheckpoint(None, 0, 0, 0, [])

  datatype TailReset = FileIdentityChanged | FileTruncated

  datatype JsonlLine = JsonlLine(byteOffset: nat, lineNumber: nat, raw: seq<Byte>)

  datatype TailBatch = TailBatch(
    lines: seq<JsonlLine>,
    checkpoint: TailCheckpoint,
    reset: Option<TailReset>,
    bytesRead: nat,
    hasMore: bool)

  datatype TailError = LineTooLong | InvalidLimits

  // ----- what the first `k` bytes of a stream mean as a sequence of records -----

  /** Position right after the last newline among the first `k` bytes. */
  function LineStart(s: seq<Byte>, k: nat): (start: nat)
    requires k <= |s|
    ensures start <= k
  {
    if k == 0 then 0 else if s[k - 1] == NEWLINE then k else LineStart(s, k - 1)
  }

  function StripCarriageReturn(record: seq<Byte>): seq<Byte> {
    if record != [] && record[|record| - 1] == CARRIAGE_RETURN then record[..|record| - 1] else record
  }

  /** The record that the newline at position `k` ends. */
  function LineEndingAt(s: seq<Byte>, k: nat, base: nat, number: nat): JsonlLine
    requires k < |s|
  {
    JsonlLine(base + LineStart(s, k), number, StripCarriageReturn(s[LineStart(s, k)..k]))
  }

  /** The complete lines among the first `k` bytes; byte 0 sits at file position `base`. */
  function Lines(s: seq<Byte>, k: nat, base: nat, completed: nat): seq<JsonlLine>
    requires k <= |s|
  {
    if k == 0 then [] else
      var lines := Lines(s, k - 1, base, completed);
      if s[k - 1] != NEWLINE then lines
      else lines + [LineEndingAt(s, k - 1, base, completed + |lines| + 1)]
  }

  /** No record within the first `k` bytes, the unterminated one included, exceeds `max` bytes. */
  predicate Fits(s: seq<Byte>, k: nat, max: nat)
    requires k <= |s|
  {
    k == 0 || (Fits(s, k - 1, max) && k - LineStart(s, k) <= max)
  }

  /** The bytes of the record in progress contain no newline and follow one. */
  lemma {:induction false} PendingRecord(s: seq<Byte>, k: nat)
    requires k <= |s|
    ensures var start := LineStart(s, k);
      && (forall i :: start <= i < k ==> s[i] != NEWLINE)
      && (start == 0 || s[start - 1] == NEWLINE)
  {
    if k > 0 && s[k - 1] != NEWLINE {
      PendingRecord(s, k - 1);
    }
  }

  /** The line feed of a line is at `end`; its bytes are those in front, without one carriage return at the end. */
  ghost predicate LineAt(s: seq<Byte>, base: nat, line: JsonlLine, end: nat) {
    && base <= line.byteOffset <= base + end < base + |s|
    && s[end] == 10
    && (forall i :: line.byteOffset - base <= i < end ==> s[i] != 10)
    && line.raw == s[line.byteOffset - base..if EndsInReturn(s, base, line, end) then end - 1 else end]
  }

  ghost predicate EndsInReturn(s: seq<Byte>, base: nat, line: JsonlLine, end: nat)
    requires base <= line.byteOffset && end < |s|
  {
    line.byteOffset < base + end && s[end - 1] == 13
  }

  function NewlinePositions(s: seq<Byte>, k: nat): (ends: seq<nat>)
    requires k <= |s|
  {
    if k == 0 then []
    else if s[k - 1] == NEWLINE then NewlinePositions(s, k - 1) + [k - 1]
    else NewlinePositions(s, k - 1)
  }

  /** There is one line per newline, and the record in progress starts after the last one. */
  lemma {:induction false} OneLinePerNewline(s: seq<Byte>, k: nat, base: nat, completed: nat)
    requires k <= |s|
    ensures |Lines(s, k, base, completed)| == |NewlinePositions(s, k)|
    ensures var ends := NewlinePositions(s, k);
      LineStart(s, k) == if ends == [] then 0 else ends[|ends| - 1] + 1
  {
    if k > 0 {
      OneLinePerNewline(s, k - 1, base, completed);
    }
  }

  /**
   * Line `i` starts right after line `i - 1` ends, holds the bytes up to the next newline and
   * is numbered consecutively.
   */
  lemma {:induction false} NthLine(s: seq<Byte>, k: nat, base: nat, completed: nat, i: nat)
    requires k <= |s| && i < |Lines(s, k, base, completed)|
    ensures i < |NewlinePositions(s, k)|
    ensures LineAt(s, base, Lines(s, k, base, completed)[i], NewlinePositions(s, k)[i])
    ensures Lines(s, k, base, completed)[i].lineNumber == completed + i + 1
    ensures Lines(s, k, base, completed)[i].byteOffset
            == base + if i == 0 then 0 else NewlinePositions(s, k)[i - 1] + 1
  {
    OneLinePerNewline(s, k - 1, base, completed);
    if i < |Lines(s, k - 1, base, completed)| {
      NthLine(s, k - 1, base, completed, i);
    } else {
      PendingRecord(s, k - 1);
    }
  }

  ghost predicate OffsetsIncrease(lines: seq<JsonlLine>, from: nat, to: nat) {
    && (forall i :: 0 <= i < |lines| ==> from <= lines[i].byteOffset < to)
    && (forall i, j :: 0 <= i < j < |lines| ==> lines[i].byteOffset < lines[j].byteOffset)
  }

  /** Emitted offsets grow strictly and stay below the record in progress. */
  lemma {:induction false} LineOffsetsIncrease(s: seq<Byte>, k: nat, base: nat, completed: nat)
    requires k <= |s|
    ensures OffsetsIncrease(Lines(s, k, base, completed), base, base + LineStart(s, k))
  {
    if k > 0 {
      LineOffsetsIncrease(s, k - 1, base, completed);
    }
  }

  lemma {:induction false} LinesMonotone(s: seq<Byte>, j: nat, k: nat, base: nat, completed: nat)
    requires j <= k <= |s|
    ensures Lines(s, j, base, completed) <= Lines(s, k, base, completed)
    ensures LineStart(s, j) <= LineStart(s, k)
    decreases k
  {
    if j < k {
      LinesMonotone(s, j, k - 1, base, completed);
    }
  }

  lemma {:induction false} FitsMonotone(s: seq<Byte>, j: nat, k: nat, max: nat)
    requires j <= k <= |s| && Fits(s, k, max)
    ensures Fits(s, j, max)
    decreases k
  {
    if j < k {
      FitsMonotone(s, j, k - 1, max);
    }
  }

  // ----- looking at a stream through a window -----

  /** `w` shows the bytes of `s` from `base` on, and `base` is where a record starts. */
  ghost predicate IsWindow(w: seq<Byte>, s: seq<Byte>, base: nat) {
    && base + |w| <= |s|
    && (forall i :: 0 <= i < |w| ==> w[i] == s[base + i])
    && LineStart(s, base) == base
  }

  lemma {:induction false} WindowStart(w: seq<Byte>, s: seq<Byte>, base: nat, k: nat)
    requires IsWindow(w, s, base) && k <= |w|
    ensures LineStart(s, base + k) == base + LineStart(w, k)
  {
    if k > 0 {
      WindowStart(w, s, base, k - 1);
    }
  }

  lemma WindowLine(w: seq<Byte>, s: seq<Byte>, base: nat, k: nat, number: nat)
    requires IsWindow(w, s, base) && k < |w|
    ensures LineEndingAt(s, base + k, 0, number) == LineEndingAt(w, k, base, number)
  {
    WindowStart(w, s, base, k);
    var start := LineStart(w, k);
    var a, b := s[base + start..base + k], w[start..k];
    forall j | 0 <= j < |a|
      ensures a[j] == b[j]
    {
      assert w[start + j] == s[base + (start + j)];
    }
    assert a == b;
  }

  /** Scanning a window up to file position `at` yields exactly the further lines of the whole stream. */
  lemma {:induction false} WindowLines(w: seq<Byte>, s: seq<Byte>, base: nat, k: nat, at: nat, completed: nat)
    requires IsWindow(w, s, base) && k <= |w| && at == base + k && completed == |Lines(s, base, 0, 0)|
    ensures Lines(s, at, 0, 0) == Lines(s, base, 0, 0) + Lines(w, k, base, completed)
    decreases k
  {
    if k > 0 {
      WindowLines(w, s, base, k - 1, at - 1, completed);
      assert s[at - 1] == w[k - 1];
      if w[k - 1] == NEWLINE {
        WindowLine(w, s, base, k - 1, completed + |Lines(w, k - 1, base, completed)| + 1);
      }
    }
  }

  lemma {:induction false} WindowFits(w: seq<Byte>, s: seq<Byte>, base: nat, k: nat, max: nat)
    requires IsWindow(w, s, base) && k <= |w| && Fits(s, base, max)
    ensures Fits(s, base + k, max) <==> Fits(w, k, max)
  {
    if k > 0 {
      WindowFits(w, s, base, k - 1, max);
      WindowStart(w, s, base, k);
    }
  }

  // ----- one poll -----

  /** The checkpoint a poll starts from: discarded after replacement or truncation. */
  function Effective(c: TailCheckpoint, length: nat, identity: string): (TailCheckpoint, Option<TailReset>) {
    if c.fileIdentity.Some? && c.fileIdentity.value != identity then
      (FRESH.(fileIdentity := Some(identity)), Some(FileIdentityChanged))
    else if length < c.nextOffset then
      (FRESH.(fileIdentity := Some(identity)), Some(FileTruncated))
    else
      (c.(fileIdentity := Some(identity)), None)
  }

  function ReadLength(c: TailCheckpoint, limits: TailLimits, length: nat): nat
    requires c.nextOffset <= length
  {
    Min(length - c.nextOffset, limits.readChunkBytes)
  }

  /** The bytes one poll looks at: the saved partial line, then one chunk of the file. */
  function Window(c: TailCheckpoint, limits: TailLimits, file: seq<Byte>): seq<Byte>
    requires c.nextOffset <= |file|
  {
    c.partialLine + file[c.nextOffset..c.nextOffset + ReadLength(c, limits, |file|)]
  }

  function BaseOffset(c: TailCheckpoint): nat {
    if c.partialLine != [] then c.partialOffset else c.nextOffset
  }

  /** The batch that a scan of the window `w` amounts to. */
  function BatchOf(start: TailCheckpoint, reset: Option<TailReset>, w: seq<Byte>, read: nat, length: nat): TailBatch {
    var lines := Lines(w, |w|, BaseOffset(start), start.completedLines);
    var partial := w[LineStart(w, |w|)..];
    var next := start.nextOffset + read;
    TailBatch(
      lines,
      TailCheckpoint(start.fileIdentity, next, start.completedLines + |lines|,
                     if partial == [] then next else BaseOffset(start) + LineStart(w, |w|), partial),
      reset, read, next < length)
  }

  /** What a poll of `file` returns, in terms of the newline split of its window. */
  function Poll(c: TailCheckpoint, limits: TailLimits, file: seq<Byte>, identity: string): Result<TailBatch,
      TailError> {
    var (start, reset) := Effective(c, |file|, identity);
    PollWindow(start, reset, Window(start, limits, file), limits, |file|)
  }

  function PollWindow(start: TailCheckpoint, reset: Option<TailReset>, w: seq<Byte>, limits: TailLimits, length: nat)
    : Result<TailBatch, TailError>
    requires start.nextOffset <= length
  {
    if Fits(w, |w|, limits.maxLineBytes)
    then Ok(BatchOf(start, reset, w, ReadLength(start, limits, length), length))
    else Err(LineTooLong)
  }

  /** A record over the limit is noticed at its newline as well as byte by byte. */
  lemma {:induction false} RecordFits(s: seq<Byte>, start: nat, k: nat, max: nat)
    requires start <= k <= |s| && Fits(s, start, max) && LineStart(s, k) == start
    ensures Fits(s, k, max) <==> k - start <= max
    decreases k
  {
    if start < k {
      RecordFits(s, start, k - 1, max);
    }
  }

  /** Splits one window at its newlines; fails as soon as a record is over the limit. */
  method ScanWindow(combined: seq<Byte>, base: nat, completedBefore: nat, max: nat)
    returns (r: Result<(seq<JsonlLine>, nat), TailError>)
    ensures r.Ok? <==> Fits(combined, |combined|, max)
    ensures r.Err? ==> r.error == LineTooLong
    ensures r.Ok? ==> r.value == (Lines(combined, |combined|, base, completedBefore), LineStart(combined, |combined|))
  {
    var lines: seq<JsonlLine> := [];
    var lineStart := 0;
    var completed := completedBefore;
    for index := 0 to |combined|
      invariant lineStart == LineStart(combined, index)
      invariant lines == Lines(combined, index, base, completedBefore)
      invariant completed == completedBefore + |lines|
      invariant Fits(combined, lineStart, max)
    {
      if combined[index] != NEWLINE {
        continue;
      }
      RecordFits(combined, lineStart, index, max);
      if index - lineStart > max {
        if Fits(combined, |combined|, max) {
          FitsMonotone(combined, index, |combined|, max);
        }
        return Err(LineTooLong);
      }
      completed := completed + 1;
      lines := lines + [JsonlLine(base + lineStart, completed, StripCarriageReturn(combined[lineStart..index]))];
      lineStart := index + 1;
    }
    RecordFits(combined, lineStart, |combined|, max);
    if |combined| - lineStart > max {
      return Err(LineTooLong);
    }
    return Ok((lines, lineStart));
  }

  method PollFrom(saved: TailCheckpoint, limits: TailLimits, file: seq<Byte>, identity: string)
    returns (r: Result<TailBatch, TailError>)
    ensures r == Poll(saved, limits, file, identity)
  {
    var reset: Option<TailReset> := None;
    var c := saved;
    if c.fileIdentity.Some? && c.fileIdentity.value != identity {
      c := FRESH;
      reset := Some(FileIdentityChanged);
    } else if |file| < c.nextOffset {
      c := FRESH;
      reset := Some(FileTruncated);
    }
    c := c.(fileIdentity := Some(identity));
    assert (c, reset) == Effective(saved, |file|, identity);
    r := PollEffective(c, reset, limits, file);
  }

  method PollEffective(start: TailCheckpoint, reset: Option<TailReset>, limits: TailLimits, file: seq<Byte>)
    returns (r: Result<TailBatch, TailError>)
    requires start.nextOffset <= |file|
    ensures r == PollWindow(start, reset, Window(start, limits, file), limits, |file|)
  {
    var read := ReadLength(start, limits, |file|);
    r := SplitWindow(start, reset, Window(start, limits, file), read, limits, |file|);
  }

  method SplitWindow(start: TailCheckpoint, reset: Option<TailReset>, combined: seq<Byte>, read: nat,
      limits: TailLimits, length: nat)
    returns (r: Result<TailBatch, TailError>)
    ensures r == if Fits(combined, |combined|, limits.maxLineBytes)
                 then Ok(BatchOf(start, reset, combined, read, length)) else Err(LineTooLong)
  {
    var base := BaseOffset(start);
    var scan := ScanWindow(combined, base, start.completedLines, limits.maxLineBytes);
    if scan.Err? {
      return Err(scan.error);
    }
    var (lines, lineStart) := scan.value;
    var next := start.nextOffset + read;
    var partial := combined[lineStart..];
    var checkpoint := TailCheckpoint(
      start.fileIdentity, next, start.completedLines + |lines|,
      if partial == [] then next else base + lineStart, partial);
    return Ok(TailBatch(lines, checkpoint, reset, read, next < length));
  }

  class IncrementalJsonlTailer {
    var checkpoint: TailCheckpoint
    const limits: TailLimits

    constructor WithLimits(checkpoint: TailCheckpoint, limits: TailLimits)
      requires limits.readChunkBytes > 0 && limits.maxLineBytes > 0
      ensures this.checkpoint == checkpoint && this.limits == limits
    {
      this.checkpoint := checkpoint;
      this.limits := limits;
    }

    /** Reads one chunk. A record over the limit fails the poll and changes nothing. */
    method PollReader(file: seq<Byte>, identity: string) returns (r: Result<TailBatch, TailError>)
      modifies this`checkpoint
      ensures r == Poll(old(checkpoint), limits, file, identity)
      ensures checkpoint == if r.Ok? then r.value.checkpoint else old(checkpoint)
    {
      r := PollFrom(checkpoint, limits, file, identity);
      if r.Ok? {
        checkpoint := r.value.checkpoint;
      }
    }
  }
}
