/** The bounded batch that advances many rollout files (src/reconstruction.rs). */
module Scheduler {
  import opened Prelude
  import opened Folds
  import opened Sorting
  import Sums
  import opened Ingest
  import opened Tailing
  import opened Reconstruction
  import opened Accounting
  import opened ReconstructionStore
  import opened ExactlyOnce

  /** What a batch works on; the files do not change while it runs. */
  datatype Corpus = Corpus(
    files: map<SourceId, FileView>,
    targets: map<SourceId, Target>,
    parse: JsonlLine -> Record,
    now: int)

  ghost predicate Indexed(sources: map<SourceId, Source>, c: Corpus) {
    sources.Keys == c.files.Keys && sources.Keys == c.targets.Keys
  }

  // ----- the queue -----

  function Priority(status: Status): nat {
    match status
    case Reconstructing => 0
    case Reconstructed => 1
    case Pending => 2
    case Unrecoverable => 3
  }

  /** Whether source `a` with row `s` is taken before source `b` with row `t`. */
  predicate Before(a: SourceId, s: Source, b: SourceId, t: Source) {
    || Priority(s.status) < Priority(t.status)
    || (Priority(s.status) == Priority(t.status)
        && (s.bytesProcessed > t.bytesProcessed || (s.bytesProcessed == t.bytesProcessed && a <= b)))
  }

  predicate Unread(s: Source, file: FileView) {
    s.status != Unrecoverable && |file.bytes| != s.bytesProcessed
  }

  function Comes(sources: map<SourceId, Source>): (SourceId, SourceId) -> bool {
    (a: SourceId, b: SourceId) => a in sources && b in sources && Before(a, sources[a], b, sources[b])
  }

  /** The unread sources among the first `k` listed. */
  function UnreadAmong(sources: map<SourceId, Source>, c: Corpus, listed: seq<SourceId>, k: nat): (q: seq<SourceId>)
    requires k <= |listed| && forall x :: x in listed ==> x in sources && x in c.files
  {
    if k == 0 then [] else
      var x := listed[k - 1];
      UnreadAmong(sources, c, listed, k - 1) + if Unread(sources[x], c.files[x]) then [x] else []
  }

  /** The order in which they are taken. */
  function Queue(sources: map<SourceId, Source>, c: Corpus, listed: seq<SourceId>): (q: seq<SourceId>)
    requires Distinct(listed) && forall x :: x in listed ==> x in sources && x in c.files
    ensures forall x :: x in q <==> x in listed && Unread(sources[x], c.files[x])
  {
    var unread := UnreadAmong(sources, c, listed, |listed|);
    UnreadMembers(sources, c, listed, |listed|);
    assert listed[..|listed|] == listed && unread[..|unread|] == unread;
    SortDistinct(Comes(sources), unread, |unread|);
    Sort(Comes(sources), unread, |unread|)
  }

  lemma {:induction false} UnreadMembers(sources: map<SourceId, Source>, c: Corpus, listed: seq<SourceId>, k: nat)
    requires k <= |listed| && Distinct(listed) && forall x :: x in listed ==> x in sources && x in c.files
    ensures Distinct(UnreadAmong(sources, c, listed, k))
    ensures forall x :: x in UnreadAmong(sources, c, listed, k) <==> x in listed[..k] && Unread(sources[x], c.files[x])
  {
    if k > 0 {
      UnreadMembers(sources, c, listed, k - 1);
      var x, q := listed[k - 1], UnreadAmong(sources, c, listed, k - 1);
      assert listed[..k] == listed[..k - 1] + [x];
      assert x !in listed[..k - 1] by {
        assert forall i :: 0 <= i < k - 1 ==> listed[..k - 1][i] == listed[i];
      }
      DistinctAppend(q, x);
    }
  }

  lemma DistinctAppend(q: seq<SourceId>, x: SourceId)
    requires Distinct(q)
    ensures x !in q ==> Distinct(q + [x])
  {
    assert forall i :: 0 <= i < |q| ==> q[i] in q;
  }

  /** `s` is further along than `t`: in progress before grown since it was complete before not started. */
  ghost predicate Sooner(s: Status, t: Status) {
    || (s == Reconstructing && t != Reconstructing)
    || (s == Reconstructed && t in {Pending, Unrecoverable})
    || (s == Pending && t == Unrecoverable)
  }

  /** The queue holds every unread source once, best first. */
  lemma QueueIsSorted(sources: map<SourceId, Source>, c: Corpus, listed: seq<SourceId>)
    requires Distinct(listed) && forall x :: x in listed ==> x in sources && x in c.files
    ensures Distinct(Queue(sources, c, listed)) && SortedBy(Comes(sources), Queue(sources, c, listed))
  {
    var unread := UnreadAmong(sources, c, listed, |listed|);
    UnreadMembers(sources, c, listed, |listed|);
    SortDistinct(Comes(sources), unread, |unread|);
    SortIsRight(Comes(sources), unread, |unread|, sources.Keys);
  }

  /**
   * Of two queued sources the one in progress is taken first, then the one that was complete, then the
   * one not started; among equals the one that was read further, then the smaller name.
   */
  lemma QueueOrder(sources: map<SourceId, Source>, c: Corpus, listed: seq<SourceId>, q: seq<SourceId>, i: nat, j: nat)
    requires Distinct(listed) && forall x :: x in listed ==> x in sources && x in c.files
    requires q == Queue(sources, c, listed) && i < |q| && j < |q|
    ensures var s, t := sources[q[i]], sources[q[j]];
      i < j <==>
      || Sooner(s.status, t.status)
      || (s.status == t.status && s.bytesProcessed > t.bytesProcessed)
      || (s.status == t.status && s.bytesProcessed == t.bytesProcessed && q[i] < q[j])
  {
    QueueIsSorted(sources, c, listed);
    assert q[i] in q && q[j] in q;
    assert i < j ==> Comes(sources)(q[i], q[j]) && q[i] != q[j];
    assert j < i ==> Comes(sources)(q[j], q[i]) && q[i] != q[j];
  }

  /** It holds those, and only those, that are not given up and whose file is not as long as was read. */
  lemma QueueHoldsUnread(sources: map<SourceId, Source>, c: Corpus, listed: seq<SourceId>, x: SourceId)
    requires Distinct(listed) && forall x :: x in listed ==> x in sources && x in c.files
    ensures x in Queue(sources, c, listed) <==>
              && x in listed && sources[x].bytesProcessed != |c.files[x].bytes|
              && sources[x].status in {Pending, Reconstructing, Reconstructed}
  {
  }

  // ----- one batch -----

  /** One source taken from the queue: a slice, or giving the source up. */
  ghost function Advance(s: Source, target: Target, parse: JsonlLine -> Record, file: FileView, now: int): Source {
    var r := IngestSlice(s, target, parse, file, |file.bytes|, now);
    if r.Ok? then r.value else GivenUp(s)
  }

  /** The rows after the first `k` of the queue were taken. */
  ghost function AdvanceFirst(sources: map<SourceId, Source>, c: Corpus, q: seq<SourceId>,
      k: nat): (after: map<SourceId, Source>)
    requires Indexed(sources, c) && k <= |q| && forall y :: y in q ==> y in sources
    ensures after.Keys == sources.Keys
  {
    if k == 0 then sources else
      var m := AdvanceFirst(sources, c, q, k - 1);
      var x := q[k - 1];
      m[x := Advance(m[x], c.targets[x], c.parse, c.files[x], c.now)]
  }

  ghost predicate Enumerates(listed: seq<SourceId>, sources: map<SourceId, Source>) {
    Distinct(listed) && forall x :: x in listed <==> x in sources
  }

  function BatchSize(maxFiles: nat, queued: nat): nat {
    Min(Max(maxFiles, 1), queued)
  }

  ghost function Batch(sources: map<SourceId, Source>, c: Corpus, listed: seq<SourceId>, maxFiles: nat): map<SourceId,
      Source>
    requires Indexed(sources, c) && Enumerates(listed, sources)
  {
    var q := Queue(sources, c, listed);
    AdvanceFirst(sources, c, q, BatchSize(maxFiles, |q|))
  }

  method IngestReconstructionBatch(store: LedgerStore, c: Corpus, listed: seq<SourceId>, maxFiles: nat)
    requires Indexed(store.sources, c) && Enumerates(listed, store.sources)
    modifies store
    ensures store.sources == Batch(old(store.sources), c, listed, maxFiles)
  {
    var q := Queue(store.sources, c, listed);
    var take := BatchSize(maxFiles, |q|);
    for i := 0 to take
      invariant store.sources == AdvanceFirst(old(store.sources), c, q, i)
    {
      OneMoreAdvanced(old(store.sources), c, q, i, store.sources);
      IngestOrGiveUp(store, q[i], c.targets[q[i]], c.parse, c.files[q[i]], c.now);
    }
  }

  lemma OneMoreAdvanced(sources: map<SourceId, Source>, c: Corpus, q: seq<SourceId>, k: nat, m: map<SourceId, Source>)
    requires Indexed(sources, c) && k < |q| && (forall y :: y in q ==> y in sources)
    requires m == AdvanceFirst(sources, c, q, k)
    ensures AdvanceFirst(sources, c, q, k + 1)
            == m[q[k] := Advance(m[q[k]], c.targets[q[k]], c.parse, c.files[q[k]], c.now)]
  {
  }

  method IngestOrGiveUp(store: LedgerStore, x: SourceId, target: Target, parse: JsonlLine -> Record, file: FileView,
      now: int)
    requires x in store.sources
    modifies store
    ensures store.sources == old(store.sources)[x := Advance(old(store.sources[x]), target, parse, file, now)]
  {
    var r := store.IngestTarget(x, target, parse, file, |file.bytes|, now);
    if r.Err? {
      store.MarkUnrecoverable(x);
    }
  }

  /** Taken sources advance once, the others keep their rows. */
  lemma {:induction false} AdvanceFirstIsLocal(sources: map<SourceId, Source>, c: Corpus, q: seq<SourceId>, k: nat,
      x: SourceId)
    requires Indexed(sources, c) && k <= |q| && Distinct(q) && (forall y :: y in q ==> y in sources) && x in sources
    ensures AdvanceFirst(sources, c, q, k)[x]
            == if x in q[..k] then Advance(sources[x], c.targets[x], c.parse, c.files[x], c.now) else sources[x]
  {
    if k > 0 {
      AdvanceFirstIsLocal(sources, c, q, k - 1, x);
      LastIsNew(q, k, x);
    }
  }

  /** A batch takes the first `max_files` of the queue, at least one, and leaves every other row alone. */
  lemma BatchTakesTheFirst(sources: map<SourceId, Source>, c: Corpus, listed: seq<SourceId>, maxFiles: nat,
      q: seq<SourceId>, x: SourceId)
    requires Indexed(sources, c) && Enumerates(listed, sources) && q == Queue(sources, c, listed) && x in sources
    ensures (exists i :: 0 <= i < |q| && i < Max(maxFiles, 1) && q[i] == x) ==>
              Batch(sources, c, listed, maxFiles)[x] == Advance(sources[x], c.targets[x], c.parse, c.files[x], c.now)
    ensures (forall i :: 0 <= i < |q| && i < Max(maxFiles, 1) ==> q[i] != x) ==>
              Batch(sources, c, listed, maxFiles)[x] == sources[x]
  {
    var k := BatchSize(maxFiles, |q|);
    QueueIsSorted(sources, c, listed);
    AdvanceFirstIsLocal(sources, c, q, k, x);
    assert forall i :: 0 <= i < k ==> q[..k][i] == q[i];
  }

  lemma LastIsNew(q: seq<SourceId>, k: nat, x: SourceId)
    requires 0 < k <= |q| && Distinct(q)
    ensures q[k - 1] !in q[..k - 1]
    ensures x in q[..k] <==> x in q[..k - 1] || x == q[k - 1]
  {
    assert q[..k] == q[..k - 1] + [q[k - 1]];
    assert forall i :: 0 <= i < k - 1 ==> q[..k - 1][i] == q[i];
  }

  // ----- progress of one source -----

  /** The file could not be identified when the row was written, and nothing was read for it since. */
  predicate Unidentified(s: Source) {
    s.identity == "" && s.cursor.None? && s.facts == map[]
  }

  /** The row belongs to this file, and its facts are those of a pass over bytes of it. */
  ghost predicate Sound(s: Source, seen: seq<Byte>, target: Target, parse: JsonlLine -> Record, file: FileView) {
    && (s.identity == file.identity || Unidentified(s))
    && SourceSafe(s, seen, target, parse) && Observable(s, seen, file)
  }

  ghost predicate Fine(s: Source, target: Target, parse: JsonlLine -> Record, file: FileView) {
    exists seen :: Sound(s, seen, target, parse, file)
  }

  /** Bytes still to read from the start of the record in progress, plus one while unread. */
  ghost function Weight(s: Source, file: FileView): nat {
    if Unread(s, file) then 1 + Max(0, |file.bytes| - StartTail(s).nextOffset) else 0
  }

  /** A newly discovered file starts out with everything still to read. */
  lemma FreshIsFine(target: Target, parse: JsonlLine -> Record, file: FileView)
    ensures Fine(Fresh(file), target, parse, file)
    ensures Unread(Fresh(file), file) <==> file.bytes != []
  {
    FreshIsSafe(file, target, parse);
    assert Sound(Fresh(file), [], target, parse, file);
  }

  lemma GivenUpIsSound(s: Source, seen: seq<Byte>, target: Target, parse: JsonlLine -> Record, file: FileView)
    requires Sound(s, seen, target, parse, file)
    ensures Sound(GivenUp(s), seen, target, parse, file) && Weight(GivenUp(s), file) == 0
  {
  }

  /** Reading a whole limit plus one byte either reaches the end, fails, or completes a record. */
  lemma FullSliceCompletesRecord(file: seq<Byte>, start: nat, next: nat)
    requires start <= next <= |file| && next == start + DEFAULT_MAX_LINE_BYTES + 1
    requires Fits(file, next, DEFAULT_MAX_LINE_BYTES)
    ensures LineStart(file, next) > start
  {
  }

  lemma SliceStaysSound(s: Source, seen: seq<Byte>, target: Target,
      parse: JsonlLine -> Record, file: FileView, now: int)
    requires Sound(s, seen, target, parse, file) && Unread(s, file)
    requires IngestSlice(s, target, parse, file, |file.bytes|, now).Ok?
    ensures seen <= file.bytes
    ensures Sound(IngestSlice(s, target, parse, file, |file.bytes|, now).value, SeenAfter(seen, file.bytes), target,
                  parse, file)
  {
    SliceIsSafe(s, seen, target, parse, file, |file.bytes|, now);
  }

  lemma SliceShrinksWork(s: Source, seen: seq<Byte>, target: Target,
      parse: JsonlLine -> Record, file: FileView, now: int)
    requires Sound(s, seen, target, parse, file) && Unread(s, file) && seen <= file.bytes
    requires IngestSlice(s, target, parse, file, |file.bytes|, now).Ok?
    ensures Weight(IngestSlice(s, target, parse, file, |file.bytes|, now).value, file) < Weight(s, file)
  {
    StartTracks(s, seen, target, parse, file);
    SliceReachesItsEnd(s, seen, target, parse, file, now);
    var after := IngestSlice(s, target, parse, file, |file.bytes|, now).value;
    if after.bytesProcessed < |file.bytes| {
      FullSliceCompletesRecord(file.bytes, LineStart(seen, |seen|), after.bytesProcessed);
      RewoundTracks(after.cursor.value.tail, file.bytes);
    }
  }

  lemma SliceReachesItsEnd(s: Source, seen: seq<Byte>, target: Target,
      parse: JsonlLine -> Record, file: FileView, now: int)
    requires Sound(s, seen, target, parse, file) && Unread(s, file) && seen <= file.bytes
    requires IngestSlice(s, target, parse, file, |file.bytes|, now).Ok?
    ensures var after := IngestSlice(s, target, parse, file, |file.bytes|, now).value;
      && after.bytesProcessed == SliceEnd(seen, file.bytes) && after.status != Unrecoverable
      && Fits(file.bytes, after.bytesProcessed, DEFAULT_MAX_LINE_BYTES)
      && after.cursor.Some? && after.cursor.value.tail.nextOffset == after.bytesProcessed
      && Tracks(after.cursor.value.tail, file.bytes)
  {
    SliceContinues(s, seen, target, parse, file);
  }

  /** Whatever happens to a source that is taken, it has strictly less left to do. */
  lemma AdvanceProgress(s: Source, target: Target, parse: JsonlLine -> Record, file: FileView, now: int)
    requires Fine(s, target, parse, file) && Unread(s, file)
    ensures Fine(Advance(s, target, parse, file, now), target, parse, file)
    ensures Weight(Advance(s, target, parse, file, now), file) < Weight(s, file)
  {
    var seen :| Sound(s, seen, target, parse, file);
    if IngestSlice(s, target, parse, file, |file.bytes|, now).Ok? {
      SliceStaysSound(s, seen, target, parse, file, now);
      SliceShrinksWork(s, seen, target, parse, file, now);
    } else {
      GivenUpIsSound(s, seen, target, parse, file);
    }
  }

  /** A source with nothing left to read and not given up holds every token of its file. */
  lemma FinishedSourceIsComplete(s: Source, target: Target, parse: JsonlLine -> Record, file: FileView)
    requires Fine(s, target, parse, file) && !Unread(s, file) && s.status != Unrecoverable
    ensures Matches(s.facts, file.identity, RolloutEvents(target, LinesOf(file.bytes, |file.bytes|), parse))
  {
    var seen :| Sound(s, seen, target, parse, file);
    if s.cursor.Some? {
      assert seen <= file.bytes && |seen| == |file.bytes|;
    } else {
      assert seen == [] && |file.bytes| == 0;
    }
    assert seen == file.bytes;
    RolloutIsAccounted(target, LinesOf(seen, |seen|), parse);
  }

  // ----- draining the queue -----

  ghost predicate AllFine(sources: map<SourceId, Source>, c: Corpus)
    requires Indexed(sources, c)
  {
    forall x :: x in sources ==> Fine(sources[x], c.targets[x], c.parse, c.files[x])
  }

  /** The row of an indexed file: kept while it is the same physical file, otherwise started over. */
  function RefreshedRow(sources: map<SourceId, Source>, x: SourceId, file: FileView): Source {
    if x !in sources || (sources[x].identity != "" && sources[x].identity != file.identity) then Fresh(file)
    else sources[x]
  }

  /** New files get a row, and what was derived from a file that was replaced is forgotten. */
  method RefreshSources(store: LedgerStore, c: Corpus, listed: seq<SourceId>)
    requires Distinct(listed) && (forall x :: x in listed <==> x in c.files) && store.sources.Keys <= c.files.Keys
    modifies store
    ensures store.sources.Keys == c.files.Keys
    ensures forall x :: x in c.files ==> store.sources[x] == RefreshedRow(old(store.sources), x, c.files[x])
  {
    for i := 0 to |listed|
      invariant old(store.sources).Keys <= store.sources.Keys <= c.files.Keys
      invariant forall j :: 0 <= j < i ==>
        && listed[j] in store.sources
        && store.sources[listed[j]] == RefreshedRow(old(store.sources), listed[j], c.files[listed[j]])
      invariant forall j :: i <= j < |listed| ==> Untouched(store.sources, old(store.sources), listed[j])
    {
      var x := listed[i];
      assert Untouched(store.sources, old(store.sources), x);
      if x !in store.sources {
        store.sources := store.sources[x := Fresh(c.files[x])];
      } else if store.sources[x].identity != "" && store.sources[x].identity != c.files[x].identity {
        store.ReplaceReconstructionSource(x, c.files[x]);
      }
    }
  }

  /** A row is kept exactly if it is of this file, or was written before the file could be identified. */
  lemma RefreshKeepsOrStartsOver(before: map<SourceId, Source>, x: SourceId, file: FileView)
    ensures x in before && before[x].identity in {"", file.identity} ==> RefreshedRow(before, x, file) == before[x]
    ensures !(x in before && before[x].identity in {"", file.identity}) ==> IsNew(RefreshedRow(before, x, file), file)
  {
  }

  ghost predicate Untouched(after: map<SourceId, Source>, before: map<SourceId, Source>, x: SourceId) {
    (x in after <==> x in before) && (x in after ==> after[x] == before[x])
  }

  /** After a refresh every row belongs to its file, so that batches can go on from there. */
  lemma RefreshedRowsAreFine(before: map<SourceId, Source>, after: map<SourceId, Source>, c: Corpus)
    requires Indexed(after, c) && forall x :: x in c.files ==> after[x] == RefreshedRow(before, x, c.files[x])
    requires forall x :: x in before && x in c.files && before[x].identity == c.files[x].identity ==>
               Fine(before[x], c.targets[x], c.parse, c.files[x])
    requires forall x :: x in before && x in c.files && before[x].identity == "" ==> NothingRead(before[x])
    ensures AllFine(after, c)
  {
    forall x | x in after
      ensures Fine(after[x], c.targets[x], c.parse, c.files[x])
    {
      if after[x] == Fresh(c.files[x]) {
        FreshIsFine(c.targets[x], c.parse, c.files[x]);
      } else if after[x].identity == "" {
        NothingReadIsFine(after[x], c.targets[x], c.parse, c.files[x]);
      }
    }
  }

  predicate NothingRead(s: Source) {
    Unidentified(s) && s.bytesProcessed == 0
  }

  lemma NothingReadIsFine(s: Source, target: Target, parse: JsonlLine -> Record, file: FileView)
    requires NothingRead(s)
    ensures Fine(s, target, parse, file)
  {
    assert Sound(s, [], target, parse, file);
  }

  ghost function TotalWeight(sources: map<SourceId, Source>, c: Corpus, listed: seq<SourceId>, k: nat): nat
    requires Indexed(sources, c) && k <= |listed| && forall x :: x in listed ==> x in sources
  {
    if k == 0 then 0 else
      TotalWeight(sources, c, listed, k - 1) + Weight(sources[listed[k - 1]], c.files[listed[k - 1]])
  }

  ghost predicate NoHeavier(a: map<SourceId, Source>, b: map<SourceId, Source>, c: Corpus)
    requires Indexed(a, c) && Indexed(b, c)
  {
    forall x :: x in a ==> Weight(b[x], c.files[x]) <= Weight(a[x], c.files[x])
  }

  lemma {:induction false} TotalWeightShrinks(
    a: map<SourceId, Source>, b: map<SourceId, Source>, c: Corpus, listed: seq<SourceId>, k: nat, i: nat)
    requires Indexed(a, c) && Indexed(b, c) && k <= |listed| && forall x :: x in listed ==> x in a
    requires NoHeavier(a, b, c)
    ensures TotalWeight(b, c, listed, k) <= TotalWeight(a, c, listed, k)
    ensures i < k && Weight(b[listed[i]], c.files[listed[i]]) < Weight(a[listed[i]], c.files[listed[i]])
            ==> TotalWeight(b, c, listed, k) < TotalWeight(a, c, listed, k)
  {
    if k > 0 {
      TotalWeightShrinks(a, b, c, listed, k - 1, i);
      assert listed[k - 1] in a;
    }
  }

  lemma BatchKeepsFine(sources: map<SourceId, Source>, c: Corpus, listed: seq<SourceId>, maxFiles: nat)
    requires Indexed(sources, c) && Enumerates(listed, sources) && AllFine(sources, c)
    ensures var after := Batch(sources, c, listed, maxFiles);
      && Indexed(after, c) && Enumerates(listed, after) && AllFine(after, c) && NoHeavier(sources, after, c)
  {
    var q := Queue(sources, c, listed);
    QueueIsSorted(sources, c, listed);
    var k := BatchSize(maxFiles, |q|);
    var after := Batch(sources, c, listed, maxFiles);
    forall x | x in sources
      ensures Fine(after[x], c.targets[x], c.parse, c.files[x])
      ensures Weight(after[x], c.files[x]) <= Weight(sources[x], c.files[x])
    {
      AdvanceFirstIsLocal(sources, c, q, k, x);
      if x in q[..k] {
        assert x in q;
        AdvanceProgress(sources[x], c.targets[x], c.parse, c.files[x], c.now);
      }
    }
  }

  /** While anything is queued, a batch strictly shrinks the work left. */
  lemma BatchShrinks(sources: map<SourceId, Source>, c: Corpus, listed: seq<SourceId>, maxFiles: nat)
    requires Indexed(sources, c) && Enumerates(listed, sources) && AllFine(sources, c)
    requires Queue(sources, c, listed) != []
    ensures Indexed(Batch(sources, c, listed, maxFiles), c)
    ensures TotalWeight(Batch(sources, c, listed, maxFiles), c, listed, |listed|)
            < TotalWeight(sources, c, listed, |listed|)
  {
    var q := Queue(sources, c, listed);
    QueueIsSorted(sources, c, listed);
    var after := Batch(sources, c, listed, maxFiles);
    var k := BatchSize(maxFiles, |q|);
    var x := q[0];
    assert x in q && q[..k][0] == x;
    AdvanceFirstIsLocal(sources, c, q, k, x);
    AdvanceProgress(sources[x], c.targets[x], c.parse, c.files[x], c.now);
    BatchKeepsFine(sources, c, listed, maxFiles);
    var i :| 0 <= i < |listed| && listed[i] == x;
    TotalWeightShrinks(sources, after, c, listed, |listed|, i);
  }

  /** Batches until the queue is empty; that this ends is part of the claim. */
  ghost function DrainQueue(sources: map<SourceId, Source>, c: Corpus, listed: seq<SourceId>, maxFiles: nat)
    : (after: map<SourceId, Source>)
    requires Indexed(sources, c) && Enumerates(listed, sources) && AllFine(sources, c)
    ensures Indexed(after, c) && Enumerates(listed, after) && AllFine(after, c)
    ensures Queue(after, c, listed) == []
    decreases TotalWeight(sources, c, listed, |listed|)
  {
    if Queue(sources, c, listed) == [] then sources else
      BatchKeepsFine(sources, c, listed, maxFiles);
      BatchShrinks(sources, c, listed, maxFiles);
      DrainQueue(Batch(sources, c, listed, maxFiles), c, listed, maxFiles)
  }

  /** History converges: every source ends up given up or complete, for any batch size. */
  lemma DrainedSourcesAreComplete(sources: map<SourceId, Source>, c: Corpus, listed: seq<SourceId>, maxFiles: nat,
      x: SourceId)
    requires Indexed(sources, c) && Enumerates(listed, sources) && AllFine(sources, c) && x in sources
    ensures var s := DrainQueue(sources, c, listed, maxFiles)[x];
      s.status == Unrecoverable
      || Matches(s.facts, c.files[x].identity,
                 RolloutEvents(c.targets[x], LinesOf(c.files[x].bytes, |c.files[x].bytes|), c.parse))
  {
    var after := DrainQueue(sources, c, listed, maxFiles);
    QueueIsSorted(after, c, listed);
    assert x in listed;
    if after[x].status != Unrecoverable {
      FinishedSourceIsComplete(after[x], c.targets[x], c.parse, c.files[x]);
    }
  }

  // ----- what is given up -----

  /** Every record of the file fits, and the store can hold every usage. */
  ghost predicate Readable(target: Target, parse: JsonlLine -> Record, file: FileView) {
    && Fits(file.bytes, |file.bytes|, DEFAULT_MAX_LINE_BYTES)
    && StorableEvents(RolloutEvents(target, LinesOf(file.bytes, |file.bytes|), parse))
  }

  ghost predicate StorableEvents(events: seq<Event>) {
    forall e :: e in events ==> Storable(e.usage)
  }

  ghost predicate StorableFacts(facts: map<EventKey, Fact>) {
    forall key :: key in facts ==> Storable(facts[key].event.usage)
  }

  /** The file only grew since it was read, and the source was not given up. */
  ghost predicate Going(s: Source, seen: seq<Byte>, target: Target, parse: JsonlLine -> Record, file: FileView) {
    Sound(s, seen, target, parse, file) && s.status != Unrecoverable && seen <= file.bytes
  }

  ghost predicate CanGoOn(s: Source, target: Target, parse: JsonlLine -> Record, file: FileView) {
    exists seen :: Going(s, seen, target, parse, file)
  }

  lemma {:induction false} AllStorableIff(events: seq<Event>, k: nat)
    requires k <= |events|
    ensures AllStorable(events, k) <==> forall i :: 0 <= i < k ==> Storable(events[i].usage)
  {
    if k > 0 {
      AllStorableIff(events, k - 1);
    }
  }

  lemma LinesEmitPrefix(target: Target, parse: JsonlLine -> Record, a: seq<JsonlLine>, all: seq<JsonlLine>)
    requires a <= all
    ensures EventsAfter(INITIAL, target, a, parse, |a|) <= EventsAfter(INITIAL, target, all, parse, |all|)
  {
    RunOfPrefix(StepOf(target, parse), INITIAL, a, all, |a|);
    EmittedGrows(StepOf(target, parse), INITIAL, all, |a|, |all|);
  }

  lemma SliceEventsArePart(s: Source, seen: seq<Byte>, target: Target, parse: JsonlLine -> Record, file: FileView,
      before: seq<JsonlLine>, upto: seq<JsonlLine>)
    requires SourceSafe(s, seen, target, parse) && s.status != Unrecoverable && before == LinesOf(seen, |seen|)
    requires Poll(StartTail(s), LIMITS, file.bytes, file.identity).Ok?
    requires upto == before + Poll(StartTail(s), LIMITS, file.bytes, file.identity).value.lines
    ensures EventsAfter(INITIAL, target, upto, parse, |upto|)
            == EventsAfter(INITIAL, target, before, parse, |before|) + SliceEvents(s, target, parse, file)
  {
    StartsFromPass(s, seen, target, parse);
    ResumeEqualsOnePass(INITIAL, target, before, Poll(StartTail(s), LIMITS, file.bytes, file.identity).value.lines,
                        upto, parse, StartProgress(s));
  }

  lemma SliceReadsLines(s: Source, seen: seq<Byte>, target: Target, parse: JsonlLine -> Record, file: FileView)
    requires Going(s, seen, target, parse, file)
    requires Poll(StartTail(s), LIMITS, file.bytes, file.identity).Ok?
    ensures LinesOf(file.bytes, SliceEnd(seen, file.bytes))
            == LinesOf(seen, |seen|) + Poll(StartTail(s), LIMITS, file.bytes, file.identity).value.lines
    ensures LinesOf(file.bytes, SliceEnd(seen, file.bytes)) <= LinesOf(file.bytes, |file.bytes|)
  {
    SliceContinues(s, seen, target, parse, file);
    LinesMonotone(file.bytes, SliceEnd(seen, file.bytes), |file.bytes|, 0, 0);
  }

  /** The events of a slice are events of the file. */
  lemma SliceEventsAreOfTheFile(s: Source, seen: seq<Byte>, target: Target, parse: JsonlLine -> Record, file: FileView,
      e: Event)
    requires Going(s, seen, target, parse, file)
    requires Poll(StartTail(s), LIMITS, file.bytes, file.identity).Ok? && e in SliceEvents(s, target, parse, file)
    ensures e in RolloutEvents(target, LinesOf(file.bytes, |file.bytes|), parse)
  {
    var upto, all := LinesOf(file.bytes, SliceEnd(seen, file.bytes)), LinesOf(file.bytes, |file.bytes|);
    SliceReadsLines(s, seen, target, parse, file);
    assert e in EventsAfter(INITIAL, target, upto, parse, |upto|) by {
      SliceEventsArePart(s, seen, target, parse, file, LinesOf(seen, |seen|), upto);
    }
    LinesEmitPrefix(target, parse, upto, all);
    RolloutIsAccounted(target, all, parse);
  }

  lemma ReadableSliceSucceeds(s: Source, seen: seq<Byte>, target: Target, parse: JsonlLine -> Record, file: FileView,
      now: int)
    requires Going(s, seen, target, parse, file) && Readable(target, parse, file)
    ensures IngestSlice(s, target, parse, file, |file.bytes|, now).Ok?
  {
    FitsMonotone(file.bytes, SliceEnd(seen, file.bytes), |file.bytes|, DEFAULT_MAX_LINE_BYTES);
    SliceFailsIff(s, seen, target, parse, file, |file.bytes|, now);
    var events := SliceEvents(s, target, parse, file);
    forall i | 0 <= i < |events|
      ensures Storable(events[i].usage)
    {
      SliceEventsAreOfTheFile(s, seen, target, parse, file, events[i]);
    }
    AllStorableIff(events, |events|);
  }

  lemma SliceGoesOn(s: Source, seen: seq<Byte>, target: Target, parse: JsonlLine -> Record, file: FileView, now: int)
    requires Going(s, seen, target, parse, file) && Unread(s, file)
    requires IngestSlice(s, target, parse, file, |file.bytes|, now).Ok?
    ensures CanGoOn(IngestSlice(s, target, parse, file, |file.bytes|, now).value, target, parse, file)
  {
    SliceStaysSound(s, seen, target, parse, file, now);
    SliceReachesItsEnd(s, seen, target, parse, file, now);
    assert Going(IngestSlice(s, target, parse, file, |file.bytes|, now).value, SeenAfter(seen, file.bytes), target,
                 parse, file);
  }

  /** A readable source is never given up. */
  lemma ReadableGoesOn(s: Source, target: Target, parse: JsonlLine -> Record, file: FileView, now: int)
    requires CanGoOn(s, target, parse, file) && Unread(s, file) && Readable(target, parse, file)
    ensures CanGoOn(Advance(s, target, parse, file, now), target, parse, file)
  {
    var seen :| Going(s, seen, target, parse, file);
    ReadableSliceSucceeds(s, seen, target, parse, file, now);
    SliceGoesOn(s, seen, target, parse, file, now);
  }

  lemma {:induction false} UpsertAllIsStorable(facts: map<EventKey, Fact>, identity: string, events: seq<Event>, k: nat,
      now: int)
    requires k <= |events| && StorableFacts(facts) && UpsertAll(facts, identity, events, k, now).Ok?
    ensures StorableFacts(UpsertAll(facts, identity, events, k, now).value)
  {
    if k > 0 {
      UpsertAllIsStorable(facts, identity, events, k - 1, now);
    }
  }

  lemma AdvanceIsStorable(s: Source, target: Target, parse: JsonlLine -> Record, file: FileView, now: int)
    requires StorableFacts(s.facts)
    ensures StorableFacts(Advance(s, target, parse, file, now).facts)
  {
    if IngestSlice(s, target, parse, file, |file.bytes|, now).Ok? {
      var events := SliceEvents(s, target, parse, file);
      UpsertAllIsStorable(s.facts, file.identity, events, |events|, now);
    }
  }

  lemma StoredEventsAreStorable(facts: map<EventKey, Fact>, identity: string, events: seq<Event>)
    requires Matches(facts, identity, events) && StorableFacts(facts)
    ensures StorableEvents(events)
  {
    forall e | e in events
      ensures Storable(e.usage)
    {
      var i :| 0 <= i < |events| && events[i] == e;
      assert Stored(facts, identity, events[i]);
    }
  }

  lemma FinishedSourceFits(s: Source, target: Target, parse: JsonlLine -> Record, file: FileView)
    requires Fine(s, target, parse, file) && !Unread(s, file) && s.status != Unrecoverable
    ensures Fits(file.bytes, |file.bytes|, DEFAULT_MAX_LINE_BYTES)
  {
    var seen :| Sound(s, seen, target, parse, file);
    if s.cursor.Some? {
      assert seen <= file.bytes && |seen| == |file.bytes|;
      assert seen == file.bytes;
    }
  }

  /** What a batch does to one source keeps everything that advancing keeps. */
  lemma BatchKeeps(sources: map<SourceId, Source>, c: Corpus, listed: seq<SourceId>, maxFiles: nat, x: SourceId)
    requires Indexed(sources, c) && Enumerates(listed, sources) && x in sources
    ensures Indexed(Batch(sources, c, listed, maxFiles), c)
    ensures Batch(sources, c, listed, maxFiles)[x] == sources[x]
            || (Unread(sources[x], c.files[x])
                && Batch(sources, c, listed, maxFiles)[x]
                   == Advance(sources[x], c.targets[x], c.parse, c.files[x], c.now))
  {
    var q := Queue(sources, c, listed);
    QueueIsSorted(sources, c, listed);
    AdvanceFirstIsLocal(sources, c, q, BatchSize(maxFiles, |q|), x);
    if x in q[..BatchSize(maxFiles, |q|)] {
      assert x in q;
    }
  }

  lemma {:induction false} DrainKeeps(sources: map<SourceId, Source>, c: Corpus, listed: seq<SourceId>, maxFiles: nat,
      x: SourceId)
    requires Indexed(sources, c) && Enumerates(listed, sources) && AllFine(sources, c) && x in sources
    requires StorableFacts(sources[x].facts)
    ensures StorableFacts(DrainQueue(sources, c, listed, maxFiles)[x].facts)
    ensures CanGoOn(sources[x], c.targets[x], c.parse, c.files[x]) && Readable(c.targets[x], c.parse, c.files[x]) ==>
              DrainQueue(sources, c, listed, maxFiles)[x].status != Unrecoverable
    decreases TotalWeight(sources, c, listed, |listed|)
  {
    if Queue(sources, c, listed) != [] {
      BatchKeepsFine(sources, c, listed, maxFiles);
      BatchShrinks(sources, c, listed, maxFiles);
      BatchKeeps(sources, c, listed, maxFiles, x);
      AdvanceIsStorable(sources[x], c.targets[x], c.parse, c.files[x], c.now);
      if CanGoOn(sources[x], c.targets[x], c.parse, c.files[x]) && Readable(c.targets[x], c.parse, c.files[x])
         && Unread(sources[x], c.files[x]) {
        ReadableGoesOn(sources[x], c.targets[x], c.parse, c.files[x], c.now);
      }
      DrainKeeps(Batch(sources, c, listed, maxFiles), c, listed, maxFiles, x);
    }
  }

  /**
   * A source that was not given up before, of a file that only grew, ends complete exactly if every
   * record of the file fits and the store can hold every usage; otherwise it is given up.
   */
  lemma GivenUpIffUnreadable(sources: map<SourceId, Source>, c: Corpus, listed: seq<SourceId>, maxFiles: nat,
      x: SourceId)
    requires Indexed(sources, c) && Enumerates(listed, sources) && AllFine(sources, c) && x in sources
    requires CanGoOn(sources[x], c.targets[x], c.parse, c.files[x]) && StorableFacts(sources[x].facts)
    ensures DrainQueue(sources, c, listed, maxFiles)[x].status == Unrecoverable
            <==> !Readable(c.targets[x], c.parse, c.files[x])
  {
    DrainKeeps(sources, c, listed, maxFiles, x);
    var after := DrainQueue(sources, c, listed, maxFiles);
    QueueIsSorted(after, c, listed);
    assert x in listed;
    if after[x].status != Unrecoverable {
      FinishedSourceFits(after[x], c.targets[x], c.parse, c.files[x]);
      FinishedSourceIsComplete(after[x], c.targets[x], c.parse, c.files[x]);
      StoredEventsAreStorable(after[x].facts, c.files[x].identity,
        RolloutEvents(c.targets[x], LinesOf(c.files[x].bytes, |c.files[x].bytes|), c.parse));
    }
  }

  // ----- the working set stays bounded -----

  ghost function WorkingSet(sources: map<SourceId, Source>, c: Corpus): set<SourceId>
    requires Indexed(sources, c)
  {
    set x | x in sources && sources[x].status == Reconstructing && Unread(sources[x], c.files[x])
  }

  lemma {:induction false} DistinctPrefix(q: seq<SourceId>, k: nat, s: set<SourceId>)
    requires k <= |q| && Distinct(q) && forall i :: 0 <= i < k ==> q[i] in s
    ensures k <= |s|
  {
    if k > 0 {
      DistinctPrefix(q, k - 1, s - {q[k - 1]});
    }
  }

  lemma InProgressFirst(sources: map<SourceId, Source>, c: Corpus, q: seq<SourceId>, i: nat, j: nat)
    requires Indexed(sources, c) && SortedBy(Comes(sources), q) && j <= i < |q|
    requires forall x :: x in q ==> x in sources
    requires forall x :: x in q ==> Unread(sources[x], c.files[x])
    requires sources[q[i]].status == Reconstructing
    ensures q[j] in WorkingSet(sources, c)
  {
    assert q[j] in q;
    assert j < i ==> Comes(sources)(q[j], q[i]);
  }

  /** Sources in progress are first in the queue, so a batch of their number takes them all. */
  lemma WorkingSetIsTaken(sources: map<SourceId, Source>, c: Corpus, listed: seq<SourceId>, n: nat, x: SourceId)
    requires Indexed(sources, c) && Enumerates(listed, sources) && |WorkingSet(sources, c)| <= n
    requires x in WorkingSet(sources, c)
    ensures var q := Queue(sources, c, listed);
      x in q[..Min(n, |q|)]
  {
    var q := Queue(sources, c, listed);
    QueueIsSorted(sources, c, listed);
    assert x in listed;
    var i :| 0 <= i < |q| && q[i] == x;
    forall j | 0 <= j <= i
      ensures q[j] in WorkingSet(sources, c)
    {
      InProgressFirst(sources, c, q, i, j);
    }
    DistinctPrefix(q, i + 1, WorkingSet(sources, c));
    assert q[..Min(n, |q|)][i] == x;
  }

  ghost function Members(q: seq<SourceId>, k: nat): (s: set<SourceId>)
    requires k <= |q|
    ensures |s| <= k
    ensures forall x :: x in s <==> x in q[..k]
  {
    if k == 0 then {} else
      assert q[..k] == q[..k - 1] + [q[k - 1]];
      Members(q, k - 1) + {q[k - 1]}
  }

  /** At most `max_files` sources are ever half read at the same time. */
  lemma WorkingSetStaysBounded(sources: map<SourceId, Source>, c: Corpus, listed: seq<SourceId>, maxFiles: nat)
    requires Indexed(sources, c) && Enumerates(listed, sources) && AllFine(sources, c)
    requires |WorkingSet(sources, c)| <= Max(maxFiles, 1)
    ensures Indexed(Batch(sources, c, listed, maxFiles), c)
    ensures |WorkingSet(Batch(sources, c, listed, maxFiles), c)| <= Max(maxFiles, 1)
  {
    var q := Queue(sources, c, listed);
    QueueIsSorted(sources, c, listed);
    var k := BatchSize(maxFiles, |q|);
    var after := Batch(sources, c, listed, maxFiles);
    var taken := Members(q, k);
    forall x | x in WorkingSet(after, c)
      ensures x in taken
    {
      AdvanceFirstIsLocal(sources, c, q, k, x);
      if x !in q[..k] {
        WorkingSetIsTaken(sources, c, listed, Max(maxFiles, 1), x);
      }
    }
    Sums.SubsetIsSmaller(WorkingSet(after, c), taken);
  }
}
