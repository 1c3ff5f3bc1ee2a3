/** Replay-safe accounting of one rollout, line by line (src/reconstruction.rs). */
module Reconstruction {
  import opened Prelude
  import opened Types
  import opened Folds
  import opened Ingest

  /** Longest pause, in whole milliseconds, inside an inherited prefix. */
  const INHERITED_PREFIX_GAP_MILLIS := 2_000
  const NANOS_PER_MILLI := 1_000_000

  /** A parsed record; blank lines, malformed lines and every other kind are `Other`. */
  datatype Record =
    | SessionMeta(id: string, at: Option<int>)
    | TokenCount(at: Option<int>, total: Option<TokenUsage>, last: Option<TokenUsage>)
    | Other

  datatype Target = Target(threadId: string, parent: Option<string>)

  datatype Phase = AwaitingCanonical | ChildPrefix | Live

  /** The parser state persisted with a cursor. */
  datatype Progress = Progress(
    phase: Phase,
    canonicalAt: Option<int>,
    previousTotal: Option<TokenUsage>,
    lastTokenAt: Option<int>,
    counterEpoch: u64,
    prefixEvents: u64,
    unchangedEvents: u64,
    counterResets: u64)

  const INITIAL: Progress := Progress(AwaitingCanonical, None, None, None, 0, 0, 0, 0)

  /** A confirmed usage event. */
  datatype Event = Event(byteOffset: nat, lineNumber: nat, at: int, usage: TokenUsage, counterEpoch: u64)

  /** Whole milliseconds from `earlier` to `later` (nanosecond instants), never negative. */
  function MillisBetween(earlier: int, later: int): nat {
    if later < earlier then 0 else (later - earlier) / NANOS_PER_MILLI
  }

  predicate Near(earlier: int, later: int) {
    MillisBetween(earlier, later) <= INHERITED_PREFIX_GAP_MILLIS
  }

  /** Whole milliseconds: the documented two seconds reach up to 2.001 seconds, and back in time without end. */
  lemma NearIsUnderTwoSecondsAndAMillisecond(earlier: int, later: int)
    ensures Near(earlier, later) <==> later - earlier < 2_001_000_000
  {
  }

  function ValidOnly(u: Option<TokenUsage>): Option<TokenUsage> {
    if u.Some? && u.value.Valid() then u else None
  }

  /** A token count with a timestamp and a valid cumulative total. */
  datatype Sample = Sample(byteOffset: nat, lineNumber: nat, at: int, total: TokenUsage, last: Option<TokenUsage>)

  function Accepted(line: JsonlLine, record: Record): Option<Sample> {
    if record.TokenCount? && record.at.Some? && ValidOnly(record.total).Some?
    then Some(Sample(line.byteOffset, line.lineNumber, record.at.value, record.total.value, ValidOnly(record.last)))
    else None
  }

  // ----- one step -----

  /** Whether a token count seen in `ChildPrefix` still belongs to the inherited prefix. */
  predicate Inherited(p: Progress, s: Sample) {
    && p.phase == ChildPrefix
    && if p.previousTotal.None? then p.canonicalAt.Some? && Near(p.canonicalAt.value, s.at)
       else p.lastTokenAt.Some? && Near(p.lastTokenAt.value, s.at)
  }

  /** What a token count adds once it is not inherited: the delta, or the explicit last usage at a reset. */
  datatype Charge = Unchanged | Charged(usage: TokenUsage, reset: bool) | Uncharged

  /** `u` is a valid usage and what the counter grew by in every dimension. */
  ghost predicate IsGrowth(u: TokenUsage, earlier: TokenUsage, later: TokenUsage) {
    u.Valid() && forall d: Dimension :: earlier.Get(d) + u.Get(d) == later.Get(d)
  }

  ghost predicate Grows(earlier: TokenUsage, later: TokenUsage) {
    exists u :: IsGrowth(u, earlier, later)
  }

  /** The counter grows exactly if no dimension falls and the difference is a valid usage. */
  lemma GrowsIffDelta(earlier: TokenUsage, later: TokenUsage)
    ensures Grows(earlier, later) <==> ValidOnly(later.CheckedDelta(earlier)).Some?
    ensures forall u :: IsGrowth(u, earlier, later) ==> later.CheckedDelta(earlier) == Some(u)
  {
    var delta := later.CheckedDelta(earlier);
    if ValidOnly(delta).Some? {
      assert IsGrowth(delta.value, earlier, later);
    }
    forall u | IsGrowth(u, earlier, later)
      ensures delta == Some(u)
    {
      forall d: Dimension
        ensures earlier.Get(d) <= later.Get(d) && u.Get(d) == later.Get(d) - earlier.Get(d)
      {
        assert earlier.Get(d) + u.Get(d) == later.Get(d);
      }
      SameUsage(u, delta.value);
    }
  }

  lemma GrowthIsUnique(u: TokenUsage, earlier: TokenUsage, later: TokenUsage)
    requires IsGrowth(u, earlier, later)
    ensures forall v :: IsGrowth(v, earlier, later) ==> v == u
  {
    GrowsIffDelta(earlier, later);
  }

  /** The first total counts in full; then the growth, or, where there is none, the explicit last usage or nothing. */
  function ChargeOf(previous: Option<TokenUsage>, s: Sample): (c: Charge)
    ensures previous.None? ==> c == Charged(s.total, false)
    ensures c == Unchanged <==> previous == Some(s.total)
    ensures previous.Some? && previous.value != s.total && Grows(previous.value, s.total) ==>
              c.Charged? && !c.reset && IsGrowth(c.usage, previous.value, s.total)
    ensures previous.Some? && !Grows(previous.value, s.total) ==>
              c == if s.last.Some? then Charged(s.last.value, true) else Uncharged
  {
    if previous.None? then Charged(s.total, false)
    else if s.total == previous.value then
      assert IsGrowth(ZERO, previous.value, previous.value);
      Unchanged
    else
      GrowsIffDelta(previous.value, s.total);
      var delta := ValidOnly(s.total.CheckedDelta(previous.value));
      if delta.Some? then Charged(delta.value, false)
      else if s.last.Some? then Charged(s.last.value, true)
      else Uncharged
  }

  function StepSample(p: Progress, s: Sample): (Progress, Option<Event>) {
    if Inherited(p, s) then
      (p.(previousTotal := Some(s.total), lastTokenAt := Some(s.at), prefixEvents := SatInc(p.prefixEvents)), None)
    else
      var live := p.(phase := Live, lastTokenAt := Some(s.at));
      match ChargeOf(p.previousTotal, s)
      case Unchanged => (live.(unchangedEvents := SatInc(p.unchangedEvents)), None)
      case Uncharged =>
        (live.(previousTotal := Some(s.total), counterEpoch := SatInc(p.counterEpoch),
               counterResets := SatInc(p.counterResets)), None)
      case Charged(usage, reset) =>
        var next := live.(previousTotal := Some(s.total),
                          counterEpoch := if reset then SatInc(p.counterEpoch) else p.counterEpoch,
                          counterResets := if reset then SatInc(p.counterResets) else p.counterResets);
        (next, if usage.IsZero() then None
               else Some(Event(s.byteOffset, s.lineNumber, s.at, usage, next.counterEpoch)))
  }

  function Step(p: Progress, target: Target, line: JsonlLine, record: Record): (Progress, Option<Event>) {
    if record.SessionMeta? && p.phase == AwaitingCanonical then
      if record.id != target.threadId then (p, None)
      else (p.(canonicalAt := record.at, phase := if target.parent.Some? then ChildPrefix else Live), None)
    else if p.phase == AwaitingCanonical || Accepted(line, record).None? then (p, None)
    else StepSample(p, Accepted(line, record).value)
  }

  class ReconstructionState {
    var phase: Phase
    var canonicalAt: Option<int>
    var previousTotal: Option<TokenUsage>
    var lastTokenAt: Option<int>
    var counterEpoch: u64
    var prefixEvents: u64
    var unchangedEvents: u64
    var counterResets: u64

    function Value(): Progress
      reads this
    {
      Progress(phase, canonicalAt, previousTotal, lastTokenAt, counterEpoch, prefixEvents, unchangedEvents,
               counterResets)
    }

    constructor Resume(p: Progress)
      ensures Value() == p
    {
      phase, canonicalAt, previousTotal, lastTokenAt := p.phase, p.canonicalAt, p.previousTotal, p.lastTokenAt;
      counterEpoch, prefixEvents := p.counterEpoch, p.prefixEvents;
      unchangedEvents, counterResets := p.unchangedEvents, p.counterResets;
    }

    method ProcessLine(line: JsonlLine, record: Record, target: Target) returns (event: Option<Event>)
      modifies this
      ensures (Value(), event) == Step(old(Value()), target, line, record)
    {
      event := None;
      if record.SessionMeta? && phase == AwaitingCanonical {
        if record.id != target.threadId {
          return;
        }
        canonicalAt := record.at;
        phase := if target.parent.Some? then ChildPrefix else Live;
        return;
      }
      if !record.TokenCount? || phase == AwaitingCanonical || record.at.None? {
        return;
      }
      var total := ValidOnly(record.total);
      if total.None? {
        return;
      }
      event := ProcessSample(
        Sample(line.byteOffset, line.lineNumber, record.at.value, total.value, ValidOnly(record.last)));
    }

    method ProcessSample(s: Sample) returns (event: Option<Event>)
      modifies this
      ensures (Value(), event) == StepSample(old(Value()), s)
    {
      if phase == ChildPrefix {
        var startsImmediately := previousTotal.None? && canonicalAt.Some? && Near(canonicalAt.value, s.at);
        var continues := previousTotal.Some? && lastTokenAt.Some? && Near(lastTokenAt.value, s.at);
        if startsImmediately || continues {
          previousTotal, lastTokenAt := Some(s.total), Some(s.at);
          prefixEvents := SatInc(prefixEvents);
          return None;
        }
      }
      phase := Live;
      lastTokenAt := Some(s.at);

      var usage := s.total;
      if previousTotal.Some? {
        if s.total == previousTotal.value {
          unchangedEvents := SatInc(unchangedEvents);
          return None;
        }
        var delta := ValidOnly(s.total.CheckedDelta(previousTotal.value));
        if delta.Some? {
          usage := delta.value;
        } else {
          counterEpoch, counterResets := SatInc(counterEpoch), SatInc(counterResets);
          if s.last.None? {
            previousTotal := Some(s.total);
            return None;
          }
          usage := s.last.value;
        }
      }
      previousTotal := Some(s.total);
      if usage.IsZero() {
        return None;
      }
      event := Some(Event(s.byteOffset, s.lineNumber, s.at, usage, counterEpoch));
    }
  }

  // ----- a run over many lines -----

  ghost function StepOf(target: Target,
      parse: JsonlLine -> Record): (Progress, JsonlLine) -> (Progress, Option<Event>) {
    (p: Progress, line: JsonlLine) => Step(p, target, line, parse(line))
  }

  ghost function StateAfter(p: Progress, target: Target, lines: seq<JsonlLine>,
      parse: JsonlLine -> Record, k: nat): Progress
    requires k <= |lines|
  {
    StateAt(StepOf(target, parse), p, lines, k)
  }

  ghost function EventsAfter(p: Progress, target: Target, lines: seq<JsonlLine>,
      parse: JsonlLine -> Record, k: nat): seq<Event>
    requires k <= |lines|
  {
    EmittedAt(StepOf(target, parse), p, lines, k)
  }

  /** Stopping after some lines and resuming from the saved state is the same as one pass. */
  lemma ResumeEqualsOnePass(
    p: Progress, target: Target, a: seq<JsonlLine>, b: seq<JsonlLine>, all: seq<JsonlLine>,
    parse: JsonlLine -> Record, mid: Progress)
    requires all == a + b && mid == StateAfter(p, target, a, parse, |a|)
    ensures StateAfter(p, target, all, parse, |all|) == StateAfter(mid, target, b, parse, |b|)
    ensures EventsAfter(p, target, all, parse, |all|)
            == EventsAfter(p, target, a, parse, |a|) + EventsAfter(mid, target, b, parse, |b|)
  {
    RunResumes(StepOf(target, parse), p, a, b, all, |b|, |all|, mid);
  }

  function Rank(phase: Phase): nat {
    match phase
    case AwaitingCanonical => 0
    case ChildPrefix => 1
    case Live => 2
  }

  lemma StepRaisesRank(p: Progress, target: Target, line: JsonlLine, record: Record)
    ensures Rank(p.phase) <= Rank(Step(p, target, line, record).0.phase)
  {
  }

  /** The phase never moves backwards, over any run. */
  lemma {:induction false} PhaseNeverMovesBackwards(
    p: Progress, target: Target, lines: seq<JsonlLine>, parse: JsonlLine -> Record, j: nat, k: nat)
    requires j <= k <= |lines|
    ensures Rank(StateAfter(p, target, lines, parse, j).phase) <= Rank(StateAfter(p, target, lines, parse, k).phase)
  {
    if j < k {
      PhaseNeverMovesBackwards(p, target, lines, parse, j, k - 1);
      StepRaisesRank(StateAfter(p, target, lines, parse, k - 1), target, lines[k - 1], parse(lines[k - 1]));
    }
  }
}
