/**
 * What a whole rollout amounts to, stated without phases: the inherited prefix is the longest
 * dense run after the canonical record, and the rest is charged counter by counter.
 */
module Accounting {
  import opened Prelude
  import opened Types
  import opened Folds
  import opened Ingest
  import opened Reconstruction

  // ----- the samples of a rollout -----

  predicate IsCanonical(target: Target, record: Record) {
    record.SessionMeta? && record.id == target.threadId
  }

  /** Index of the first canonical record among the first `k` lines, or `k`. */
  function CanonicalIndex(target: Target, lines: seq<JsonlLine>, parse: JsonlLine -> Record, k: nat): (c: nat)
    requires k <= |lines|
    ensures c <= k
    ensures c < k ==> IsCanonical(target, parse(lines[c]))
  {
    if k == 0 then 0 else
      var c := CanonicalIndex(target, lines, parse, k - 1);
      if c < k - 1 || IsCanonical(target, parse(lines[k - 1])) then c else k
  }

  lemma {:induction false} CanonicalIndexIsFirst(target: Target, lines: seq<JsonlLine>,
      parse: JsonlLine -> Record, k: nat, i: nat)
    requires k <= |lines| && i < k
    ensures i < CanonicalIndex(target, lines, parse, k) ==> !IsCanonical(target, parse(lines[i]))
    ensures i == CanonicalIndex(target, lines, parse, k) ==> CanonicalIndex(target, lines, parse, i + 1) == i
  {
    if i < k - 1 {
      CanonicalIndexIsFirst(target, lines, parse, k - 1, i);
    }
  }

  ghost function AcceptOf(parse: JsonlLine -> Record): JsonlLine -> Option<Sample> {
    (line: JsonlLine) => Accepted(line, parse(line))
  }

  /** The accepted token counts among lines `from`, ..., `k - 1`. */
  ghost function Samples(lines: seq<JsonlLine>, parse: JsonlLine -> Record, from: nat, k: nat): seq<Sample>
    requires k <= |lines|
  {
    AcceptedBetween(AcceptOf(parse), lines, from, k)
  }

  /** A token count is accepted exactly with a timestamp and a valid total; its last usage only if it is valid. */
  lemma AcceptedIff(line: JsonlLine, record: Record)
    ensures Accepted(line, record).Some? <==>
              && record.TokenCount? && record.at != None
              && exists u: TokenUsage :: record.total == Some(u) && u.Valid()
    ensures Accepted(line, record).Some? ==>
              var s := Accepted(line, record).value;
              && s.byteOffset == line.byteOffset && s.lineNumber == line.lineNumber
              && record.at == Some(s.at) && record.total == Some(s.total)
              && forall u: TokenUsage :: s.last == Some(u) <==> record.last == Some(u) && u.Valid()
  {
    if record.TokenCount? && record.total.Some? {
      var u := record.total.value;
      assert u.Valid() ==> record.total == Some(u) && u.Valid();
    }
  }

  function AtCanonical(target: Target, at: Option<int>): Progress {
    INITIAL.(canonicalAt := at, phase := if target.parent.Some? then ChildPrefix else Live)
  }

  // ----- the accounting, declaratively -----

  /** The cumulative total in force before sample `i`. */
  function Before(s: seq<Sample>, i: nat): Option<TokenUsage>
    requires i <= |s|
  {
    if i == 0 then None else Some(s[i - 1].total)
  }

  /** Sample `i` follows its predecessor, or the canonical record, by less than 2.001 seconds. */
  predicate NearBefore(at: Option<int>, s: seq<Sample>, i: nat)
    requires i < |s|
  {
    if i == 0 then at.Some? && s[0].at - at.value < 2_001_000_000 else s[i].at - s[i - 1].at < 2_001_000_000
  }

  /** `n` is the length of the longest dense run from the canonical record within `k` samples. */
  ghost predicate IsLongestRun(at: Option<int>, s: seq<Sample>, k: nat, n: nat)
    requires k <= |s|
  {
    && n <= k
    && (forall i :: 0 <= i < n ==> NearBefore(at, s, i))
    && (n < k ==> !NearBefore(at, s, n))
  }

  function InheritedLength(child: bool, at: Option<int>, s: seq<Sample>, k: nat): (n: nat)
    requires k <= |s|
    ensures n <= k
    ensures if child then IsLongestRun(at, s, k, n) else n == 0
  {
    if k == 0 || !child then 0 else
      var n := InheritedLength(child, at, s, k - 1);
      if n == k - 1 && NearBefore(at, s, k - 1) then k else n
  }

  ghost function Growth(earlier: TokenUsage, later: TokenUsage): (u: TokenUsage)
    requires Grows(earlier, later)
    ensures IsGrowth(u, earlier, later)
  {
    var u :| IsGrowth(u, earlier, later); u
  }

  ghost predicate ResetAt(s: seq<Sample>, i: nat)
    requires i < |s|
  {
    i > 0 && !Grows(s[i - 1].total, s[i].total)
  }

  /** Number of counter resets among samples `n`, ..., `k - 1`. */
  ghost function Resets(s: seq<Sample>, n: nat, k: nat): nat
    requires k <= |s|
  {
    if k <= n then 0 else Resets(s, n, k - 1) + if ResetAt(s, k - 1) then 1 else 0
  }

  /** Number of repeated totals among samples `n`, ..., `k - 1`. */
  function Repeats(s: seq<Sample>, n: nat, k: nat): nat
    requires k <= |s|
  {
    if k <= n then 0 else Repeats(s, n, k - 1) + if k > 1 && s[k - 2].total == s[k - 1].total then 1 else 0
  }

  /** All of the first total, then the growth, and at a reset the explicit last usage or nothing. */
  ghost function CreditAt(s: seq<Sample>, i: nat): TokenUsage
    requires i < |s|
  {
    if i == 0 then s[0].total
    else if ResetAt(s, i) then if s[i].last.Some? then s[i].last.value else ZERO
    else Growth(s[i - 1].total, s[i].total)
  }

  ghost function EventAt(s: seq<Sample>, n: nat, i: nat): Option<Event>
    requires i < |s|
  {
    if CreditAt(s, i).IsZero() then None
    else Some(Event(s[i].byteOffset, s[i].lineNumber, s[i].at, CreditAt(s, i), Sat(Resets(s, n, i + 1))))
  }

  /** Live accounting of samples `n`, ..., `k - 1`, with the total before `n` as baseline. */
  ghost function LiveEvents(s: seq<Sample>, n: nat, k: nat): seq<Event>
    requires k <= |s|
  {
    if k <= n then [] else
      var e := EventAt(s, n, k - 1);
      LiveEvents(s, n, k - 1) + if e.Some? then [e.value] else []
  }

  /** A reset is a dimension that falls, or a difference whose buckets do not add up. */
  lemma ResetIffCounterFalls(s: seq<Sample>, i: nat)
    requires 0 < i < |s|
    ensures ResetAt(s, i) <==>
              || (exists d: Dimension :: s[i].total.Get(d) < s[i - 1].total.Get(d))
              || (forall u: TokenUsage ::
                    (forall d: Dimension :: u.Get(d) == s[i].total.Get(d) - s[i - 1].total.Get(d)) ==> !u.Valid())
  {
    var earlier, later := s[i - 1].total, s[i].total;
    if Grows(earlier, later) {
      var u :| IsGrowth(u, earlier, later);
      forall d: Dimension
        ensures earlier.Get(d) <= later.Get(d) && u.Get(d) == later.Get(d) - earlier.Get(d)
      {
        assert earlier.Get(d) + u.Get(d) == later.Get(d);
      }
    } else {
      forall u: TokenUsage | forall d: Dimension :: u.Get(d) == later.Get(d) - earlier.Get(d)
        ensures !u.Valid()
      {
        assert !IsGrowth(u, earlier, later);
      }
    }
  }

  /** What is charged for a sample, one sample at a time. */
  lemma ChargeIsCredit(s: seq<Sample>, i: nat)
    requires i < |s|
    ensures ResetAt(s, i) ==>
              ChargeOf(Before(s, i), s[i]) == if s[i].last.Some? then Charged(CreditAt(s, i), true) else Uncharged
    ensures !ResetAt(s, i) ==>
              if i > 0 && s[i].total == s[i - 1].total
              then ChargeOf(Before(s, i), s[i]) == Unchanged && CreditAt(s, i) == ZERO
              else ChargeOf(Before(s, i), s[i]) == Charged(CreditAt(s, i), false)
  {
    if i > 0 {
      var earlier, later := s[i - 1].total, s[i].total;
      if earlier == later {
        assert IsGrowth(ZERO, earlier, later);
      }
      if Grows(earlier, later) {
        GrowthIsUnique(CreditAt(s, i), earlier, later);
      }
    }
  }

  // ----- the state machine computes it -----

  ghost function SampleStep(): (Progress, Sample) -> (Progress, Option<Event>) {
    (p: Progress, s: Sample) => StepSample(p, s)
  }

  /** Where the state machine stands after `k` samples of a rollout. */
  ghost predicate Agrees(child: bool, at: Option<int>, s: seq<Sample>, k: nat, p: Progress)
    requires k <= |s|
  {
    var n := InheritedLength(child, at, s, k);
    && p.phase == (if child && n == k then ChildPrefix else Live)
    && p.canonicalAt == at
    && p.previousTotal == Before(s, k)
    && p.lastTokenAt == (if k == 0 then None else Some(s[k - 1].at))
    && p.prefixEvents == Sat(n)
    && p.counterEpoch == Sat(Resets(s, n, k))
    && p.counterResets == Sat(Resets(s, n, k))
    && p.unchangedEvents == Sat(Repeats(s, n, k))
  }

  lemma AgreesInherited(at: Option<int>, s: seq<Sample>, k: nat, p: Progress)
    requires 0 < k <= |s| && Agrees(true, at, s, k - 1, p)
    requires InheritedLength(true, at, s, k) == k
    ensures Agrees(true, at, s, k, StepSample(p, s[k - 1]).0)
    ensures StepSample(p, s[k - 1]).1 == None
  {
    assert Inherited(p, s[k - 1]);
    assert Resets(s, k - 1, k - 1) == 0 && Resets(s, k, k) == 0;
    assert Repeats(s, k - 1, k - 1) == 0 && Repeats(s, k, k) == 0;
  }

  lemma LiveStep(child: bool, at: Option<int>, s: seq<Sample>, k: nat, p: Progress)
    requires 0 < k <= |s| && Agrees(child, at, s, k - 1, p)
    requires InheritedLength(child, at, s, k) < k
    ensures !Inherited(p, s[k - 1])
    ensures p.previousTotal == Before(s, k - 1)
    ensures p.counterEpoch == p.counterResets == Sat(Resets(s, InheritedLength(child, at, s, k), k - 1))
    ensures p.unchangedEvents == Sat(Repeats(s, InheritedLength(child, at, s, k), k - 1))
  {
  }

  lemma AgreesLive(child: bool, at: Option<int>, s: seq<Sample>, k: nat, p: Progress)
    requires 0 < k <= |s| && Agrees(child, at, s, k - 1, p)
    requires InheritedLength(child, at, s, k) < k
    ensures Agrees(child, at, s, k, StepSample(p, s[k - 1]).0)
  {
    LiveStep(child, at, s, k, p);
    ChargeIsCredit(s, k - 1);
  }

  lemma EmittedCharge(p: Progress, s: Sample, c: Charge)
    requires !Inherited(p, s) && c == ChargeOf(p.previousTotal, s)
    ensures StepSample(p, s).1 ==
            if c.Charged? && !c.usage.IsZero() then
              Some(Event(s.byteOffset, s.lineNumber, s.at, c.usage,
                         if c.reset then SatInc(p.counterEpoch) else p.counterEpoch))
            else None
  {
  }

  lemma LiveStepEmits(child: bool, at: Option<int>, s: seq<Sample>, k: nat, p: Progress)
    requires 0 < k <= |s| && Agrees(child, at, s, k - 1, p)
    requires InheritedLength(child, at, s, k) < k
    ensures StepSample(p, s[k - 1]).1 == EventAt(s, InheritedLength(child, at, s, k), k - 1)
  {
    LiveStep(child, at, s, k, p);
    EmittedCharge(p, s[k - 1], ChargeOf(Before(s, k - 1), s[k - 1]));
    ChargeIsCredit(s, k - 1);
    ZeroUsage(ZERO);
  }

  lemma {:induction false} SamplesAgree(target: Target, at: Option<int>, s: seq<Sample>, k: nat)
    requires k <= |s|
    ensures Agrees(target.parent.Some?, at, s, k, StateAt(SampleStep(), AtCanonical(target, at), s, k))
  {
    if k > 0 {
      var p := StateAt(SampleStep(), AtCanonical(target, at), s, k - 1);
      SamplesAgree(target, at, s, k - 1);
      if InheritedLength(target.parent.Some?, at, s, k) == k {
        AgreesInherited(at, s, k, p);
      } else {
        AgreesLive(target.parent.Some?, at, s, k, p);
      }
    }
  }

  lemma {:induction false} SamplesAreAccounted(target: Target, at: Option<int>, s: seq<Sample>, k: nat)
    requires k <= |s|
    ensures EmittedAt(SampleStep(), AtCanonical(target, at), s, k)
            == LiveEvents(s, InheritedLength(target.parent.Some?, at, s, k), k)
  {
    if k > 0 {
      var p := StateAt(SampleStep(), AtCanonical(target, at), s, k - 1);
      SamplesAreAccounted(target, at, s, k - 1);
      SamplesAgree(target, at, s, k - 1);
      if InheritedLength(target.parent.Some?, at, s, k) == k {
        AgreesInherited(at, s, k, p);
      } else {
        LiveStepEmits(target.parent.Some?, at, s, k, p);
      }
    }
  }

  lemma {:induction false} BeforeCanonical(target: Target, lines: seq<JsonlLine>, parse: JsonlLine -> Record, k: nat)
    requires k <= |lines| && CanonicalIndex(target, lines, parse, k) == k
    ensures StateAfter(INITIAL, target, lines, parse, k) == INITIAL
    ensures EventsAfter(INITIAL, target, lines, parse, k) == []
  {
    if k > 0 {
      BeforeCanonical(target, lines, parse, k - 1);
    }
  }

  ghost function PastCanonical(): Progress -> bool {
    (p: Progress) => p.phase != AwaitingCanonical
  }

  lemma StepAfterCanonical(target: Target, parse: JsonlLine -> Record)
    ensures StepsOnAccepted(StepOf(target, parse), SampleStep(), AcceptOf(parse), PastCanonical())
  {
  }

  lemma CanonicalOpensRollout(target: Target, lines: seq<JsonlLine>, parse: JsonlLine -> Record, c: nat)
    requires c < |lines| && CanonicalIndex(target, lines, parse, c + 1) == c
    ensures StateAfter(INITIAL, target, lines, parse, c + 1) == AtCanonical(target, parse(lines[c]).at)
    ensures EventsAfter(INITIAL, target, lines, parse, c + 1) == []
  {
    BeforeCanonical(target, lines, parse, c);
  }

  /** After the canonical record only the accepted token counts matter. */
  lemma LinesReduceToSamples(target: Target, lines: seq<JsonlLine>, parse: JsonlLine -> Record, c: nat)
    requires c < |lines| && CanonicalIndex(target, lines, parse, |lines|) == c
    ensures var s := Samples(lines, parse, c + 1, |lines|);
      EventsAfter(INITIAL, target, lines, parse, |lines|)
      == EmittedAt(SampleStep(), AtCanonical(target, parse(lines[c]).at), s, |s|)
  {
    CanonicalIndexIsFirst(target, lines, parse, |lines|, c);
    CanonicalOpensRollout(target, lines, parse, c);
    StepAfterCanonical(target, parse);
    RunOverAccepted(StepOf(target, parse), SampleStep(), AcceptOf(parse), PastCanonical(), INITIAL, lines, c + 1,
                    |lines|);
  }

  lemma StateReducesToSamples(target: Target, lines: seq<JsonlLine>, parse: JsonlLine -> Record, c: nat)
    requires c < |lines| && CanonicalIndex(target, lines, parse, |lines|) == c
    ensures var s := Samples(lines, parse, c + 1, |lines|);
      StateAfter(INITIAL, target, lines, parse, |lines|)
      == StateAt(SampleStep(), AtCanonical(target, parse(lines[c]).at), s, |s|)
  {
    CanonicalIndexIsFirst(target, lines, parse, |lines|, c);
    CanonicalOpensRollout(target, lines, parse, c);
    StepAfterCanonical(target, parse);
    RunOverAccepted(StepOf(target, parse), SampleStep(), AcceptOf(parse), PastCanonical(), INITIAL, lines, c + 1,
                    |lines|);
  }

  /**
   * The events of a whole rollout: none before the canonical record; for a child, the longest
   * dense run of accepted counts is suppressed and its last total becomes the baseline.
   */
  ghost function RolloutEvents(target: Target, lines: seq<JsonlLine>, parse: JsonlLine -> Record): seq<Event> {
    var c := CanonicalIndex(target, lines, parse, |lines|);
    if c == |lines| then [] else
      var s := Samples(lines, parse, c + 1, |lines|);
      LiveEvents(s, InheritedLength(target.parent.Some?, parse(lines[c]).at, s, |s|), |s|)
  }

  /** The line-by-line state machine emits exactly that. */
  lemma RolloutIsAccounted(target: Target, lines: seq<JsonlLine>, parse: JsonlLine -> Record)
    ensures EventsAfter(INITIAL, target, lines, parse, |lines|) == RolloutEvents(target, lines, parse)
  {
    var c := CanonicalIndex(target, lines, parse, |lines|);
    if c == |lines| {
      BeforeCanonical(target, lines, parse, |lines|);
    } else {
      var s := Samples(lines, parse, c + 1, |lines|);
      LinesReduceToSamples(target, lines, parse, c);
      SamplesAreAccounted(target, parse(lines[c]).at, s, |s|);
    }
  }

  /** What the counters of a rollout say: inherited counts, repeated totals and resets after them. */
  ghost predicate CountersTell(target: Target, lines: seq<JsonlLine>, parse: JsonlLine -> Record, prefixEvents: u64,
      unchangedEvents: u64, counterResets: u64)
  {
    var c := CanonicalIndex(target, lines, parse, |lines|);
    if c == |lines| then prefixEvents == unchangedEvents == counterResets == 0
    else
      var s := Samples(lines, parse, c + 1, |lines|);
      var n := InheritedLength(target.parent.Some?, parse(lines[c]).at, s, |s|);
      && prefixEvents == Sat(n)
      && unchangedEvents == Sat(Repeats(s, n, |s|))
      && counterResets == Sat(Resets(s, n, |s|))
  }

  lemma ProgressTells(target: Target, lines: seq<JsonlLine>, parse: JsonlLine -> Record, p: Progress)
    requires p == StateAfter(INITIAL, target, lines, parse, |lines|)
    ensures CountersTell(target, lines, parse, p.prefixEvents, p.unchangedEvents, p.counterResets)
  {
    var c := CanonicalIndex(target, lines, parse, |lines|);
    if c == |lines| {
      BeforeCanonical(target, lines, parse, |lines|);
    } else {
      var s := Samples(lines, parse, c + 1, |lines|);
      StateReducesToSamples(target, lines, parse, c);
      SamplesAgree(target, parse(lines[c]).at, s, |s|);
    }
  }

  // ----- conservation -----

  function Baseline(s: seq<Sample>, i: nat, d: Dimension): nat
    requires i <= |s|
  {
    if i == 0 then 0 else s[i - 1].total.Get(d)
  }

  function SumUsage(events: seq<Event>, d: Dimension): nat {
    if events == [] then 0 else SumUsage(events[..|events| - 1], d) + events[|events| - 1].usage.Get(d)
  }

  /** How far resets move the counter, net of the explicit last usages. */
  ghost function ResetGap(s: seq<Sample>, n: nat, k: nat, d: Dimension): int
    requires k <= |s|
  {
    if k <= n then 0 else
      ResetGap(s, n, k - 1, d)
      + if ResetAt(s, k - 1) then s[k - 1].total.Get(d) - Baseline(s, k - 1, d) - LastUsage(s[k - 1], d) else 0
  }

  function LastUsage(s: Sample, d: Dimension): nat {
    if s.last.Some? then s.last.value.Get(d) else 0
  }

  lemma SumUsageSnoc(events: seq<Event>, e: Event, d: Dimension)
    ensures SumUsage(events + [e], d) == SumUsage(events, d) + e.usage.Get(d)
  {
    assert (events + [e])[..|events|] == events;
  }

  /** Between resets a credit is exactly the growth of the counter, at a reset the explicit last usage. */
  lemma CreditIsGrowth(s: seq<Sample>, i: nat, d: Dimension)
    requires i < |s|
    ensures CreditAt(s, i).Get(d)
            == if ResetAt(s, i) then LastUsage(s[i], d) else s[i].total.Get(d) - Baseline(s, i, d)
  {
    if i > 0 && !ResetAt(s, i) {
      var u := CreditAt(s, i);
      assert s[i - 1].total.Get(d) + u.Get(d) == s[i].total.Get(d);
    } else if i > 0 {
      ZeroUsage(ZERO);
    }
  }

  lemma GapTakesTheRest(s: seq<Sample>, n: nat, k: nat, d: Dimension, credit: nat)
    requires n < k <= |s| && credit == CreditAt(s, k - 1).Get(d)
    ensures ResetGap(s, n, k, d) + credit == ResetGap(s, n, k - 1, d) + Baseline(s, k, d) - Baseline(s, k - 1, d)
  {
    CreditIsGrowth(s, k - 1, d);
  }

  /**
   * Conservation in all seven dimensions: the baseline plus everything emitted is the last
   * accepted total, up to what each reset skipped and each explicit last usage gave back.
   */
  lemma {:induction false} TokensAreConserved(s: seq<Sample>, n: nat, k: nat, d: Dimension)
    requires n <= k <= |s|
    ensures Baseline(s, n, d) + SumUsage(LiveEvents(s, n, k), d) + ResetGap(s, n, k, d) == Baseline(s, k, d)
  {
    if n < k {
      TokensAreConserved(s, n, k - 1, d);
      EventCarriesCredit(s, n, k, d);
      GapTakesTheRest(s, n, k, d, CreditAt(s, k - 1).Get(d));
    }
  }

  lemma EventCarriesCredit(s: seq<Sample>, n: nat, k: nat, d: Dimension)
    requires n < k <= |s|
    ensures SumUsage(LiveEvents(s, n, k), d) == SumUsage(LiveEvents(s, n, k - 1), d) + CreditAt(s, k - 1).Get(d)
  {
    var e, before := EventAt(s, n, k - 1), LiveEvents(s, n, k - 1);
    if e.Some? {
      SumUsageSnoc(before, e.value, d);
    } else {
      assert LiveEvents(s, n, k) == before;
      ZeroUsage(CreditAt(s, k - 1));
    }
  }

  /** From sample `n` on no total falls in any dimension and every difference is a valid usage. */
  ghost predicate OnlyGrows(s: seq<Sample>, n: nat, k: nat)
    requires k <= |s|
  {
    forall i :: n <= i < k && 0 < i ==> Grows(s[i - 1].total, s[i].total)
  }

  /** Where the counter only grows nothing is lost or invented, and everything is charged in one epoch. */
  lemma {:induction false} ConservedWithoutResets(s: seq<Sample>, n: nat, k: nat, d: Dimension)
    requires n <= k <= |s| && OnlyGrows(s, n, k)
    ensures Baseline(s, n, d) + SumUsage(LiveEvents(s, n, k), d) == Baseline(s, k, d)
    ensures forall e :: e in LiveEvents(s, n, k) ==> e.counterEpoch == 0
  {
    TokensAreConserved(s, n, k, d);
    NoResetNoGap(s, n, k, d);
  }

  lemma {:induction false} NoResetNoGap(s: seq<Sample>, n: nat, k: nat, d: Dimension)
    requires k <= |s| && OnlyGrows(s, n, k)
    ensures ResetGap(s, n, k, d) == 0 && Resets(s, n, k) == 0
    ensures forall e :: e in LiveEvents(s, n, k) ==> e.counterEpoch == 0
  {
    if n < k {
      NoResetNoGap(s, n, k - 1, d);
    }
  }

  /**
   * So the machine emits, for a rollout whose counter only grows after its inherited prefix, exactly
   * what the counter gained since; for a rollout without parent that is the last total.
   */
  lemma GrowingCounterIsCountedExactly(target: Target, lines: seq<JsonlLine>, parse: JsonlLine -> Record, c: nat,
      s: seq<Sample>, n: nat, emitted: seq<Event>, d: Dimension)
    requires c < |lines| && CanonicalIndex(target, lines, parse, |lines|) == c
    requires s == Samples(lines, parse, c + 1, |lines|)
    requires n == InheritedLength(target.parent.Some?, parse(lines[c]).at, s, |s|) && OnlyGrows(s, n, |s|)
    requires emitted == EventsAfter(INITIAL, target, lines, parse, |lines|)
    ensures emitted == LiveEvents(s, n, |s|)
    ensures Baseline(s, n, d) + SumUsage(emitted, d) == Baseline(s, |s|, d)
    ensures target.parent.None? && |s| > 0 ==> SumUsage(emitted, d) == s[|s| - 1].total.Get(d)
  {
    assert emitted == LiveEvents(s, n, |s|) by {
      LinesReduceToSamples(target, lines, parse, c);
      SamplesAreAccounted(target, parse(lines[c]).at, s, |s|);
    }
    ConservedWithoutResets(s, n, |s|, d);
  }

  ghost predicate AcceptedSamples(s: seq<Sample>) {
    forall i :: 0 <= i < |s| ==> s[i].total.Valid() && (s[i].last.Some? ==> s[i].last.value.Valid())
  }

  lemma {:induction false} SamplesAreValid(lines: seq<JsonlLine>, parse: JsonlLine -> Record, from: nat, k: nat)
    requires k <= |lines|
    ensures AcceptedSamples(Samples(lines, parse, from, k))
  {
    if from < k {
      SamplesAreValid(lines, parse, from, k - 1);
    }
  }

  /** Every emitted usage satisfies the ledger's invariants and is not zero. */
  lemma {:induction false} EmittedUsageIsValid(s: seq<Sample>, n: nat, k: nat)
    requires k <= |s| && AcceptedSamples(s)
    ensures forall e :: e in LiveEvents(s, n, k) ==> e.usage.Valid() && !e.usage.IsZero()
  {
    if n < k {
      EmittedUsageIsValid(s, n, k - 1);
      var u := CreditAt(s, k - 1);
      assert u.Valid() by {
        if k > 1 && !ResetAt(s, k - 1) {
          assert IsGrowth(u, s[k - 2].total, s[k - 1].total);
        }
      }
    }
  }

  // ----- repeated totals -----

  function InsertAt(s: seq<Sample>, i: nat, x: Sample): seq<Sample>
    requires i <= |s|
  {
    s[..i] + [x] + s[i..]
  }

  lemma {:induction false} ResetsIgnoreRepeat(s: seq<Sample>, x: Sample, i: nat, n: nat, k: nat)
    requires n <= i <= k <= |s| && 0 < i && x.total == s[i - 1].total
    ensures Resets(InsertAt(s, i, x), n, k + 1) == Resets(s, n, k)
    decreases k
  {
    var t := InsertAt(s, i, x);
    if k == i {
      ResetsOfPrefix(s, t, n, i);
      RepeatHasNoCredit(t, i);
    } else {
      ResetsIgnoreRepeat(s, x, i, n, k - 1);
      ChargeIgnoresRepeat(s, x, i, k);
    }
  }

  lemma ChargeIgnoresRepeat(s: seq<Sample>, x: Sample, i: nat, k: nat)
    requires 0 < i < k <= |s| && x.total == s[i - 1].total
    ensures ResetAt(InsertAt(s, i, x), k) == ResetAt(s, k - 1)
    ensures CreditAt(InsertAt(s, i, x), k) == CreditAt(s, k - 1)
    ensures InsertAt(s, i, x)[k] == s[k - 1]
  {
    ChargeIsCredit(InsertAt(s, i, x), k);
    ChargeIsCredit(s, k - 1);
  }

  lemma RepeatHasNoCredit(s: seq<Sample>, i: nat)
    requires 0 < i < |s| && s[i].total == s[i - 1].total
    ensures !ResetAt(s, i) && CreditAt(s, i) == ZERO
  {
    assert IsGrowth(ZERO, s[i - 1].total, s[i].total);
    ChargeIsCredit(s, i);
  }

  lemma {:induction false} ResetsOfPrefix(s: seq<Sample>, t: seq<Sample>, n: nat, k: nat)
    requires k <= |s| && k <= |t| && s[..k] == t[..k]
    ensures Resets(s, n, k) == Resets(t, n, k) && LiveEvents(s, n, k) == LiveEvents(t, n, k)
  {
    if n < k {
      assert s[k - 1] == s[..k][k - 1] == t[k - 1];
      assert k > 1 ==> s[k - 2] == s[..k][k - 2] == t[k - 2];
      assert s[..k - 1] == s[..k][..k - 1] == t[..k - 1];
      ResetsOfPrefix(s, t, n, k - 1);
    }
  }

  /** Once live, repeating the total in force emits nothing and changes nothing that follows. */
  lemma {:induction false} RepeatedTotalIsNotCounted(s: seq<Sample>, x: Sample, i: nat, n: nat, k: nat)
    requires n <= i <= k <= |s| && 0 < i && x.total == s[i - 1].total
    ensures LiveEvents(InsertAt(s, i, x), n, k + 1) == LiveEvents(s, n, k)
    decreases k
  {
    var t := InsertAt(s, i, x);
    if k == i {
      ResetsOfPrefix(s, t, n, i);
      RepeatHasNoCredit(t, i);
    } else {
      RepeatedTotalIsNotCounted(s, x, i, n, k - 1);
      ResetsIgnoreRepeat(s, x, i, n, k);
      ChargeIgnoresRepeat(s, x, i, k);
    }
  }
}
