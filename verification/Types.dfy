/** The seven token dimensions (src/types.rs) and sums over them. */
module Types {
  import opened Prelude

  datatype UsageError =
    | CacheBucketsExceedInput
    | CacheWriteCoverageExceedsInput
    | TotalDoesNotConserve
    | ReasoningExceedsOutput

  datatype Dimension = Input | Cached | CacheWrite | CacheWriteObserved | Output | Reasoning | Total

  datatype TokenUsage = TokenUsage(
    input: u64,
    cached: u64,
    cacheWrite: u64,
    cacheWriteObserved: u64,
    output: u64,
    reasoning: u64,
    total: u64)
  {
    function Get(d: Dimension): u64 {
      match d
      case Input => input
      case Cached => cached
      case CacheWrite => cacheWrite
      case CacheWriteObserved => cacheWriteObserved
      case Output => output
      case Reasoning => reasoning
      case Total => total
    }

    predicate IsZero() {
      && input == 0 && cached == 0 && cacheWrite == 0 && cacheWriteObserved == 0
      && output == 0 && reasoning == 0 && total == 0
    }

    function UncachedInput(): u64 {
      SatSub(SatSub(input, cached), cacheWrite)
    }

    function CheckedDelta(previous: TokenUsage): (r: Option<TokenUsage>)
      ensures r.Some? <==> forall d: Dimension :: previous.Get(d) <= Get(d)
      ensures r.Some? ==> forall d: Dimension :: r.value.Get(d) == Get(d) - previous.Get(d)
    {
      assert previous.Get(Input) == previous.input && previous.Get(Cached) == previous.cached;
      assert previous.Get(CacheWrite) == previous.cacheWrite;
      assert previous.Get(CacheWriteObserved) == previous.cacheWriteObserved;
      assert previous.Get(Output) == previous.output && previous.Get(Reasoning) == previous.reasoning;
      assert previous.Get(Total) == previous.total;
      match (CheckedSub(input, previous.input), CheckedSub(cached, previous.cached),
             CheckedSub(cacheWrite, previous.cacheWrite),
             CheckedSub(cacheWriteObserved, previous.cacheWriteObserved),
             CheckedSub(output, previous.output), CheckedSub(reasoning, previous.reasoning),
             CheckedSub(total, previous.total))
      case (Some(i), Some(c), Some(w), Some(o), Some(out), Some(r), Some(t)) =>
        Some(TokenUsage(i, c, w, o, out, r, t))
      case _ => None
    }

    function Validate(): Result<(), UsageError> {
      var buckets := CheckedAdd(cached, cacheWrite);
      if buckets.None? || buckets.value > input then Err(CacheBucketsExceedInput)
      else if cacheWriteObserved > input then Err(CacheWriteCoverageExceedsInput)
      else if CheckedAdd(input, output) != Some(total) then Err(TotalDoesNotConserve)
      else if reasoning > output then Err(ReasoningExceedsOutput)
      else Ok(())
    }

    predicate Valid() {
      Validate().Ok?
    }
  }

  const ZERO: TokenUsage := TokenUsage(0, 0, 0, 0, 0, 0, 0)

  /** A usage is accepted exactly when its displayed buckets partition the total. */
  lemma ValidIffBucketsConserve(u: TokenUsage)
    ensures u.Valid() <==>
              && u.cached + u.cacheWrite + u.UncachedInput() == u.input
              && u.input + u.output == u.total
              && u.reasoning <= u.output
              && u.cacheWriteObserved <= u.input
  {
  }

  lemma ZeroUsage(u: TokenUsage)
    ensures u.IsZero() <==> forall d: Dimension :: u.Get(d) == 0
  {
    assert u.Get(Input) == u.input && u.Get(Cached) == u.cached && u.Get(CacheWrite) == u.cacheWrite;
    assert u.Get(CacheWriteObserved) == u.cacheWriteObserved && u.Get(Output) == u.output;
    assert u.Get(Reasoning) == u.reasoning && u.Get(Total) == u.total;
  }

  /** The seven dimensions are the seven fields. */
  lemma UsageIsItsDimensions(u: TokenUsage)
    ensures u == TokenUsage(u.Get(Input), u.Get(Cached), u.Get(CacheWrite), u.Get(CacheWriteObserved),
                            u.Get(Output), u.Get(Reasoning), u.Get(Total))
  {
  }

  lemma SameUsage(u: TokenUsage, v: TokenUsage)
    requires forall d: Dimension :: u.Get(d) == v.Get(d)
    ensures u == v
  {
    UsageIsItsDimensions(u);
    UsageIsItsDimensions(v);
  }

  function AddSaturating(a: TokenUsage, b: TokenUsage): (r: TokenUsage)
    ensures forall d: Dimension :: r.Get(d) == Sat(a.Get(d) + b.Get(d))
  {
    TokenUsage(SatAdd(a.input, b.input), SatAdd(a.cached, b.cached),
               SatAdd(a.cacheWrite, b.cacheWrite),
               SatAdd(a.cacheWriteObserved, b.cacheWriteObserved),
               SatAdd(a.output, b.output), SatAdd(a.reasoning, b.reasoning),
               SatAdd(a.total, b.total))
  }
}
