/** The residual estimate for accounts not yet captured (src/api/reconciliation.rs). */
module Residual {
  import opened Prelude
  import opened Types
  import opened Sums
  import opened Allocation

  datatype Row = Row(account: string, day: string, project: string, model: string, sourceEvents: u64, usage: TokenUsage)

  // ----- the five exclusive components of a row -----

  function Components(u: TokenUsage): (c: seq<int>)
    ensures |c| == 5 && forall i :: 0 <= i < 5 ==> 0 <= c[i]
  {
    [Min(u.cached, u.input),
     Min(u.cacheWrite, SatSub(u.input, u.cached)),
     u.UncachedInput(),
     Min(u.reasoning, u.output),
     SatSub(u.output, u.reasoning)]
  }

  /**
   * Whatever the row, its components partition input plus output: cached input comes first, then
   * written input as far as there is room, and the rest is uncached; reasoning comes before other output.
   */
  lemma ComponentsPartition(u: TokenUsage)
    ensures var c := Components(u);
      && c[0] + c[1] + c[2] == u.input && c[0] <= u.cached && c[1] <= u.cacheWrite
      && (c[1] + c[2] > 0 ==> c[0] == u.cached) && (c[2] > 0 ==> c[1] == u.cacheWrite)
      && c[3] + c[4] == u.output && c[3] <= u.reasoning && (c[4] > 0 ==> c[3] == u.reasoning)
    ensures u.Valid() ==>
              Components(u) == [u.cached, u.cacheWrite, u.input - u.cached - u.cacheWrite,
                                u.reasoning, u.output - u.reasoning]
  {
  }

  function Rebuild(c: seq<int>, row: TokenUsage): (u: TokenUsage)
    requires |c| == 5 && ChunkWithin(c, c) && c[0] + c[1] + c[2] + c[3] + c[4] <= U64_MAX
  {
    var input := c[0] + c[1] + c[2];
    var output := c[3] + c[4];
    TokenUsage(input, c[0], c[1], if row.cacheWriteObserved > 0 then input else 0, output, c[3], input + output)
  }

  /** A rebuilt usage is valid and has exactly the given components. */
  lemma RebuildIsExact(c: seq<int>, row: TokenUsage)
    requires |c| == 5 && ChunkWithin(c, c) && c[0] + c[1] + c[2] + c[3] + c[4] <= U64_MAX
    ensures Rebuild(c, row).Valid() && Components(Rebuild(c, row)) == c
    ensures Rebuild(c, row).cacheWriteObserved == if row.cacheWriteObserved > 0 then c[0] + c[1] + c[2] else 0
  {
  }

  /** The components of the first `k` usages, one after the other. */
  function Flatten(us: seq<TokenUsage>, k: nat): (w: seq<int>)
    requires k <= |us|
    ensures |w| == 5 * k
    ensures forall i :: 0 <= i < |w| ==> 0 <= w[i]
  {
    if k == 0 then [] else Flatten(us, k - 1) + Components(us[k - 1])
  }

  function Usages(rows: seq<Row>): (us: seq<TokenUsage>)
    ensures |us| == |rows| && forall i :: 0 <= i < |us| ==> us[i] == rows[i].usage
  {
    seq(|rows|, i requires 0 <= i < |rows| => rows[i].usage)
  }

  function ConservedTotal(us: seq<TokenUsage>, k: nat): nat
    requires k <= |us|
  {
    if k == 0 then 0 else ConservedTotal(us, k - 1) + (us[k - 1].input + us[k - 1].output)
  }

  function StatedTotal(us: seq<TokenUsage>, k: nat): nat
    requires k <= |us|
  {
    if k == 0 then 0 else StatedTotal(us, k - 1) + us[k - 1].total
  }

  lemma {:induction false} TotalOfConcat(a: seq<int>, b: seq<int>, k: nat)
    requires k <= |b|
    ensures PrefixSum(a + b, |a| + k) == PrefixSum(a, |a|) + PrefixSum(b, k)
  {
    if k == 0 {
      TotalOfPrefix(a, a + b, |a|);
    } else {
      TotalOfConcat(a, b, k - 1);
      assert (a + b)[|a| + k - 1] == b[k - 1];
    }
  }

  lemma {:induction false} TotalOfPrefix(a: seq<int>, b: seq<int>, k: nat)
    requires k <= |a| && a <= b
    ensures PrefixSum(a, k) == PrefixSum(b, k)
  {
    if k > 0 {
      TotalOfPrefix(a, b, k - 1);
    }
  }

  lemma SumOfFive(c: seq<int>)
    requires |c| == 5
    ensures PrefixSum(c, 5) == c[0] + c[1] + c[2] + c[3] + c[4]
  {
    assert PrefixSum(c, 0) == 0 && PrefixSum(c, 1) == c[0];
    assert PrefixSum(c, 2) == c[0] + c[1] && PrefixSum(c, 3) == c[0] + c[1] + c[2];
    assert PrefixSum(c, 4) == c[0] + c[1] + c[2] + c[3];
  }

  lemma {:induction false} FlattenTotal(us: seq<TokenUsage>, k: nat)
    requires k <= |us|
    ensures Sum(Flatten(us, k)) == ConservedTotal(us, k)
  {
    if k > 0 {
      FlattenTotal(us, k - 1);
      ComponentsPartition(us[k - 1]);
      SumOfFive(Components(us[k - 1]));
      TotalOfConcat(Flatten(us, k - 1), Components(us[k - 1]), 5);
    }
  }

  function AbsDiff(a: u64, b: u64): (r: u64)
    ensures r == Max(a, b) - Min(a, b)
  {
    if a >= b then a - b else b - a
  }

  // ----- allocation over rows -----

  /** No component of `u` exceeds that of the row it was shares from. */
  ghost predicate WithinRow(u: TokenUsage, row: TokenUsage) {
    && u.cached <= Min(row.cached, row.input)
    && u.cacheWrite <= Min(row.cacheWrite, SatSub(row.input, row.cached))
    && u.UncachedInput() <= row.UncachedInput()
    && u.reasoning <= Min(row.reasoning, row.output)
    && u.output - u.reasoning <= SatSub(row.output, row.reasoning)
    && u.input <= row.input && u.output <= row.output
    && u.cacheWriteObserved == (if row.cacheWriteObserved > 0 then u.input else 0)
  }

  ghost predicate SharesOf(w: seq<int>, target: u64, a: seq<int>) {
    && |a| == |w|
    && (target == 0 || Sum(w) == 0 ==> forall i :: 0 <= i < |w| ==> a[i] == 0)
    && (target > 0 && Sum(w) > 0 ==> Apportioned(w, target, a))
  }

  lemma SharesAreBounded(w: seq<int>, target: u64, a: seq<int>, i: nat)
    requires SharesOf(w, target, a) && i < |w| && target <= Sum(w) && forall j :: 0 <= j < |w| ==> 0 <= w[j]
    ensures 0 <= a[i] <= w[i]
  {
    if target > 0 {
      ShareWithinWeight(w, target, a, i);
      ShareIsFloorOrCeiling(w, target, a, i);
    }
  }

  lemma {:induction false} ZerosSumToZero(a: seq<int>, k: nat)
    requires k <= |a| && forall i :: 0 <= i < k ==> a[i] == 0
    ensures PrefixSum(a, k) == 0
  {
    if k > 0 {
      ZerosSumToZero(a, k - 1);
    }
  }

  lemma SharesSumToTarget(w: seq<int>, target: u64, a: seq<int>)
    requires SharesOf(w, target, a) && target <= Sum(w) && forall j :: 0 <= j < |w| ==> 0 <= w[j]
    ensures Sum(a) == target
  {
    if target == 0 {
      ZerosSumToZero(a, |a|);
    }
  }

  function Chunk(shares: seq<int>, i: nat): seq<int>
    requires 5 * i + 5 <= |shares|
  {
    shares[5 * i..5 * i + 5]
  }

  predicate ChunkWithin(c: seq<int>, bound: seq<int>)
    requires |bound| == 5
  {
    && |c| == 5
    && 0 <= c[0] <= bound[0] && 0 <= c[1] <= bound[1] && 0 <= c[2] <= bound[2]
    && 0 <= c[3] <= bound[3] && 0 <= c[4] <= bound[4]
  }

  lemma ChunkIsBounded(us: seq<TokenUsage>, w: seq<int>, target: u64, a: seq<int>, i: nat)
    requires w == Flatten(us, |us|) && SharesOf(w, target, a) && i < |us| && target <= Sum(w)
    ensures ChunkWithin(Chunk(a, i), Components(us[i]))
  {
    PartIsBounded(us, w, target, a, i, 0);
    PartIsBounded(us, w, target, a, i, 1);
    PartIsBounded(us, w, target, a, i, 2);
    PartIsBounded(us, w, target, a, i, 3);
    PartIsBounded(us, w, target, a, i, 4);
  }

  lemma PartIsBounded(us: seq<TokenUsage>, w: seq<int>, target: u64, a: seq<int>, i: nat, j: nat)
    requires w == Flatten(us, |us|) && SharesOf(w, target, a) && i < |us| && j < 5 && target <= Sum(w)
    ensures 0 <= Chunk(a, i)[j] <= Components(us[i])[j]
  {
    var at := 5 * i + j;
    ShareIsBounded(us, w, target, a, i, j, at);
    ChunkAt(a, i, j, at);
  }

  lemma ChunkAt(a: seq<int>, i: nat, j: nat, at: nat)
    requires 5 * i + 5 <= |a| && j < 5 && at == 5 * i + j
    ensures Chunk(a, i)[j] == a[at]
  {
  }

  lemma ShareIsBounded(us: seq<TokenUsage>, w: seq<int>, target: u64, a: seq<int>, i: nat, j: nat, at: nat)
    requires w == Flatten(us, |us|) && SharesOf(w, target, a) && target <= Sum(w)
    requires i < |us| && j < 5 && at == 5 * i + j
    ensures 0 <= a[at] <= Components(us[i])[j]
  {
    FlattenAt(us, |us|, i, j, at);
    SharesAreBounded(w, target, a, at);
  }

  lemma {:induction false} FlattenAt(us: seq<TokenUsage>, k: nat, i: nat, j: nat, at: nat)
    requires i < k <= |us| && j < 5 && at == 5 * i + j
    ensures Flatten(us, k)[at] == Components(us[i])[j]
    decreases k
  {
    if i < k - 1 {
      FlattenAt(us, k - 1, i, j, at);
    }
  }

  lemma RebuiltWithinRow(c: seq<int>, row: TokenUsage)
    requires ChunkWithin(c, Components(row))
    requires row.input + row.output <= U64_MAX
    ensures c[0] + c[1] + c[2] + c[3] + c[4] <= U64_MAX
    ensures Rebuild(c, row).Valid() && WithinRow(Rebuild(c, row), row) && Components(Rebuild(c, row)) == c
  {
    ComponentsPartition(row);
    RebuildIsExact(c, row);
  }

  /** The weights of all rows, what the rows state in total and what their components hold. */
  method GatherWeights(rows: seq<Row>) returns (weights: seq<u64>, expectedTotal: u64, componentTotal: u64)
    requires forall i :: 0 <= i < |rows| ==> rows[i].usage.input + rows[i].usage.output <= U64_MAX
    ensures weights == Flatten(Usages(rows), |rows|)
    ensures expectedTotal == Sat(StatedTotal(Usages(rows), |rows|))
    ensures componentTotal == Sat(ConservedTotal(Usages(rows), |rows|))
  {
    ghost var us := Usages(rows);
    weights, expectedTotal, componentTotal := [], 0, 0;
    for i := 0 to |rows|
      invariant weights == Flatten(us, i)
      invariant expectedTotal == Sat(StatedTotal(us, i))
      invariant componentTotal == Sat(ConservedTotal(us, i))
    {
      var c := Components(rows[i].usage);
      ComponentsPartition(rows[i].usage);
      expectedTotal := SatAdd(expectedTotal, rows[i].usage.total);
      componentTotal := SatAdd(componentTotal, c[0] + c[1] + c[2] + c[3] + c[4]);
      weights := weights + c;
    }
  }

  /** A valid usage whose components are `chunk`, none above that of `row`. */
  ghost predicate AllocatedFrom(u: TokenUsage, row: TokenUsage, chunk: seq<int>) {
    u.Valid() && WithinRow(u, row) && Components(u) == chunk
  }

  method RebuildRow(row: TokenUsage, chunk: seq<int>) returns (u: TokenUsage)
    requires ChunkWithin(chunk, Components(row)) && row.input + row.output <= U64_MAX
    ensures AllocatedFrom(u, row, chunk)
  {
    RebuiltWithinRow(chunk, row);
    u := Rebuild(chunk, row);
  }

  /** The first `n` shares are those of `result`, row by row. */
  ghost predicate RebuiltSoFar(result: seq<TokenUsage>, rows: seq<Row>, shares: seq<int>, n: nat)
    requires n <= |shares| == 5 * |rows|
  {
    && |result| <= |rows| && n == 5 * |result| && Flatten(result, |result|) == shares[..n]
    && forall j :: 0 <= j < |result| ==> AllocatedFrom(result[j], rows[j].usage, Chunk(shares, j))
  }

  lemma NextChunk(result: seq<TokenUsage>, rows: seq<Row>, shares: seq<int>, n: nat, u: TokenUsage)
    requires n <= |shares| == 5 * |rows| && RebuiltSoFar(result, rows, shares, n) && |result| < |rows|
    requires AllocatedFrom(u, rows[|result|].usage, Chunk(shares, |result|))
    ensures n + 5 <= |shares| && RebuiltSoFar(result + [u], rows, shares, n + 5)
  {
    FlattenPrefix(result, result + [u], |result|);
    assert shares[..n + 5] == shares[..n] + Chunk(shares, |result|);
  }

  /** The shares of each row, put together again. */
  method RebuildRows(rows: seq<Row>, shares: seq<int>) returns (result: seq<TokenUsage>)
    requires forall i :: 0 <= i < |rows| ==> rows[i].usage.input + rows[i].usage.output <= U64_MAX
    requires |shares| == 5 * |rows|
    requires forall i :: 0 <= i < |rows| ==> ChunkWithin(Chunk(shares, i), Components(rows[i].usage))
    ensures |result| == |rows| && Flatten(result, |rows|) == shares
    ensures forall i :: 0 <= i < |rows| ==> AllocatedFrom(result[i], rows[i].usage, Chunk(shares, i))
  {
    result := [];
    ghost var n: nat := 0;
    while |result| < |rows|
      invariant |result| <= |rows| && n <= |shares| && RebuiltSoFar(result, rows, shares, n)
    {
      var u := RebuildRow(rows[|result|].usage, Chunk(shares, |result|));
      NextChunk(result, rows, shares, n, u);
      result, n := result + [u], n + 5;
    }
    assert shares[..n] == shares;
  }

  /**
   * Distributes `residual` over the components of the rows. The input dimensions come from
   * signed 64-bit columns, so no row's input plus output can overflow.
   */
  method AllocateResidualComponents(rows: seq<Row>, residual: u64) returns (result: seq<TokenUsage>, mismatch: u64)
    requires forall i :: 0 <= i < |rows| ==> rows[i].usage.input + rows[i].usage.output <= U64_MAX
    ensures |result| == |rows|
    ensures forall i :: 0 <= i < |rows| ==> result[i].Valid() && WithinRow(result[i], rows[i].usage)
    ensures SharesOf(Flatten(Usages(rows), |rows|), Min(residual, Sat(ConservedTotal(Usages(rows), |rows|))),
                     Flatten(result, |rows|))
    ensures mismatch == AbsDiff(Sat(StatedTotal(Usages(rows), |rows|)), Sat(ConservedTotal(Usages(rows), |rows|)))
  {
    var weights, expectedTotal, componentTotal := GatherWeights(rows);
    var target := Min(residual, componentTotal);
    var shares := LargestRemainderAllocate(weights, target);
    FlattenTotal(Usages(rows), |rows|);
    ghost var us := Usages(rows);
    forall i | 0 <= i < |rows|
      ensures ChunkWithin(Chunk(shares, i), Components(rows[i].usage))
    {
      ChunkIsBounded(us, Flatten(us, |us|), target, shares, i);
    }
    result := RebuildRows(rows, shares);
    mismatch := AbsDiff(expectedTotal, componentTotal);
  }

  lemma {:induction false} FlattenPrefix(a: seq<TokenUsage>, b: seq<TokenUsage>, k: nat)
    requires k <= |a| && a <= b
    ensures Flatten(a, k) == Flatten(b, k)
  {
    if k > 0 {
      FlattenPrefix(a, b, k - 1);
    }
  }

  /** The shares totals sum to the residual, or to everything the rows conserve if that is less. */
  lemma AllocatedTotals(us: seq<TokenUsage>, target: u64, result: seq<TokenUsage>)
    requires |result| == |us| && target <= ConservedTotal(us, |us|)
    requires SharesOf(Flatten(us, |us|), target, Flatten(result, |us|))
    requires forall i :: 0 <= i < |result| ==> result[i].Valid()
    ensures StatedTotal(result, |result|) == target
  {
    FlattenTotal(us, |us|);
    FlattenTotal(result, |result|);
    SharesSumToTarget(Flatten(us, |us|), target, Flatten(result, |us|));
    ValidTotals(result, |result|);
  }

  lemma {:induction false} ValidTotals(us: seq<TokenUsage>, k: nat)
    requires k <= |us| && forall i :: 0 <= i < k ==> us[i].Valid()
    ensures StatedTotal(us, k) == ConservedTotal(us, k)
  {
    if k > 0 {
      ValidTotals(us, k - 1);
    }
  }

  // ----- the estimate over all account-days -----

  /** The rows of one captured account and day, and the official total of that day if there is one. */
  datatype AccountDay = AccountDay(rows: seq<Row>, official: Option<u64>)

  /** What the rows state in total, and what they hold in input and output. */
  ghost function Stated(rows: seq<Row>): u64 {
    Sat(StatedTotal(Usages(rows), |rows|))
  }

  ghost function Conserved(rows: seq<Row>): u64 {
    Sat(ConservedTotal(Usages(rows), |rows|))
  }

  /** Only what local attribution exceeds the official total by is evidence. */
  ghost function Excess(): AccountDay -> nat {
    (d: AccountDay) => if d.official.Some? then Max(0, Stated(d.rows) - d.official.value) else 0
  }

  ghost predicate RowsConserve(rows: seq<Row>) {
    forall i :: 0 <= i < |rows| ==> rows[i].usage.Valid()
  }

  ghost function TotalValue(): Row -> nat {
    (r: Row) => r.usage.total
  }

  /** The rows with their shares, without those that got nothing. */
  function Allotted(rows: seq<Row>, shares: seq<TokenUsage>, k: nat): seq<Row>
    requires k <= |rows| && k <= |shares|
  {
    if k == 0 then [] else
      Allotted(rows, shares, k - 1) + if shares[k - 1].total == 0 then [] else [rows[k - 1].(usage := shares[k - 1])]
  }

  lemma {:induction false} AllottedTotal(rows: seq<Row>, shares: seq<TokenUsage>, k: nat)
    requires k <= |rows| && k <= |shares|
    ensures SumSeq(Allotted(rows, shares, k), |Allotted(rows, shares, k)|, TotalValue()) == StatedTotal(shares, k)
  {
    if k > 0 {
      AllottedTotal(rows, shares, k - 1);
      var before, row := Allotted(rows, shares, k - 1), rows[k - 1].(usage := shares[k - 1]);
      if shares[k - 1].total != 0 {
        SumSeqOfConcat(before, [row], before + [row], 1, |before| + 1, TotalValue());
        assert SumSeq([row], 1, TotalValue()) == SumSeq([row], 0, TotalValue()) + row.usage.total;
      } else {
        assert Allotted(rows, shares, k) == before;
      }
    }
  }

  /** A nonempty, valid part of the row's usage under the row's own account, day, project and model. */
  ghost predicate IsPartOf(r: Row, row: Row) {
    r.(usage := row.usage) == row && WithinRow(r.usage, row.usage) && r.usage.Valid() && r.usage.total != 0
  }

  ghost predicate PartsOf(parts: seq<Row>, rows: seq<Row>) {
    forall i :: 0 <= i < |parts| ==> exists j :: 0 <= j < |rows| && IsPartOf(parts[i], rows[j])
  }

  lemma {:induction false} AllottedAreParts(rows: seq<Row>, shares: seq<TokenUsage>, k: nat)
    requires k <= |rows| && |shares| == |rows|
    requires forall i :: 0 <= i < |shares| ==> shares[i].Valid() && WithinRow(shares[i], rows[i].usage)
    ensures PartsOf(Allotted(rows, shares, k), rows)
  {
    if k > 0 {
      AllottedAreParts(rows, shares, k - 1);
      assert shares[k - 1].total != 0 ==> IsPartOf(rows[k - 1].(usage := shares[k - 1]), rows[k - 1]);
    }
  }

  /** `parts` are the nonzero apportioned shares of `target` over the components of the rows. */
  ghost predicate AllottedBy(rows: seq<Row>, parts: seq<Row>, target: u64, shares: seq<TokenUsage>) {
    && |shares| == |rows| && parts == Allotted(rows, shares, |rows|)
    && (forall i :: 0 <= i < |shares| ==> shares[i].Valid() && WithinRow(shares[i], rows[i].usage))
    && SharesOf(Flatten(Usages(rows), |rows|), target, Flatten(shares, |rows|))
  }

  ghost predicate Allots(rows: seq<Row>, parts: seq<Row>, target: u64) {
    exists shares: seq<TokenUsage> :: AllottedBy(rows, parts, target, shares)
  }

  lemma AllottedAddUp(rows: seq<Row>, parts: seq<Row>, target: u64)
    requires Allots(rows, parts, target) && target <= Conserved(rows)
    ensures PartsOf(parts, rows) && SumSeq(parts, |parts|, TotalValue()) == target
  {
    var shares :| AllottedBy(rows, parts, target, shares);
    AllottedAreParts(rows, shares, |rows|);
    AllottedTotal(rows, shares, |rows|);
    AllocatedTotals(Usages(rows), target, shares);
  }

  /** A day contributes parts of its rows that make up its excess, or all they hold; any other day nothing. */
  ghost predicate DayEstimated(d: AccountDay, parts: seq<Row>) {
    if d.official.None? || Stated(d.rows) <= d.official.value then parts == []
    else
      && PartsOf(parts, d.rows)
      && SumSeq(parts, |parts|, TotalValue()) == Min(Stated(d.rows) - d.official.value, Conserved(d.rows))
  }

  /** Where the rows conserve, estimate and official total make up the local total. */
  lemma DayAddsUp(d: AccountDay, parts: seq<Row>)
    requires DayEstimated(d, parts) && RowsConserve(d.rows)
    ensures SumSeq(parts, |parts|, TotalValue()) == Excess()(d)
    ensures d.official.Some? && d.official.value < Stated(d.rows) ==>
              SumSeq(parts, |parts|, TotalValue()) + d.official.value == Stated(d.rows)
  {
    ValidTotals(Usages(d.rows), |d.rows|);
    assert SumSeq([], 0, TotalValue()) == 0;
  }

  ghost predicate DaysFit(days: seq<AccountDay>) {
    forall i :: 0 <= i < |days| ==> RowsFit(days[i].rows)
  }

  ghost predicate RowsFit(rows: seq<Row>) {
    forall i :: 0 <= i < |rows| ==> rows[i].usage.input + rows[i].usage.output <= U64_MAX
  }

  method LocalTokens(rows: seq<Row>) returns (tokens: u64)
    ensures tokens == Stated(rows)
  {
    ghost var us := Usages(rows);
    tokens := 0;
    for i := 0 to |rows|
      invariant tokens == Sat(StatedTotal(us, i))
    {
      tokens := SatAdd(tokens, rows[i].usage.total);
    }
  }

  method AllotRows(rows: seq<Row>, residual: u64) returns (parts: seq<Row>)
    requires RowsFit(rows)
    ensures Allots(rows, parts, Min(residual, Conserved(rows)))
    ensures PartsOf(parts, rows) && SumSeq(parts, |parts|, TotalValue()) == Min(residual, Conserved(rows))
  {
    var shares, mismatch := AllocateResidualComponents(rows, residual);
    parts := Allotted(rows, shares, |rows|);
    assert AllottedBy(rows, parts, Min(residual, Conserved(rows)), shares);
    AllottedAddUp(rows, parts, Min(residual, Conserved(rows)));
  }

  method EstimateDay(d: AccountDay) returns (residual: u64, parts: seq<Row>)
    requires RowsFit(d.rows)
    ensures DayEstimated(d, parts) && residual == Excess()(d)
    ensures residual > 0 ==> Allots(d.rows, parts, Min(residual, Conserved(d.rows)))
  {
    residual, parts := 0, [];
    if d.official.None? {
      return;
    }
    var localTokens := LocalTokens(d.rows);
    residual := SatSub(localTokens, d.official.value);
    if residual != 0 {
      parts := AllotRows(d.rows, residual);
    }
  }

  ghost function Joined(byDay: seq<seq<Row>>, k: nat): seq<Row>
    requires k <= |byDay|
  {
    if k == 0 then [] else Joined(byDay, k - 1) + byDay[k - 1]
  }

  lemma {:induction false} JoinedPrefix(a: seq<seq<Row>>, b: seq<seq<Row>>, k: nat)
    requires k <= |a| && a <= b
    ensures Joined(a, k) == Joined(b, k)
  {
    if k > 0 {
      JoinedPrefix(a, b, k - 1);
    }
  }

  ghost predicate Pairwise<A(!new), B(!new)>(p: (A, B) -> bool, a: seq<A>, b: seq<B>, k: nat) {
    k <= |a| && k <= |b| && forall i :: 0 <= i < k ==> p(a[i], b[i])
  }

  lemma OneMorePair<A(!new), B(!new)>(p: (A, B) -> bool, a: seq<A>, b: seq<B>, y: B)
    requires |b| < |a| && Pairwise(p, a, b, |b|) && p(a[|b|], y)
    ensures Pairwise(p, a, b + [y], |b| + 1)
  {
  }

  ghost function Estimated(): (AccountDay, seq<Row>) -> bool {
    (d: AccountDay, parts: seq<Row>) => DayEstimated(d, parts)
  }

  /**
   * The estimate over all account-days, day by day: the excess of a day over its official total, and
   * the sum of all excesses beside it.
   */
  method MissingAccountEstimate(days: seq<AccountDay>)
    returns (estimate: seq<Row>, rawResidual: u64, ghost byDay: seq<seq<Row>>)
    requires DaysFit(days)
    ensures rawResidual == Sat(SumSeq(days, |days|, Excess()))
    ensures |byDay| == |days| && estimate == Joined(byDay, |days|)
    ensures Pairwise(Estimated(), days, byDay, |days|)
  {
    estimate, rawResidual, byDay := [], 0, [];
    for i := 0 to |days|
      invariant rawResidual == Sat(SumSeq(days, i, Excess()))
      invariant |byDay| == i && estimate == Joined(byDay, i)
      invariant Pairwise(Estimated(), days, byDay, i)
    {
      var residual, parts := EstimateDay(days[i]);
      OneMorePair(Estimated(), days, byDay, parts);
      JoinedPrefix(byDay, byDay + [parts], i);
      rawResidual := SatAdd(rawResidual, residual);
      estimate, byDay := estimate + parts, byDay + [parts];
    }
  }

  /** Where the rows of every day conserve, the estimate holds all the evidence there is. */
  lemma {:induction false} WholeResidualIsAllocated(days: seq<AccountDay>, byDay: seq<seq<Row>>, k: nat)
    requires k <= |days| && Pairwise(Estimated(), days, byDay, k)
    requires forall i :: 0 <= i < k ==> RowsConserve(days[i].rows)
    ensures SumSeq(Joined(byDay, k), |Joined(byDay, k)|, TotalValue()) == SumSeq(days, k, Excess())
  {
    if k > 0 {
      var before, parts := Joined(byDay, k - 1), byDay[k - 1];
      WholeResidualIsAllocated(days, byDay, k - 1);
      DayAddsUp(days[k - 1], parts);
      SumSeqOfConcat(before, parts, before + parts, |parts|, |before + parts|, TotalValue());
    }
  }

  ghost function DimensionOf(d: Dimension): Row -> nat {
    (r: Row) => r.usage.Get(d)
  }

  ghost function EventsOf(): Row -> nat {
    (r: Row) => r.sourceEvents
  }

  datatype Aggregate = Aggregate(sourceEvents: u64, usage: TokenUsage)

  const EMPTY: Aggregate := Aggregate(0, ZERO)

  function Add(a: Aggregate, r: Row): Aggregate {
    Aggregate(SatAdd(a.sourceEvents, r.sourceEvents), AddSaturating(a.usage, r.usage))
  }

  /** `a` shows the saturated sums of the rows whose key is `name`. */
  ghost predicate ShowsGroup(a: Aggregate, rows: seq<Row>, k: nat, key: Row -> string, name: string)
    requires k <= |rows|
  {
    && a.sourceEvents == Sat(GroupSum(rows, k, key, name, EventsOf()))
    && forall d: Dimension :: a.usage.Get(d) == Sat(GroupSum(rows, k, key, name, DimensionOf(d)))
  }

  ghost predicate ShowsTotal(u: TokenUsage, rows: seq<Row>, k: nat)
    requires k <= |rows|
  {
    forall d: Dimension :: u.Get(d) == Sat(SumSeq(rows, k, DimensionOf(d)))
  }

  /** Aggregates rows under one of their labels. `seeded` names appear even without rows. */
  method AggregateBy(rows: seq<Row>, key: Row -> string, seeded: set<string>)
    returns (groups: map<string, Aggregate>, total: TokenUsage)
    ensures forall i :: 0 <= i < |rows| ==> key(rows[i]) in groups
    ensures seeded <= groups.Keys
    ensures forall name :: name in groups ==> ShowsGroup(groups[name], rows, |rows|, key, name)
    ensures ShowsTotal(total, rows, |rows|)
  {
    groups := map name | name in seeded :: EMPTY;
    total := ZERO;
    EmptyAggregate(rows, key);
    for i := 0 to |rows|
      invariant seeded <= groups.Keys
      invariant forall j :: 0 <= j < i ==> key(rows[j]) in groups
      invariant forall name :: name in groups ==> ShowsGroup(groups[name], rows, i, key, name)
      invariant forall name :: name !in groups ==> ShowsGroup(EMPTY, rows, i, key, name)
      invariant ShowsTotal(total, rows, i)
    {
      var name := key(rows[i]);
      var before := if name in groups then groups[name] else EMPTY;
      NextRow(groups, before, rows, i, key, name);
      NextTotal(total, rows, i);
      groups := groups[name := Add(before, rows[i])];
      total := AddSaturating(total, rows[i].usage);
    }
  }

  lemma EmptyAggregate(rows: seq<Row>, key: Row -> string)
    ensures forall name :: ShowsGroup(EMPTY, rows, 0, key, name)
    ensures ShowsTotal(ZERO, rows, 0)
  {
  }

  lemma NextTotal(total: TokenUsage, rows: seq<Row>, i: nat)
    requires i < |rows| && ShowsTotal(total, rows, i)
    ensures ShowsTotal(AddSaturating(total, rows[i].usage), rows, i + 1)
  {
  }

  lemma OtherGroup(a: Aggregate, rows: seq<Row>, i: nat, key: Row -> string, name: string)
    requires i < |rows| && ShowsGroup(a, rows, i, key, name) && key(rows[i]) != name
    ensures ShowsGroup(a, rows, i + 1, key, name)
  {
  }

  lemma SameGroup(a: Aggregate, rows: seq<Row>, i: nat, key: Row -> string)
    requires i < |rows| && ShowsGroup(a, rows, i, key, key(rows[i]))
    ensures ShowsGroup(Add(a, rows[i]), rows, i + 1, key, key(rows[i]))
  {
  }

  lemma NextRow(groups: map<string, Aggregate>, before: Aggregate, rows: seq<Row>, i: nat,
      key: Row -> string, name: string)
    requires i < |rows| && name == key(rows[i]) && ShowsGroup(before, rows, i, key, name)
    requires forall n :: n in groups ==> ShowsGroup(groups[n], rows, i, key, n)
    requires forall n :: n !in groups ==> ShowsGroup(EMPTY, rows, i, key, n)
    ensures ShowsGroup(Add(before, rows[i]), rows, i + 1, key, name)
    ensures forall n :: n in groups && n != name ==> ShowsGroup(groups[n], rows, i + 1, key, n)
    ensures forall n :: n !in groups && n != name ==> ShowsGroup(EMPTY, rows, i + 1, key, n)
  {
    SameGroup(before, rows, i, key);
    forall n | n != name
      ensures n in groups ==> ShowsGroup(groups[n], rows, i + 1, key, n)
      ensures n !in groups ==> ShowsGroup(EMPTY, rows, i + 1, key, n)
    {
      OtherGroup(if n in groups then groups[n] else EMPTY, rows, i, key, n);
    }
  }

  ghost function GroupValue(groups: map<string, Aggregate>, d: Dimension): string -> nat {
    (name: string) => if name in groups then groups[name].usage.Get(d) else 0
  }

  /** Saturated group values add up to the saturated total: by day, by project and by model alike. */
  lemma BreakdownsAgree(rows: seq<Row>, key: Row -> string, groups: map<string,
      Aggregate>, total: TokenUsage, d: Dimension)
    requires forall i :: 0 <= i < |rows| ==> key(rows[i]) in groups
    requires forall name :: name in groups ==> ShowsGroup(groups[name], rows, |rows|, key, name)
    requires ShowsTotal(total, rows, |rows|)
    ensures Sat(SumOver(groups.Keys, GroupValue(groups, d))) == total.Get(d)
  {
    GroupsAddUp(rows, |rows|, key, groups.Keys, DimensionOf(d));
    SumOfSaturated(groups.Keys, GroupValue(groups, d), GroupOf(rows, |rows|, key, DimensionOf(d)));
  }
}
