/**
 * The pooling loop of the isotonic calibration: it merges forwards only, so a run that has been
 * closed is never reopened.
 */
module Pooling {
  import opened Sequences

  // ---------------------------------------------------------------------------
  // Runs and their means
  // ---------------------------------------------------------------------------

  /** The sum of `values[i..j]`. */
  function SumRange(values: seq<real>, i: nat, j: nat): real
    requires i <= j <= |values|
  {
    if i == j then 0.0 else SumRange(values, i, j - 1) + values[j - 1]
  }

  function Mean(values: seq<real>, i: nat, j: nat): real
    requires i < j <= |values|
  {
    SumRange(values, i, j) / (j - i) as real
  }

  /** Where the run that starts at `i` and has reached `j` ends: before the first value above its mean. */
  function RunEnd(values: seq<real>, i: nat, j: nat): (end: nat)
    requires i < j <= |values|
    ensures j <= end <= |values|
    decreases |values| - j
  {
    if j == |values| || Mean(values, i, j) < values[j] then j else RunEnd(values, i, j + 1)
  }

  lemma {:induction false} RunEndIsFirst(values: seq<real>, i: nat, j: nat)
    requires i < j <= |values|
    ensures var end := RunEnd(values, i, j);
            && (end < |values| ==> Mean(values, i, end) < values[end])
            && (forall k :: j <= k < end ==> Mean(values, i, k) >= values[k])
    decreases |values| - j
  {
    hide Mean;
    if j < |values| && Mean(values, i, j) >= values[j] {
      RunEndIsFirst(values, i, j + 1);
    }
  }

  function Constant(length: nat, value: real): (s: seq<real>)
    ensures |s| == length && forall k :: 0 <= k < length ==> s[k] == value
  {
    seq(length, _ => value)
  }

  /** The pooled values from a run's start on: every run replaced by its mean. */
  function Pooled(values: seq<real>, i: nat): (pooled: seq<real>)
    requires i <= |values|
    ensures |pooled| == |values| - i
    decreases |values| - i
  {
    if i == |values| then []
    else
      var end := RunEnd(values, i, i + 1);
      Constant(end - i, Mean(values, i, end)) + Pooled(values, end)
  }

  /** The runs from a run's start on, as half-open index ranges. */
  function Runs(values: seq<real>, i: nat): seq<(nat, nat)>
    requires i <= |values|
    decreases |values| - i
  {
    if i == |values| then []
    else
      var end := RunEnd(values, i, i + 1);
      [(i, end)] + Runs(values, end)
  }

  // ---------------------------------------------------------------------------
  // The loop
  // ---------------------------------------------------------------------------

  function Times(count: nat, value: real): real {
    count as real * value
  }

  lemma OneMoreTime(count: nat, value: real)
    ensures Times(0, value) == 0.0
    ensures Times(count, value) + value == Times(count + 1, value)
  {
  }

  /** The mean of `count` values with mean `mean` and one more. */
  function MeanWith(count: nat, mean: real, next: real): real {
    (Times(count, mean) + next) / (count + 1) as real
  }

  lemma ExtendMean(values: seq<real>, i: nat, j: nat)
    requires i < j < |values|
    ensures MeanWith(j - i, Mean(values, i, j), values[j]) == Mean(values, i, j + 1)
  {
  }

  /** The run from `i` is pooled up to `j`, and everything behind is as it was. */
  ghost predicate RunSoFar(result: seq<real>, values: seq<real>, done: seq<real>, i: nat, j: nat)
    requires |result| == |values| && |done| == i < j <= |values|
  {
    && (forall k :: 0 <= k < i ==> result[k] == done[k])
    && (forall k :: i <= k < j ==> result[k] == Mean(values, i, j))
    && (forall k :: j <= k < |values| ==> result[k] == values[k])
  }

  lemma PooledOneMore(before: seq<real>, after: seq<real>, values: seq<real>, done: seq<real>, i: nat, j: nat)
    requires |before| == |after| == |values| && |done| == i < j < |values| && RunSoFar(before, values, done, i, j)
    requires forall k :: i <= k <= j ==> after[k] == Mean(values, i, j + 1)
    requires forall k :: 0 <= k < i || j < k < |values| ==> after[k] == before[k]
    ensures RunSoFar(after, values, done, i, j + 1)
  {
    hide Mean;
  }

  lemma RunIsComplete(result: seq<real>, values: seq<real>, done: seq<real>, i: nat, j: nat)
    requires |result| == |values| && |done| == i < j <= |values| && RunSoFar(result, values, done, i, j)
    ensures result == done + Constant(j - i, Mean(values, i, j)) + values[j..]
  {
    hide Mean;
  }

  lemma RunValues(result: seq<real>, values: seq<real>, done: seq<real>, i: nat, j: nat)
    requires |result| == |values| && |done| == i < j < |values| && RunSoFar(result, values, done, i, j)
    ensures forall k :: i <= k < j ==> result[k] == Mean(values, i, j)
    ensures result[j] == values[j]
  {
    hide Mean;
  }

  lemma RunOrder(result: seq<real>, values: seq<real>, done: seq<real>, i: nat, j: nat)
    requires |result| == |values| && |done| == i < j <= |values| && RunSoFar(result, values, done, i, j)
    ensures result[j - 1] == Mean(values, i, j)
    ensures j < |values| ==> result[j] == values[j]
  {
    hide Mean;
  }

  lemma RunStarts(result: seq<real>, values: seq<real>, done: seq<real>, i: nat)
    requires |result| == |values| && |done| == i < |values| && result == done + values[i..]
    ensures RunSoFar(result, values, done, i, i + 1)
  {
    SingleMean(values, i);
    hide Mean;
  }

  /** The weighted sum of the run `i..j` and the next value, and their weight. */
  method SumRun(result: array<real>, weight: array<real>, i: nat, j: nat, ghost mean: real)
    returns (sumVal: real, sumWeight: real)
    requires weight.Length == result.Length && i <= j < result.Length - 1
    requires forall k :: i <= k <= j ==> result[k] == mean
    requires forall k :: 0 <= k < weight.Length ==> weight[k] == 1.0
    ensures sumVal == Times(j + 1 - i, mean) + result[j + 1] && sumWeight == (j + 2 - i) as real
  {
    hide Times;
    sumVal, sumWeight := 0.0, 0.0;
    OneMoreTime(0, mean);
    var k := i;
    while k <= j + 1
      invariant i <= k <= j + 2
      invariant sumWeight == (k - i) as real
      invariant sumVal == if k <= j + 1 then Times(k - i, mean) else Times(j + 1 - i, mean) + result[j + 1]
    {
      OneMoreTime(k - i, mean);
      assert (k - i) as real + 1.0 == (k + 1 - i) as real;
      sumVal := sumVal + result[k] * weight[k];
      sumWeight := sumWeight + weight[k];
      k := k + 1;
    }
  }

  /** Pools the run `i..j` with the next value. */
  method PoolThrough(values: seq<real>, result: array<real>, weight: array<real>, i: nat, j: nat,
                     ghost done: seq<real>)
    requires result != weight && weight.Length == result.Length == |values|
    requires |done| == i <= j < |values| - 1 && RunSoFar(result[..], values, done, i, j + 1)
    requires forall k :: 0 <= k < weight.Length ==> weight[k] == 1.0
    modifies result, weight
    ensures RunSoFar(result[..], values, done, i, j + 2)
    ensures forall k :: 0 <= k < weight.Length ==> weight[k] == 1.0
  {
    hide Times, Mean, MeanWith, RunSoFar;
    ghost var before, mean := result[..], Mean(values, i, j + 1);
    assert forall k :: 0 <= k < |values| ==> result[k] == before[k];
    RunValues(before, values, done, i, j + 1);
    var sumVal, sumWeight := SumRun(result, weight, i, j, mean);
    var avg := sumVal / sumWeight;
    ExtendMean(values, i, j + 1);
    Averages(j + 1 - i, mean, values[j + 1], sumVal, sumWeight);
    var k := i;
    while k <= j + 1
      invariant i <= k <= j + 2
      invariant forall m :: i <= m < k ==> result[m] == avg
      invariant forall m :: 0 <= m < i || j + 1 < m < result.Length ==> result[m] == before[m]
      invariant forall m :: 0 <= m < weight.Length ==> weight[m] == 1.0
    {
      result[k] := avg;
      weight[k] := sumWeight / (j + 1 - i + 1) as real;
      k := k + 1;
    }
    PooledOneMore(before, result[..], values, done, i, j + 1);
  }

  lemma Averages(count: nat, mean: real, next: real, sumVal: real, sumWeight: real)
    requires sumVal == Times(count, mean) + next && sumWeight == (count + 1) as real
    ensures sumVal / sumWeight == MeanWith(count, mean, next)
    ensures sumWeight / (count + 1) as real == 1.0
  {
    hide Times;
  }

  /** The inner loop: pools the run that starts at `i`, and returns its last index. */
  method PoolRun(values: seq<real>, result: array<real>, weight: array<real>, i: nat, ghost done: seq<real>)
    returns (j: nat)
    requires result != weight && weight.Length == result.Length == |values| && i < |values|
    requires |done| == i && result[..] == done + values[i..]
    requires forall k :: 0 <= k < weight.Length ==> weight[k] == 1.0
    modifies result, weight
    ensures j + 1 == RunEnd(values, i, i + 1)
    ensures result[..] == done + Constant(j + 1 - i, Mean(values, i, j + 1)) + values[j + 1..]
    ensures forall k :: 0 <= k < weight.Length ==> weight[k] == 1.0
  {
    hide Mean, RunEnd, RunSoFar, Constant;
    j := i;
    RunStarts(result[..], values, done, i);
    RunOrder(result[..], values, done, i, j + 1);
    while j < |values| - 1 && result[j] >= result[j + 1]
      invariant i <= j < |values|
      invariant RunSoFar(result[..], values, done, i, j + 1)
      invariant forall k :: 0 <= k < weight.Length ==> weight[k] == 1.0
      invariant RunEnd(values, i, i + 1) == RunEnd(values, i, j + 1)
      invariant result[j] == Mean(values, i, j + 1)
      invariant j + 1 < |values| ==> result[j + 1] == values[j + 1]
    {
      RunGoesOn(values, i, j + 1);
      PoolThrough(values, result, weight, i, j, done);
      j := j + 1;
      RunOrder(result[..], values, done, i, j + 1);
    }
    RunStops(values, i, j + 1);
    RunIsComplete(result[..], values, done, i, j + 1);
  }

  lemma PooledStep(values: seq<real>, i: nat)
    requires i < |values|
    ensures var end := RunEnd(values, i, i + 1);
            Pooled(values, i) == Constant(end - i, Mean(values, i, end)) + Pooled(values, end)
  {
    hide Mean, RunEnd, Constant;
  }

  method PoolAdjacentViolators(values: seq<real>) returns (pooled: seq<real>)
    ensures pooled == Pooled(values, 0)
  {
    hide Mean, RunEnd, Constant, Pooled;
    var n := |values|;
    var result := new real[n](k requires 0 <= k < n => values[k]);
    var weight := new real[n](_ => 1.0);
    var i := 0;
    ghost var done: seq<real> := [];
    assert result[..] == done + values[i..];
    while i < n
      invariant 0 <= i <= n && |done| == i
      invariant result[..] == done + values[i..]
      invariant forall k :: 0 <= k < n ==> weight[k] == 1.0
      invariant done + Pooled(values, i) == Pooled(values, 0)
    {
      var j := PoolRun(values, result, weight, i, done);
      PooledStep(values, i);
      Regroup(done, Constant(j + 1 - i, Mean(values, i, j + 1)), Pooled(values, j + 1));
      done := done + Constant(j + 1 - i, Mean(values, i, j + 1));
      i := j + 1;
    }
    NothingLeft(values);
    return result[..];
  }

  lemma NothingLeft(values: seq<real>)
    ensures Pooled(values, |values|) == values[|values|..] == []
  {
  }

  lemma SingleMean(values: seq<real>, i: nat)
    requires i < |values|
    ensures Mean(values, i, i + 1) == values[i]
  {
    assert SumRange(values, i, i) == 0.0;
  }

  lemma RunGoesOn(values: seq<real>, i: nat, j: nat)
    requires i < j < |values| && Mean(values, i, j) >= values[j]
    ensures RunEnd(values, i, j) == RunEnd(values, i, j + 1)
  {
  }

  lemma RunStops(values: seq<real>, i: nat, j: nat)
    requires i < j <= |values| && (j < |values| ==> Mean(values, i, j) < values[j])
    ensures RunEnd(values, i, j) == j
  {
  }

  // ---------------------------------------------------------------------------
  // What pooling keeps
  // ---------------------------------------------------------------------------

  /** The runs tile the indices, and each is constant at the mean of its own inputs. */
  lemma {:induction false} RunsAreMeans(values: seq<real>, i: nat)
    requires i <= |values|
    ensures var runs := Runs(values, i);
            && (i < |values| ==> runs != [] && runs[0].0 == i && runs[|runs| - 1].1 == |values|)
            && (forall r :: 0 <= r < |runs| - 1 ==> runs[r].1 == runs[r + 1].0)
            && (forall r :: 0 <= r < |runs| ==> RunIsMean(values, i, runs[r]))
    decreases |values| - i
  {
    hide Mean, RunEnd, RunIsMean;
    if i < |values| {
      var end := RunEnd(values, i, i + 1);
      RunsAreMeans(values, end);
      FirstRunIsMean(values, i);
      var runs, rest := Runs(values, i), Runs(values, end);
      assert runs == [(i, end)] + rest;
      forall r | 0 <= r < |runs| ensures RunIsMean(values, i, runs[r]) {
        if r > 0 {
          LaterRunIsMean(values, i, rest[r - 1]);
        }
      }
    }
  }

  /**
   * A run of the pooling from `i` on: constant at its mean, which is below the next input, while the
   * mean of each shorter start of the run was not.
   */
  ghost predicate RunIsMean(values: seq<real>, i: nat, run: (nat, nat))
    requires i <= |values|
  {
    && i <= run.0 < run.1 <= |values|
    && (forall k :: run.0 - i <= k < run.1 - i ==> Pooled(values, i)[k] == Mean(values, run.0, run.1))
    && (run.1 < |values| ==> Mean(values, run.0, run.1) < values[run.1])
    && (forall k :: run.0 < k < run.1 ==> Mean(values, run.0, k) >= values[k])
  }

  lemma FirstRunIsMean(values: seq<real>, i: nat)
    requires i < |values|
    ensures RunIsMean(values, i, (i, RunEnd(values, i, i + 1)))
  {
    hide Mean, RunEnd, Pooled;
    RunEndIsFirst(values, i, i + 1);
    PooledStep(values, i);
  }

  lemma LaterRunIsMean(values: seq<real>, i: nat, run: (nat, nat))
    requires i < |values| && RunIsMean(values, RunEnd(values, i, i + 1), run)
    ensures RunIsMean(values, i, run)
  {
    hide Mean, RunEnd, Pooled;
    var end := RunEnd(values, i, i + 1);
    PooledStep(values, i);
    forall k | run.0 - i <= k < run.1 - i ensures Pooled(values, i)[k] == Mean(values, run.0, run.1) {
      assert Pooled(values, i)[k] == Pooled(values, end)[k - (end - i)];
    }
  }

  lemma {:induction false} SumOfParts(values: seq<real>, i: nat, j: nat, k: nat)
    requires i <= j <= k <= |values|
    ensures SumRange(values, i, k) == SumRange(values, i, j) + SumRange(values, j, k)
  {
    if j < k {
      SumOfParts(values, i, j, k - 1);
    }
  }

  lemma {:induction false} SumOfConstant(s: seq<real>, i: nat, j: nat, value: real)
    requires i <= j <= |s| && forall k :: i <= k < j ==> s[k] == value
    ensures SumRange(s, i, j) == Times(j - i, value)
  {
    if i < j {
      SumOfConstant(s, i, j - 1, value);
      OneMoreTime(j - 1 - i, value);
    }
  }

  lemma {:induction false} SumOfSuffix(prefix: seq<real>, s: seq<real>, i: nat, j: nat)
    requires i <= j <= |s|
    ensures SumRange(prefix + s, |prefix| + i, |prefix| + j) == SumRange(s, i, j)
  {
    if i < j {
      SumOfSuffix(prefix, s, i, j - 1);
    }
  }

  lemma MeanTimesLength(values: seq<real>, i: nat, j: nat)
    requires i < j <= |values|
    ensures Times(j - i, Mean(values, i, j)) == SumRange(values, i, j)
  {
  }

  lemma SumOfRunAndRest(count: nat, mean: real, tail: seq<real>)
    ensures SumRange(Constant(count, mean) + tail, 0, count + |tail|)
            == Times(count, mean) + SumRange(tail, 0, |tail|)
  {
    var head := Constant(count, mean);
    SumOfParts(head + tail, 0, count, count + |tail|);
    SumOfSuffix(head, tail, 0, |tail|);
    SumOfConstant(head + tail, 0, count, mean);
  }

  /** Pooling conserves the total. */
  lemma {:induction false} PoolingConservesTotal(values: seq<real>, i: nat)
    requires i <= |values|
    ensures SumRange(Pooled(values, i), 0, |values| - i) == SumRange(values, i, |values|)
    decreases |values| - i
  {
    if i < |values| {
      hide RunEnd, SumRange, Mean, Constant, Times, Pooled;
      var end := RunEnd(values, i, i + 1);
      PoolingConservesTotal(values, end);
      PooledStep(values, i);
      SumOfRunAndRest(end - i, Mean(values, i, end), Pooled(values, end));
      SumOfParts(values, i, end, |values|);
      MeanTimesLength(values, i, end);
    }
  }

  lemma {:induction false} MeanIsBetween(values: seq<real>, i: nat, j: nat, lo: real, hi: real)
    requires i < j <= |values| && forall k :: i <= k < j ==> lo <= values[k] <= hi
    ensures Times(j - i, lo) <= SumRange(values, i, j) <= Times(j - i, hi)
    ensures lo <= Mean(values, i, j) <= hi
  {
    if i + 1 < j {
      MeanIsBetween(values, i, j - 1, lo, hi);
      OneMoreTime(j - 1 - i, lo);
      OneMoreTime(j - 1 - i, hi);
    } else {
      SingleMean(values, i);
    }
  }

  /** Pooling does not widen the range. */
  lemma {:induction false} PoolingKeepsRange(values: seq<real>, i: nat, lo: real, hi: real)
    requires i <= |values| && forall k :: i <= k < |values| ==> lo <= values[k] <= hi
    ensures forall k :: 0 <= k < |values| - i ==> lo <= Pooled(values, i)[k] <= hi
    decreases |values| - i
  {
    hide Mean, RunEnd, SumRange;
    if i < |values| {
      var end := RunEnd(values, i, i + 1);
      PoolingKeepsRange(values, end, lo, hi);
      MeanIsBetween(values, i, end, lo, hi);
    }
  }

  // ---------------------------------------------------------------------------
  // Labels
  // ---------------------------------------------------------------------------

  function AsNumbers(labels: seq<bool>): (values: seq<real>)
    ensures |values| == |labels| && forall k :: 0 <= k < |labels| ==> values[k] == if labels[k] then 1.0 else 0.0
  {
    seq(|labels|, k requires 0 <= k < |labels| => if labels[k] then 1.0 else 0.0)
  }

  /** How many times `bit` is repeated from index `i` on. */
  function Streak(labels: seq<bool>, i: nat, bit: bool): (n: nat)
    requires i <= |labels|
    ensures i + n <= |labels|
    ensures forall k :: i <= k < i + n ==> labels[k] == bit
    ensures i + n < |labels| ==> labels[i + n] != bit
    decreases |labels| - i
  {
    if i == |labels| || labels[i] != bit then 0 else 1 + Streak(labels, i + 1, bit)
  }

  /** A block: all the ones that follow, then all the zeros that follow those. */
  datatype Block = Block(ones: nat, zeros: nat)

  function BlockAt(labels: seq<bool>, i: nat): (block: Block)
    requires i <= |labels|
    ensures i + block.ones + block.zeros <= |labels|
    ensures i < |labels| ==> block.ones + block.zeros > 0
  {
    var ones := Streak(labels, i, true);
    Block(ones, Streak(labels, i + ones, false))
  }

  function Blocks(labels: seq<bool>, i: nat): seq<Block>
    requires i <= |labels|
    decreases |labels| - i
  {
    if i == |labels| then []
    else
      var block := BlockAt(labels, i);
      [block] + Blocks(labels, i + block.ones + block.zeros)
  }

  lemma {:induction false} SumOfBlock(labels: seq<bool>, i: nat, ones: nat, j: nat)
    requires i + ones <= |labels| && i <= j <= |labels|
    requires forall k :: i <= k < j ==> (labels[k] <==> k < i + ones)
    ensures SumRange(AsNumbers(labels), i, j) == if j <= i + ones then (j - i) as real else ones as real
    decreases j
  {
    if i < j {
      SumOfBlock(labels, i, ones, j - 1);
    }
  }

  /** The run that starts a block is the block, at the share of ones in it. */
  lemma RunIsBlock(labels: seq<bool>, i: nat)
    requires i < |labels| && (i > 0 ==> labels[i])
    ensures var block := BlockAt(labels, i);
            var end := i + block.ones + block.zeros;
            && RunEnd(AsNumbers(labels), i, i + 1) == end
            && Mean(AsNumbers(labels), i, end) == block.ones as real / (block.ones + block.zeros) as real
            && (end < |labels| ==> labels[end])
  {
    hide SumRange, Streak, Mean, RunEnd;
    RunEndIsFirst(AsNumbers(labels), i, i + 1);
    var values, block := AsNumbers(labels), BlockAt(labels, i);
    var end := i + block.ones + block.zeros;
    var stop := RunEnd(values, i, i + 1);
    BlockMean(labels, i, end);
    if stop < end {
      BlockMean(labels, i, stop);
    }
  }

  /** The mean of a start of a block. */
  lemma BlockMean(labels: seq<bool>, i: nat, j: nat)
    requires i < |labels| && i < j <= i + BlockAt(labels, i).ones + BlockAt(labels, i).zeros
    ensures var block, mean := BlockAt(labels, i), Mean(AsNumbers(labels), i, j);
            && mean == (if j <= i + block.ones then (j - i) as real else block.ones as real) / (j - i) as real
            && mean >= 0.0
            && (j <= i + block.ones ==> mean == 1.0)
            && (j > i + block.ones ==> mean < 1.0)
  {
    hide SumRange, Streak;
    var ones := BlockAt(labels, i).ones;
    SumOfBlock(labels, i, ones, j);
    ShareOfOnes(if j <= i + ones then j - i else ones, j - i);
  }

  lemma ShareOfOnes(ones: nat, all: nat)
    requires ones <= all && all > 0
    ensures 0.0 <= ones as real / all as real
    ensures ones == all ==> ones as real / all as real == 1.0
    ensures ones < all ==> ones as real / all as real < 1.0
  {
  }

  /** A run has the length of the block, and its mean is the block's share of ones. */
  ghost predicate RunIsBlockOf(labels: seq<bool>, run: (nat, nat), block: Block) {
    && run.0 < run.1 <= |labels|
    && run.1 - run.0 == block.ones + block.zeros
    && Mean(AsNumbers(labels), run.0, run.1) == ShareOf(block)
  }

  function ShareOf(block: Block): real {
    if block.ones + block.zeros == 0 then 0.0 else block.ones as real / (block.ones + block.zeros) as real
  }

  lemma ShareIsMean(labels: seq<bool>, i: nat)
    requires i < |labels| && (i > 0 ==> labels[i])
    ensures var block := BlockAt(labels, i);
            Mean(AsNumbers(labels), i, i + block.ones + block.zeros) == ShareOf(block)
  {
    hide Mean, RunEnd, Streak;
    RunIsBlock(labels, i);
  }

  ghost predicate RunsAreBlocksOf(labels: seq<bool>, runs: seq<(nat, nat)>, blocks: seq<Block>) {
    && |runs| == |blocks|
    && forall r :: 0 <= r < |runs| ==> RunIsBlockOf(labels, runs[r], blocks[r])
  }

  lemma PrependRunAndBlock(labels: seq<bool>, run: (nat, nat), block: Block,
                           runs: seq<(nat, nat)>, blocks: seq<Block>)
    requires RunIsBlockOf(labels, run, block) && RunsAreBlocksOf(labels, runs, blocks)
    ensures RunsAreBlocksOf(labels, [run] + runs, [block] + blocks)
  {
    hide RunIsBlockOf;
  }

  /** The runs of the pooled labels are the blocks. */
  lemma {:induction false} RunsAreBlocks(labels: seq<bool>, i: nat)
    requires i <= |labels| && (0 < i < |labels| ==> labels[i])
    ensures RunsAreBlocksOf(labels, Runs(AsNumbers(labels), i), Blocks(labels, i))
    decreases |labels| - i
  {
    hide RunIsBlockOf, RunEnd, BlockAt, AsNumbers;
    if i < |labels| {
      var block := BlockAt(labels, i);
      var end := i + block.ones + block.zeros;
      FirstRunIsBlock(labels, i);
      RunsAreBlocks(labels, end);
      FirstRun(AsNumbers(labels), i);
      FirstBlock(labels, i);
      hide RunsAreBlocksOf, Runs, Blocks;
      PrependRunAndBlock(labels, (i, end), block, Runs(AsNumbers(labels), end), Blocks(labels, end));
    }
  }

  lemma FirstRun(values: seq<real>, i: nat)
    requires i < |values|
    ensures var end := RunEnd(values, i, i + 1); Runs(values, i) == [(i, end)] + Runs(values, end)
  {
  }

  lemma FirstBlock(labels: seq<bool>, i: nat)
    requires i < |labels|
    ensures var block := BlockAt(labels, i);
            Blocks(labels, i) == [block] + Blocks(labels, i + block.ones + block.zeros)
  {
  }

  lemma FirstRunIsBlock(labels: seq<bool>, i: nat)
    requires i < |labels| && (i > 0 ==> labels[i])
    ensures var block := BlockAt(labels, i);
            var end := i + block.ones + block.zeros;
            && RunEnd(AsNumbers(labels), i, i + 1) == end && RunIsBlockOf(labels, (i, end), block)
            && (end < |labels| ==> labels[end])
  {
    hide Mean, RunEnd, Streak, AsNumbers, BlockAt;
    RunIsBlock(labels, i);
    ShareIsMean(labels, i);
  }

  // ---------------------------------------------------------------------------
  // When the result is monotone
  // ---------------------------------------------------------------------------

  ghost predicate Nondecreasing(s: seq<real>) {
    forall a, b :: 0 <= a <= b < |s| ==> s[a] <= s[b]
  }

  /** The first block's share of ones does not exceed the second's. */
  predicate NoBetterThan(a: Block, b: Block) {
    a.ones * b.zeros <= b.ones * a.zeros
  }

  /** No block of ones and zeros is followed by one with a smaller share of ones. */
  predicate SharesRise(blocks: seq<Block>) {
    forall k :: 0 <= k < |blocks| - 1 ==> NoBetterThan(blocks[k], blocks[k + 1])
  }

  lemma CompareFractions(a: int, b: int, p: int, q: int)
    requires p > 0 && q > 0
    ensures a as real / p as real <= b as real / q as real <==> a * q <= b * p
  {
    var x, y := a as real / p as real, b as real / q as real;
    var pq := p as real * q as real;
    assert x * pq == a as real * q as real == (a * q) as real;
    assert y * pq == b as real * p as real == (b * p) as real;
    if x <= y {
      assert x * pq <= y * pq;
    } else {
      assert x * pq > y * pq;
    }
  }

  lemma CompareShares(a: Block, b: Block)
    requires a.ones + a.zeros > 0 && b.ones + b.zeros > 0
    ensures NoBetterThan(a, b) <==> ShareOf(a) <= ShareOf(b)
  {
    CompareFractions(a.ones, b.ones, a.ones + a.zeros, b.ones + b.zeros);
    assert a.ones * (b.ones + b.zeros) == a.ones * b.ones + a.ones * b.zeros;
    assert b.ones * (a.ones + a.zeros) == a.ones * b.ones + b.ones * a.zeros;
  }

  lemma PrependRun(count: nat, mean: real, rest: seq<real>)
    requires count > 0
    ensures Nondecreasing(Constant(count, mean) + rest) <==>
            Nondecreasing(rest) && (rest != [] ==> mean <= rest[0])
  {
    var s := Constant(count, mean) + rest;
    if Nondecreasing(s) {
      assert forall a :: 0 <= a < |rest| ==> rest[a] == s[count + a];
      assert rest != [] ==> s[0] <= s[count];
    }
  }

  lemma PrependBlock(block: Block, rest: seq<Block>)
    ensures SharesRise([block] + rest) <==> SharesRise(rest) && (rest != [] ==> NoBetterThan(block, rest[0]))
  {
    hide NoBetterThan;
    var blocks := [block] + rest;
    if SharesRise(blocks) {
      assert forall k :: 0 <= k < |rest| ==> rest[k] == blocks[k + 1];
      assert rest != [] ==> NoBetterThan(blocks[0], blocks[1]);
    }
  }

  /** From a block's start on, the pooled labels never decrease exactly when the blocks' shares rise. */
  lemma {:induction false} MonotoneFrom(labels: seq<bool>, i: nat)
    requires i <= |labels| && (0 < i < |labels| ==> labels[i])
    ensures Nondecreasing(Pooled(AsNumbers(labels), i)) <==> SharesRise(Blocks(labels, i))
    ensures i < |labels| ==> Pooled(AsNumbers(labels), i)[0] == ShareOf(BlockAt(labels, i))
    decreases |labels| - i
  {
    hide Mean, RunEnd, BlockAt, AsNumbers, Blocks, Pooled, Nondecreasing, SharesRise, NoBetterThan, ShareOf;
    if i == |labels| {
      NoBlocks(labels);
    } else {
      var values, block := AsNumbers(labels), BlockAt(labels, i);
      var end := i + block.ones + block.zeros;
      RunIsBlock(labels, i);
      MonotoneFrom(labels, end);
      PooledStep(values, i);
      FirstBlock(labels, i);
      ShareIsMean(labels, i);
      PrependRun(end - i, Mean(values, i, end), Pooled(values, end));
      PrependBlock(block, Blocks(labels, end));
      if end < |labels| {
        FirstBlock(labels, end);
        CompareShares(block, BlockAt(labels, end));
      } else {
        NoBlocks(labels);
      }
    }
  }

  lemma NoBlocks(labels: seq<bool>)
    ensures Blocks(labels, |labels|) == [] && Pooled(AsNumbers(labels), |labels|) == []
    ensures Nondecreasing([]) && SharesRise([])
  {
  }

  /**
   * Pooling labels gives a nondecreasing sequence exactly when no block of ones and zeros is followed
   * by one with a smaller share of ones: the loop never merges a closed run backwards.
   */
  lemma PooledLabelsAreMonotoneExactly(labels: seq<bool>)
    ensures Nondecreasing(Pooled(AsNumbers(labels), 0)) <==> SharesRise(Blocks(labels, 0))
  {
    MonotoneFrom(labels, 0);
  }

  const TWO_BLOCKS := [true, true, false, true, false, false]

  lemma BlocksOfTwo()
    ensures BlockAt(TWO_BLOCKS, 0) == Block(2, 1) && BlockAt(TWO_BLOCKS, 3) == Block(1, 2)
  {
    assert Streak(TWO_BLOCKS, 0, true) == 2 && Streak(TWO_BLOCKS, 2, false) == 1;
    assert Streak(TWO_BLOCKS, 3, true) == 1 && Streak(TWO_BLOCKS, 4, false) == 2;
  }

  /** Two ones, a zero, a one and two zeros: pooled to two thirds and then to one third. */
  lemma PoolingCanDecrease()
    ensures Blocks(TWO_BLOCKS, 0) == [Block(2, 1), Block(1, 2)]
    ensures Pooled(AsNumbers(TWO_BLOCKS), 0) == Constant(3, 2.0 / 3.0) + Constant(3, 1.0 / 3.0)
    ensures !Nondecreasing(Pooled(AsNumbers(TWO_BLOCKS), 0))
  {
    hide Mean, RunEnd, BlockAt, AsNumbers;
    BlocksOfTwo();
    RunIsBlock(TWO_BLOCKS, 0);
    RunIsBlock(TWO_BLOCKS, 3);
    PooledStep(AsNumbers(TWO_BLOCKS), 0);
    PooledStep(AsNumbers(TWO_BLOCKS), 3);
    NothingLeft(AsNumbers(TWO_BLOCKS));
    hide Pooled, Blocks;
    PooledLabelsAreMonotoneExactly(TWO_BLOCKS);
    assert !NoBetterThan(Blocks(TWO_BLOCKS, 0)[0], Blocks(TWO_BLOCKS, 0)[1]);
  }
}
