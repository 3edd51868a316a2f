/** Purged walk-forward folds and the holdout split of the corrective trainer. */
module FoldSplitter {
  import opened Options

  const MIN_WALK_FORWARD_FOLDS := 3
  const MAX_WALK_FORWARD_FOLDS := 20

  /** Timestamps are nanoseconds; a row without an exit is a position still open. */
  datatype TrainingRow = TrainingRow(asOf: int, entry: int, exit: Option<int>, holdingBars: int)

  datatype Fold = Fold(index: nat, train: seq<nat>, validation: seq<nat>, purged: nat, embargoed: nat)

  datatype Holdout = Holdout(trainVal: seq<nat>, holdout: seq<nat>)

  datatype TrainingError = DatasetNotReady | InsufficientSamples

  // ---------------------------------------------------------------------------
  // Windows
  // ---------------------------------------------------------------------------

  /** Where validation window `k` of `folds` starts; window `k` ends where window `k + 1` starts. */
  function WindowStart(n: nat, folds: nat, k: nat): nat {
    n * (k + 1) / (folds + 1)
  }

  lemma OneMoreTime(q: nat, d: nat)
    ensures (q + 1) * d == q * d + d
  {
  }

  lemma {:induction false} Multiples(p: nat, q: nat, d: nat)
    requires p < q
    ensures p * d + d <= q * d
  {
    OneMoreTime(q - 1, d);
    if p + 1 < q {
      Multiples(p, q - 1, d);
    }
  }

  lemma DivideWithRemainder(x: nat, d: nat)
    requires d > 0
    ensures (x / d) * d <= x < (x / d) * d + d
  {
  }

  lemma QuotientIs(x: nat, d: nat, q: nat)
    requires d > 0 && q * d <= x < q * d + d
    ensures x / d == q
  {
    DivideWithRemainder(x, d);
    var r := x / d;
    if r < q {
      Multiples(r, q, d);
    } else if r > q {
      Multiples(q, r, d);
    }
  }

  /**
   * The rows are shared out into one part more than there are windows, as evenly as whole rows allow: window
   * `k` starts where `k + 1` exact parts end, rounded down, and no window is a row away from an exact part.
   */
  lemma WindowsAreEqualParts(n: nat, folds: nat, k: nat)
    ensures var parts, start, end := folds + 1, WindowStart(n, folds, k), WindowStart(n, folds, k + 1);
            && start * parts <= n * (k + 1) < start * parts + parts
            && n - parts < end * parts - start * parts < n + parts
  {
    DivideWithRemainder(n * (k + 1), folds + 1);
    DivideWithRemainder(n * (k + 2), folds + 1);
    assert n * (k + 2) == n * (k + 1) + n;
  }

  lemma QuotientGap(a: nat, n: nat, d: nat)
    requires 0 < d <= n
    ensures a / d < (a + n) / d
  {
    DivideWithRemainder(a, d);
    DivideWithRemainder(a + n, d);
    var p, q := a / d, (a + n) / d;
    if q < p {
      Multiples(q, p, d);
    }
  }

  /** With two rows per fold no window is empty. */
  lemma WindowsAreNonEmpty(n: nat, folds: nat, k: nat)
    requires 1 <= folds && n >= 2 * folds
    ensures WindowStart(n, folds, k) < WindowStart(n, folds, k + 1)
  {
    QuotientGap(n * (k + 1), n, folds + 1);
    assert n * (k + 1) + n == n * (k + 2);
  }

  lemma {:induction false} WindowsAreOrdered(n: nat, folds: nat, j: nat, k: nat)
    requires 1 <= folds && n >= 2 * folds && j <= k
    ensures WindowStart(n, folds, j) <= WindowStart(n, folds, k)
    ensures j < k ==> WindowStart(n, folds, j + 1) <= WindowStart(n, folds, k)
    decreases k
  {
    hide WindowStart;
    if j < k {
      WindowsAreOrdered(n, folds, j, k - 1);
      WindowsAreNonEmpty(n, folds, k - 1);
    }
  }

  lemma LastWindowEndsAtTheEnd(n: nat, folds: nat)
    ensures WindowStart(n, folds, folds) == n
  {
    QuotientIs(n * (folds + 1), folds + 1, n);
  }

  predicate InWindow(n: nat, folds: nat, i: nat, k: nat) {
    WindowStart(n, folds, k) <= i < WindowStart(n, folds, k + 1)
  }

  /** The windows tile the rows from the first window's start to the end: each row is in exactly one. */
  lemma WindowsTile(n: nat, folds: nat, i: nat)
    requires 1 <= folds && n >= 2 * folds && WindowStart(n, folds, 0) <= i < n
    ensures exists k: nat :: k < folds && InWindow(n, folds, i, k)
    ensures forall j: nat, k: nat :: InWindow(n, folds, i, j) && InWindow(n, folds, i, k) ==> j == k
  {
    hide WindowStart;
    LastWindowEndsAtTheEnd(n, folds);
    var k := 0;
    while i >= WindowStart(n, folds, k + 1)
      invariant k < folds && WindowStart(n, folds, k) <= i
      decreases folds - k
    {
      k := k + 1;
    }
    assert InWindow(n, folds, i, k);
    forall j: nat, m: nat | InWindow(n, folds, i, j) && InWindow(n, folds, i, m)
      ensures j == m
    {
      if j < m {
        WindowsAreOrdered(n, folds, j, m);
      } else {
        WindowsAreOrdered(n, folds, m, j);
      }
    }
  }

  // ---------------------------------------------------------------------------
  // Purge and embargo
  // ---------------------------------------------------------------------------

  datatype Verdict = Trained | Purged | Embargoed

  /** The embargo length is added to a nanosecond timestamp as it stands. */
  function VerdictOn(row: TrainingRow, boundary: int, bars: int): Verdict {
    if row.exit.Some? && row.exit.value >= boundary then Purged
    else if bars > 0 && row.holdingBars > 0 && row.exit.GetOr(row.entry) + bars >= boundary then Embargoed
    else Trained
  }

  /** The first `m` rows that get the given verdict, in order. */
  function RowsWith(verdict: Verdict, rows: seq<TrainingRow>, boundary: int, bars: int, m: nat): seq<nat>
    requires m <= |rows|
  {
    if m == 0 then []
    else
      RowsWith(verdict, rows, boundary, bars, m - 1)
      + if VerdictOn(rows[m - 1], boundary, bars) == verdict then [m - 1] else []
  }

  /** All of them, each once. */
  lemma {:induction false} RowsAreThose(verdict: Verdict, rows: seq<TrainingRow>, boundary: int, bars: int, m: nat)
    requires m <= |rows|
    ensures forall i: nat :: i in RowsWith(verdict, rows, boundary, bars, m) <==>
                             i < m && VerdictOn(rows[i], boundary, bars) == verdict
  {
    hide VerdictOn;
    if m > 0 {
      RowsAreThose(verdict, rows, boundary, bars, m - 1);
      RowsStep(verdict, rows, boundary, bars, m - 1);
      hide RowsWith;
    }
  }

  lemma {:induction false} RowsAscend(verdict: Verdict, rows: seq<TrainingRow>, boundary: int, bars: int, m: nat)
    requires m <= |rows|
    ensures var indices := RowsWith(verdict, rows, boundary, bars, m);
            forall a, b :: 0 <= a < b < |indices| ==> indices[a] < indices[b] < m
  {
    if m > 0 {
      RowsAscend(verdict, rows, boundary, bars, m - 1);
      RowsAreThose(verdict, rows, boundary, bars, m - 1);
      RowsStep(verdict, rows, boundary, bars, m - 1);
      hide RowsWith, VerdictOn;
      var shorter := RowsWith(verdict, rows, boundary, bars, m - 1);
      assert forall a :: 0 <= a < |shorter| ==> shorter[a] in shorter;
    }
  }

  lemma RowsStep(verdict: Verdict, rows: seq<TrainingRow>, boundary: int, bars: int, m: nat)
    requires m < |rows|
    ensures RowsWith(verdict, rows, boundary, bars, m + 1)
            == RowsWith(verdict, rows, boundary, bars, m)
               + if VerdictOn(rows[m], boundary, bars) == verdict then [m] else []
  {
  }

  function Range(lo: nat, hi: nat): (indices: seq<nat>)
    requires lo <= hi
    ensures |indices| == hi - lo && forall a :: 0 <= a < hi - lo ==> indices[a] == lo + a
  {
    seq(hi - lo, a requires 0 <= a => lo + a)
  }

  /** A fold over the window `start..end`: the rows before it that are neither purged nor embargoed train it. */
  function FoldOver(rows: seq<TrainingRow>, bars: int, k: nat, start: nat, end: nat): Fold
    requires start < end <= |rows|
  {
    var boundary := rows[start].asOf;
    Fold(k, RowsWith(Trained, rows, boundary, bars, start), Range(start, end),
         |RowsWith(Purged, rows, boundary, bars, start)|, |RowsWith(Embargoed, rows, boundary, bars, start)|)
  }

  lemma WindowFits(n: nat, folds: nat, k: nat)
    requires 1 <= folds && n >= 2 * folds && k < folds
    ensures WindowStart(n, folds, k) < WindowStart(n, folds, k + 1) <= n
  {
    hide WindowStart;
    WindowsAreNonEmpty(n, folds, k);
    WindowsAreOrdered(n, folds, k + 1, folds);
    LastWindowEndsAtTheEnd(n, folds);
  }

  function FoldAt(rows: seq<TrainingRow>, folds: nat, bars: int, k: nat): Fold
    requires 1 <= folds && |rows| >= 2 * folds && k < folds
  {
    hide WindowStart;
    WindowFits(|rows|, folds, k);
    FoldOver(rows, bars, k, WindowStart(|rows|, folds, k), WindowStart(|rows|, folds, k + 1))
  }

  /** The first `m` folds that have a row to train on. */
  function ViableFolds(rows: seq<TrainingRow>, folds: nat, bars: int, m: nat): (viable: seq<Fold>)
    requires 1 <= folds && |rows| >= 2 * folds && m <= folds
  {
    if m == 0 then []
    else
      var fold := FoldAt(rows, folds, bars, m - 1);
      ViableFolds(rows, folds, bars, m - 1) + if fold.train == [] then [] else [fold]
  }

  ghost predicate IsViable(rows: seq<TrainingRow>, folds: nat, bars: int, m: nat, fold: Fold)
    requires 1 <= folds && |rows| >= 2 * folds && m <= folds
  {
    fold.index < m && fold == FoldAt(rows, folds, bars, fold.index) && fold.train != []
  }

  lemma IndexOfFold(rows: seq<TrainingRow>, folds: nat, bars: int, k: nat)
    requires 1 <= folds && |rows| >= 2 * folds && k < folds
    ensures FoldAt(rows, folds, bars, k).index == k
    ensures FoldAt(rows, folds, bars, k).train != [] ==>
              IsViable(rows, folds, bars, k + 1, FoldAt(rows, folds, bars, k))
  {
    hide WindowStart;
  }

  lemma ViableStep(rows: seq<TrainingRow>, folds: nat, bars: int, m: nat, fold: Fold)
    requires 1 <= folds && |rows| >= 2 * folds && m < folds && IsViable(rows, folds, bars, m, fold)
    ensures IsViable(rows, folds, bars, m + 1, fold)
  {
    hide FoldAt;
  }

  /** The folds are viable ones among the first `m`, in order. */
  ghost predicate AreViable(rows: seq<TrainingRow>, folds: nat, bars: int, m: nat, viable: seq<Fold>)
    requires 1 <= folds && |rows| >= 2 * folds && m <= folds
  {
    && (forall a :: 0 <= a < |viable| ==> IsViable(rows, folds, bars, m, viable[a]))
    && (forall a, b :: 0 <= a < b < |viable| ==> viable[a].index < viable[b].index)
  }

  lemma AppendViable(rows: seq<TrainingRow>, folds: nat, bars: int, m: nat, shorter: seq<Fold>)
    requires 1 <= folds && |rows| >= 2 * folds && m < folds && AreViable(rows, folds, bars, m, shorter)
    ensures var fold := FoldAt(rows, folds, bars, m);
            AreViable(rows, folds, bars, m + 1, shorter + if fold.train == [] then [] else [fold])
  {
    hide FoldAt;
    IndexOfFold(rows, folds, bars, m);
    forall a | 0 <= a < |shorter| ensures IsViable(rows, folds, bars, m + 1, shorter[a]) {
      ViableStep(rows, folds, bars, m, shorter[a]);
    }
  }

  lemma {:induction false} ViableFoldsAreViable(rows: seq<TrainingRow>, folds: nat, bars: int, m: nat)
    requires 1 <= folds && |rows| >= 2 * folds && m <= folds
    ensures AreViable(rows, folds, bars, m, ViableFolds(rows, folds, bars, m))
  {
    hide FoldAt;
    if m == 0 {
      assert ViableFolds(rows, folds, bars, 0) == [];
    } else {
      hide AreViable;
      ViableFoldsAreViable(rows, folds, bars, m - 1);
      AppendViable(rows, folds, bars, m - 1, ViableFolds(rows, folds, bars, m - 1));
    }
  }

  /** Every fold with a row to train on is returned. */
  lemma {:induction false} ViableFoldsAreAll(rows: seq<TrainingRow>, folds: nat, bars: int, m: nat, k: nat)
    requires 1 <= folds && |rows| >= 2 * folds && k < m <= folds && FoldAt(rows, folds, bars, k).train != []
    ensures FoldAt(rows, folds, bars, k) in ViableFolds(rows, folds, bars, m)
  {
    hide FoldAt;
    if k < m - 1 {
      ViableFoldsAreAll(rows, folds, bars, m - 1, k);
    }
  }

  method BuildPurgedWalkForwardFolds(rows: seq<TrainingRow>, nFolds: int, purgeEmbargoBars: int)
    returns (r: Result<seq<Fold>, TrainingError>)
    ensures r == Err(DatasetNotReady) <==> nFolds < MIN_WALK_FORWARD_FOLDS || nFolds > MAX_WALK_FORWARD_FOLDS
    ensures MIN_WALK_FORWARD_FOLDS <= nFolds <= MAX_WALK_FORWARD_FOLDS && |rows| < 2 * nFolds ==>
              r == Err(InsufficientSamples)
    ensures MIN_WALK_FORWARD_FOLDS <= nFolds <= MAX_WALK_FORWARD_FOLDS && |rows| >= 2 * nFolds ==>
              var viable := ViableFolds(rows, nFolds, purgeEmbargoBars, nFolds);
              r == if viable == [] then Err(InsufficientSamples) else Ok(viable)
  {
    hide WindowStart, FoldOver;
    if nFolds < MIN_WALK_FORWARD_FOLDS || nFolds > MAX_WALK_FORWARD_FOLDS {
      return Err(DatasetNotReady);
    }
    if |rows| < nFolds * 2 {
      return Err(InsufficientSamples);
    }
    var folds: seq<Fold> := [];
    var n := |rows|;
    for k := 0 to nFolds
      invariant folds == ViableFolds(rows, nFolds, purgeEmbargoBars, k)
    {
      var valStart := WindowStart(n, nFolds, k);
      var valEnd := WindowStart(n, nFolds, k + 1);
      WindowFits(n, nFolds, k);
      var fold := BuildFold(rows, purgeEmbargoBars, k, valStart, valEnd);
      if fold.train == [] {
        continue;
      }
      folds := folds + [fold];
    }
    if folds == [] {
      return Err(InsufficientSamples);
    }
    return Ok(folds);
  }

  lemma NoRows(rows: seq<TrainingRow>, boundary: int, bars: int)
    ensures forall verdict :: RowsWith(verdict, rows, boundary, bars, 0) == []
  {
  }

  /** The body of the outer loop; the window is never empty, so it has a first row. */
  method BuildFold(rows: seq<TrainingRow>, bars: int, k: nat, valStart: nat, valEnd: nat) returns (fold: Fold)
    requires valStart < valEnd <= |rows|
    ensures fold == FoldOver(rows, bars, k, valStart, valEnd)
  {
    hide RowsWith;
    var valIndices: seq<nat> := [];
    for i := valStart to valEnd
      invariant valIndices == Range(valStart, i)
    {
      valIndices := valIndices + [i];
    }
    var boundary := rows[valIndices[0]].asOf;
    var trainIndices, purgedCount, embargoedCount := SplitTrainingRows(rows, valStart, boundary, bars);
    fold := Fold(k, trainIndices, valIndices, purgedCount, embargoedCount);
  }

  /** The inner loop over the rows before a window. */
  method SplitTrainingRows(rows: seq<TrainingRow>, valStart: nat, boundary: int, bars: int)
    returns (trainIndices: seq<nat>, purgedCount: nat, embargoedCount: nat)
    requires valStart <= |rows|
    ensures trainIndices == RowsWith(Trained, rows, boundary, bars, valStart)
    ensures purgedCount == |RowsWith(Purged, rows, boundary, bars, valStart)|
    ensures embargoedCount == |RowsWith(Embargoed, rows, boundary, bars, valStart)|
  {
    hide RowsWith;
    trainIndices, purgedCount, embargoedCount := [], 0, 0;
    NoRows(rows, boundary, bars);
    for i := 0 to valStart
      invariant trainIndices == RowsWith(Trained, rows, boundary, bars, i)
      invariant purgedCount == |RowsWith(Purged, rows, boundary, bars, i)|
      invariant embargoedCount == |RowsWith(Embargoed, rows, boundary, bars, i)|
    {
      RowsStep(Trained, rows, boundary, bars, i);
      RowsStep(Purged, rows, boundary, bars, i);
      RowsStep(Embargoed, rows, boundary, bars, i);
      var row := rows[i];
      if row.exit.Some? && row.exit.value >= boundary {
        purgedCount := purgedCount + 1;
        continue;
      }
      if bars > 0 && row.holdingBars > 0 {
        var exitTs := row.exit.GetOr(row.entry);
        if exitTs + bars >= boundary {
          embargoedCount := embargoedCount + 1;
          continue;
        }
      }
      trainIndices := trainIndices + [i];
    }
  }

  // ---------------------------------------------------------------------------
  // What the folds keep
  // ---------------------------------------------------------------------------

  lemma {:induction false} CountsAddUp(rows: seq<TrainingRow>, boundary: int, bars: int, m: nat)
    requires m <= |rows|
    ensures |RowsWith(Trained, rows, boundary, bars, m)| + |RowsWith(Purged, rows, boundary, bars, m)|
            + |RowsWith(Embargoed, rows, boundary, bars, m)| == m
  {
    if m > 0 {
      hide RowsWith, VerdictOn;
      CountsAddUp(rows, boundary, bars, m - 1);
      RowsStep(Trained, rows, boundary, bars, m - 1);
      RowsStep(Purged, rows, boundary, bars, m - 1);
      RowsStep(Embargoed, rows, boundary, bars, m - 1);
    }
  }

  /** Every row before the window is trained on, purged or embargoed; no other row is trained on. */
  lemma FoldAccountsForEveryRow(rows: seq<TrainingRow>, bars: int, k: nat, start: nat, end: nat)
    requires start < end <= |rows|
    ensures var fold := FoldOver(rows, bars, k, start, end);
            && |fold.train| + fold.purged + fold.embargoed == start
            && (forall i: nat :: i in fold.train <==>
                                 i < start && VerdictOn(rows[i], rows[start].asOf, bars) == Trained)
            && (forall v: nat :: v in fold.validation <==> start <= v < end)
  {
    CountsAddUp(rows, rows[start].asOf, bars, start);
    RowsAreThose(Trained, rows, rows[start].asOf, bars, start);
    forall v: nat | start <= v < end ensures v in Range(start, end) {
      assert Range(start, end)[v - start] == v;
    }
  }

  ghost predicate TimeSorted(rows: seq<TrainingRow>) {
    forall i, j :: 0 <= i <= j < |rows| ==> rows[i].asOf <= rows[j].asOf
  }

  /**
   * An exit is strictly before the decision time, and where an embargo applies so is the exit plus the
   * embargo, the entry standing in for an absent exit. A position still open clears every decision time
   * when no embargo applies.
   */
  predicate ClearsDecision(row: TrainingRow, asOf: int, bars: int) {
    && (row.exit.Some? ==> row.exit.value < asOf)
    && (bars > 0 && row.holdingBars > 0 ==> row.exit.GetOr(row.entry) + bars < asOf)
  }

  /** Over any window of time-sorted rows, a training row clears the decision time of every validation row. */
  lemma WindowsDoNotLookAhead(rows: seq<TrainingRow>, bars: int, k: nat, start: nat, end: nat, i: nat, v: nat)
    requires start < end <= |rows| && TimeSorted(rows)
    requires i in FoldOver(rows, bars, k, start, end).train && v in FoldOver(rows, bars, k, start, end).validation
    ensures i < v < |rows| && ClearsDecision(rows[i], rows[v].asOf, bars)
  {
    hide FoldOver;
    FoldAccountsForEveryRow(rows, bars, k, start, end);
  }

  /** On time-sorted rows, of rows with an exit no fold trains on one that a validation row could not have known. */
  lemma FoldsDoNotLookAhead(rows: seq<TrainingRow>, folds: nat, bars: int, k: nat, i: nat, v: nat)
    requires 1 <= folds && |rows| >= 2 * folds && k < folds && TimeSorted(rows)
    requires i in FoldAt(rows, folds, bars, k).train && v in FoldAt(rows, folds, bars, k).validation
    ensures i < v < |rows| && ClearsDecision(rows[i], rows[v].asOf, bars)
    ensures rows[i].exit.Some? ==> rows[i].exit.value < rows[v].asOf
  {
    hide WindowStart, FoldOver;
    WindowFits(|rows|, folds, k);
    WindowsDoNotLookAhead(rows, bars, k, WindowStart(|rows|, folds, k), WindowStart(|rows|, folds, k + 1), i, v);
  }

  /** The rows trained on are exactly those before the window that clear its first row's decision time. */
  lemma TrainedRowsClearTheWindowExactly(rows: seq<TrainingRow>, folds: nat, bars: int, k: nat, i: nat)
    requires 1 <= folds && |rows| >= 2 * folds && k < folds
    ensures WindowStart(|rows|, folds, k) < |rows|
    ensures i in FoldAt(rows, folds, bars, k).train <==>
            i < WindowStart(|rows|, folds, k)
            && ClearsDecision(rows[i], rows[WindowStart(|rows|, folds, k)].asOf, bars)
  {
    hide WindowStart, FoldOver;
    WindowFits(|rows|, folds, k);
    FoldAccountsForEveryRow(rows, bars, k, WindowStart(|rows|, folds, k), WindowStart(|rows|, folds, k + 1));
  }

  /**
   * A row without an exit, a position still open, is never purged: without an embargo every fold whose
   * window lies behind it trains on it, and with one it is dropped for its entry being too recent.
   */
  lemma OpenRowsAreNeverPurged(rows: seq<TrainingRow>, folds: nat, bars: int, k: nat, i: nat)
    requires 1 <= folds && |rows| >= 2 * folds && k < folds
    requires i < WindowStart(|rows|, folds, k) <= |rows| && rows[i].exit.None?
    ensures WindowStart(|rows|, folds, k) < |rows|
    ensures bars <= 0 || rows[i].holdingBars <= 0 ==> i in FoldAt(rows, folds, bars, k).train
    ensures bars > 0 && rows[i].holdingBars > 0 ==>
              (i in FoldAt(rows, folds, bars, k).train <==>
                 rows[i].entry + bars < rows[WindowStart(|rows|, folds, k)].asOf)
  {
    hide WindowStart, FoldAt;
    TrainedRowsClearTheWindowExactly(rows, folds, bars, k, i);
  }

  /** A later fold trains on everything an earlier one did, and a longer embargo on no more. */
  lemma TrainingGrowsAndEmbargoShrinks(rows: seq<TrainingRow>, folds: nat, short: int, long: int, j: nat, k: nat)
    requires 1 <= folds && |rows| >= 2 * folds && j <= k < folds && TimeSorted(rows) && short <= long
    ensures forall i: nat :: i in FoldAt(rows, folds, long, j).train ==> i in FoldAt(rows, folds, short, k).train
  {
    hide WindowStart, FoldAt;
    WindowFits(|rows|, folds, k);
    WindowsAreOrdered(|rows|, folds, j, k);
    forall i: nat | i in FoldAt(rows, folds, long, j).train ensures i in FoldAt(rows, folds, short, k).train {
      TrainedRowsClearTheWindowExactly(rows, folds, long, j, i);
      TrainedRowsClearTheWindowExactly(rows, folds, short, k, i);
    }
  }

  /** Two returned folds validate different rows, in order. */
  lemma FoldsValidateDisjointRows(rows: seq<TrainingRow>, folds: nat, bars: int, a: Fold, b: Fold, v: nat, w: nat)
    requires 1 <= folds && |rows| >= 2 * folds
    requires a in ViableFolds(rows, folds, bars, folds) && b in ViableFolds(rows, folds, bars, folds)
    requires a.index < b.index && v in a.validation && w in b.validation
    ensures v < w < |rows|
  {
    hide WindowStart, FoldOver, ViableFolds;
    ViableFoldsAreViable(rows, folds, bars, folds);
    WindowFits(|rows|, folds, a.index);
    WindowFits(|rows|, folds, b.index);
    FoldAccountsForEveryRow(rows, bars, a.index, WindowStart(|rows|, folds, a.index),
                            WindowStart(|rows|, folds, a.index + 1));
    FoldAccountsForEveryRow(rows, bars, b.index, WindowStart(|rows|, folds, b.index),
                            WindowStart(|rows|, folds, b.index + 1));
    WindowsAreOrdered(|rows|, folds, a.index, b.index);
  }

  // ---------------------------------------------------------------------------
  // Holdout
  // ---------------------------------------------------------------------------

  /** The last part of the rows, its size the requested share rounded up; both parts are non-empty. */
  method BuildHoldoutSplit(rows: seq<TrainingRow>, holdoutFraction: real) returns (r: Result<Holdout, TrainingError>)
    ensures r == Err(DatasetNotReady) <==> holdoutFraction <= 0.0 || holdoutFraction >= 1.0
    ensures r == Err(InsufficientSamples) <==>
            0.0 < holdoutFraction < 1.0 && |rows| as real * (1.0 - holdoutFraction) < 1.0
    ensures r.Ok? ==>
              && r.value.trainVal != [] && r.value.holdout != []
              && r.value.trainVal + r.value.holdout == Range(0, |rows|)
              && |r.value.holdout| as real - 1.0 < |rows| as real * holdoutFraction <= |r.value.holdout| as real
  {
    if holdoutFraction <= 0.0 || holdoutFraction >= 1.0 {
      return Err(DatasetNotReady);
    }
    var n := |rows|;
    var kept := n as real * (1.0 - holdoutFraction);
    KeptShare(n, holdoutFraction);
    var holdoutStart := kept.Floor;
    var trainValIndices, holdoutIndices: seq<nat> := [], [];
    for i := 0 to holdoutStart
      invariant trainValIndices == Range(0, i)
    {
      trainValIndices := trainValIndices + [i];
    }
    for i := holdoutStart to n
      invariant holdoutIndices == Range(holdoutStart, i)
    {
      holdoutIndices := holdoutIndices + [i];
    }
    if holdoutIndices == [] || trainValIndices == [] {
      return Err(InsufficientSamples);
    }
    return Ok(Holdout(trainValIndices, holdoutIndices));
  }

  lemma KeptShare(n: nat, fraction: real)
    requires 0.0 < fraction < 1.0
    ensures 0.0 <= n as real * (1.0 - fraction) == n as real - n as real * fraction
    ensures n > 0 ==> n as real * fraction > 0.0
  {
  }
}
