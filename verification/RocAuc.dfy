/** The ROC-AUC metric of the corrective trainer: a trapezoid sum over the ranked rows. */
module RocAuc {
  import opened Options
  import opened RankOrder

  datatype TrainingError = MismatchedOrEmpty

  function Negated(predictions: seq<real>): (keys: seq<real>)
    ensures |keys| == |predictions| && forall i :: 0 <= i < |keys| ==> keys[i] == -predictions[i]
  {
    seq(|predictions|, i requires 0 <= i < |predictions| => -predictions[i])
  }

  // ---------------------------------------------------------------------------
  // What the metric counts
  // ---------------------------------------------------------------------------

  /** The row with the higher prediction comes first; rows tied on it keep their input order. */
  predicate Outranks(predictions: seq<real>, i: nat, j: nat)
    requires i < |predictions| && j < |predictions|
  {
    predictions[i] > predictions[j] || (predictions[i] == predictions[j] && i < j)
  }

  /** All pairs of a positive and a negative row. */
  ghost function MixedPairs(labels: seq<bool>): set<(nat, nat)> {
    set i: nat, j: nat | i < |labels| && j < |labels| && labels[i] && !labels[j] :: (i, j)
  }

  ghost function Positives(labels: seq<bool>): set<nat> {
    set i: nat | i < |labels| && labels[i]
  }

  ghost function Negatives(labels: seq<bool>): set<nat> {
    set i: nat | i < |labels| && !labels[i]
  }

  ghost function OutrankingPairs(predictions: seq<real>, labels: seq<bool>): set<(nat, nat)>
    requires |predictions| == |labels|
  {
    set p | p in MixedPairs(labels) && Outranks(predictions, p.0, p.1)
  }

  ghost function ConcordantPairs(predictions: seq<real>, labels: seq<bool>): set<(nat, nat)>
    requires |predictions| == |labels|
  {
    set p | p in MixedPairs(labels) && predictions[p.0] > predictions[p.1]
  }

  ghost function TiedPairs(predictions: seq<real>, labels: seq<bool>): set<(nat, nat)>
    requires |predictions| == |labels|
  {
    set p | p in MixedPairs(labels) && predictions[p.0] == predictions[p.1]
  }

  /** The probability that a random positive row outranks a random negative one. */
  ghost function OutrankingRate(predictions: seq<real>, labels: seq<bool>): real
    requires |predictions| == |labels| && MixedPairs(labels) != {}
  {
    |OutrankingPairs(predictions, labels)| as real / |MixedPairs(labels)| as real
  }

  // ---------------------------------------------------------------------------
  // Counting pairs along the ranking
  // ---------------------------------------------------------------------------

  /** How many times a true value comes before a false one. */
  function Wins(bits: seq<bool>): nat {
    if bits == [] then 0
    else
      var n := |bits| - 1;
      Wins(bits[..n]) + if bits[n] then 0 else CountTrue(bits[..n])
  }

  /** The positive rows of a listing, each paired with row `j`. */
  ghost function PairsWith(labels: seq<bool>, order: seq<nat>, j: nat): set<(nat, nat)>
    requires InRange(order, |labels|)
  {
    set i | i in order && labels[i] :: (i, j)
  }

  lemma {:induction false} CountPairsWith(labels: seq<bool>, order: seq<nat>, j: nat)
    requires InRange(order, |labels|)
    requires forall a, b :: 0 <= a < b < |order| ==> order[a] != order[b]
    ensures |PairsWith(labels, order, j)| == CountTrue(Listed(labels, order))
  {
    if order == [] {
      assert PairsWith(labels, order, j) == {};
    } else {
      var n := |order| - 1;
      CountPairsWith(labels, order[..n], j);
      OneMorePair(labels, order, j);
      hide PairsWith;
      assert Listed(labels, order)[..n] == Listed(labels, order[..n]);
    }
  }

  lemma OneMorePair(labels: seq<bool>, order: seq<nat>, j: nat)
    requires order != [] && InRange(order, |labels|)
    requires forall a, b :: 0 <= a < b < |order| ==> order[a] != order[b]
    ensures var n := |order| - 1;
            |PairsWith(labels, order, j)| == |PairsWith(labels, order[..n], j)| + if labels[order[n]] then 1 else 0
  {
    var last := order[|order| - 1];
    var before := PairsWith(labels, order[..|order| - 1], j);
    assert order == order[..|order| - 1] + [last];
    assert (last, j) !in before;
    assert PairsWith(labels, order, j) == before + if labels[last] then {(last, j)} else {};
  }

  /** The outranking pairs both of whose rows are listed. */
  ghost function PairsWithin(predictions: seq<real>, labels: seq<bool>, order: seq<nat>): set<(nat, nat)>
    requires |predictions| == |labels|
  {
    set p | p in OutrankingPairs(predictions, labels) && p.0 in order && p.1 in order
  }

  /** Listing one more row, behind the others, adds a pair with each positive row listed already. */
  lemma ListOneMore(predictions: seq<real>, labels: seq<bool>, order: seq<nat>)
    requires |predictions| == |labels| && order != [] && Ranked(Negated(predictions), order)
    ensures var n := |order| - 1;
            var added := if labels[order[n]] then {} else PairsWith(labels, order[..n], order[n]);
            && PairsWithin(predictions, labels, order) == PairsWithin(predictions, labels, order[..n]) + added
            && PairsWithin(predictions, labels, order[..n]) !! added
  {
    var n := |order| - 1;
    var j := order[n];
    var added := if labels[j] then {} else PairsWith(labels, order[..n], j);
    assert order == order[..n] + [j];
    forall i | i in order[..n] ensures Outranks(predictions, i, j) && !Outranks(predictions, j, i) {
      var a :| 0 <= a < n && order[..n][a] == i;
      assert Before(Negated(predictions), order[a], order[n]);
    }
    assert PairsWithin(predictions, labels, order) == PairsWithin(predictions, labels, order[..n]) + added;
  }

  lemma {:induction false} CountPairsWithin(predictions: seq<real>, labels: seq<bool>, order: seq<nat>)
    requires |predictions| == |labels| && Ranked(Negated(predictions), order)
    ensures |PairsWithin(predictions, labels, order)| == Wins(Listed(labels, order))
  {
    hide PairsWith, OutrankingPairs;
    if order == [] {
      assert PairsWithin(predictions, labels, order) == {};
    } else {
      var n := |order| - 1;
      CountPairsWithin(predictions, labels, order[..n]);
      CountPairsWith(labels, order[..n], order[n]);
      assert Listed(labels, order)[..n] == Listed(labels, order[..n]);
      ListOneMore(predictions, labels, order);
    }
  }

  /** Along the whole ranking, the wins are the outranking pairs. */
  lemma RankingCountsOutrankingPairs(predictions: seq<real>, labels: seq<bool>)
    requires |predictions| == |labels|
    ensures var bits := Listed(labels, StableOrder(Negated(predictions), |predictions|));
            Wins(bits) == |OutrankingPairs(predictions, labels)|
  {
    hide StableOrder, Wins;
    var order := StableOrder(Negated(predictions), |predictions|);
    CountPairsWithin(predictions, labels, order);
    assert PairsWithin(predictions, labels, order) == OutrankingPairs(predictions, labels);
  }

  // ---------------------------------------------------------------------------
  // The trapezoid loop
  // ---------------------------------------------------------------------------

  function Share(pairs: nat, pos: nat, neg: nat): real
    requires pos > 0 && neg > 0
  {
    pairs as real / (pos as real * neg as real)
  }

  function Ratio(a: nat, b: nat): real
    requires b > 0
  {
    a as real / b as real
  }

  /** The area under the step from (prevFpr, prevTpr) to (fpr, tpr). */
  function Trapezoid(fpr: real, prevFpr: real, tpr: real, prevTpr: real): real {
    (fpr - prevFpr) * (tpr + prevTpr) / 2.0
  }

  lemma TrapezoidArea(wins: nat, tp: nat, fp: nat, pos: nat, neg: nat)
    requires pos > 0 && neg > 0
    ensures Share(wins, pos, neg) + Trapezoid(Ratio(fp + 1, neg), Ratio(fp, neg), Ratio(tp, pos), Ratio(tp, pos))
            == Share(wins + tp, pos, neg)
    ensures Trapezoid(Ratio(fp, neg), Ratio(fp, neg), Ratio(tp + 1, pos), Ratio(tp, pos)) == 0.0
  {
    var p, q := pos as real, neg as real;
    var h := tp as real / p;
    Product3(p, q, tp as real);
    assert Ratio(fp + 1, neg) - Ratio(fp, neg) == 1.0 / q;
    assert Trapezoid(Ratio(fp + 1, neg), Ratio(fp, neg), h, h) == (1.0 / q) * (2.0 * h) / 2.0 == (1.0 / q) * h;
    assert Share(wins + tp, pos, neg) == wins as real / (p * q) + tp as real / (p * q);
  }

  lemma Product3(p: real, q: real, t: real)
    requires p > 0.0 && q > 0.0
    ensures (1.0 / q) * (t / p) == t / (p * q)
  {
  }

  /** A step of the sum: a positive row adds nothing, a negative one the positives met so far. */
  lemma TrapezoidStep(bits: seq<bool>, i: nat, pos: nat, neg: nat)
    requires i < |bits| && pos > 0 && neg > 0
    ensures CountTrue(bits[..i + 1]) == CountTrue(bits[..i]) + if bits[i] then 1 else 0
    ensures var tp, tp' := CountTrue(bits[..i]), CountTrue(bits[..i + 1]);
            Share(Wins(bits[..i]), pos, neg)
            + Trapezoid(Ratio(i + 1 - tp', neg), Ratio(i - tp, neg), Ratio(tp', pos), Ratio(tp, pos))
            == Share(Wins(bits[..i + 1]), pos, neg)
  {
    hide Share, Trapezoid, Ratio;
    assert bits[..i + 1][..i] == bits[..i];
    TrapezoidArea(Wins(bits[..i]), CountTrue(bits[..i]), i - CountTrue(bits[..i]), pos, neg);
  }

  lemma ZeroShares(pos: nat, neg: nat)
    requires pos > 0 && neg > 0
    ensures Ratio(CountTrue([]), pos) == 0.0 && Ratio(0, neg) == 0.0 && Share(Wins([]), pos, neg) == 0.0
  {
  }

  lemma ShareIsRate(predictions: seq<real>, labels: seq<bool>)
    requires |predictions| == |labels| && MixedPairs(labels) != {}
    ensures 0 < CountTrue(labels) < |labels|
    ensures OutrankingRate(predictions, labels)
            == Share(|OutrankingPairs(predictions, labels)|, CountTrue(labels), |labels| - CountTrue(labels))
  {
    hide MixedPairs, OutrankingPairs;
    CountMixedPairs(labels);
  }

  method ComputeRocAuc(predictions: seq<real>, labels: seq<bool>) returns (r: Result<real, TrainingError>)
    ensures r.Err? <==> |predictions| != |labels| || |predictions| == 0
    ensures r.Ok? && MixedPairs(labels) == {} ==> r.value == 0.5
    ensures r.Ok? && MixedPairs(labels) != {} ==> r.value == OutrankingRate(predictions, labels)
  {
    hide StableOrder, MixedPairs, OutrankingPairs, Wins, CountTrue, Share, OutrankingRate, Ratio, Trapezoid;
    if |predictions| != |labels| || |predictions| == 0 {
      return Err(MismatchedOrEmpty);
    }
    var order := StableOrder(Negated(predictions), |predictions|);
    ghost var bits := Listed(labels, order);
    var totalPos := CountTrue(labels);
    var totalNeg := |labels| - totalPos;
    CountMixedPairs(labels);
    if totalPos == 0 || totalNeg == 0 {
      return Ok(0.5);
    }
    var tp, fp := 0, 0;
    var auc, prevTpr, prevFpr := 0.0, 0.0, 0.0;
    ZeroShares(totalPos, totalNeg);
    assert bits[..0] == [];
    var i := 0;
    while i < |order|
      invariant 0 <= i <= |order| == |bits|
      invariant tp == CountTrue(bits[..i]) && fp == i - tp
      invariant prevTpr == Ratio(tp, totalPos) && prevFpr == Ratio(fp, totalNeg)
      invariant auc == Share(Wins(bits[..i]), totalPos, totalNeg)
    {
      TrapezoidStep(bits, i, totalPos, totalNeg);
      if labels[order[i]] {
        tp := tp + 1;
      } else {
        fp := fp + 1;
      }
      var tpr := Ratio(tp, totalPos);
      var fpr := Ratio(fp, totalNeg);
      auc := auc + Trapezoid(fpr, prevFpr, tpr, prevTpr);
      prevTpr := tpr;
      prevFpr := fpr;
      i := i + 1;
    }
    assert bits[..i] == bits;
    RankingCountsOutrankingPairs(predictions, labels);
    ShareIsRate(predictions, labels);
    return Ok(auc);
  }

  // ---------------------------------------------------------------------------
  // Counting all mixed pairs
  // ---------------------------------------------------------------------------

  lemma {:induction false} CountPositives(labels: seq<bool>)
    ensures |Positives(labels)| == CountTrue(labels) && |Negatives(labels)| == |labels| - CountTrue(labels)
  {
    if labels == [] {
      assert Positives(labels) == {} && Negatives(labels) == {};
    } else {
      var n := |labels| - 1;
      CountPositives(labels[..n]);
      OneMoreLabel(labels);
      hide Positives, Negatives;
    }
  }

  lemma OneMoreLabel(labels: seq<bool>)
    requires labels != []
    ensures var n := |labels| - 1;
            && |Positives(labels)| == |Positives(labels[..n])| + (if labels[n] then 1 else 0)
            && |Negatives(labels)| == |Negatives(labels[..n])| + (if labels[n] then 0 else 1)
  {
    var n := |labels| - 1;
    var p, q := Positives(labels[..n]), Negatives(labels[..n]);
    if labels[n] {
      assert Positives(labels) == p + {n} && Negatives(labels) == q;
    } else {
      assert Positives(labels) == p && Negatives(labels) == q + {n};
    }
  }

  ghost function Row(i: nat, js: set<nat>): set<(nat, nat)> {
    set j | j in js :: (i, j)
  }

  ghost function Product(rows: set<nat>, js: set<nat>): set<(nat, nat)> {
    set i, j | i in rows && j in js :: (i, j)
  }

  lemma {:induction false} CountRow(i: nat, js: set<nat>)
    ensures |Row(i, js)| == |js|
    decreases |js|
  {
    if js != {} {
      var j :| j in js;
      CountRow(i, js - {j});
      assert Row(i, js) == Row(i, js - {j}) + {(i, j)};
    }
  }

  lemma {:induction false} CountProduct(rows: set<nat>, js: set<nat>)
    ensures |Product(rows, js)| == |rows| * |js|
    decreases |rows|
  {
    if rows == {} {
      assert Product(rows, js) == {};
    } else {
      var i :| i in rows;
      CountProduct(rows - {i}, js);
      CountRow(i, js);
      hide Product, Row;
      ProductOfOneMore(rows, i, js);
      OneMoreRow(|rows - {i}|, |js|);
    }
  }

  lemma ProductOfOneMore(rows: set<nat>, i: nat, js: set<nat>)
    requires i in rows
    ensures |Product(rows, js)| == |Product(rows - {i}, js)| + |Row(i, js)|
    ensures |rows| == |rows - {i}| + 1
  {
    assert Product(rows, js) == Product(rows - {i}, js) + Row(i, js);
    assert Product(rows - {i}, js) !! Row(i, js);
  }

  lemma OneMoreRow(n: nat, m: nat)
    ensures (n + 1) * m == n * m + m
  {
  }

  lemma CountMixedPairs(labels: seq<bool>)
    ensures |MixedPairs(labels)| == CountTrue(labels) * (|labels| - CountTrue(labels))
    ensures MixedPairs(labels) == {} <==> CountTrue(labels) == 0 || CountTrue(labels) == |labels|
  {
    MixedPairsAreProduct(labels);
    CountPositives(labels);
    CountProduct(Positives(labels), Negatives(labels));
    hide MixedPairs, Positives, Negatives, CountTrue, Product;
    ProductIsZero(CountTrue(labels), |labels| - CountTrue(labels));
    assert |MixedPairs(labels)| == 0 <==> MixedPairs(labels) == {};
  }

  lemma MixedPairsAreProduct(labels: seq<bool>)
    ensures MixedPairs(labels) == Product(Positives(labels), Negatives(labels))
  {
  }

  lemma ProductIsZero(p: nat, q: nat)
    ensures p * q == 0 <==> p == 0 || q == 0
  {
  }

  // ---------------------------------------------------------------------------
  // What the rate means
  // ---------------------------------------------------------------------------

  lemma Subset<T>(a: set<T>, b: set<T>)
    requires a <= b
    ensures |a| <= |b|
    ensures |a| == |b| ==> a == b
  {
    assert b == a + (b - a);
  }

  /** The rate is a probability, at least the concordant share and at most that plus the tied share. */
  lemma RateIsBetween(predictions: seq<real>, labels: seq<bool>)
    requires |predictions| == |labels| && MixedPairs(labels) != {}
    ensures var all := |MixedPairs(labels)| as real;
            var concordant := |ConcordantPairs(predictions, labels)| as real;
            var tied := |TiedPairs(predictions, labels)| as real;
            && 0.0 <= concordant / all <= OutrankingRate(predictions, labels) <= (concordant + tied) / all <= 1.0
  {
    NestedPairs(predictions, labels);
    hide MixedPairs, OutrankingPairs, ConcordantPairs, TiedPairs;
    var all := |MixedPairs(labels)| as real;
    var c, t := |ConcordantPairs(predictions, labels)| as real, |TiedPairs(predictions, labels)| as real;
    Shares(0.0, c, all);
    Shares(c, |OutrankingPairs(predictions, labels)| as real, all);
    Shares(|OutrankingPairs(predictions, labels)| as real, c + t, all);
    Shares(c + t, all, all);
  }

  lemma NestedPairs(predictions: seq<real>, labels: seq<bool>)
    requires |predictions| == |labels|
    ensures var c, t := |ConcordantPairs(predictions, labels)|, |TiedPairs(predictions, labels)|;
            c <= |OutrankingPairs(predictions, labels)| <= c + t <= |MixedPairs(labels)|
  {
    var c, t := ConcordantPairs(predictions, labels), TiedPairs(predictions, labels);
    Subset(c, OutrankingPairs(predictions, labels));
    Subset(OutrankingPairs(predictions, labels), c + t);
    Subset(c + t, MixedPairs(labels));
    assert c !! t;
  }

  lemma Shares(a: real, b: real, all: real)
    requires a <= b && all > 0.0
    ensures a / all <= b / all
    ensures (b / all == 1.0) <==> b == all
    ensures (a / all == b / all) <==> a == b
  {
  }

  /** A rate of 1 is perfect separation: every positive row outranks every negative one. */
  lemma PerfectSeparation(predictions: seq<real>, labels: seq<bool>)
    requires |predictions| == |labels| && MixedPairs(labels) != {}
    ensures OutrankingRate(predictions, labels) == 1.0 <==>
            forall i: nat, j: nat :: i < |labels| && j < |labels| && labels[i] && !labels[j] ==>
              Outranks(predictions, i, j)
  {
    var o, m := OutrankingPairs(predictions, labels), MixedPairs(labels);
    Subset(o, m);
    Shares(|o| as real, |m| as real, |m| as real);
    Shares(0.0, |o| as real, |m| as real);
    if o == m {
      forall i: nat, j: nat | i < |labels| && j < |labels| && labels[i] && !labels[j]
        ensures Outranks(predictions, i, j)
      {
        assert (i, j) in o;
      }
    }
  }

  function Flipped(labels: seq<bool>): (flipped: seq<bool>)
    ensures |flipped| == |labels| && forall i :: 0 <= i < |labels| ==> flipped[i] == !labels[i]
  {
    seq(|labels|, i requires 0 <= i < |labels| => !labels[i])
  }

  ghost function Swapped(pairs: set<(nat, nat)>): set<(nat, nat)> {
    set p | p in pairs :: (p.1, p.0)
  }

  lemma {:induction false} CountSwapped(pairs: set<(nat, nat)>)
    ensures |Swapped(pairs)| == |pairs|
    decreases |pairs|
  {
    if pairs != {} {
      var p :| p in pairs;
      CountSwapped(pairs - {p});
      assert Swapped(pairs) == Swapped(pairs - {p}) + {(p.1, p.0)};
    }
  }

  /** Swapping the roles of the classes complements the rate, ties or not. */
  lemma FlippingLabelsComplements(predictions: seq<real>, labels: seq<bool>)
    requires |predictions| == |labels| && MixedPairs(labels) != {}
    ensures MixedPairs(Flipped(labels)) != {}
    ensures OutrankingRate(predictions, labels) + OutrankingRate(predictions, Flipped(labels)) == 1.0
  {
    FlippedPairs(predictions, labels);
    hide MixedPairs, OutrankingPairs;
    SharesAddUp(|OutrankingPairs(predictions, labels)| as real,
                |OutrankingPairs(predictions, Flipped(labels))| as real, |MixedPairs(labels)| as real);
  }

  lemma SharesAddUp(a: real, b: real, all: real)
    requires a + b == all && all > 0.0
    ensures a / all + b / all == 1.0
  {
    assert a / all + b / all == (a + b) / all;
  }

  lemma FlippedPairs(predictions: seq<real>, labels: seq<bool>)
    requires |predictions| == |labels|
    ensures |MixedPairs(Flipped(labels))| == |MixedPairs(labels)|
    ensures |OutrankingPairs(predictions, labels)| + |OutrankingPairs(predictions, Flipped(labels))|
            == |MixedPairs(labels)|
  {
    var flipped := Flipped(labels);
    CountSwapped(MixedPairs(labels));
    CountSwapped(OutrankingPairs(predictions, flipped));
    SwappedPairs(predictions, labels);
    var o, m := OutrankingPairs(predictions, labels), MixedPairs(labels);
    hide MixedPairs, OutrankingPairs;
    assert m == o + (m - o) && o !! m - o;
  }

  lemma SwappedPairs(predictions: seq<real>, labels: seq<bool>)
    requires |predictions| == |labels|
    ensures MixedPairs(Flipped(labels)) == Swapped(MixedPairs(labels))
    ensures OutrankingPairs(predictions, labels) <= MixedPairs(labels)
    ensures Swapped(OutrankingPairs(predictions, Flipped(labels)))
            == MixedPairs(labels) - OutrankingPairs(predictions, labels)
  {
    var o', m := OutrankingPairs(predictions, Flipped(labels)), MixedPairs(labels);
    forall p | p in MixedPairs(Flipped(labels)) ensures p in Swapped(m) {
      assert (p.1, p.0) in m;
    }
    forall p | p in m - OutrankingPairs(predictions, labels) ensures p in Swapped(o') {
      assert (p.1, p.0) in o';
    }
  }

  /**
   * Rows tied on the prediction are not split evenly: the metric is the usual one, counting each tied
   * pair as half, exactly when half of the tied pairs have their positive row first in the input.
   */
  lemma TiesCountByInputOrder(predictions: seq<real>, labels: seq<bool>)
    requires |predictions| == |labels| && MixedPairs(labels) != {}
    ensures var concordant := |ConcordantPairs(predictions, labels)| as real;
            var tied := TiedPairs(predictions, labels);
            OutrankingRate(predictions, labels) == (concordant + |tied| as real / 2.0) / |MixedPairs(labels)| as real
            <==> 2 * |set p | p in tied && p.0 < p.1| == |tied|
  {
    ConcordantAndFirst(predictions, labels);
    hide MixedPairs, OutrankingPairs, ConcordantPairs, TiedPairs;
    var first := set p | p in TiedPairs(predictions, labels) && p.0 < p.1;
    SameShare(|ConcordantPairs(predictions, labels)| as real, |first|, |TiedPairs(predictions, labels)|,
              |MixedPairs(labels)| as real);
  }

  lemma ConcordantAndFirst(predictions: seq<real>, labels: seq<bool>)
    requires |predictions| == |labels|
    ensures |OutrankingPairs(predictions, labels)|
            == |ConcordantPairs(predictions, labels)| + |set p | p in TiedPairs(predictions, labels) && p.0 < p.1|
  {
    var c, t := ConcordantPairs(predictions, labels), TiedPairs(predictions, labels);
    var first := set p | p in t && p.0 < p.1;
    assert OutrankingPairs(predictions, labels) == c + first && c !! first;
  }

  lemma SameShare(c: real, first: nat, tied: nat, all: real)
    requires all > 0.0
    ensures (c + first as real) / all == (c + tied as real / 2.0) / all <==> 2 * first == tied
  {
    var a, b := c + first as real, c + tied as real / 2.0;
    if a <= b {
      Shares(a, b, all);
    } else {
      Shares(b, a, all);
    }
  }

  /** Two rows with the same prediction: the metric is 1 or 0, depending on which is listed first. */
  lemma TiedRowsAreNotHalf()
    ensures MixedPairs([true, false]) != {} && OutrankingRate([0.6, 0.6], [true, false]) == 1.0
    ensures MixedPairs([false, true]) != {} && OutrankingRate([0.6, 0.6], [false, true]) == 0.0
  {
    assert MixedPairs([true, false]) == {(0, 1)} by { assert (0, 1) in MixedPairs([true, false]); }
    assert MixedPairs([false, true]) == {(1, 0)} by { assert (1, 0) in MixedPairs([false, true]); }
    assert OutrankingPairs([0.6, 0.6], [true, false]) == {(0, 1)};
    assert OutrankingPairs([0.6, 0.6], [false, true]) == {};
  }
}
