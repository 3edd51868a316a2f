/** Isotonic calibration: fitting breakpoints to validation labels, and interpolating between them. */
module Calibration {
  import opened Options
  import opened RankOrder
  import opened Pooling

  datatype Breakpoint = Breakpoint(x: real, y: real)

  datatype TrainingError = CountMismatch | EmptyPredictions

  ghost predicate XSorted(points: seq<Breakpoint>) {
    forall a, b :: 0 <= a <= b < |points| ==> points[a].x <= points[b].x
  }

  ghost predicate XStrict(points: seq<Breakpoint>) {
    forall a, b :: 0 <= a < b < |points| ==> points[a].x < points[b].x
  }

  ghost predicate YSorted(points: seq<Breakpoint>) {
    forall a, b :: 0 <= a <= b < |points| ==> points[a].y <= points[b].y
  }

  ghost predicate YWithin(points: seq<Breakpoint>, lo: real, hi: real) {
    forall a :: 0 <= a < |points| ==> lo <= points[a].y <= hi
  }

  // ---------------------------------------------------------------------------
  // Applying
  // ---------------------------------------------------------------------------

  function Line(p: Breakpoint, q: Breakpoint, raw: real): real
    requires p.x < q.x
  {
    Blend(p.y, q.y - p.y, (raw - p.x) / (q.x - p.x))
  }

  function Blend(start: real, rise: real, t: real): real {
    start + t * rise
  }

  /** The last of the points `0..k` at or below `raw`. */
  function Segment(raw: real, points: seq<Breakpoint>, k: nat): (s: nat)
    requires k < |points| && points[0].x <= raw
    ensures s <= k && points[s].x <= raw
    ensures forall a :: s < a <= k ==> raw < points[a].x
  {
    if points[k].x <= raw then k else Segment(raw, points, k - 1)
  }

  /** The calibrated value: clamped outside the points, on the line between its neighbours inside. */
  function Calibrated(raw: real, points: seq<Breakpoint>): real {
    if points == [] then raw
    else if |points| == 1 || raw <= points[0].x then points[0].y
    else if raw >= points[|points| - 1].x then points[|points| - 1].y
    else
      var s := Segment(raw, points, |points| - 1);
      Line(points[s], points[s + 1], raw)
  }

  /**
   * The binary search ends with two adjacent points that bracket the input strictly on the right, whatever
   * the order of the points: the source's guard against two equal abscissas is never taken.
   */
  method ApplyIsotonicCalibration(raw: real, points: seq<Breakpoint>) returns (r: real)
    ensures |points| >= 2 && points[0].x < raw < points[|points| - 1].x ==>
              exists k :: 0 <= k < |points| - 1 && points[k].x <= raw < points[k + 1].x
                          && r == Line(points[k], points[k + 1], raw)
    ensures XSorted(points) ==> r == Calibrated(raw, points)
  {
    if |points| == 0 {
      return raw;
    }
    if |points| == 1 {
      return points[0].y;
    }
    if raw <= points[0].x {
      return points[0].y;
    }
    if raw >= points[|points| - 1].x {
      return points[|points| - 1].y;
    }
    var lo, hi := 0, |points| - 1;
    while lo < hi - 1
      invariant 0 <= lo < hi < |points|
      invariant points[lo].x <= raw < points[hi].x
    {
      var mid := (lo + hi) / 2;
      if points[mid].x <= raw {
        lo := mid;
      } else {
        hi := mid;
      }
    }
    var x0, y0, x1, y1 := points[lo].x, points[lo].y, points[hi].x, points[hi].y;
    assert x1 != x0;
    var t := (raw - x0) / (x1 - x0);
    r := Blend(y0, y1 - y0, t);
    assert r == Line(points[lo], points[lo + 1], raw);
  }

  lemma Scale(factor: real, a: real, b: real)
    requires factor >= 0.0 && a <= b
    ensures factor * a <= factor * b
  {
  }

  lemma Divide(a: real, b: real, width: real)
    requires width > 0.0 && a <= b
    ensures a / width <= b / width && 0.0 / width == 0.0 && width / width == 1.0
  {
  }

  lemma LineStaysBetween(p: Breakpoint, q: Breakpoint, raw: real, lo: real, hi: real)
    requires p.x < q.x && p.x <= raw <= q.x && lo <= p.y <= hi && lo <= q.y <= hi
    ensures lo <= Line(p, q, raw) <= hi
  {
    var w := q.x - p.x;
    Divide(0.0, raw - p.x, w);
    Divide(raw - p.x, w, w);
    BlendStaysBetween(p.y, q.y - p.y, (raw - p.x) / w);
  }

  lemma LineStartsAt(p: Breakpoint, q: Breakpoint)
    requires p.x < q.x
    ensures Line(p, q, p.x) == p.y
  {
    Divide(0.0, 0.0, q.x - p.x);
  }

  lemma BlendStaysBetween(start: real, rise: real, t: real)
    requires 0.0 <= t <= 1.0
    ensures rise >= 0.0 ==> start <= Blend(start, rise, t) <= start + rise
    ensures rise <= 0.0 ==> start + rise <= Blend(start, rise, t) <= start
  {
    if rise >= 0.0 {
      Scale(rise, t, 1.0);
    } else {
      Scale(-rise, t, 1.0);
      assert t * rise == -(-rise * t);
    }
  }

  lemma LineRises(p: Breakpoint, q: Breakpoint, a: real, b: real)
    requires p.x < q.x && a <= b && p.y <= q.y
    ensures Line(p, q, a) <= Line(p, q, b)
  {
    var w, h := q.x - p.x, q.y - p.y;
    Divide(a - p.x, b - p.x, w);
    Scale(h, (a - p.x) / w, (b - p.x) / w);
  }

  /** Interpolation stays within the range of the points. */
  lemma CalibratedStaysWithin(raw: real, points: seq<Breakpoint>, lo: real, hi: real)
    requires points != [] && YWithin(points, lo, hi)
    ensures lo <= Calibrated(raw, points) <= hi
  {
    if |points| > 1 && points[0].x < raw < points[|points| - 1].x {
      var s := Segment(raw, points, |points| - 1);
      LineStaysBetween(points[s], points[s + 1], raw, lo, hi);
    }
  }

  ghost predicate MonotoneMap(points: seq<Breakpoint>) {
    forall a: real, b: real :: a <= b ==> Calibrated(a, points) <= Calibrated(b, points)
  }

  /** Of several points with one abscissa, the map shows the first and the last. */
  predicate Seen(points: seq<Breakpoint>, i: nat)
    requires i < |points|
  {
    i == 0 || i == |points| - 1 || points[i - 1].x < points[i].x || points[i].x < points[i + 1].x
  }

  ghost predicate RisesWhereSeen(points: seq<Breakpoint>) {
    forall a, b :: 0 <= a <= b < |points| && Seen(points, a) && Seen(points, b) ==> points[a].y <= points[b].y
  }

  lemma SeenRises(points: seq<Breakpoint>, a: nat, b: nat)
    requires RisesWhereSeen(points) && a <= b < |points| && Seen(points, a) && Seen(points, b)
    ensures points[a].y <= points[b].y
  {
  }

  lemma CalibratedIsBracketed(raw: real, points: seq<Breakpoint>)
    requires |points| > 1 && RisesWhereSeen(points) && points[0].x < raw < points[|points| - 1].x
    ensures var s := Segment(raw, points, |points| - 1);
            && Seen(points, s) && Seen(points, s + 1)
            && points[s].y <= Calibrated(raw, points) <= points[s + 1].y
  {
    hide RisesWhereSeen;
    var s := Segment(raw, points, |points| - 1);
    SeenRises(points, s, s + 1);
    LineStaysBetween(points[s], points[s + 1], raw, points[s].y, points[s + 1].y);
  }

  lemma EndsAreSeen(points: seq<Breakpoint>, raw: real)
    requires |points| > 1 && RisesWhereSeen(points)
    ensures points[0].y <= Calibrated(raw, points) <= points[|points| - 1].y
  {
    hide RisesWhereSeen, Line;
    var n := |points|;
    SeenRises(points, 0, n - 1);
    if points[0].x < raw < points[n - 1].x {
      CalibratedIsBracketed(raw, points);
      var s := Segment(raw, points, n - 1);
      SeenRises(points, 0, s);
      SeenRises(points, s + 1, n - 1);
    }
  }

  lemma CalibratedRises(a: real, b: real, points: seq<Breakpoint>)
    requires XSorted(points) && RisesWhereSeen(points) && a <= b
    ensures Calibrated(a, points) <= Calibrated(b, points)
  {
    hide Line, RisesWhereSeen, Seen;
    var n := |points|;
    if n > 1 {
      if points[0].x < a && b < points[n - 1].x {
        var s, t := Segment(a, points, n - 1), Segment(b, points, n - 1);
        assert s <= t;
        CalibratedIsBracketed(a, points);
        CalibratedIsBracketed(b, points);
        if s == t {
          SeenRises(points, s, s + 1);
          LineRises(points[s], points[s + 1], a, b);
        } else {
          SeenRises(points, s + 1, t);
        }
      } else {
        EndsAreSeen(points, a);
        EndsAreSeen(points, b);
      }
    }
  }

  // ---------------------------------------------------------------------------
  // Why the condition is needed
  // ---------------------------------------------------------------------------

  lemma InsideSegment(raw: real, points: seq<Breakpoint>, s: nat)
    requires XSorted(points) && s + 1 < |points| && points[s].x < raw < points[s + 1].x
    ensures Calibrated(raw, points) == Line(points[s], points[s + 1], raw)
  {
    hide Line;
    assert points[0].x <= points[s].x && points[s + 1].x <= points[|points| - 1].x;
    assert Segment(raw, points, |points| - 1) == s;
  }

  /** The point at the fraction `t` of the way along a line. */
  lemma AlongLine(p: Breakpoint, q: Breakpoint, t: real) returns (raw: real)
    requires p.x < q.x && 0.0 < t < 1.0
    ensures p.x < raw < q.x && raw == p.x + t * (q.x - p.x)
    ensures Line(p, q, raw) == Blend(p.y, q.y - p.y, t)
  {
    var w := q.x - p.x;
    var part := t * w;
    StrictPart(t, w);
    assert 0.0 < part < w;
    raw := p.x + part;
    assert part / w == t;
  }

  lemma StrictPart(t: real, d: real)
    requires 0.0 < t < 1.0 && d > 0.0
    ensures 0.0 < t * d < d
  {
    assert (1.0 - t) * d > 0.0;
  }

  /** A fraction of `d` so small that `spread` shrinks below `d`. */
  lemma SmallFraction(d: real, spread: real) returns (t: real)
    requires d > 0.0
    ensures 0.0 < t < 1.0 && -d < t * spread < d
  {
    var r := if spread < 0.0 then -spread else spread;
    t := d / (2.0 * (d + r));
    var half := 2.0 * (d + r);
    assert t * half == d;
    assert t > 0.0;
    assert t * (2.0 * d) + t * (2.0 * r) == d;
    Scale(t, 0.0, 2.0 * d);
    Scale(t, 0.0, 2.0 * r);
    assert t < 1.0;
    assert t * (2.0 * r) == 2.0 * (t * r);
    assert t * spread == if spread < 0.0 then -(t * r) else t * r;
  }

  /** Close to its start, a line is below any bound above its start. */
  lemma NearStart(p: Breakpoint, q: Breakpoint, bound: real) returns (raw: real)
    requires p.x < q.x && p.y < bound
    ensures p.x < raw < q.x && Line(p, q, raw) < bound
  {
    var t := SmallFraction(bound - p.y, q.y - p.y);
    raw := AlongLine(p, q, t);
  }

  /** Close to its end, a line is above any bound below its end. */
  lemma NearEnd(p: Breakpoint, q: Breakpoint, bound: real) returns (raw: real)
    requires p.x < q.x && bound < q.y
    ensures p.x < raw < q.x && bound < Line(p, q, raw)
  {
    var t := SmallFraction(q.y - bound, q.y - p.y);
    raw := AlongLine(p, q, 1.0 - t);
    var rise := q.y - p.y;
    assert (1.0 - t) * rise == rise - t * rise;
  }

  lemma SegmentRises(points: seq<Breakpoint>, s: nat)
    requires XSorted(points) && MonotoneMap(points) && s + 1 < |points| && points[s].x < points[s + 1].x
    ensures points[s].y <= points[s + 1].y
  {
    var p, q := points[s], points[s + 1];
    var a := AlongLine(p, q, 0.25);
    var b := AlongLine(p, q, 0.75);
    assert a <= b;
    InsideSegment(a, points, s);
    InsideSegment(b, points, s);
    hide Calibrated, Line;
    assert Calibrated(a, points) <= Calibrated(b, points);
  }

  /** The last point with the abscissa of `i`. */
  ghost function GroupEnd(points: seq<Breakpoint>, i: nat): (last: nat)
    requires XSorted(points) && i < |points|
    ensures i <= last < |points| && points[last].x == points[i].x && Seen(points, last)
    ensures last < |points| - 1 ==> points[last].x < points[last + 1].x
    decreases |points| - i
  {
    if i < |points| - 1 && points[i + 1].x == points[i].x then GroupEnd(points, i + 1) else i
  }

  /** The first and the last of several points with one abscissa rise together. */
  lemma GroupRises(points: seq<Breakpoint>, first: nat, last: nat)
    requires XSorted(points) && MonotoneMap(points) && first < last < |points|
    requires points[first].x == points[last].x && Seen(points, first) && Seen(points, last)
    ensures points[first].y <= points[last].y
  {
    if points[first].y > points[last].y {
      FallingGroupShows(points, first, last);
    }
  }

  lemma FallingGroupShows(points: seq<Breakpoint>, first: nat, last: nat)
    requires XSorted(points) && first < last < |points|
    requires points[first].x == points[last].x && Seen(points, first) && Seen(points, last)
    requires points[first].y > points[last].y
    ensures !MonotoneMap(points)
  {
    hide Calibrated, Line;
    var middle := (points[first].y + points[last].y) / 2.0;
    var below := BelowGroup(points, first, last, middle);
    var above := AboveGroup(points, first, last, middle);
    assert below <= above && Calibrated(below, points) > Calibrated(above, points);
  }

  lemma BelowGroup(points: seq<Breakpoint>, first: nat, last: nat, bound: real) returns (raw: real)
    requires XSorted(points) && first < last < |points| && points[first].x == points[last].x && Seen(points, first)
    requires bound < points[first].y
    ensures raw <= points[first].x && Calibrated(raw, points) > bound
  {
    hide Line;
    if first == 0 {
      raw := points[0].x;
    } else {
      assert points[first].x == points[first + 1].x by {
        assert points[first].x <= points[first + 1].x <= points[last].x;
      }
      raw := NearEnd(points[first - 1], points[first], bound);
      InsideSegment(raw, points, first - 1);
    }
  }

  lemma AboveGroup(points: seq<Breakpoint>, first: nat, last: nat, bound: real) returns (raw: real)
    requires XSorted(points) && first < last < |points| && points[first].x == points[last].x && Seen(points, last)
    requires points[last].y < bound
    ensures raw > points[last].x && Calibrated(raw, points) < bound
  {
    hide Line;
    if last == |points| - 1 {
      raw := points[last].x + 1.0;
      assert points[0].x <= points[last].x;
    } else {
      assert points[last - 1].x == points[last].x by {
        assert points[first].x <= points[last - 1].x <= points[last].x;
      }
      raw := NearStart(points[last], points[last + 1], bound);
      InsideSegment(raw, points, last);
    }
  }

  /** Along the seen points, one step at a time. */
  lemma {:induction false} MapShowsRise(points: seq<Breakpoint>, a: nat, b: nat)
    requires XSorted(points) && MonotoneMap(points)
    requires a <= b < |points| && Seen(points, a) && Seen(points, b)
    ensures points[a].y <= points[b].y
    decreases b - a
  {
    hide Calibrated, Line, MonotoneMap;
    if points[a].x == points[b].x {
      if a < b { GroupRises(points, a, b); }
    } else {
      var last := GroupEnd(points, a);
      assert last < b;
      if a < last {
        GroupRises(points, a, last);
        MapShowsRise(points, last, b);
      } else {
        SegmentRises(points, a);
        MapShowsRise(points, a + 1, b);
      }
    }
  }

  /**
   * Between sorted points, the map is monotone exactly when the ordinates it shows rise; the points
   * between the first and the last of one abscissa do not matter.
   */
  lemma MonotoneExactly(points: seq<Breakpoint>)
    requires XSorted(points)
    ensures MonotoneMap(points) <==> RisesWhereSeen(points)
  {
    hide Calibrated, Seen, XSorted;
    if RisesWhereSeen(points) {
      forall a: real, b: real | a <= b ensures Calibrated(a, points) <= Calibrated(b, points) {
        CalibratedRises(a, b, points);
      }
    }
    if MonotoneMap(points) {
      forall a, b | 0 <= a <= b < |points| && Seen(points, a) && Seen(points, b)
        ensures points[a].y <= points[b].y
      {
        MapShowsRise(points, a, b);
      }
    }
  }

  /** Between two neighbours the map is straight: it rises by their rise, in proportion. */
  lemma CalibratedIsStraight(points: seq<Breakpoint>, s: nat, raw: real)
    requires s + 1 < |points| && XStrict(points) && points[s].x <= raw <= points[s + 1].x
    ensures (Calibrated(raw, points) - points[s].y) * (points[s + 1].x - points[s].x)
            == (points[s + 1].y - points[s].y) * (raw - points[s].x)
  {
    hide Calibrated, Line;
    var p, q := points[s], points[s + 1];
    if raw == p.x {
      CalibratedPassesThrough(points, s);
    } else if raw == q.x {
      CalibratedPassesThrough(points, s + 1);
    } else {
      StrictlyInside(points, s, raw);
      SlopeIsConstant(p, q, raw);
    }
  }

  lemma StrictlyInside(points: seq<Breakpoint>, s: nat, raw: real)
    requires s + 1 < |points| && XStrict(points) && points[s].x < raw < points[s + 1].x
    ensures Calibrated(raw, points) == Line(points[s], points[s + 1], raw)
  {
    hide Line;
    assert points[0].x <= points[s].x && points[s + 1].x <= points[|points| - 1].x;
    assert Segment(raw, points, |points| - 1) == s;
  }

  lemma SlopeIsConstant(p: Breakpoint, q: Breakpoint, raw: real)
    requires p.x < q.x
    ensures (Line(p, q, raw) - p.y) * (q.x - p.x) == (q.y - p.y) * (raw - p.x)
  {
    var width, t := q.x - p.x, (raw - p.x) / (q.x - p.x);
    assert t * width == raw - p.x;
    Commute(t, q.y - p.y, width);
  }

  lemma Commute(a: real, b: real, c: real)
    ensures a * b * c == b * (a * c)
  {
  }

  /** With strictly increasing abscissas the map passes through every point. */
  lemma CalibratedPassesThrough(points: seq<Breakpoint>, k: nat)
    requires k < |points| && XStrict(points)
    ensures Calibrated(points[k].x, points) == points[k].y
  {
    if 0 < k < |points| - 1 {
      var s := Segment(points[k].x, points, |points| - 1);
      assert s == k;
      LineStartsAt(points[k], points[k + 1]);
    }
  }

  // ---------------------------------------------------------------------------
  // Fitting
  // ---------------------------------------------------------------------------

  /** The labels in ascending order of prediction, rows with equal predictions in input order. */
  function SortedLabels(predictions: seq<real>, labels: seq<bool>): (sorted: seq<bool>)
    requires |predictions| == |labels|
    ensures |sorted| == |labels|
  {
    Listed(labels, StableOrder(predictions, |predictions|))
  }

  function SortedPredictions(predictions: seq<real>): (sorted: seq<real>)
    ensures |sorted| == |predictions|
    ensures forall a, b :: 0 <= a <= b < |sorted| ==> sorted[a] <= sorted[b]
  {
    var order := StableOrder(predictions, |predictions|);
    assert forall a, b :: 0 <= a < b < |order| ==> Before(predictions, order[a], order[b]);
    Listed(predictions, order)
  }

  /** A row contributes a breakpoint: the first, the last, and each at which the pooled value changes. */
  predicate Kept(ys: seq<real>, i: nat)
    requires i < |ys|
  {
    i == 0 || i == |ys| - 1 || ys[i] != ys[i - 1]
  }

  /** The breakpoints contributed by the first `m` rows. */
  function Selected(xs: seq<real>, ys: seq<real>, m: nat): seq<Breakpoint>
    requires m <= |xs| == |ys|
  {
    if m == 0 then []
    else Selected(xs, ys, m - 1) + if Kept(ys, m - 1) then [Breakpoint(xs[m - 1], ys[m - 1])] else []
  }

  function Fitted(predictions: seq<real>, labels: seq<bool>): seq<Breakpoint>
    requires |predictions| == |labels|
  {
    Selected(SortedPredictions(predictions), Pooled(AsNumbers(SortedLabels(predictions, labels)), 0), |labels|)
  }

  method FitIsotonicCalibration(predictions: seq<real>, labels: seq<bool>)
    returns (r: Result<seq<Breakpoint>, TrainingError>)
    ensures |predictions| != |labels| ==> r == Err(CountMismatch)
    ensures |predictions| == |labels| == 0 ==> r == Err(EmptyPredictions)
    ensures |predictions| == |labels| > 0 ==> r == Ok(Fitted(predictions, labels))
  {
    hide SortedPredictions, SortedLabels, Pooled;
    if |predictions| != |labels| {
      return Err(CountMismatch);
    }
    if |predictions| == 0 {
      return Err(EmptyPredictions);
    }
    var sortedPred := SortedPredictions(predictions);
    var calibrated := PoolAdjacentViolators(AsNumbers(SortedLabels(predictions, labels)));
    var breakpoints: seq<Breakpoint> := [];
    var prevY := -1.0;
    var i := 0;
    while i < |sortedPred|
      invariant 0 <= i <= |sortedPred|
      invariant i > 0 ==> prevY == calibrated[i - 1]
      invariant breakpoints == Selected(sortedPred, calibrated, i)
    {
      if calibrated[i] != prevY || i == 0 || i == |sortedPred| - 1 {
        breakpoints := breakpoints + [Breakpoint(sortedPred[i], calibrated[i])];
        prevY := calibrated[i];
      }
      i := i + 1;
    }
    return Ok(breakpoints);
  }

  /** Selecting rows keeps the order of the abscissas and the range of the ordinates. */
  lemma {:induction false} SelectedIsSorted(xs: seq<real>, ys: seq<real>, m: nat, lo: real, hi: real)
    requires m <= |xs| == |ys| && forall a, b :: 0 <= a <= b < |xs| ==> xs[a] <= xs[b]
    requires forall a :: 0 <= a < |ys| ==> lo <= ys[a] <= hi
    ensures var points := Selected(xs, ys, m);
            && XSorted(points) && YWithin(points, lo, hi)
            && (forall a :: 0 <= a < |points| ==> m > 0 && points[a].x <= xs[m - 1])
            && (m > 0 ==> points != [] && points[|points| - 1].y == ys[m - 1])
  {
    if m > 0 {
      SelectedIsSorted(xs, ys, m - 1, lo, hi);
    }
  }

  lemma {:induction false} SelectedIsStrict(xs: seq<real>, ys: seq<real>, m: nat)
    requires m <= |xs| == |ys| && forall a, b :: 0 <= a < b < |xs| ==> xs[a] < xs[b]
    ensures var points := Selected(xs, ys, m);
            XStrict(points) && (forall a :: 0 <= a < |points| ==> m > 0 && points[a].x <= xs[m - 1])
  {
    if m > 0 {
      SelectedIsStrict(xs, ys, m - 1);
    }
  }

  /** The breakpoints rise exactly when the pooled values do. */
  lemma {:induction false} SelectedRises(xs: seq<real>, ys: seq<real>, m: nat)
    requires m <= |xs| == |ys|
    ensures YSorted(Selected(xs, ys, m)) <==> Nondecreasing(ys[..m])
    ensures m > 0 ==> Selected(xs, ys, m) != [] && Selected(xs, ys, m)[|Selected(xs, ys, m)| - 1].y == ys[m - 1]
  {
    if m > 0 {
      SelectedRises(xs, ys, m - 1);
      AppendY(Selected(xs, ys, m - 1), Breakpoint(xs[m - 1], ys[m - 1]));
      AppendValue(ys[..m - 1], ys[m - 1]);
      assert ys[..m] == ys[..m - 1] + [ys[m - 1]];
      assert !Kept(ys, m - 1) ==> Selected(xs, ys, m) == Selected(xs, ys, m - 1);
      hide YSorted, Nondecreasing;
    }
  }

  lemma AppendY(points: seq<Breakpoint>, p: Breakpoint)
    ensures YSorted(points + [p]) <==> YSorted(points) && (points != [] ==> points[|points| - 1].y <= p.y)
  {
    var longer := points + [p];
    if YSorted(longer) {
      assert forall a :: 0 <= a < |points| ==> points[a] == longer[a];
      assert points != [] ==> longer[|points| - 1].y <= longer[|points|].y;
    }
  }

  lemma AppendValue(s: seq<real>, y: real)
    ensures Nondecreasing(s + [y]) <==> Nondecreasing(s) && (s != [] ==> s[|s| - 1] <= y)
  {
    var longer := s + [y];
    if Nondecreasing(longer) {
      assert forall a :: 0 <= a < |s| ==> s[a] == longer[a];
      assert s != [] ==> longer[|s| - 1] <= longer[|s|];
    }
  }

  // ---------------------------------------------------------------------------
  // Fit, then apply
  // ---------------------------------------------------------------------------

  lemma FittedIsSorted(predictions: seq<real>, labels: seq<bool>)
    requires |predictions| == |labels| > 0
    ensures var points := Fitted(predictions, labels);
            points != [] && XSorted(points) && YWithin(points, 0.0, 1.0)
  {
    hide SortedLabels, SortedPredictions, Pooled, Selected;
    var values := AsNumbers(SortedLabels(predictions, labels));
    PoolingKeepsRange(values, 0, 0.0, 1.0);
    SelectedIsSorted(SortedPredictions(predictions), Pooled(values, 0), |labels|, 0.0, 1.0);
  }

  /** Whatever is fitted, every calibrated value is a probability. */
  lemma CalibratedIsAProbability(predictions: seq<real>, labels: seq<bool>, raw: real)
    requires |predictions| == |labels| > 0
    ensures 0.0 <= Calibrated(raw, Fitted(predictions, labels)) <= 1.0
  {
    hide Fitted, Calibrated;
    FittedIsSorted(predictions, labels);
    CalibratedStaysWithin(raw, Fitted(predictions, labels), 0.0, 1.0);
  }

  ghost predicate AllDistinct(predictions: seq<real>) {
    forall i, j :: 0 <= i < j < |predictions| ==> predictions[i] != predictions[j]
  }

  /**
   * The breakpoints, as the source's unit test wants them, never decrease exactly when no block of ones
   * and zeros, in order of prediction, is followed by one with a smaller share of ones.
   */
  lemma FittedBreakpointsRiseExactly(predictions: seq<real>, labels: seq<bool>)
    requires |predictions| == |labels|
    ensures YSorted(Fitted(predictions, labels)) <==> SharesRise(Blocks(SortedLabels(predictions, labels), 0))
  {
    hide SortedLabels, SortedPredictions, Pooled, Selected, SharesRise, Blocks, Nondecreasing, YSorted;
    var ys := Pooled(AsNumbers(SortedLabels(predictions, labels)), 0);
    PooledLabelsAreMonotoneExactly(SortedLabels(predictions, labels));
    SelectedRises(SortedPredictions(predictions), ys, |labels|);
    assert ys[..|labels|] == ys;
  }

  /**
   * The fitted map is monotone exactly when the breakpoints it shows rise. All breakpoints rising is
   * enough, and with distinct predictions it is needed.
   */
  lemma FittedMapIsMonotoneExactly(predictions: seq<real>, labels: seq<bool>)
    requires |predictions| == |labels| > 0
    ensures MonotoneMap(Fitted(predictions, labels)) <==> RisesWhereSeen(Fitted(predictions, labels))
    ensures SharesRise(Blocks(SortedLabels(predictions, labels), 0)) ==> MonotoneMap(Fitted(predictions, labels))
    ensures AllDistinct(predictions) && MonotoneMap(Fitted(predictions, labels)) ==>
              SharesRise(Blocks(SortedLabels(predictions, labels), 0))
  {
    var points := Fitted(predictions, labels);
    FittedIsSorted(predictions, labels);
    MonotoneExactly(points);
    FittedBreakpointsRiseExactly(predictions, labels);
    YSortedRisesWhereSeen(points);
    if AllDistinct(predictions) {
      DistinctIsStrict(predictions);
      var ys := Pooled(AsNumbers(SortedLabels(predictions, labels)), 0);
      SelectedIsStrict(SortedPredictions(predictions), ys, |labels|);
    }
    hide *;
  }

  /** All ordinates rising includes those shown; with distinct abscissas it is the same. */
  lemma YSortedRisesWhereSeen(points: seq<Breakpoint>)
    ensures YSorted(points) ==> RisesWhereSeen(points)
    ensures XStrict(points) && RisesWhereSeen(points) ==> YSorted(points)
  {
    if XStrict(points) && RisesWhereSeen(points) {
      assert forall a :: 0 <= a < |points| ==> Seen(points, a);
    }
  }

  lemma DistinctIsStrict(predictions: seq<real>)
    requires AllDistinct(predictions)
    ensures var xs := SortedPredictions(predictions); forall a, b :: 0 <= a < b < |xs| ==> xs[a] < xs[b]
  {
    hide StableOrder;
    var order := StableOrder(predictions, |predictions|);
    assert forall a, b :: 0 <= a < b < |order| ==> Before(predictions, order[a], order[b]);
  }
}
