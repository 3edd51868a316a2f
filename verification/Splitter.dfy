/**
 * Splitting a stream at every occurrence of a delimiter, greedily from the left, and what makes an
 * incremental splitter agree with splitting the whole stream at once.
 */
module Splitter {
  import opened Sequences

  predicate OccursAt<T(==)>(s: seq<T>, d: seq<T>, i: nat) {
    i + |d| <= |s| && s[i..i + |d|] == d
  }

  /** The first index from `i` on at which `d` occurs, or the length of `s`. */
  function FirstAt<T(==)>(s: seq<T>, d: seq<T>, i: nat): (k: nat)
    requires i <= |s| && d != []
    ensures i <= k <= |s|
    ensures k < |s| ==> OccursAt(s, d, k)
    ensures forall j :: i <= j < k ==> !OccursAt(s, d, j)
    decreases |s| - i
  {
    if i == |s| || OccursAt(s, d, i) then i else FirstAt(s, d, i + 1)
  }

  /** The terminated pieces of a stream. */
  function Pieces<T(==)>(s: seq<T>, d: seq<T>): seq<seq<T>>
    requires d != []
    decreases |s|
  {
    var k := FirstAt(s, d, 0);
    if k < |s| then [s[..k]] + Pieces(s[k + |d|..], d) else []
  }

  /** What follows the last delimiter. */
  function Rest<T(==)>(s: seq<T>, d: seq<T>): (rest: seq<T>)
    requires d != []
    ensures |rest| <= |s| && FirstAt(rest, d, 0) == |rest|
    decreases |s|
  {
    var k := FirstAt(s, d, 0);
    if k < |s| then Rest(s[k + |d|..], d) else s
  }

  /** The pieces, each with its delimiter. */
  function Joined<T>(pieces: seq<seq<T>>, d: seq<T>): seq<T> {
    if pieces == [] then [] else pieces[0] + d + Joined(pieces[1..], d)
  }

  /** A piece is complete: with its delimiter, the delimiter is first met right behind it. */
  predicate IsPiece<T(==)>(p: seq<T>, d: seq<T>)
    requires d != []
  {
    FirstAt(p + d, d, 0) == |p|
  }

  lemma FirstIs<T>(s: seq<T>, d: seq<T>, i: nat, k: nat)
    requires d != [] && i <= k && OccursAt(s, d, k) && forall j :: i <= j < k ==> !OccursAt(s, d, j)
    ensures FirstAt(s, d, i) == k < |s|
  {
  }

  /** What comes later does not move the first occurrence. */
  lemma FirstStays<T>(a: seq<T>, b: seq<T>, d: seq<T>)
    requires d != [] && FirstAt(a, d, 0) < |a|
    ensures FirstAt(a + b, d, 0) == FirstAt(a, d, 0)
  {
    var k := FirstAt(a, d, 0);
    assert (a + b)[k..k + |d|] == a[k..k + |d|];
    forall j | 0 <= j < k ensures !OccursAt(a + b, d, j) {
      if j + |d| <= |a + b| && k + |d| <= |a| {
        assert (a + b)[j..j + |d|] == a[j..j + |d|];
        assert !OccursAt(a, d, j);
      }
    }
    FirstIs(a + b, d, 0, k);
  }

  lemma SplitStep<T>(s: seq<T>, d: seq<T>)
    requires d != []
    ensures var k := FirstAt(s, d, 0);
            && (k < |s| ==> k + |d| <= |s| && s == s[..k] + d + s[k + |d|..]
                            && Pieces(s, d) == [s[..k]] + Pieces(s[k + |d|..], d)
                            && Rest(s, d) == Rest(s[k + |d|..], d))
            && (k == |s| ==> Pieces(s, d) == [] && Rest(s, d) == s)
  {
    hide FirstAt;
  }

  /**
   * Feeding a stream in two parts: the second part, put behind what the first left over, gives exactly
   * the pieces that are still missing, wherever the cut falls, inside a delimiter too.
   */
  lemma {:induction false} PartsSplitAlike<T>(a: seq<T>, b: seq<T>, d: seq<T>)
    requires d != []
    ensures Pieces(a + b, d) == Pieces(a, d) + Pieces(Rest(a, d) + b, d)
    ensures Rest(a + b, d) == Rest(Rest(a, d) + b, d)
    decreases |a|
  {
    hide FirstAt, Pieces, Rest;
    var k := FirstAt(a, d, 0);
    SplitStep(a, d);
    if k < |a| {
      var later := a[k + |d|..];
      FirstStays(a, b, d);
      SplitStep(a + b, d);
      SliceOfSum(a, b, k, k + |d|);
      PartsSplitAlike(later, b, d);
      Regroup([a[..k]], Pieces(later, d), Pieces(Rest(later, d) + b, d));
    }
  }

  lemma SliceOfSum<T>(a: seq<T>, b: seq<T>, k: nat, m: nat)
    requires k <= m <= |a|
    ensures (a + b)[..k] == a[..k] && (a + b)[m..] == a[m..] + b
  {
  }

  /** Putting the delimiters back restores the stream, and every piece is complete. */
  lemma {:induction false} PiecesRestoreStream<T>(s: seq<T>, d: seq<T>)
    requires d != []
    ensures Joined(Pieces(s, d), d) + Rest(s, d) == s
    ensures forall i :: 0 <= i < |Pieces(s, d)| ==> IsPiece(Pieces(s, d)[i], d)
    decreases |s|
  {
    hide FirstAt, IsPiece, Pieces, Rest;
    var k := FirstAt(s, d, 0);
    SplitStep(s, d);
    if k < |s| {
      var later := s[k + |d|..];
      PiecesRestoreStream(later, d);
      FirstPieceIsComplete(s, d);
      JoinFirst(s[..k], Pieces(later, d), d);
      Regroup(s[..k] + d, Joined(Pieces(later, d), d), Rest(later, d));
    }
  }

  lemma JoinFirst<T>(piece: seq<T>, later: seq<seq<T>>, d: seq<T>)
    ensures Joined([piece] + later, d) == piece + d + Joined(later, d)
  {
    assert ([piece] + later)[1..] == later;
  }

  lemma FirstPieceIsComplete<T>(s: seq<T>, d: seq<T>)
    requires d != [] && FirstAt(s, d, 0) < |s|
    ensures IsPiece(s[..FirstAt(s, d, 0)], d)
  {
    var k := FirstAt(s, d, 0);
    var p := s[..k] + d;
    assert p == s[..k + |d|];
    forall j | 0 <= j < k ensures !OccursAt(p, d, j) {
      if j + |d| <= |p| {
        assert p[j..j + |d|] == s[j..j + |d|];
        assert !OccursAt(s, d, j);
      }
    }
    FirstIs(p, d, 0, k);
  }

  /** There is only one way to cut a stream into complete pieces and a rest without a delimiter. */
  lemma {:induction false} PiecesAreUnique<T>(pieces: seq<seq<T>>, rest: seq<T>, d: seq<T>)
    requires d != [] && (forall i :: 0 <= i < |pieces| ==> IsPiece(pieces[i], d)) && FirstAt(rest, d, 0) == |rest|
    ensures Pieces(Joined(pieces, d) + rest, d) == pieces
    ensures Rest(Joined(pieces, d) + rest, d) == rest
  {
    hide FirstAt, Pieces, Rest, Joined;
    if pieces == [] {
      JoinNone<T>(d);
      SplitStep(rest, d);
      assert Joined(pieces, d) + rest == rest;
    } else {
      var p, later := pieces[0], pieces[1..];
      var more := Joined(later, d) + rest;
      PiecesAreUnique(later, rest, d);
      JoinFirst(p, later, d);
      assert pieces == [p] + later;
      Regroup(p + d, Joined(later, d), rest);
      assert IsPiece(pieces[0], d);
      PieceComesFirst(p, more, d);
    }
  }

  lemma JoinNone<T>(d: seq<T>)
    ensures Joined([], d) == []
  {
  }

  lemma PieceComesFirst<T>(p: seq<T>, more: seq<T>, d: seq<T>)
    requires d != [] && IsPiece(p, d)
    ensures Pieces(p + d + more, d) == [p] + Pieces(more, d) && Rest(p + d + more, d) == Rest(more, d)
  {
    hide FirstAt, Pieces, Rest;
    FirstStays(p + d, more, d);
    SplitStep(p + d + more, d);
    assert (p + d + more)[..|p|] == p;
    assert (p + d + more)[|p| + |d|..] == more;
  }

  /** A stream yields no piece exactly when the delimiter does not occur in it. */
  lemma NoPieceExactly<T>(s: seq<T>, d: seq<T>)
    requires d != []
    ensures Pieces(s, d) == [] <==> forall i: nat :: !OccursAt(s, d, i)
  {
    var k := FirstAt(s, d, 0);
    if k == |s| {
      forall i: nat ensures !OccursAt(s, d, i) {}
    } else {
      assert OccursAt(s, d, k);
    }
  }
}
