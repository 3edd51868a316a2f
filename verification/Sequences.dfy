/** Concatenations: regrouping, cancelling, and joining many parts. */
module Sequences {

  lemma Regroup<T>(a: seq<T>, b: seq<T>, c: seq<T>)
    ensures a + b + c == a + (b + c)
  {
  }

  lemma RegroupFour<T>(a: seq<T>, b: seq<T>, c: seq<T>, d: seq<T>)
    ensures a + b + c + d == a + (b + c + d) == a + (b + (c + d))
  {
  }

  lemma CommonStart<T>(start: seq<T>, a: seq<T>, b: seq<T>)
    ensures start + a == start + b <==> a == b
  {
    if start + a == start + b {
      assert a == (start + a)[|start|..] == (start + b)[|start|..] == b;
    }
  }

  lemma CommonEnd<T>(a: seq<T>, b: seq<T>, end: seq<T>)
    ensures a + end == b + end <==> a == b
  {
    if a + end == b + end {
      assert |a + end| == |b + end|;
      assert a == (a + end)[..|a|] == (b + end)[..|b|] == b;
    }
  }

  function Concat<T>(parts: seq<seq<T>>): seq<T> {
    if parts == [] then [] else Concat(parts[..|parts| - 1]) + parts[|parts| - 1]
  }

  lemma {:induction false} ConcatFront<T>(first: seq<T>, rest: seq<seq<T>>)
    ensures Concat([first] + rest) == first + Concat(rest)
  {
    var all, n := [first] + rest, |rest|;
    if n == 0 {
      assert all[..0] == [] && first + [] == first;
    } else {
      assert all[..n] == [first] + rest[..n - 1];
      ConcatFront(first, rest[..n - 1]);
    }
  }
}
