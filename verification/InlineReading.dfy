/**
 * Inline markdown said by its characters: where a span stands, which one comes first, and that the
 * parse of every text is what stands before its first span, that span, and the parse of the rest.
 */
module InlineReading {
  import opened Options
  import opened JsText
  import opened InlineMarkdown

  // ---------------------------------------------------------------------------
  // Where a span stands
  // ---------------------------------------------------------------------------

  /** From `i` up to `e`: the mark, one or more other characters on one line, and the mark again. */
  ghost predicate RunStands(s: JsString, mark: CodeUnit, i: nat, e: nat) {
    && i + 2 < e <= |s| && s[i] == mark && s[e - 1] == mark
    && forall k :: i < k < e - 1 ==> s[k] != mark && s[k] != NEWLINE
  }

  /** Two stars that no third one follows. */
  predicate ClosesStrong(s: JsString, k: nat) {
    k + 2 <= |s| && s[k] == STAR && s[k + 1] == STAR && (k + 2 < |s| ==> s[k + 2] != STAR)
  }

  /** Two stars, one or more characters, and the first two stars behind them that close. */
  ghost predicate StrongStands(s: JsString, i: nat, e: nat) {
    && i + 5 <= e <= |s| && s[i] == STAR && s[i + 1] == STAR && ClosesStrong(s, e - 2)
    && forall k :: i + 3 <= k < e - 2 ==> !ClosesStrong(s, k)
  }

  /** A span of this kind stands from `i` up to `e`. */
  ghost predicate Stands(kind: Kind, s: JsString, i: nat, e: nat) {
    match kind
    case CodeSpan => RunStands(s, BACKTICK, i, e)
    case StrongSpan => StrongStands(s, i, e)
    case EmphasisSpan => RunStands(s, STAR, i, e)
  }

  /** Some span starts at `i`. */
  ghost predicate Opens(s: JsString, i: nat) {
    exists kind, e: nat :: Stands(kind, s, i, e)
  }

  /** The span that counts: no other starts before it, and of those that start with it code and strong come first. */
  ghost predicate StandsFirst(kind: Kind, s: JsString, i: nat, e: nat) {
    && Stands(kind, s, i, e)
    && (forall j: nat :: j < i ==> !Opens(s, j))
    && (forall f: nat :: kind != CodeSpan ==> !Stands(CodeSpan, s, i, f))
    && (forall f: nat :: kind == EmphasisSpan ==> !Stands(StrongSpan, s, i, f))
  }

  /** The nodes are those before, then this one, then those after. */
  predicate Begins(nodes: seq<Node>, before: seq<Node>, node: Node, after: seq<Node>) {
    nodes == before + [node] + after
  }

  /** The node of the span from `i` up to `e`, its inside parsed unless it is code. */
  function NodeOf(kind: Kind, s: JsString, i: nat, e: nat): Node
    requires i + 2 < e <= |s| && (kind == StrongSpan ==> i + 5 <= e)
  {
    match kind
    case CodeSpan => InlineCode(s[i + 1..e - 1])
    case StrongSpan => Strong(Parse(s[i + 2..e - 2]))
    case EmphasisSpan => Emphasis(Parse(s[i + 1..e - 1]))
  }

  // ---------------------------------------------------------------------------
  // The expressions find these spans
  // ---------------------------------------------------------------------------

  lemma {:induction false} RunStops(s: JsString, i: nat, mark: CodeUnit)
    requires i <= |s|
    ensures var j := RunEnd(s, i, mark); j < |s| ==> s[j] == mark || s[j] == NEWLINE
    decreases |s| - i
  {
    if i < |s| && s[i] != mark && s[i] != NEWLINE { RunStops(s, i + 1, mark); }
  }

  lemma RunMatches(kind: Kind, s: JsString, i: nat, e: nat)
    requires kind != StrongSpan && i < |s|
    ensures Stands(kind, s, i, e) <==>
            MatchAt(kind, s, i).Some? && i + 2 < e <= |s|
            && MatchAt(kind, s, i).value == Match(i, s[i + 1..e - 1], e - i)
  {
    var mark := if kind == CodeSpan then BACKTICK else STAR;
    var j := RunEnd(s, i + 1, mark);
    RunAvoids(s, i + 1, mark);
    RunStops(s, i + 1, mark);
    assert Delimiter(kind)[0] == mark;
    if Stands(kind, s, i, e) {
      assert j == e - 1;
    }
  }

  lemma {:induction false} StrongEndIsFirst(s: JsString, k: nat)
    ensures StrongEnd(s, k).Some? ==>
              ClosesStrong(s, StrongEnd(s, k).value)
              && forall j :: k <= j < StrongEnd(s, k).value ==> !ClosesStrong(s, j)
    ensures StrongEnd(s, k).None? ==> forall j: nat :: k <= j ==> !ClosesStrong(s, j)
    decreases if k < |s| then |s| - k else 0
  {
    if k + 2 <= |s| && !ClosesStrong(s, k) { StrongEndIsFirst(s, k + 1); }
  }

  lemma StrongMatches(s: JsString, i: nat, e: nat)
    requires i < |s|
    ensures Stands(StrongSpan, s, i, e) <==>
            MatchAt(StrongSpan, s, i).Some? && i + 5 <= e <= |s|
            && MatchAt(StrongSpan, s, i).value == Match(i, s[i + 2..e - 2], e - i)
  {
    StrongEndIsFirst(s, i + 3);
    hide StrongEnd;
    if Stands(StrongSpan, s, i, e) {
      var k := StrongEnd(s, i + 3);
      assert k.Some? && k.value == e - 2;
    }
  }

  /** What a match found stands there, and what stands is matched. */
  lemma MatchStands(kind: Kind, s: JsString, i: nat)
    requires i < |s|
    ensures MatchAt(kind, s, i).Some? ==> Stands(kind, s, i, i + MatchAt(kind, s, i).value.length)
    ensures forall e: nat :: Stands(kind, s, i, e) ==>
              && MatchAt(kind, s, i).Some? && MatchAt(kind, s, i).value.length == e - i
              && MatchAt(kind, s, i).value.index == i
              && MatchAt(kind, s, i).value.content == (if kind == StrongSpan then s[i + 2..e - 2] else s[i + 1..e - 1])
  {
    if MatchAt(kind, s, i).Some? {
      MatchIsDelimited(kind, s, i);
      var e := i + MatchAt(kind, s, i).value.length;
      if kind == StrongSpan { StrongMatches(s, i, e); } else { RunMatches(kind, s, i, e); }
    }
    forall e: nat | Stands(kind, s, i, e)
      ensures MatchAt(kind, s, i).Some?
      ensures MatchAt(kind, s, i).value
              == Match(i, if kind == StrongSpan then s[i + 2..e - 2] else s[i + 1..e - 1], e - i)
    {
      if kind == StrongSpan { StrongMatches(s, i, e); } else { RunMatches(kind, s, i, e); }
    }
  }

  /** The search stops at the first place where a span of the kind stands. */
  lemma {:induction false} ExecIsFirst(kind: Kind, s: JsString, i: nat)
    requires i <= |s|
    ensures Exec(kind, s, i).Some? ==>
              forall j :: i <= j < Exec(kind, s, i).value.index ==> MatchAt(kind, s, j).None?
    ensures Exec(kind, s, i).None? ==> forall j :: i <= j < |s| ==> MatchAt(kind, s, j).None?
    decreases |s| - i
  {
    hide MatchAt;
    if i < |s| {
      if MatchAt(kind, s, i).None? { ExecIsFirst(kind, s, i + 1); } else { MatchIsDelimited(kind, s, i); }
    }
  }

  lemma StandsInside(kind: Kind, s: JsString, i: nat, e: nat)
    requires Stands(kind, s, i, e)
    ensures i + 2 < e <= |s| && (kind == StrongSpan ==> i + 5 <= e)
  {
  }

  /** A search finds a span of its kind, and none that starts earlier is passed over. */
  lemma StandsIsFound(kind: Kind, s: JsString, i: nat, e: nat)
    requires Stands(kind, s, i, e)
    ensures Exec(kind, s, 0).Some? && Exec(kind, s, 0).value.index <= i
  {
    hide MatchAt, Exec;
    StandsInside(kind, s, i, e);
    hide Stands;
    MatchStands(kind, s, i);
    ExecIsFirst(kind, s, 0);
  }

  lemma FoundStands(kind: Kind, s: JsString)
    requires Exec(kind, s, 0).Some?
    ensures var m := Exec(kind, s, 0).value; Stands(kind, s, m.index, m.index + m.length)
  {
    hide MatchAt, Exec, Stands;
    MatchStands(kind, s, Exec(kind, s, 0).value.index);
  }

  /** The parser takes the search that stops first, and on a tie the earlier kind. */
  lemma EarliestIsLeast(s: JsString, kind: Kind)
    requires Exec(kind, s, 0).Some?
    ensures Earliest(s).Some? && Earliest(s).value.found.index <= Exec(kind, s, 0).value.index
    ensures Earliest(s).value.found.index == Exec(kind, s, 0).value.index && Earliest(s).value.kind != kind ==>
              kind == EmphasisSpan || (kind == StrongSpan && Earliest(s).value.kind == CodeSpan)
  {
    hide MatchAt, Exec;
  }

  /** What the parser takes next is what stands first, and it takes something whenever a span stands. */
  lemma EarliestStandsFirst(s: JsString)
    ensures Earliest(s).None? ==> forall i: nat :: !Opens(s, i)
    ensures Earliest(s).Some? ==>
              var m := Earliest(s).value.found;
              StandsFirst(Earliest(s).value.kind, s, m.index, m.index + m.length)
  {
    hide Stands, Exec, Earliest, MatchAt;
    var r := Earliest(s);
    forall i: nat | Opens(s, i) ensures r.Some? && r.value.found.index <= i {
      var kind, e: nat :| Stands(kind, s, i, e);
      StandsIsFound(kind, s, i, e);
      EarliestIsLeast(s, kind);
    }
    if r.Some? {
      var kind, i := r.value.kind, r.value.found.index;
      FoundStands(kind, s);
      forall other, f: nat | Stands(other, s, i, f)
        ensures other == kind || other == EmphasisSpan || (other == StrongSpan && kind == CodeSpan)
      {
        StandsIsFound(other, s, i, f);
        EarliestIsLeast(s, other);
      }
    }
  }

  /** Two spans of one kind that start together end together. */
  lemma SameEnd(kind: Kind, s: JsString, i: nat, e: nat, f: nat)
    requires Stands(kind, s, i, e) && Stands(kind, s, i, f)
    ensures e == f
  {
    StandsInside(kind, s, i, e);
    MatchStands(kind, s, i);
  }

  lemma FirstIsUnique(s: JsString, kind: Kind, i: nat, e: nat, kind': Kind, i': nat, e': nat)
    requires StandsFirst(kind, s, i, e) && StandsFirst(kind', s, i', e')
    ensures kind == kind' && i == i' && e == e'
  {
    hide Stands;
    assert Opens(s, i) && Opens(s, i');
    assert i == i';
    assert kind == kind';
    SameEnd(kind, s, i, e, e');
  }

  /**
   * The parse of a text begins with what stands before its first span, as text, and that span;
   * the rest is parsed by itself. Without a span a text is one text node, and none when empty.
   */
  lemma ParseFollowsFirstSpan(s: JsString)
    ensures forall kind, i: nat, e: nat :: StandsFirst(kind, s, i, e) ==>
              && i + 2 < e <= |s| && (kind == StrongSpan ==> i + 5 <= e)
              && Begins(Parse(s), if i == 0 then [] else [Text(s[..i])], NodeOf(kind, s, i, e), Parse(s[e..]))
    ensures (forall i: nat :: !Opens(s, i)) <==> Parse(s) == if s == [] then [] else [Text(s)]
  {
    hide Parse, Stands, MatchAt, Exec, Earliest, Opens, NodeOf;
    EarliestStandsFirst(s);
    forall kind, i: nat, e: nat | StandsFirst(kind, s, i, e)
      ensures i + 2 < e <= |s| && (kind == StrongSpan ==> i + 5 <= e)
      ensures Begins(Parse(s), if i == 0 then [] else [Text(s[..i])], NodeOf(kind, s, i, e), Parse(s[e..]))
    {
      SpanIsParsed(s, kind, i, e);
    }
    if Earliest(s).None? {
      PlainIsParsed(s);
    } else {
      var kind, i := Earliest(s).value.kind, Earliest(s).value.found.index;
      var e := i + Earliest(s).value.found.length;
      SpanIsParsed(s, kind, i, e);
      SpanIsNoText(s, kind, i, e);
      FirstOpens(s, kind, i, e);
    }
  }

  lemma FirstOpens(s: JsString, kind: Kind, i: nat, e: nat)
    requires StandsFirst(kind, s, i, e)
    ensures Opens(s, i)
  {
    hide Stands;
  }

  lemma PlainIsParsed(s: JsString)
    requires Earliest(s).None?
    ensures Parse(s) == if s == [] then [] else [Text(s)]
  {
    hide Earliest;
  }

  lemma SpanIsParsed(s: JsString, kind: Kind, i: nat, e: nat)
    requires StandsFirst(kind, s, i, e)
    ensures i + 2 < e <= |s| && (kind == StrongSpan ==> i + 5 <= e)
    ensures Begins(Parse(s), if i == 0 then [] else [Text(s[..i])], NodeOf(kind, s, i, e), Parse(s[e..]))
  {
    StandsInside(kind, s, i, e);
    EarliestStandsFirst(s);
    assert Opens(s, i);
    hide Parse, Stands, MatchAt, Exec, Earliest, Opens, NodeOf;
    var m := Earliest(s).value.found;
    FirstIsUnique(s, kind, i, e, Earliest(s).value.kind, m.index, m.index + m.length);
    hide StandsFirst;
    TakenIsParsed(s);
  }

  /** The parse begins with what the parser takes first. */
  lemma TakenIsParsed(s: JsString)
    requires s != [] && Earliest(s).Some?
    ensures var kind, i := Earliest(s).value.kind, Earliest(s).value.found.index;
            var e := i + Earliest(s).value.found.length;
            && i + 2 < e <= |s| && (kind == StrongSpan ==> i + 5 <= e)
            && Begins(Parse(s), if i == 0 then [] else [Text(s[..i])], NodeOf(kind, s, i, e), Parse(s[e..]))
  {
    hide *;
    var kind, i := Earliest(s).value.kind, Earliest(s).value.found.index;
    var e := TakenEnd(s);
    ParseTaken(s);
    SameNode(s, kind, i, e, Earliest(s).value.found.content);
  }

  lemma TakenEnd(s: JsString) returns (e: nat)
    requires s != [] && Earliest(s).Some?
    ensures var kind, m := Earliest(s).value.kind, Earliest(s).value.found;
            && e == m.index + m.length && m.index + 2 < e <= |s| && (kind == StrongSpan ==> m.index + 5 <= e)
            && m.content == if kind == StrongSpan then s[m.index + 2..e - 2] else s[m.index + 1..e - 1]
  {
    hide *;
    var kind, m := Earliest(s).value.kind, Earliest(s).value.found;
    FoundStands(kind, s);
    e := m.index + m.length;
    StandsInside(kind, s, m.index, e);
    CapturedInside(s, kind, m.index, m);
  }

  lemma ParseTaken(s: JsString)
    requires s != [] && Earliest(s).Some?
    ensures var kind, m := Earliest(s).value.kind, Earliest(s).value.found;
            && m.index + m.length <= |s|
            && Begins(Parse(s), TextNodes(s[..m.index]),
                      SpanNode(kind, m.content, if kind == CodeSpan then [] else Parse(m.content)),
                      Parse(s[m.index + m.length..]))
  {
    hide Parse, Earliest, Exec, MatchAt, TextNodes, SpanNode;
    ParseStep(s);
  }

  lemma SameNode(s: JsString, kind: Kind, i: nat, e: nat, content: JsString)
    requires i + 2 < e <= |s| && (kind == StrongSpan ==> i + 5 <= e)
    requires content == if kind == StrongSpan then s[i + 2..e - 2] else s[i + 1..e - 1]
    ensures SpanNode(kind, content, if kind == CodeSpan then [] else Parse(content)) == NodeOf(kind, s, i, e)
    ensures TextNodes(s[..i]) == if i == 0 then [] else [Text(s[..i])]
  {
    hide Parse;
  }

  /** What the search captured is the inside of the span. */
  lemma CapturedInside(s: JsString, kind: Kind, i: nat, m: Match)
    requires Stands(kind, s, i, i + m.length) && Exec(kind, s, 0) == Some(m) && m.index == i
    ensures m.content == if kind == StrongSpan then s[i + 2..i + m.length - 2] else s[i + 1..i + m.length - 1]
  {
    StandsInside(kind, s, i, i + m.length);
    MatchStands(kind, s, i);
  }

  lemma SpanIsNoText(s: JsString, kind: Kind, i: nat, e: nat)
    requires i + 2 < e <= |s| && (kind == StrongSpan ==> i + 5 <= e)
    ensures (if i == 0 then [] else [Text(s[..i])]) + [NodeOf(kind, s, i, e)] + Parse(s[e..])
            != if s == [] then [] else [Text(s)]
  {
    hide Parse;
    var before := if i == 0 then [] else [Text(s[..i])];
    assert (before + [NodeOf(kind, s, i, e)] + Parse(s[e..]))[|before|] == NodeOf(kind, s, i, e);
  }
}
