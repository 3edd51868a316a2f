/**
 * Inline markdown: code spans, strong and emphasis. The three regular expressions are written
 * out as explicit leftmost searches.
 */
module InlineMarkdown {
  import opened Options
  import opened JsText
  import opened Sequences

  datatype Node =
    | Text(content: JsString)
    | Strong(children: seq<Node>)
    | Emphasis(children: seq<Node>)
    | InlineCode(content: JsString)
    | HardBreak

  datatype Kind = CodeSpan | StrongSpan | EmphasisSpan

  /** A match: where it starts, what its group captured, and its whole length. */
  datatype Match = Match(index: nat, content: JsString, length: nat)

  function Delimiter(kind: Kind): JsString {
    match kind
    case CodeSpan => [BACKTICK]
    case StrongSpan => [STAR, STAR]
    case EmphasisSpan => [STAR]
  }

  /** Where the run of characters other than `delimiter` and newline that starts at `i` stops. */
  function RunEnd(s: JsString, i: nat, delimiter: CodeUnit): (j: nat)
    requires i <= |s|
    ensures i <= j <= |s|
    decreases |s| - i
  {
    if i < |s| && s[i] != delimiter && s[i] != NEWLINE then RunEnd(s, i + 1, delimiter) else i
  }

  /** The first `**` at or after `k` that is not followed by a further `*`. */
  function StrongEnd(s: JsString, k: nat): (r: Option<nat>)
    ensures r.Some? ==> k <= r.value && r.value + 2 <= |s| && s[r.value] == STAR && s[r.value + 1] == STAR
    decreases if k < |s| then |s| - k else 0
  {
    if k + 2 > |s| then None
    else if s[k] == STAR && s[k + 1] == STAR && (k + 2 == |s| || s[k + 2] != STAR) then Some(k)
    else StrongEnd(s, k + 1)
  }

  /** The match of one expression starting exactly at `i`. */
  function MatchAt(kind: Kind, s: JsString, i: nat): Option<Match>
    requires i < |s|
  {
    match kind
    case StrongSpan =>
      if i + 1 < |s| && s[i] == STAR && s[i + 1] == STAR then
        match StrongEnd(s, i + 3)
        case None => None
        case Some(k) => Some(Match(i, s[i + 2..k], k + 2 - i))
      else None
    case _ =>
      var d := Delimiter(kind)[0];
      if s[i] != d then None
      else
        var j := RunEnd(s, i + 1, d);
        if j == i + 1 || j == |s| || s[j] != d then None
        else Some(Match(i, s[i + 1..j], j + 1 - i))
  }

  /** The leftmost match at or after `i`. */
  function Exec(kind: Kind, s: JsString, i: nat): (r: Option<Match>)
    requires i <= |s|
    ensures r.Some? ==> i <= r.value.index < |s| && MatchAt(kind, s, r.value.index) == r
    decreases |s| - i
  {
    if i == |s| then None
    else if MatchAt(kind, s, i).Some? then MatchAt(kind, s, i)
    else Exec(kind, s, i + 1)
  }

  datatype Candidate = Candidate(kind: Kind, found: Match)

  function CandidateOf(kind: Kind, found: Option<Match>): Option<Candidate> {
    if found.None? then None else Some(Candidate(kind, found.value))
  }

  function Earlier(best: Option<Candidate>, next: Option<Candidate>): Option<Candidate> {
    if next.None? then best
    else if best.None? || next.value.found.index < best.value.found.index then next
    else best
  }

  /** The leftmost of the three matches; ties go to code, then strong, then emphasis. */
  function Earliest(s: JsString): (r: Option<Candidate>)
    ensures r.Some? ==> Exec(r.value.kind, s, 0) == Some(r.value.found)
  {
    Earlier(Earlier(CandidateOf(CodeSpan, Exec(CodeSpan, s, 0)), CandidateOf(StrongSpan, Exec(StrongSpan, s, 0))),
            CandidateOf(EmphasisSpan, Exec(EmphasisSpan, s, 0)))
  }

  /** A match is its delimiter, its non-empty content, and its delimiter again. */
  lemma MatchIsDelimited(kind: Kind, s: JsString, i: nat)
    requires i < |s| && MatchAt(kind, s, i).Some?
    ensures var m := MatchAt(kind, s, i).value;
            && m.index == i && i + m.length <= |s| && 0 < |m.content| < m.length
            && s[i..i + m.length] == Delimiter(kind) + m.content + Delimiter(kind)
  {
    if kind == StrongSpan {
      StrongIsDelimited(s, i);
    } else {
      SingleIsDelimited(kind, s, i);
    }
  }

  lemma StrongIsDelimited(s: JsString, i: nat)
    requires i < |s| && MatchAt(StrongSpan, s, i).Some?
    ensures var m := MatchAt(StrongSpan, s, i).value;
            && m.index == i && i + m.length <= |s| && 0 < |m.content| < m.length
            && s[i..i + m.length] == [STAR, STAR] + m.content + [STAR, STAR]
  {
    hide StrongEnd;
    var k := StrongEnd(s, i + 3).value;
    assert s[i..i + 2] == [STAR, STAR] && s[k..k + 2] == [STAR, STAR];
    SliceInThree(s, i, i + 2, k, k + 2);
  }

  lemma SingleIsDelimited(kind: Kind, s: JsString, i: nat)
    requires kind != StrongSpan && i < |s| && MatchAt(kind, s, i).Some?
    ensures var m := MatchAt(kind, s, i).value;
            && m.index == i && i + m.length <= |s| && 0 < |m.content| < m.length
            && s[i..i + m.length] == Delimiter(kind) + m.content + Delimiter(kind)
  {
    hide RunEnd;
    var j := RunEnd(s, i + 1, Delimiter(kind)[0]);
    assert s[i..i + 1] == Delimiter(kind) && s[j..j + 1] == Delimiter(kind);
    SliceInThree(s, i, i + 1, j, j + 1);
  }

  lemma SliceInThree(s: JsString, i: nat, j: nat, k: nat, l: nat)
    requires i <= j <= k <= l <= |s|
    ensures s[i..l] == s[i..j] + s[j..k] + s[k..l]
  {
  }

  function TextNodes(content: JsString): seq<Node> {
    if content == [] then [] else [Text(content)]
  }

  function SpanNode(kind: Kind, content: JsString, children: seq<Node>): Node {
    match kind
    case CodeSpan => InlineCode(content)
    case StrongSpan => Strong(children)
    case EmphasisSpan => Emphasis(children)
  }

  function Parse(s: JsString): seq<Node>
    decreases |s|
  {
    if s == [] then []
    else
      match Earliest(s)
      case None => [Text(s)]
      case Some(Candidate(kind, found)) =>
        MatchIsDelimited(kind, s, found.index);
        TextNodes(s[..found.index])
        + [SpanNode(kind, found.content, if kind == CodeSpan then [] else Parse(found.content))]
        + Parse(s[found.index + found.length..])
  }

  lemma ParseStep(s: JsString)
    requires s != [] && Earliest(s).Some?
    ensures var kind, m := Earliest(s).value.kind, Earliest(s).value.found;
            && m.index + m.length <= |s| && 0 < |m.content| < m.length
            && s[m.index..m.index + m.length] == Delimiter(kind) + m.content + Delimiter(kind)
            && Parse(s) == TextNodes(s[..m.index])
                           + [SpanNode(kind, m.content, if kind == CodeSpan then [] else Parse(m.content))]
                           + Parse(s[m.index + m.length..])
  {
    hide MatchAt, Exec, Earliest, SpanNode, TextNodes;
    MatchIsDelimited(Earliest(s).value.kind, s, Earliest(s).value.found.index);
  }

  lemma ParsePlain(s: JsString)
    requires s == [] || Earliest(s).None?
    ensures Parse(s) == TextNodes(s)
  {
    hide Earliest;
  }

  /** The parsing loop, recursive for nested spans; it terminates and meets `Parse`. */
  method ParseInline(text: JsString) returns (nodes: seq<Node>)
    ensures nodes == Parse(text)
    decreases |text|
  {
    hide MatchAt, Exec, Earliest, Parse, SpanNode, TextNodes;
    nodes := [];
    var rest := text;
    while rest != []
      invariant |rest| <= |text|
      invariant nodes + Parse(rest) == Parse(text)
      decreases |rest|
    {
      var next := Earliest(rest);
      if next.None? {
        ParsePlain(rest);
        nodes := nodes + TextNodes(rest);
        return;
      }
      ghost var done := nodes;
      var found := next.value.found;
      ParseStep(rest);
      nodes := nodes + TextNodes(rest[..found.index]);
      var children := [];
      if next.value.kind != CodeSpan {
        children := ParseInline(found.content);
      }
      var node := SpanNode(next.value.kind, found.content, children);
      nodes := nodes + [node];
      var tail := rest[found.index + found.length..];
      RegroupFour(done, TextNodes(rest[..found.index]), [node], Parse(tail));
      rest := tail;
    }
    ParsePlain(rest);
    NoText();
  }

  lemma NoText()
    ensures TextNodes([]) == []
  {
  }

  // ---------------------------------------------------------------------------
  // Printing
  // ---------------------------------------------------------------------------

  /** Put the delimiters back; a hard break is a newline. */
  function Print(node: Node): JsString {
    match node
    case Text(content) => content
    case Strong(children) => Delimiter(StrongSpan) + PrintAll(children) + Delimiter(StrongSpan)
    case Emphasis(children) => Delimiter(EmphasisSpan) + PrintAll(children) + Delimiter(EmphasisSpan)
    case InlineCode(content) => Delimiter(CodeSpan) + content + Delimiter(CodeSpan)
    case HardBreak => [NEWLINE]
  }

  function PrintAll(nodes: seq<Node>): JsString {
    if nodes == [] then [] else Print(nodes[0]) + PrintAll(nodes[1..])
  }

  lemma {:induction false} PrintAppend(a: seq<Node>, b: seq<Node>)
    ensures PrintAll(a + b) == PrintAll(a) + PrintAll(b)
  {
    if a == [] {
      assert a + b == b;
    } else {
      assert (a + b)[0] == a[0] && (a + b)[1..] == a[1..] + b;
      PrintAppend(a[1..], b);
    }
  }

  /** Printing what was parsed gives back the text, for every text. */
  lemma {:induction false} ParsePrintsBack(s: JsString)
    ensures PrintAll(Parse(s)) == s
    decreases |s|
  {
    hide MatchAt, Exec, Earliest, Parse, SpanNode, TextNodes, PrintAll, Print;
    PrintText(s);
    if s == [] || Earliest(s).None? {
      ParsePlain(s);
    } else {
      var kind, m := Earliest(s).value.kind, Earliest(s).value.found;
      ParseStep(s);
      var before, tail := s[..m.index], s[m.index + m.length..];
      ParsePrintsBack(m.content);
      ParsePrintsBack(tail);
      PrintSpan(kind, m.content);
      PrintText(before);
      PrintThree(TextNodes(before), SpanNode(kind, m.content, if kind == CodeSpan then [] else Parse(m.content)),
                 Parse(tail));
      assert s == before + s[m.index..m.index + m.length] + tail;
    }
  }

  lemma PrintText(s: JsString)
    ensures PrintAll(TextNodes(s)) == s
  {
    if s != [] {
      assert [Text(s)][1..] == [];
    }
  }

  lemma PrintSpan(kind: Kind, content: JsString)
    requires PrintAll(Parse(content)) == content
    ensures Print(SpanNode(kind, content, if kind == CodeSpan then [] else Parse(content)))
         == Delimiter(kind) + content + Delimiter(kind)
  {
  }

  lemma PrintThree(before: seq<Node>, node: Node, after: seq<Node>)
    ensures PrintAll(before + [node] + after) == PrintAll(before) + Print(node) + PrintAll(after)
  {
    PrintAppend(before + [node], after);
    PrintAppend(before, [node]);
    assert PrintAll([node]) == Print(node);
  }

  /** Text nodes are never empty and never adjacent; spans are never empty. */
  predicate Normal(nodes: seq<Node>) {
    && (forall i :: 0 <= i < |nodes| ==> nodes[i] != Text([]) && NormalNode(nodes[i]))
    && (forall i :: 0 <= i < |nodes| - 1 ==> !(nodes[i].Text? && nodes[i + 1].Text?))
  }

  predicate NormalNode(node: Node) {
    match node
    case Strong(children) => children != [] && Normal(children)
    case Emphasis(children) => children != [] && Normal(children)
    case InlineCode(content) => content != [] && BACKTICK !in content && NEWLINE !in content
    case Text(_) => true
    case HardBreak => false
  }

  lemma {:induction false} RunAvoids(s: JsString, i: nat, delimiter: CodeUnit)
    requires i <= |s|
    ensures forall k :: i <= k < RunEnd(s, i, delimiter) ==> s[k] != delimiter && s[k] != NEWLINE
    decreases |s| - i
  {
    if i < |s| && s[i] != delimiter && s[i] != NEWLINE { RunAvoids(s, i + 1, delimiter); }
  }

  /** Every parse is in normal form, at every depth. */
  lemma {:induction false} ParseIsNormal(s: JsString)
    ensures Normal(Parse(s)) && (s != [] ==> Parse(s) != [])
    decreases |s|
  {
    hide MatchAt, Exec, Earliest, Normal, Parse, SpanNode, TextNodes;
    if s == [] || Earliest(s).None? {
      ParsePlain(s);
      NormalText(s);
    } else {
      var kind, m := Earliest(s).value.kind, Earliest(s).value.found;
      ParseStep(s);
      ParseIsNormal(m.content);
      ParseIsNormal(s[m.index + m.length..]);
      SpanIsNormal(s);
      NormalJoin(s[..m.index], SpanNode(kind, m.content, if kind == CodeSpan then [] else Parse(m.content)),
                 Parse(s[m.index + m.length..]));
    }
  }

  lemma SpanIsNormal(s: JsString)
    requires s != [] && Earliest(s).Some?
    requires var m := Earliest(s).value.found; Normal(Parse(m.content)) && (m.content != [] ==> Parse(m.content) != [])
    ensures var kind, m := Earliest(s).value.kind, Earliest(s).value.found;
            var node := SpanNode(kind, m.content, if kind == CodeSpan then [] else Parse(m.content));
            NormalNode(node) && !node.Text?
  {
    hide MatchAt, Exec, Earliest, Parse, Normal;
    var kind, m := Earliest(s).value.kind, Earliest(s).value.found;
    MatchIsDelimited(kind, s, m.index);
    if kind == CodeSpan { CodeContentIsPlain(s, m.index); }
  }

  lemma NormalText(text: JsString)
    ensures Normal(TextNodes(text)) && (text != [] ==> TextNodes(text) != [])
  {
  }

  lemma NormalJoin(text: JsString, node: Node, after: seq<Node>)
    requires NormalNode(node) && !node.Text? && Normal(after)
    ensures Normal(TextNodes(text) + [node] + after)
  {
    var before := TextNodes(text);
    var r := before + [node] + after;
    forall i | 0 <= i < |r| ensures r[i] != Text([]) && NormalNode(r[i]) {
      if i > |before| { assert r[i] == after[i - |before| - 1]; }
    }
    forall i | 0 <= i < |r| - 1 ensures !(r[i].Text? && r[i + 1].Text?) {
      if i > |before| { assert r[i] == after[i - |before| - 1] && r[i + 1] == after[i - |before|]; }
    }
  }

  lemma CodeContentIsPlain(s: JsString, i: nat)
    requires i < |s| && MatchAt(CodeSpan, s, i).Some?
    ensures BACKTICK !in MatchAt(CodeSpan, s, i).value.content && NEWLINE !in MatchAt(CodeSpan, s, i).value.content
  {
    RunAvoids(s, i + 1, BACKTICK);
  }
}
