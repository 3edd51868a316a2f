/**
 * Splitting chat text into prose and fenced code. The fence-opening regular expression is
 * written out as an explicit leftmost search.
 */
module FenceSegments {
  import opened Options
  import opened JsText
  import opened Sequences

  datatype Language = Cpp | Python | Json

  datatype Segment =
    | Text(content: JsString, sourceStart: nat, sourceEnd: nat)
    | Code(content: JsString, language: Option<Language>, closed: bool, sourceStart: nat, sourceEnd: nat)

  /** Three backticks at `i`. */
  predicate HasFence(s: JsString, i: nat) {
    i + 3 <= |s| && s[i] == BACKTICK && s[i + 1] == BACKTICK && s[i + 2] == BACKTICK
  }

  // ---------------------------------------------------------------------------
  // Language hints
  // ---------------------------------------------------------------------------

  /** Lower case; no character outside A-Z lower-cases to a character of an alias. */
  function LowerCase(s: JsString): JsString {
    seq(|s|, i requires 0 <= i < |s| => if 0x41 <= s[i] <= 0x5A then s[i] + 0x20 else s[i])
  }

  function NormalizeLanguage(hint: JsString): Option<Language> {
    var key := LowerCase(Trim(hint));
    if key in {Units("cpp"), Units("c++"), Units("cxx"), Units("cc")} then Some(Cpp)
    else if key in {Units("py"), Units("python")} then Some(Python)
    else if key == Units("json") then Some(Json)
    else None
  }

  // ---------------------------------------------------------------------------
  // The fence opener:  (^|\n)[ \t]*```([^\n`]*)(?:\n|$)
  // ---------------------------------------------------------------------------

  /** Where `[ \t]*` stops when started at `i`. */
  function SkipBlanks(s: JsString, i: nat): (j: nat)
    requires i <= |s|
    ensures i <= j <= |s|
    ensures forall k :: i <= k < j ==> s[k] == SPACE || s[k] == TAB
    decreases |s| - i
  {
    if i < |s| && (s[i] == SPACE || s[i] == TAB) then SkipBlanks(s, i + 1) else i
  }

  /** Where `[^\n`]*` stops when started at `i`. */
  function SkipHint(s: JsString, i: nat): (j: nat)
    requires i <= |s|
    ensures i <= j <= |s|
    ensures forall k :: i <= k < j ==> s[k] != NEWLINE && s[k] != BACKTICK
    decreases |s| - i
  {
    if i < |s| && s[i] != NEWLINE && s[i] != BACKTICK then SkipHint(s, i + 1) else i
  }

  datatype OpenerLine = OpenerLine(hint: JsString, end: nat)

  /** The opener after its line anchor: blanks, a fence, a hint without backticks, and the line's end. */
  function OpenerAt(s: JsString, i: nat): (r: Option<OpenerLine>)
    requires i <= |s|
    ensures r.Some? ==> i + 3 <= r.value.end <= |s|
  {
    var b := SkipBlanks(s, i);
    if !HasFence(s, b) then None
    else
      var e := SkipHint(s, b + 3);
      if e == |s| then Some(OpenerLine(s[b + 3..e], e))
      else if s[e] == NEWLINE then Some(OpenerLine(s[b + 3..e], e + 1))
      else None
  }

  /** A match: where it starts, whether it consumed an anchoring newline, and the rest of its line. */
  datatype FenceMatch = FenceMatch(index: nat, anchor: nat, line: OpenerLine)

  function MatchAt(s: JsString, i: nat): (r: Option<FenceMatch>)
    requires i < |s|
    ensures r.Some? ==> r.value.index == i && i + r.value.anchor <= |s|
                        && OpenerAt(s, i + r.value.anchor) == Some(r.value.line)
  {
    if i == 0 && OpenerAt(s, 0).Some? then Some(FenceMatch(0, 0, OpenerAt(s, 0).value))
    else if s[i] == NEWLINE && OpenerAt(s, i + 1).Some? then Some(FenceMatch(i, 1, OpenerAt(s, i + 1).value))
    else None
  }

  /** The leftmost match at or after `i`. */
  function ExecFenceOpen(s: JsString, i: nat): (r: Option<FenceMatch>)
    requires i <= |s|
    ensures r.Some? ==> i <= r.value.index < |s| && MatchAt(s, r.value.index) == r
    decreases |s| - i
  {
    hide MatchAt;
    if i == |s| then None
    else if MatchAt(s, i).Some? then MatchAt(s, i)
    else ExecFenceOpen(s, i + 1)
  }

  // ---------------------------------------------------------------------------
  // The closing fence
  // ---------------------------------------------------------------------------

  function LineEnd(s: JsString, i: nat): nat
    requires i <= |s|
  {
    if IndexOf(s, NEWLINE, i) == -1 then |s| else IndexOf(s, NEWLINE, i)
  }

  /** The line starting at `i` closes a fence. */
  predicate ClosesAt(s: JsString, i: nat)
    requires i <= |s|
  {
    HasFence(Trim(s[i..LineEnd(s, i)]), 0)
  }

  /** A line begins at `k`, when lines are counted from `from`. */
  predicate IsLineStart(s: JsString, from: nat, k: nat) {
    from <= k <= |s| && (k == from || s[k - 1] == NEWLINE)
  }

  datatype ClosingFence = ClosingFence(bodyEnd: nat, fenceEnd: nat)

  /** The first closing line at or after `from`, if any. */
  function FindClose(s: JsString, from: nat): (r: Option<ClosingFence>)
    requires from <= |s|
    ensures r.Some? ==> from <= r.value.bodyEnd <= r.value.fenceEnd <= |s|
    decreases |s| - from
  {
    var newline := IndexOf(s, NEWLINE, from);
    if ClosesAt(s, from) then Some(ClosingFence(from, if newline == -1 then |s| else newline + 1))
    else if newline == -1 then None
    else FindClose(s, newline + 1)
  }

  /** The closing line found is a line start that closes, and no line start before it closes. */
  lemma {:induction false} FindCloseIsFirst(s: JsString, from: nat)
    requires from <= |s|
    ensures FindClose(s, from).Some? ==>
              var close := FindClose(s, from).value;
              IsLineStart(s, from, close.bodyEnd) && ClosesAt(s, close.bodyEnd)
    ensures forall k: nat ::
              IsLineStart(s, from, k) && (FindClose(s, from).Some? ==> k < FindClose(s, from).value.bodyEnd) ==>
                !ClosesAt(s, k)
    decreases |s| - from
  {
    hide ClosesAt;
    var newline := IndexOf(s, NEWLINE, from);
    if !ClosesAt(s, from) && newline != -1 {
      FindCloseIsFirst(s, newline + 1);
      assert forall k: nat :: IsLineStart(s, from, k) && k != from ==> IsLineStart(s, newline + 1, k);
    }
  }

  method FindClosingFence(raw: JsString, from: nat) returns (r: Option<ClosingFence>)
    requires from <= |raw|
    ensures r == FindClose(raw, from)
  {
    hide Trim, HasFence;
    var lineStart := from;
    while true
      invariant from <= lineStart <= |raw|
      invariant FindClose(raw, lineStart) == FindClose(raw, from)
      decreases |raw| - lineStart
    {
      var newline := IndexOf(raw, NEWLINE, lineStart);
      var lineEnd := if newline == -1 then |raw| else newline;
      if HasFence(Trim(raw[lineStart..lineEnd]), 0) {
        return Some(ClosingFence(lineStart, if newline == -1 then |raw| else newline + 1));
      }
      if newline == -1 { return None; }
      lineStart := newline + 1;
    }
  }

  // ---------------------------------------------------------------------------
  // Segments
  // ---------------------------------------------------------------------------

  function StripTrailingNewline(body: JsString): JsString {
    if body != [] && body[|body| - 1] == NEWLINE then body[..|body| - 1] else body
  }

  /** One fenced block: its opener line, body and closing line. */
  datatype Block = Block(fenceStart: nat, bodyStart: nat, bodyEnd: nat, end: nat, closed: bool,
                         language: Option<Language>)

  /** The first fenced block of `raw` from `cursor` on. */
  function NextBlock(raw: JsString, cursor: nat): (r: Option<Block>)
    requires cursor < |raw|
    ensures r.Some? ==> cursor <= r.value.fenceStart < r.value.bodyStart <= r.value.bodyEnd <= r.value.end <= |raw|
  {
    match ExecFenceOpen(raw[cursor..], 0)
    case None => None
    case Some(open) =>
      var fenceStart := cursor + open.index + open.anchor;
      var bodyStart := cursor + open.line.end;
      var language := NormalizeLanguage(open.line.hint);
      match FindClose(raw, bodyStart)
      case None => Some(Block(fenceStart, bodyStart, |raw|, |raw|, false, language))
      case Some(close) => Some(Block(fenceStart, bodyStart, close.bodyEnd, close.fenceEnd, true, language))
  }

  function TextBefore(raw: JsString, cursor: nat, fenceStart: nat): seq<Segment>
    requires cursor <= fenceStart <= |raw|
  {
    if fenceStart > cursor then [Text(raw[cursor..fenceStart], cursor, fenceStart)] else []
  }

  function CodeOf(raw: JsString, block: Block): Segment
    requires block.bodyStart <= block.bodyEnd <= |raw|
  {
    Code(StripTrailingNewline(raw[block.bodyStart..block.bodyEnd]), block.language, block.closed, block.fenceStart,
         block.end)
  }

  /** The segments of `raw` from `cursor` on. */
  function Split(raw: JsString, cursor: nat): seq<Segment>
    requires cursor <= |raw|
    decreases |raw| - cursor
  {
    if cursor == |raw| then []
    else
      match NextBlock(raw, cursor)
      case None => [Text(raw[cursor..], cursor, |raw|)]
      case Some(block) =>
        TextBefore(raw, cursor, block.fenceStart)
        + ([CodeOf(raw, block)] + if block.closed then Split(raw, block.end) else [])
  }

  method SplitContentSegments(raw: JsString) returns (segments: seq<Segment>)
    ensures segments == Split(raw, 0)
  {
    hide ExecFenceOpen, OpenerAt, FindClose, NormalizeLanguage, StripTrailingNewline, Split;
    segments := [];
    if raw == [] {
      NothingLeft(raw);
      return;
    }
    var cursor := 0;
    while cursor < |raw|
      invariant cursor <= |raw|
      invariant segments + Split(raw, cursor) == Split(raw, 0)
      decreases |raw| - cursor
    {
      var open := ExecFenceOpen(raw[cursor..], 0);
      if open.None? {
        segments := segments + [Text(raw[cursor..], cursor, |raw|)];
        assert Split(raw, cursor) == [Text(raw[cursor..], cursor, |raw|)] by { PlainTail(raw, cursor); }
        return;
      }
      ghost var done := segments;
      var fenceStart := cursor + open.value.index + open.value.anchor;
      if fenceStart > cursor {
        segments := segments + [Text(raw[cursor..fenceStart], cursor, fenceStart)];
      }
      assert segments == done + TextBefore(raw, cursor, fenceStart);
      var bodyStart := cursor + open.value.line.end;
      var language := NormalizeLanguage(open.value.line.hint);
      var close := FindClosingFence(raw, bodyStart);
      var closed := close.Some?;
      var bodyEnd := if closed then close.value.bodyEnd else |raw|;
      var end := if closed then close.value.fenceEnd else |raw|;
      var code := Code(StripTrailingNewline(raw[bodyStart..bodyEnd]), language, closed, fenceStart, end);
      SplitUnfolds(raw, cursor, done, code);
      segments := segments + [code];
      if !closed { return; }
      cursor := end;
    }
    NothingLeft(raw);
  }

  lemma NothingLeft(raw: JsString)
    ensures Split(raw, |raw|) == []
  {
  }

  lemma PlainTail(raw: JsString, cursor: nat)
    requires cursor < |raw| && ExecFenceOpen(raw[cursor..], 0).None?
    ensures Split(raw, cursor) == [Text(raw[cursor..], cursor, |raw|)]
  {
  }

  lemma SplitUnfolds(raw: JsString, cursor: nat, done: seq<Segment>, code: Segment)
    requires cursor < |raw| && NextBlock(raw, cursor).Some? && code == CodeOf(raw, NextBlock(raw, cursor).value)
    ensures var block := NextBlock(raw, cursor).value;
            done + TextBefore(raw, cursor, block.fenceStart) + [code]
            + (if block.closed then Split(raw, block.end) else []) == done + Split(raw, cursor)
  {
    hide NextBlock, CodeOf, TextBefore;
    var block := NextBlock(raw, cursor).value;
    RegroupFour(done, TextBefore(raw, cursor, block.fenceStart), [code],
            if block.closed then Split(raw, block.end) else []);
  }

  // ---------------------------------------------------------------------------
  // Tiling
  // ---------------------------------------------------------------------------

  /** The segments cover `raw[from..]` exactly, in order, each non-empty. */
  predicate Tiles(raw: JsString, segments: seq<Segment>, from: nat)
    requires from <= |raw|
  {
    if segments == [] then from == |raw|
    else
      var s := segments[0];
      && s.sourceStart == from && from < s.sourceEnd <= |raw|
      && SegmentShows(raw, s)
      && Tiles(raw, segments[1..], s.sourceEnd)
  }

  /** What a segment's content is, in terms of the raw text it spans. */
  predicate SegmentShows(raw: JsString, s: Segment)
    requires s.sourceStart <= s.sourceEnd <= |raw|
  {
    match s
    case Text(content, start, end) => content == raw[start..end]
    case Code(content, language, closed, start, end) =>
      exists bodyStart, bodyEnd :: start <= bodyStart <= bodyEnd <= end
                                   && ShowsBody(raw, s, bodyStart, bodyEnd)
  }

  /** The opener line runs to the body; no line of the body closes a fence; the closing line follows, if closed. */
  predicate ShowsBody(raw: JsString, s: Segment, bodyStart: nat, bodyEnd: nat)
    requires s.Code? && s.sourceStart <= bodyStart <= bodyEnd <= s.sourceEnd <= |raw|
  {
    && OpenerAt(raw, s.sourceStart).Some?
    && OpenerAt(raw, s.sourceStart).value.end == bodyStart
    && s.language == NormalizeLanguage(OpenerAt(raw, s.sourceStart).value.hint)
    && s.content == StripTrailingNewline(raw[bodyStart..bodyEnd])
    && (forall k: nat :: bodyStart <= k < bodyEnd && IsLineStart(raw, bodyStart, k) ==> !ClosesAt(raw, k))
    && if s.closed then IsLineStart(raw, bodyStart, bodyEnd) && ClosesAt(raw, bodyEnd)
       else bodyEnd == |raw| == s.sourceEnd && !ClosesAt(raw, bodyEnd)
  }

  /** Matching on a suffix is matching at an offset. */
  lemma {:induction false} SkipBlanksShift(s: JsString, offset: nat, i: nat)
    requires offset + i <= |s|
    ensures SkipBlanks(s[offset..], i) + offset == SkipBlanks(s, offset + i)
    decreases |s| - i
  {
    if offset + i < |s| && (s[offset + i] == SPACE || s[offset + i] == TAB) { SkipBlanksShift(s, offset, i + 1); }
  }

  lemma {:induction false} SkipHintShift(s: JsString, offset: nat, i: nat)
    requires offset + i <= |s|
    ensures SkipHint(s[offset..], i) + offset == SkipHint(s, offset + i)
    decreases |s| - i
  {
    if offset + i < |s| && s[offset + i] != NEWLINE && s[offset + i] != BACKTICK { SkipHintShift(s, offset, i + 1); }
  }

  lemma OpenerShift(s: JsString, offset: nat, i: nat)
    requires offset + i <= |s|
    ensures OpenerAt(s[offset..], i).Some? <==> OpenerAt(s, offset + i).Some?
    ensures OpenerAt(s, offset + i).Some? ==>
              && OpenerAt(s[offset..], i).value.hint == OpenerAt(s, offset + i).value.hint
              && OpenerAt(s[offset..], i).value.end + offset == OpenerAt(s, offset + i).value.end
  {
    hide SkipBlanks, SkipHint, HasFence;
    var t := s[offset..];
    SkipBlanksShift(s, offset, i);
    var b := SkipBlanks(t, i);
    FenceShift(s, offset, b);
    if HasFence(t, b) {
      SkipHintShift(s, offset, b + 3);
      HintShift(s, offset, offset + b + 3, SkipHint(s, offset + b + 3));
    }
  }

  lemma FenceShift(s: JsString, offset: nat, i: nat)
    requires offset + i <= |s|
    ensures HasFence(s[offset..], i) <==> HasFence(s, offset + i)
    ensures HasFence(s[offset..], i) ==> offset + i + 3 <= |s|
  {
  }

  lemma HintShift(s: JsString, offset: nat, from: nat, to: nat)
    requires offset <= from <= to <= |s|
    ensures s[offset..][from - offset..to - offset] == s[from..to]
    ensures to < |s| ==> s[offset..][to - offset] == s[to]
  {
  }

  lemma BlockShows(raw: JsString, cursor: nat)
    requires cursor < |raw| && NextBlock(raw, cursor).Some?
    ensures var block := NextBlock(raw, cursor).value;
            ShowsBody(raw, CodeOf(raw, block), block.bodyStart, block.bodyEnd)
  {
    hide ExecFenceOpen, OpenerAt, FindClose, NormalizeLanguage, StripTrailingNewline, ClosesAt;
    var open := ExecFenceOpen(raw[cursor..], 0).value;
    OpenerShift(raw, cursor, open.index + open.anchor);
    FindCloseIsFirst(raw, cursor + open.line.end);
    LastLineDoesNotClose(raw);
  }

  /** The segments cover the text exactly, and each shows what it spans. */
  lemma {:induction false} SegmentsTile(raw: JsString, cursor: nat)
    requires cursor <= |raw|
    ensures Tiles(raw, Split(raw, cursor), cursor)
    decreases |raw| - cursor
  {
    hide NextBlock, ShowsBody, StripTrailingNewline;
    if cursor < |raw| {
      var block := NextBlock(raw, cursor);
      if block.None? {
        assert Split(raw, cursor)[1..] == [];
      } else {
        BlockShows(raw, cursor);
        var code := CodeOf(raw, block.value);
        var rest := if block.value.closed then Split(raw, block.value.end) else [];
        if block.value.closed {
          SegmentsTile(raw, block.value.end);
        } else {
          assert ShowsBody(raw, code, block.value.bodyStart, block.value.bodyEnd) ==> block.value.end == |raw| by {
            UnclosedEnds(raw, cursor);
          }
        }
        assert ([code] + rest)[1..] == rest;
        assert Tiles(raw, [code] + rest, block.value.fenceStart);
        var before := TextBefore(raw, cursor, block.value.fenceStart);
        if before != [] {
          assert (before + ([code] + rest))[1..] == [code] + rest;
        } else {
          assert before + ([code] + rest) == [code] + rest;
        }
      }
    }
  }

  lemma UnclosedEnds(raw: JsString, cursor: nat)
    requires cursor < |raw| && NextBlock(raw, cursor).Some? && !NextBlock(raw, cursor).value.closed
    ensures NextBlock(raw, cursor).value.end == |raw|
  {
  }

  /** The empty line at the very end never closes a fence. */
  lemma LastLineDoesNotClose(raw: JsString)
    ensures !ClosesAt(raw, |raw|)
  {
    assert raw[|raw|..LineEnd(raw, |raw|)] == [];
  }

  // ---------------------------------------------------------------------------
  // Streaming stability
  // ---------------------------------------------------------------------------

  /** More text after a line's newline changes nothing about whether the line opens a fence. */
  lemma OpenerStable(s: JsString, longer: JsString, i: nat, newline: nat)
    requires s <= longer && i <= newline < |s| && s[newline] == NEWLINE
    ensures OpenerAt(longer, i) == OpenerAt(s, i)
  {
    SkipBlanksStable(s, longer, i, newline);
    var b := SkipBlanks(s, i);
    FenceStable(s, longer, b, newline);
    hide SkipBlanks, SkipHint, HasFence;
    if HasFence(s, b) {
      SkipHintStable(s, longer, b + 3, newline);
      HintStable(s, longer, b + 3, SkipHint(s, b + 3));
    }
  }

  lemma FenceStable(s: JsString, longer: JsString, i: nat, newline: nat)
    requires s <= longer && i <= newline < |s| && s[newline] == NEWLINE
    ensures HasFence(longer, i) <==> HasFence(s, i)
    ensures HasFence(s, i) ==> i + 3 <= newline
  {
  }

  lemma HintStable(s: JsString, longer: JsString, from: nat, to: nat)
    requires s <= longer && from <= to < |s|
    ensures longer[from..to] == s[from..to] && longer[to] == s[to]
  {
  }

  lemma {:induction false} SkipBlanksStable(s: JsString, longer: JsString, i: nat, newline: nat)
    requires s <= longer && i <= newline < |s| && s[newline] == NEWLINE
    ensures SkipBlanks(longer, i) == SkipBlanks(s, i) <= newline
    decreases |s| - i
  {
    if s[i] == SPACE || s[i] == TAB { SkipBlanksStable(s, longer, i + 1, newline); }
  }

  lemma {:induction false} SkipHintStable(s: JsString, longer: JsString, i: nat, newline: nat)
    requires s <= longer && i <= newline < |s| && s[newline] == NEWLINE
    ensures SkipHint(longer, i) == SkipHint(s, i) <= newline
    decreases |s| - i
  {
    if s[i] != NEWLINE && s[i] != BACKTICK { SkipHintStable(s, longer, i + 1, newline); }
  }

  lemma MatchStable(s: JsString, longer: JsString, i: nat, newline: nat)
    requires s <= longer && i < |s| && newline < |s| && s[newline] == NEWLINE
    requires i < newline || (i == newline == 0 && MatchAt(s, 0).Some? && MatchAt(s, 0).value.anchor == 0)
    ensures MatchAt(longer, i) == MatchAt(s, i)
  {
    hide OpenerAt;
    OpenerStable(s, longer, i, newline);
    if i < newline { OpenerStable(s, longer, i + 1, newline); }
  }

  /** A match whose opener line is complete stays the leftmost match of any longer text. */
  lemma {:induction false} ExecStable(s: JsString, longer: JsString, i: nat)
    requires s <= longer && i <= |s| && ExecFenceOpen(s, i).Some?
    requires s[ExecFenceOpen(s, i).value.line.end - 1] == NEWLINE
    ensures ExecFenceOpen(longer, i) == ExecFenceOpen(s, i)
    decreases |s| - i
  {
    hide OpenerAt, MatchAt;
    MatchStable(s, longer, i, ExecFenceOpen(s, i).value.line.end - 1);
    if MatchAt(s, i).None? { ExecStable(s, longer, i + 1); }
  }

  /** A trimmed line that starts with a fence still does when the line grows. */
  lemma FenceLineGrows(line: JsString, longer: JsString)
    requires line <= longer && HasFence(Trim(line), 0)
    ensures HasFence(Trim(longer), 0)
  {
    TrimStartGrows(line, longer);
    TrimEndKeepsFence(TrimStart(longer));
  }

  lemma TrimEndKeepsFence(s: JsString)
    requires HasFence(s, 0)
    ensures HasFence(TrimEnd(s), 0)
  {
    assert !IsSpace(s[2]);
  }

  lemma {:induction false} TrimStartGrows(line: JsString, longer: JsString)
    requires line <= longer && TrimStart(line) != []
    ensures TrimStart(line) <= TrimStart(longer)
  {
    hide IsSpace;
    if IsSpace(line[0]) {
      TrimStartGrows(line[1..], longer[1..]);
    }
  }

  lemma {:induction false} IndexOfGrows(s: JsString, longer: JsString, c: CodeUnit, from: nat)
    requires s <= longer && from <= |s|
    ensures IndexOf(s, c, from) != -1 ==> IndexOf(longer, c, from) == IndexOf(s, c, from)
    ensures IndexOf(s, c, from) == -1 ==> IndexOf(longer, c, from) == -1 || IndexOf(longer, c, from) >= |s|
    decreases |s| - from
  {
    if from < |s| && s[from] != c { IndexOfGrows(s, longer, c, from + 1); }
  }

  /** A closing fence stays where it is; a closing line that was complete also keeps its end. */
  lemma {:induction false} CloseStable(s: JsString, longer: JsString, from: nat)
    requires s <= longer && from <= |s| && FindClose(s, from).Some?
    ensures FindClose(longer, from).Some?
    ensures FindClose(longer, from).value.bodyEnd == FindClose(s, from).value.bodyEnd
    ensures FindClose(s, from).value.fenceEnd < |s| ==>
              FindClose(longer, from).value.fenceEnd == FindClose(s, from).value.fenceEnd
    decreases |s| - from
  {
    hide Trim, HasFence, IndexOf;
    IndexOfGrows(s, longer, NEWLINE, from);
    var end, end' := LineEnd(s, from), LineEnd(longer, from);
    assert s[from..end] <= longer[from..end'];
    if ClosesAt(s, from) {
      FenceLineGrows(s[from..end], longer[from..end']);
    } else {
      assert longer[from..end] == s[from..end];
      CloseStable(s, longer, end + 1);
    }
  }

  /** A block whose opener line is complete stays the next block of any longer text. */
  lemma NextBlockStable(raw: JsString, longer: JsString, cursor: nat)
    requires raw <= longer && cursor < |raw| && NextBlock(raw, cursor).Some?
    requires raw[NextBlock(raw, cursor).value.bodyStart - 1] == NEWLINE
    ensures NextBlock(longer, cursor).Some?
    ensures var block, block' := NextBlock(raw, cursor).value, NextBlock(longer, cursor).value;
            && block'.fenceStart == block.fenceStart && block'.bodyStart == block.bodyStart
            && block'.language == block.language
            && (block.closed ==> block'.closed && block'.bodyEnd == block.bodyEnd)
            && (block.closed && block.end < |raw| ==> block'.end == block.end)
  {
    hide ExecFenceOpen, FindClose, NormalizeLanguage, OpenerAt;
    var block := NextBlock(raw, cursor).value;
    assert raw[cursor..][block.bodyStart - cursor - 1] == raw[block.bodyStart - 1];
    ExecStable(raw[cursor..], longer[cursor..], 0);
    if block.closed { CloseStable(raw, longer, block.bodyStart); }
  }

  /** The segment's opener line ended in a newline. */
  predicate OpenerComplete(raw: JsString, s: Segment) {
    s.Code? && s.sourceStart <= |raw| && IndexOf(raw, NEWLINE, s.sourceStart) != -1
  }

  /** What streaming keeps of a code segment. */
  predicate SameBlock(before: Segment, after: Segment) {
    && before.Code? && after.Code?
    && after.sourceStart == before.sourceStart && after.language == before.language
    && (before.closed ==> after.closed && after.content == before.content)
  }

  predicate StableAt(raw: JsString, before: seq<Segment>, after: seq<Segment>, i: nat) {
    i < |before| && OpenerComplete(raw, before[i]) ==>
      i < |after| && SameBlock(before[i], after[i]) && after[..i] == before[..i]
  }

  /** A block's opener line is complete exactly when its body follows a newline. */
  lemma OpenerCompleteExactly(raw: JsString, cursor: nat)
    requires cursor < |raw| && NextBlock(raw, cursor).Some?
    ensures var block := NextBlock(raw, cursor).value;
            IndexOf(raw, NEWLINE, block.fenceStart) != -1 <==> raw[block.bodyStart - 1] == NEWLINE
  {
    hide ExecFenceOpen, FindClose, NormalizeLanguage, OpenerAt;
    var open := ExecFenceOpen(raw[cursor..], 0).value;
    OpenerShift(raw, cursor, open.index + open.anchor);
    OpenerLineEnds(raw, NextBlock(raw, cursor).value.fenceStart);
  }

  lemma OpenerLineEnds(s: JsString, i: nat)
    requires i <= |s| && OpenerAt(s, i).Some?
    ensures var end := OpenerAt(s, i).value.end;
            if s[end - 1] == NEWLINE then true else end == |s| && forall k :: i <= k < |s| ==> s[k] != NEWLINE
  {
    var b := SkipBlanks(s, i);
    var e := SkipHint(s, b + 3);
    assert forall k :: i <= k < e ==> s[k] != NEWLINE;
  }

  /**
   * However the text goes on streaming, each code segment whose opener line is complete keeps its
   * position, type, start and language, and everything before it is unchanged; once closed it also
   * keeps its content.
   */
  lemma {:induction false} StreamingKeepsBlocks(raw: JsString, longer: JsString, cursor: nat, i: nat)
    requires raw <= longer && cursor <= |raw|
    ensures StableAt(raw, Split(raw, cursor), Split(longer, cursor), i)
    decreases |raw| - cursor
  {
    hide NextBlock, NormalizeLanguage, StripTrailingNewline, IndexOf, OpenerComplete, Split, TextBefore;
    if i < |Split(raw, cursor)| && OpenerComplete(raw, Split(raw, cursor)[i]) {
      NothingLeft(raw);
      FirstBlockComplete(raw, cursor, i);
      NextBlockStable(raw, longer, cursor);
      var block, block' := NextBlock(raw, cursor).value, NextBlock(longer, cursor).value;
      var t := TextBefore(raw, cursor, block.fenceStart);
      var rest := if block.closed then Split(raw, block.end) else [];
      var rest' := if block'.closed then Split(longer, block'.end) else [];
      SplitBlock(raw, cursor);
      SplitBlock(longer, cursor);
      SameTextBefore(raw, longer, cursor, block.fenceStart);
      if block.closed {
        SameCode(raw, longer, block);
        if i > |t| {
          StreamingKeepsBlocks(raw, longer, block.end, i - |t| - 1);
        }
      }
      hide StableAt;
      StableJoin(raw, t, CodeOf(raw, block), rest, CodeOf(longer, block'), rest', i);
    }
  }

  lemma SplitBlock(raw: JsString, cursor: nat)
    requires cursor < |raw| && NextBlock(raw, cursor).Some?
    ensures var block := NextBlock(raw, cursor).value;
            Split(raw, cursor) == TextBefore(raw, cursor, block.fenceStart)
                                  + ([CodeOf(raw, block)] + if block.closed then Split(raw, block.end) else [])
  {
    hide NextBlock, CodeOf, TextBefore;
  }

  lemma SameTextBefore(raw: JsString, longer: JsString, cursor: nat, fenceStart: nat)
    requires raw <= longer && cursor <= fenceStart <= |raw|
    ensures TextBefore(raw, cursor, fenceStart) == TextBefore(longer, cursor, fenceStart)
  {
    assert longer[cursor..fenceStart] == raw[cursor..fenceStart];
  }

  lemma SameCode(raw: JsString, longer: JsString, block: Block)
    requires raw <= longer && block.bodyStart <= block.bodyEnd <= |raw|
    ensures CodeOf(raw, block) == CodeOf(longer, block)
  {
    assert longer[block.bodyStart..block.bodyEnd] == raw[block.bodyStart..block.bodyEnd];
  }

  lemma StableJoin(raw: JsString, t: seq<Segment>, c: Segment, r: seq<Segment>, c': Segment, r': seq<Segment>, i: nat)
    requires |t| <= i && SameBlock(c, c')
    requires i > |t| ==> StableAt(raw, r, r', i - |t| - 1) && (i - |t| - 1 < |r| ==> c == c')
    ensures StableAt(raw, t + ([c] + r), t + ([c'] + r'), i)
  {
    hide OpenerComplete, SameBlock;
    var before, after := t + ([c] + r), t + ([c'] + r');
    if i == |t| {
      assert before[i] == c && after[i] == c' && before[..i] == after[..i];
    } else if i < |before| && OpenerComplete(raw, before[i]) {
      var k := i - |t| - 1;
      assert before[i] == r[k];
      assert after[i] == r'[k];
      PrefixesJoin(t, c, r, r', k);
    }
  }

  lemma PrefixesJoin<T>(t: seq<T>, c: T, r: seq<T>, r': seq<T>, k: nat)
    requires k <= |r| && k <= |r'| && r[..k] == r'[..k]
    ensures (t + ([c] + r))[..|t| + 1 + k] == (t + ([c] + r'))[..|t| + 1 + k]
  {
    assert (t + ([c] + r))[..|t| + 1 + k] == t + [c] + r[..k];
    assert (t + ([c] + r'))[..|t| + 1 + k] == t + [c] + r'[..k];
  }

  /** If some code segment's opener is complete, so is the first block's. */
  lemma FirstBlockComplete(raw: JsString, cursor: nat, i: nat)
    requires cursor < |raw| && i < |Split(raw, cursor)|
    requires OpenerComplete(raw, Split(raw, cursor)[i])
    ensures NextBlock(raw, cursor).Some? && raw[NextBlock(raw, cursor).value.bodyStart - 1] == NEWLINE
    ensures |TextBefore(raw, cursor, NextBlock(raw, cursor).value.fenceStart)| <= i
  {
    hide NextBlock, NormalizeLanguage, StripTrailingNewline, IndexOf;
    var block := NextBlock(raw, cursor).value;
    var first := |TextBefore(raw, cursor, block.fenceStart)|;
    assert Split(raw, cursor)[first] == CodeOf(raw, block);
    SegmentsTile(raw, cursor);
    TilesAscend(raw, Split(raw, cursor), cursor, first, i);
    OpenerCompleteExactly(raw, cursor);
    var k := IndexOf(raw, NEWLINE, Split(raw, cursor)[i].sourceStart);
    assert block.fenceStart <= k < |raw| && raw[k] == NEWLINE;
  }

  lemma {:induction false} TilesAscend(raw: JsString, segments: seq<Segment>, from: nat, i: nat, j: nat)
    requires from <= |raw| && Tiles(raw, segments, from)
    requires i <= j < |segments|
    ensures from <= segments[i].sourceStart <= segments[j].sourceStart <= |raw|
  {
    hide SegmentShows;
    if j > 0 {
      TilesAscend(raw, segments[1..], segments[0].sourceEnd, if i > 0 then i - 1 else 0, j - 1);
    }
  }

  // ---------------------------------------------------------------------------
  // An opener line that is still streaming in
  // ---------------------------------------------------------------------------

  predicate RestOfLineIsPlain(s: JsString, from: nat)
    requires from <= |s|
  {
    forall k :: from <= k < LineEnd(s, from) ==> s[k] != BACKTICK
  }

  lemma {:induction false} HintStopsAtLineEnd(s: JsString, i: nat)
    requires i <= |s|
    ensures var e := SkipHint(s, i);
            e == |s| || s[e] == NEWLINE <==> RestOfLineIsPlain(s, i)
    decreases |s| - i
  {
    if i < |s| && s[i] != NEWLINE {
      HintStopsAtLineEnd(s, i + 1);
      assert LineEnd(s, i) == LineEnd(s, i + 1);
      if s[i] != BACKTICK {
        PlainOneEarlier(s, i);
      }
    }
  }

  lemma PlainOneEarlier(s: JsString, i: nat)
    requires i < |s| && s[i] != NEWLINE && s[i] != BACKTICK && LineEnd(s, i) == LineEnd(s, i + 1)
    ensures RestOfLineIsPlain(s, i) <==> RestOfLineIsPlain(s, i + 1)
  {
    hide LineEnd;
  }

  lemma {:induction false} BlanksBeforeFence(s: JsString, longer: JsString, i: nat)
    requires s <= longer && i <= |s| && SkipBlanks(s, i) < |s|
    ensures SkipBlanks(longer, i) == SkipBlanks(s, i)
    decreases |s| - i
  {
    if s[i] == SPACE || s[i] == TAB { BlanksBeforeFence(s, longer, i + 1); }
  }

  lemma {:induction false} HintGoesOn(s: JsString, longer: JsString, i: nat)
    requires s <= longer && i <= |s| && SkipHint(s, i) == |s|
    ensures SkipHint(longer, i) == SkipHint(longer, |s|)
    decreases |s| - i
  {
    if i < |s| { HintGoesOn(s, longer, i + 1); }
  }

  /** An opener line without its newline still opens exactly when no backtick follows on the line. */
  lemma OpenerExtends(s: JsString, longer: JsString, i: nat)
    requires s <= longer && i <= |s| && OpenerAt(s, i).Some?
    requires forall k :: i <= k < |s| ==> s[k] != NEWLINE
    ensures OpenerAt(longer, i).Some? <==> RestOfLineIsPlain(longer, |s|)
  {
    BlanksBeforeFence(s, longer, i);
    HintGoesOn(s, longer, SkipBlanks(s, i) + 3);
    HintStopsAtLineEnd(longer, |s|);
    hide SkipBlanks, SkipHint, RestOfLineIsPlain;
  }

  /** The segment is still a code segment, in its place, and nothing before it has changed. */
  predicate KeepsPlace(before: seq<Segment>, after: seq<Segment>, i: nat) {
    && i < |before| && i < |after| && before[i].Code? && after[i].Code?
    && after[i].sourceStart == before[i].sourceStart && after[..i] == before[..i]
  }

  lemma {:induction false} TileOpens(raw: JsString, segments: seq<Segment>, from: nat, i: nat)
    requires from <= |raw| && Tiles(raw, segments, from) && i < |segments| && segments[i].Code?
    ensures from <= segments[i].sourceStart <= |raw| && OpenerAt(raw, segments[i].sourceStart).Some?
  {
    hide OpenerAt;
    if i > 0 {
      TileOpens(raw, segments[1..], segments[0].sourceEnd, i - 1);
    }
  }

  /** A match whose opener line is unfinished stays the leftmost match, as long as it stays one. */
  lemma {:induction false} UnfinishedExecStable(s: JsString, longer: JsString, i: nat)
    requires s <= longer && i <= |s| && ExecFenceOpen(s, i).Some?
    requires var m := ExecFenceOpen(s, i).value;
             s[m.line.end - 1] != NEWLINE && OpenerAt(longer, m.index + m.anchor).Some?
    ensures ExecFenceOpen(longer, i).Some?
    ensures var m, m' := ExecFenceOpen(s, i).value, ExecFenceOpen(longer, i).value;
            m'.index == m.index && m'.anchor == m.anchor
    decreases |s| - i
  {
    hide OpenerAt, MatchAt;
    var m := ExecFenceOpen(s, i).value;
    MatchKept(s, longer, i, m);
    if MatchAt(s, i).None? {
      UnfinishedExecStable(s, longer, i + 1);
    }
  }

  lemma MatchKept(s: JsString, longer: JsString, i: nat, m: FenceMatch)
    requires s <= longer && i <= m.index < |s| && MatchAt(s, m.index) == Some(m)
    requires OpenerAt(longer, m.index + m.anchor).Some?
    requires i < m.index ==> MatchAt(s, i).None?
    ensures i < m.index ==> MatchAt(longer, i).None?
    ensures i == m.index ==> MatchAt(longer, i).Some? && MatchAt(longer, i).value.anchor == m.anchor
  {
    hide OpenerAt;
    if i < m.index {
      assert s[m.index] == NEWLINE;
      MatchStable(s, longer, i, m.index);
    } else if s[i] == NEWLINE {
      NewlineOpensNothing(s, i);
      NewlineOpensNothing(longer, i);
    }
  }

  lemma NewlineOpensNothing(s: JsString, i: nat)
    requires i < |s| && s[i] == NEWLINE
    ensures OpenerAt(s, i).None?
  {
  }

  /** The block of an unfinished opener stays the next block as long as the rest of its line is plain. */
  lemma UnfinishedBlockStable(raw: JsString, longer: JsString, cursor: nat)
    requires raw <= longer && cursor < |raw| && NextBlock(raw, cursor).Some?
    requires raw[NextBlock(raw, cursor).value.bodyStart - 1] != NEWLINE
    requires RestOfLineIsPlain(longer, |raw|)
    ensures !NextBlock(raw, cursor).value.closed && NextBlock(longer, cursor).Some?
    ensures NextBlock(longer, cursor).value.fenceStart == NextBlock(raw, cursor).value.fenceStart
  {
    hide ExecFenceOpen, FindClose, NormalizeLanguage, OpenerAt, MatchAt, RestOfLineIsPlain;
    var block, open := NextBlock(raw, cursor).value, ExecFenceOpen(raw[cursor..], 0).value;
    assert raw[cursor..][block.bodyStart - cursor - 1] == raw[block.bodyStart - 1];
    OpenerShift(raw, cursor, open.index + open.anchor);
    OpenerLineEnds(raw, block.fenceStart);
    OpenerExtends(raw, longer, block.fenceStart);
    OpenerShift(longer, cursor, open.index + open.anchor);
    UnfinishedExecStable(raw[cursor..], longer[cursor..], 0);
    NothingCloses(raw);
  }

  lemma NothingCloses(raw: JsString)
    ensures FindClose(raw, |raw|).None?
  {
    LastLineDoesNotClose(raw);
    hide ClosesAt;
  }

  /** Where a code segment can be in what a cursor yields. */
  lemma CodeIsInBlocks(raw: JsString, cursor: nat, i: nat)
    requires cursor <= |raw| && i < |Split(raw, cursor)| && Split(raw, cursor)[i].Code?
    ensures cursor < |raw| && NextBlock(raw, cursor).Some?
    ensures var block := NextBlock(raw, cursor).value;
            var t := |TextBefore(raw, cursor, block.fenceStart)|;
            && t <= i && (i == t ==> Split(raw, cursor)[i] == CodeOf(raw, block))
            && (i > t ==> block.closed && block.end < |raw| && i - t - 1 < |Split(raw, block.end)|
                          && Split(raw, cursor)[i] == Split(raw, block.end)[i - t - 1])
  {
    hide NextBlock, CodeOf;
    NothingLeft(raw);
  }

  lemma FirstKeepsPlace(t: seq<Segment>, c: Segment, r: seq<Segment>, c': Segment, r': seq<Segment>)
    requires c.Code? && c'.Code? && c'.sourceStart == c.sourceStart
    ensures KeepsPlace(t + ([c] + r), t + ([c'] + r'), |t|)
  {
  }

  lemma LaterKeepsPlace(t: seq<Segment>, c: Segment, r: seq<Segment>, r': seq<Segment>, k: nat)
    requires KeepsPlace(r, r', k)
    ensures KeepsPlace(t + ([c] + r), t + ([c] + r'), |t| + 1 + k)
  {
    PrefixesJoin(t, c, r, r', k);
  }

  lemma CompleteCode(raw: JsString, cursor: nat)
    requires cursor < |raw| && NextBlock(raw, cursor).Some?
    ensures var block := NextBlock(raw, cursor).value;
            OpenerComplete(raw, CodeOf(raw, block)) <==> raw[block.bodyStart - 1] == NEWLINE
  {
    hide NextBlock;
    OpenerCompleteExactly(raw, cursor);
  }

  /** With a plain rest of the line, an unfinished opener keeps its place. */
  lemma {:induction false} PlainOpenerKeepsPlace(raw: JsString, longer: JsString, cursor: nat, i: nat)
    requires raw <= longer && cursor <= |raw| && i < |Split(raw, cursor)| && Split(raw, cursor)[i].Code?
    requires !OpenerComplete(raw, Split(raw, cursor)[i]) && RestOfLineIsPlain(longer, |raw|)
    ensures KeepsPlace(Split(raw, cursor), Split(longer, cursor), i)
    decreases |raw| - cursor
  {
    hide NextBlock, OpenerComplete, Split, TextBefore, StripTrailingNewline, RestOfLineIsPlain, KeepsPlace;
    CodeIsInBlocks(raw, cursor, i);
    CompleteCode(raw, cursor);
    var block := NextBlock(raw, cursor).value;
    var t := TextBefore(raw, cursor, block.fenceStart);
    SplitBlock(raw, cursor);
    SameTextBefore(raw, longer, cursor, block.fenceStart);
    var rest := if block.closed then Split(raw, block.end) else [];
    if i == |t| {
      UnfinishedBlockStable(raw, longer, cursor);
      var block' := NextBlock(longer, cursor).value;
      SplitBlock(longer, cursor);
      FirstKeepsPlace(t, CodeOf(raw, block), rest, CodeOf(longer, block'),
                      if block'.closed then Split(longer, block'.end) else []);
    } else {
      ClosedIsComplete(raw, cursor);
      NextBlockStable(raw, longer, cursor);
      SplitBlock(longer, cursor);
      SameCode(raw, longer, block);
      PlainOpenerKeepsPlace(raw, longer, block.end, i - |t| - 1);
      LaterKeepsPlace(t, CodeOf(raw, block), rest, Split(longer, block.end), i - |t| - 1);
    }
  }

  /** A closed block's opener line ended in a newline. */
  lemma ClosedIsComplete(raw: JsString, cursor: nat)
    requires cursor < |raw| && NextBlock(raw, cursor).Some? && NextBlock(raw, cursor).value.closed
    ensures raw[NextBlock(raw, cursor).value.bodyStart - 1] == NEWLINE
  {
    hide ExecFenceOpen, FindClose, NormalizeLanguage, OpenerAt, MatchAt;
    var open := ExecFenceOpen(raw[cursor..], 0).value;
    OpenerShift(raw, cursor, open.index + open.anchor);
    OpenerLineEnds(raw, NextBlock(raw, cursor).value.fenceStart);
    NothingCloses(raw);
  }

  /**
   * A code segment whose opener line is still streaming in keeps its place in a longer text exactly when
   * the rest of that line holds no backtick.
   */
  lemma UnfinishedOpenerStaysExactly(raw: JsString, longer: JsString, cursor: nat, i: nat)
    requires raw <= longer && cursor <= |raw| && i < |Split(raw, cursor)| && Split(raw, cursor)[i].Code?
    requires !OpenerComplete(raw, Split(raw, cursor)[i])
    ensures KeepsPlace(Split(raw, cursor), Split(longer, cursor), i) <==> RestOfLineIsPlain(longer, |raw|)
  {
    hide Split, RestOfLineIsPlain, OpenerAt;
    if RestOfLineIsPlain(longer, |raw|) {
      PlainOpenerKeepsPlace(raw, longer, cursor, i);
    }
    if KeepsPlace(Split(raw, cursor), Split(longer, cursor), i) {
      SegmentsTile(raw, cursor);
      SegmentsTile(longer, cursor);
      TileOpens(raw, Split(raw, cursor), cursor, i);
      TileOpens(longer, Split(longer, cursor), cursor, i);
      OpenerExtends(raw, longer, Split(raw, cursor)[i].sourceStart);
    }
  }

  const THREE: JsString := [BACKTICK, BACKTICK, BACKTICK]
  const FOUR: JsString := [BACKTICK, BACKTICK, BACKTICK, BACKTICK]

  lemma FourOpenNothing()
    ensures ExecFenceOpen(FOUR, 0).None?
  {
    assert ExecFenceOpen(FOUR, 4).None? && ExecFenceOpen(FOUR, 3).None? && ExecFenceOpen(FOUR, 2).None?;
    assert SkipBlanks(FOUR, 0) == 0 && SkipHint(FOUR, 3) == 3;
    assert MatchAt(FOUR, 0).None? && MatchAt(FOUR, 1).None?;
    assert ExecFenceOpen(FOUR, 1).None?;
  }

  lemma ThreeOpen()
    ensures ExecFenceOpen(THREE, 0) == Some(FenceMatch(0, 0, OpenerLine([], 3)))
  {
    assert SkipBlanks(THREE, 0) == 0 && HasFence(THREE, 0) && SkipHint(THREE, 3) == 3;
    assert THREE[3..3] == [];
    FirstLineOpens(THREE);
  }

  lemma FirstLineOpens(s: JsString)
    requires s != [] && OpenerAt(s, 0).Some?
    ensures ExecFenceOpen(s, 0) == Some(FenceMatch(0, 0, OpenerAt(s, 0).value))
  {
    hide OpenerAt;
  }

  lemma WholeSlice(s: JsString)
    ensures s[0..] == s
  {
  }

  /** The smallest instance: three backticks open a block that a fourth one takes back. */
  lemma UnfinishedOpenerMayBeProse()
    ensures THREE <= FOUR
    ensures |Split(THREE, 0)| == 1 && Split(THREE, 0)[0].Code? && !OpenerComplete(THREE, Split(THREE, 0)[0])
    ensures !KeepsPlace(Split(THREE, 0), Split(FOUR, 0), 0) && Split(FOUR, 0) == [Text(FOUR, 0, 4)]
  {
    hide ExecFenceOpen, NormalizeLanguage, FindClose, OpenerAt;
    FourOpenNothing();
    ThreeOpen();
    NothingCloses(THREE);
    WholeSlice(FOUR);
    WholeSlice(THREE);
    PlainTail(FOUR, 0);
    assert FOUR[3] == BACKTICK && LineEnd(FOUR, 3) == 4;
    UnfinishedOpenerStaysExactly(THREE, FOUR, 0, 0);
  }
}
