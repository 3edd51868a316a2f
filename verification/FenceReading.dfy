/**
 * Fenced code said by its characters: which line opens a block, which line closes it, which language
 * its opener names, and that the first opener of the text counts.
 */
module FenceReading {
  import opened Options
  import opened JsText
  import opened FenceSegments

  // ---------------------------------------------------------------------------
  // Openers
  // ---------------------------------------------------------------------------

  predicate ThreeBackticks(s: JsString, i: nat) {
    i + 3 <= |s| && s[i..i + 3] == Units("```")
  }

  /** At `p`: blanks, three backticks at `b`, and a hint without backticks that ends the line at `e`. */
  ghost predicate IsOpener(s: JsString, p: nat, b: nat, e: nat) {
    && p <= b && b + 3 <= e <= |s|
    && (forall k :: p <= k < b ==> s[k] == SPACE || s[k] == TAB)
    && ThreeBackticks(s, b)
    && (forall k :: b + 3 <= k < e ==> s[k] != NEWLINE && s[k] != BACKTICK)
    && (e < |s| ==> s[e] == NEWLINE)
  }

  /** Some opener stands at the start `p` of a line, lines being counted from `cursor`. */
  ghost predicate OpensAt(s: JsString, cursor: nat, p: nat) {
    IsLineStart(s, cursor, p) && exists b: nat, e: nat :: IsOpener(s, p, b, e)
  }

  function BehindLine(s: JsString, e: nat): nat {
    if e < |s| then e + 1 else e
  }

  lemma {:induction false} BlanksStop(s: JsString, i: nat)
    requires i <= |s|
    ensures var j := SkipBlanks(s, i); j < |s| ==> s[j] != SPACE && s[j] != TAB
    decreases |s| - i
  {
    if i < |s| && (s[i] == SPACE || s[i] == TAB) { BlanksStop(s, i + 1); }
  }

  lemma {:induction false} HintStops(s: JsString, i: nat)
    requires i <= |s|
    ensures var j := SkipHint(s, i); j < |s| ==> s[j] == NEWLINE || s[j] == BACKTICK
    decreases |s| - i
  {
    if i < |s| && s[i] != NEWLINE && s[i] != BACKTICK { HintStops(s, i + 1); }
  }

  lemma FenceIsThree(s: JsString, i: nat)
    ensures HasFence(s, i) <==> ThreeBackticks(s, i)
  {
    if i + 3 <= |s| {
      assert s[i..i + 3] == [s[i], s[i + 1], s[i + 2]];
      assert Units("```") == [BACKTICK, BACKTICK, BACKTICK];
    }
  }

  /** The pattern finds an opener where one stands, with its hint and its end. */
  lemma OpenerStands(s: JsString, p: nat)
    requires p <= |s|
    ensures OpenerAt(s, p).Some? ==>
              exists b: nat, e: nat :: IsOpener(s, p, b, e)
    ensures forall b: nat, e: nat :: IsOpener(s, p, b, e) ==>
              OpenerAt(s, p) == Some(OpenerLine(s[b + 3..e], BehindLine(s, e)))
  {
    hide Units, ThreeBackticks;
    var b := SkipBlanks(s, p);
    BlanksStop(s, p);
    FenceIsThree(s, b);
    if OpenerAt(s, p).Some? {
      HintStops(s, b + 3);
      assert IsOpener(s, p, b, SkipHint(s, b + 3));
    }
    forall c: nat, e: nat | IsOpener(s, p, c, e)
      ensures OpenerAt(s, p) == Some(OpenerLine(s[c + 3..e], BehindLine(s, e)))
    {
      FenceIsThree(s, c);
      assert b == c;
      HintStops(s, b + 3);
      assert SkipHint(s, b + 3) == e;
    }
  }

  /** The search takes the leftmost match. */
  lemma {:induction false} ExecIsLeftmost(s: JsString, i: nat)
    requires i <= |s|
    ensures forall j :: i <= j < |s| && (ExecFenceOpen(s, i).Some? ==> j < ExecFenceOpen(s, i).value.index) ==>
              MatchAt(s, j).None?
    decreases |s| - i
  {
    hide MatchAt;
    if i < |s| && MatchAt(s, i).None? { ExecIsLeftmost(s, i + 1); }
  }

  /** An opener at a line start is matched no later than there. */
  lemma OpenerIsMatched(s: JsString, p: nat)
    requires p < |s| && OpenerAt(s, p).Some? && (p == 0 || s[p - 1] == NEWLINE)
    ensures ExecFenceOpen(s, 0).Some?
    ensures ExecFenceOpen(s, 0).value.index + ExecFenceOpen(s, 0).value.anchor <= p
  {
    hide OpenerAt, ExecFenceOpen;
    ExecIsLeftmost(s, 0);
    var i := if p == 0 then 0 else p - 1;
    assert MatchAt(s, i).Some?;
    var found := ExecFenceOpen(s, 0);
    assert found.Some? && found.value.index <= i;
    MatchAnchors(s, found.value.index);
  }

  /** A match stands at a line start: at the very start, or behind the newline it consumed. */
  lemma MatchAnchors(s: JsString, i: nat)
    requires i < |s| && MatchAt(s, i).Some?
    ensures var m := MatchAt(s, i).value;
            && m.index == i && m.anchor <= 1 && (m.anchor == 0 ==> i == 0)
            && (m.anchor == 1 ==> s[i] == NEWLINE && (i == 0 ==> OpenerAt(s, 0).None?))
  {
    hide OpenerAt;
  }

  lemma OpenerHasRoom(s: JsString, p: nat)
    requires p <= |s| && OpenerAt(s, p).Some?
    ensures p < |s|
  {
  }

  // ---------------------------------------------------------------------------
  // Closing lines
  // ---------------------------------------------------------------------------

  /** The line at `k` closes: only white space stands before three backticks on it. */
  ghost predicate ClosesBlock(s: JsString, k: nat) {
    exists b: nat :: k <= b && ThreeBackticks(s, b) && SpaceOnLine(s, k, b)
  }

  predicate SpaceOnLine(s: JsString, k: nat, b: nat) {
    b <= |s| && forall j :: k <= j < b ==> IsSpace(s[j]) && s[j] != NEWLINE
  }

  lemma ClosesExactly(s: JsString, k: nat)
    requires k <= |s|
    ensures ClosesAt(s, k) <==> ClosesBlock(s, k)
  {
    hide IsSpace, ThreeBackticks, HasFence, ClosesAt, LineEnd;
    var b := FirstVisible(s, k);
    if ClosesAt(s, k) {
      FenceIsThree(s, b);
      assert ClosesBlock(s, k);
    }
    if ClosesBlock(s, k) {
      var c: nat :| k <= c && ThreeBackticks(s, c) && SpaceOnLine(s, k, c);
      FenceIsThree(s, c);
      FenceFits(s, k, c);
      FenceIsVisible(s, c);
      assert b == c;
    }
  }

  /** Where the trimmed line begins; the line closes exactly when a fence stands there. */
  lemma FirstVisible(s: JsString, k: nat) returns (b: nat)
    requires k <= |s|
    ensures k <= b <= LineEnd(s, k) <= |s| && SpaceOnLine(s, k, b) && (b < LineEnd(s, k) ==> !IsSpace(s[b]))
    ensures ClosesAt(s, k) <==> HasFence(s, b) && b + 3 <= LineEnd(s, k)
  {
    hide *;
    LineEnds(s, k);
    var end := LineEnd(s, k);
    StartIsTrimmed(s, k, end);
    b := end - |TrimStart(s[k..end])|;
    FenceInPart(s, b, end);
    ClosesWhereTrimmed(s, k);
  }

  lemma ClosesWhereTrimmed(s: JsString, k: nat)
    requires k <= |s|
    ensures LineEnd(s, k) <= |s| && k <= LineEnd(s, k)
    ensures ClosesAt(s, k) <==> HasFence(TrimStart(s[k..LineEnd(s, k)]), 0)
  {
    hide IsSpace, HasFence, TrimStart, TrimEnd;
    TrimKeepsFence(TrimStart(s[k..LineEnd(s, k)]));
  }

  lemma LineEnds(s: JsString, k: nat)
    requires k <= |s|
    ensures k <= LineEnd(s, k) <= |s| && forall j :: k <= j < LineEnd(s, k) ==> s[j] != NEWLINE
  {
  }

  lemma StartIsTrimmed(s: JsString, k: nat, end: nat)
    requires k <= end <= |s| && forall j :: k <= j < end ==> s[j] != NEWLINE
    ensures var t := TrimStart(s[k..end]);
            var b := end - |t|;
            && k <= b <= end && t == s[b..end] && SpaceOnLine(s, k, b) && (b < end ==> !IsSpace(s[b]))
  {
    hide IsSpace, TrimStart;
    var line := s[k..end];
    TrimStartIsEnd(line);
    var b := end - |TrimStart(line)|;
    PartOfPart(s, k, end, b);
    forall j | k <= j < b ensures IsSpace(s[j]) { assert s[j] == line[j - k]; }
  }

  lemma PartOfPart(s: JsString, k: nat, end: nat, b: nat)
    requires k <= b <= end <= |s|
    ensures s[k..end][b - k..] == s[b..end]
    ensures b < end ==> s[k..end][b - k] == s[b]
  {
  }

  lemma FenceInPart(s: JsString, b: nat, end: nat)
    requires b <= end <= |s|
    ensures HasFence(s[b..end], 0) <==> HasFence(s, b) && b + 3 <= end
  {
  }

  lemma FenceIsVisible(s: JsString, c: nat)
    requires HasFence(s, c)
    ensures c < |s| && !IsSpace(s[c])
  {
  }

  lemma FenceFits(s: JsString, k: nat, c: nat)
    requires k <= c && HasFence(s, c) && SpaceOnLine(s, k, c)
    ensures k <= |s| && c + 3 <= LineEnd(s, k)
  {
  }

  lemma BacktickIsNoSpace()
    ensures !IsSpace(BACKTICK)
  {
  }

  /** Trimming the end takes no fence from the start. */
  lemma TrimKeepsFence(t: JsString)
    ensures HasFence(TrimEnd(t), 0) <==> HasFence(t, 0)
  {
    hide IsSpace, TrimEnd;
    BacktickIsNoSpace();
    var r := TrimEnd(t);
  }

  // ---------------------------------------------------------------------------
  // Languages
  // ---------------------------------------------------------------------------

  /** The names of a language. */
  function Aliases(language: Language): seq<string> {
    match language
    case Cpp => ["cpp", "c++", "cxx", "cc"]
    case Python => ["py", "python"]
    case Json => ["json"]
  }

  /** The same letters, small or capital. */
  predicate SpelledLike(text: JsString, name: string) {
    && |text| == |name|
    && forall k :: 0 <= k < |text| ==>
         text[k] == name[k] as int || ('A' as int <= text[k] <= 'Z' as int && text[k] + 32 == name[k] as int)
  }

  /** The trimmed hint is a name of the language, in small or capital letters. */
  ghost predicate Names(hint: JsString, language: Language) {
    exists i :: 0 <= i < |Aliases(language)| && SpelledLike(Trim(hint), Aliases(language)[i])
  }

  /** No letter of the name is a capital. */
  predicate InSmallLetters(name: string) {
    forall k :: 0 <= k < |name| ==> name[k] as int < 0x80 && !('A' <= name[k] <= 'Z')
  }

  lemma LowersTo(text: JsString, name: string)
    requires InSmallLetters(name)
    ensures LowerCase(text) == Units(name) <==> SpelledLike(text, name)
  {
    var low, key := LowerCase(text), Units(name);
    if low == key {
      forall k | 0 <= k < |text|
        ensures text[k] == name[k] as int || ('A' as int <= text[k] <= 'Z' as int && text[k] + 32 == name[k] as int)
      {
        assert low[k] == key[k];
      }
    }
    if SpelledLike(text, name) {
      assert forall k :: 0 <= k < |low| ==> low[k] == key[k];
    }
  }

  lemma NamesAre(hint: JsString)
    ensures var text := Trim(hint);
            && (Names(hint, Cpp) <==>
                SpelledLike(text, "cpp") || SpelledLike(text, "c++") || SpelledLike(text, "cxx")
                || SpelledLike(text, "cc"))
            && (Names(hint, Python) <==> SpelledLike(text, "py") || SpelledLike(text, "python"))
            && (Names(hint, Json) <==> SpelledLike(text, "json"))
  {
    hide SpelledLike, Trim;
    var cpp, python, json := Aliases(Cpp), Aliases(Python), Aliases(Json);
    assert cpp[0] == "cpp" && cpp[1] == "c++" && cpp[2] == "cxx" && cpp[3] == "cc" && |cpp| == 4;
    assert python[0] == "py" && python[1] == "python" && |python| == 2;
    assert json[0] == "json" && |json| == 1;
  }

  lemma KeysAre(text: JsString)
    ensures LowerCase(text) == Units("cpp") <==> SpelledLike(text, "cpp")
    ensures LowerCase(text) == Units("c++") <==> SpelledLike(text, "c++")
    ensures LowerCase(text) == Units("cxx") <==> SpelledLike(text, "cxx")
    ensures LowerCase(text) == Units("cc") <==> SpelledLike(text, "cc")
    ensures LowerCase(text) == Units("py") <==> SpelledLike(text, "py")
    ensures LowerCase(text) == Units("python") <==> SpelledLike(text, "python")
    ensures LowerCase(text) == Units("json") <==> SpelledLike(text, "json")
  {
    hide LowerCase, Units, SpelledLike;
    LowersTo(text, "cpp");
    LowersTo(text, "c++");
    LowersTo(text, "cxx");
    LowersTo(text, "cc");
    LowersTo(text, "py");
    LowersTo(text, "python");
    LowersTo(text, "json");
  }

  /** A hint is one of the seven names, or names no language. */
  lemma LanguageIsNamed(hint: JsString, language: Language)
    ensures NormalizeLanguage(hint) == Some(language) <==> Names(hint, language)
  {
    NamesAre(hint);
    KeysAre(Trim(hint));
    AliasesDiffer();
    hide LowerCase, Units, Trim, SpelledLike, Names, Aliases;
    match language {
      case Cpp =>
      case Python =>
      case Json =>
    }
  }

  /** No two languages share a name. */
  lemma AliasesDiffer()
    ensures Units("py") !in {Units("cpp"), Units("c++"), Units("cxx"), Units("cc")}
    ensures Units("python") !in {Units("cpp"), Units("c++"), Units("cxx"), Units("cc")}
    ensures Units("json") !in {Units("cpp"), Units("c++"), Units("cxx"), Units("cc"), Units("py"), Units("python")}
  {
    assert Units("py")[0] == 'p' as int && Units("cc")[0] == 'c' as int;
    assert |Units("cpp")| == |Units("c++")| == |Units("cxx")| == 3 && |Units("cc")| == |Units("py")| == 2;
    assert |Units("python")| == 6 && |Units("json")| == 4;
  }

  // ---------------------------------------------------------------------------
  // The first block
  // ---------------------------------------------------------------------------

  /** The block begins with the opener at its start, and its body behind the opener's line. */
  ghost predicate BlockOpens(raw: JsString, cursor: nat, block: Block, b: nat, e: nat) {
    && IsLineStart(raw, cursor, block.fenceStart) && IsOpener(raw, block.fenceStart, b, e)
    && block.bodyStart == BehindLine(raw, e)
    && forall language :: block.language == Some(language) <==> Names(raw[b + 3..e], language)
  }

  /** The body ends at the first line that closes it, and the block behind that line; or both with the text. */
  ghost predicate BlockCloses(raw: JsString, block: Block)
    requires block.bodyStart <= |raw|
  {
    && (forall k: nat :: IsLineStart(raw, block.bodyStart, k) && (block.closed ==> k < block.bodyEnd) ==>
          !ClosesBlock(raw, k))
    && if block.closed then
         && IsLineStart(raw, block.bodyStart, block.bodyEnd) && ClosesBlock(raw, block.bodyEnd)
         && EndsBehindLine(raw, block.bodyEnd, block.end)
       else block.bodyEnd == block.end == |raw|
  }

  /** `end` is behind the newline of the line at `k`, or is the end of the text. */
  predicate EndsBehindLine(raw: JsString, k: nat, end: nat) {
    && k <= end <= |raw|
    && if k < end && raw[end - 1] == NEWLINE then NEWLINE !in raw[k..end - 1]
       else end == |raw| && NEWLINE !in raw[k..end]
  }

  lemma FindCloseEnds(raw: JsString, from: nat)
    requires from <= |raw| && FindClose(raw, from).Some?
    ensures EndsBehindLine(raw, FindClose(raw, from).value.bodyEnd, FindClose(raw, from).value.fenceEnd)
    decreases |raw| - from
  {
    hide ClosesAt;
    if !ClosesAt(raw, from) { FindCloseEnds(raw, IndexOf(raw, NEWLINE, from) + 1); }
  }

  /** The block taken is the one whose opener comes first; there is none exactly when no line opens one. */
  lemma FirstOpenerCounts(raw: JsString, cursor: nat)
    requires cursor < |raw|
    ensures NextBlock(raw, cursor).None? <==> forall p: nat :: !OpensAt(raw, cursor, p)
    ensures NextBlock(raw, cursor).Some? ==>
              var block := NextBlock(raw, cursor).value;
              && (forall p: nat :: p < block.fenceStart ==> !OpensAt(raw, cursor, p))
              && (exists b: nat, e: nat :: BlockOpens(raw, cursor, block, b, e))
              && BlockCloses(raw, block)
  {
    hide OpenerAt, FindClose, NormalizeLanguage, IsOpener, BlockCloses, ExecFenceOpen;
    forall p: nat | OpensAt(raw, cursor, p)
      ensures NextBlock(raw, cursor).Some? && NextBlock(raw, cursor).value.fenceStart <= p
    {
      OpenerIsFound(raw, cursor, p);
    }
    if NextBlock(raw, cursor).Some? {
      var block := NextBlock(raw, cursor).value;
      var b, e := FoundOpens(raw, cursor);
      FoundCloses(raw, cursor);
      assert OpensAt(raw, cursor, block.fenceStart);
    }
  }

  lemma OpenerIsFound(raw: JsString, cursor: nat, p: nat)
    requires cursor < |raw| && OpensAt(raw, cursor, p)
    ensures NextBlock(raw, cursor).Some? && NextBlock(raw, cursor).value.fenceStart <= p
  {
    hide OpenerAt, FindClose, NormalizeLanguage, ExecFenceOpen;
    var b: nat, e: nat :| IsOpener(raw, p, b, e);
    OpenerStands(raw, p);
    OpenerShift(raw, cursor, p - cursor);
    OpenerHasRoom(raw, p);
    var t := raw[cursor..];
    assert p > cursor ==> t[p - cursor - 1] == raw[p - 1];
    OpenerIsMatched(t, p - cursor);
  }

  lemma OpenerFits(s: JsString, p: nat, b: nat, e: nat)
    requires IsOpener(s, p, b, e)
    ensures p <= b && b + 3 <= e <= |s|
  {
  }

  lemma FoundOpens(raw: JsString, cursor: nat) returns (b: nat, e: nat)
    requires cursor < |raw| && NextBlock(raw, cursor).Some?
    ensures BlockOpens(raw, cursor, NextBlock(raw, cursor).value, b, e)
  {
    hide OpenerAt, FindClose, NormalizeLanguage, IsOpener, Names, ExecFenceOpen;
    var open := ExecFenceOpen(raw[cursor..], 0).value;
    var p := cursor + open.index + open.anchor;
    MatchAnchors(raw[cursor..], open.index);
    OpenerShift(raw, cursor, open.index + open.anchor);
    OpenerStands(raw, p);
    b, e :| IsOpener(raw, p, b, e);
    OpenerFits(raw, p, b, e);
    assert OpenerAt(raw, p) == Some(OpenerLine(raw[b + 3..e], BehindLine(raw, e)));
    forall language
      ensures NormalizeLanguage(raw[b + 3..e]) == Some(language) <==> Names(raw[b + 3..e], language)
    {
      LanguageIsNamed(raw[b + 3..e], language);
    }
  }

  lemma FoundCloses(raw: JsString, cursor: nat)
    requires cursor < |raw| && NextBlock(raw, cursor).Some?
    ensures BlockCloses(raw, NextBlock(raw, cursor).value)
  {
    hide OpenerAt, FindClose, NormalizeLanguage, ClosesAt, ClosesBlock, EndsBehindLine, ExecFenceOpen;
    var block := NextBlock(raw, cursor).value;
    FindCloseIsFirst(raw, block.bodyStart);
    if block.closed { FindCloseEnds(raw, block.bodyStart); }
    forall k: nat | IsLineStart(raw, block.bodyStart, k) ensures ClosesAt(raw, k) <==> ClosesBlock(raw, k) {
      ClosesExactly(raw, k);
    }
  }

  /** A block's content is its body, or its body but for one newline at the end. */
  lemma BodyLosesOneNewline(body: JsString)
    ensures var content := StripTrailingNewline(body);
            if body != [] && body[|body| - 1] == NEWLINE then body == content + [NEWLINE] else body == content
  {
  }
}
