/**
 * Markdown lines said by their characters: which lines are list items and headings and with what
 * text, what the cells of a row are, and what a delimiter cell declares.
 */
module LineReading {
  import opened Options
  import opened JsText
  import Fences = FenceSegments
  import FenceReading
  import opened MarkdownBlocks
  import opened MarkdownLayout

  /** Nothing but spaces and tabs from `i` up to `j`. */
  predicate BlanksIn(s: JsString, i: nat, j: nat) {
    i <= j <= |s| && forall k :: i <= k < j ==> s[k] == SPACE || s[k] == TAB
  }

  /** Behind `m` there are blanks up to `c`, where the text begins that runs to the end without a line terminator. */
  predicate TextBegins(s: JsString, m: nat, c: nat) {
    && m < c && BlanksIn(s, m, c) && (c < |s| ==> s[c] != SPACE && s[c] != TAB)
    && forall k :: c <= k < |s| ==> !IsLineTerminator(s[k])
  }

  /** A dash, star or plus at `b` behind nothing but blanks, and the item's text from `c`. */
  predicate BulletItem(s: JsString, b: nat, c: nat) {
    BlanksIn(s, 0, b) && b < |s| && s[b] in {0x2D, 0x2A, 0x2B} && TextBegins(s, b + 1, c)
  }

  predicate DigitsIn(s: JsString, i: nat, j: nat) {
    i < j <= |s| && forall k :: i <= k < j ==> '0' as int <= s[k] <= '9' as int
  }

  /** A number from `b` to `d`, a dot or a parenthesis, and the item's text from `c`. */
  predicate NumberedItem(s: JsString, b: nat, d: nat, c: nat) {
    && BlanksIn(s, 0, b) && DigitsIn(s, b, d) && d < |s| && (s[d] == '.' as int || s[d] == ')' as int)
    && TextBegins(s, d + 1, c)
  }

  predicate HashesIn(s: JsString, i: nat, j: nat) {
    i <= j <= |s| && forall k :: i <= k < j ==> s[k] == '#' as int
  }

  /** One to six hashes from `b` to `h`, and the heading's text from `c`, which is not hashes alone. */
  predicate HeadingLine(s: JsString, b: nat, h: nat, c: nat, x: nat) {
    && BlanksIn(s, 0, b) && HashesIn(s, b, h) && 1 <= h - b <= 6 && TextBegins(s, h, c)
    && HashesIn(s, c, x) && x < |s| && s[x] != '#' as int && !IsSpace(s[x])
  }

  // ---------------------------------------------------------------------------
  // The patterns find these
  // ---------------------------------------------------------------------------

  lemma BlanksEnd(s: JsString, i: nat)
    requires i <= |s|
    ensures var j := Fences.SkipBlanks(s, i);
            BlanksIn(s, i, j) && (j < |s| ==> s[j] != SPACE && s[j] != TAB)
  {
    FenceReading.BlanksStop(s, i);
  }

  /** A run of blanks that something else stops is the whole run. */
  lemma BlanksStopAt(s: JsString, i: nat, j: nat)
    requires BlanksIn(s, i, j) && (j < |s| ==> s[j] != SPACE && s[j] != TAB)
    ensures Fences.SkipBlanks(s, i) == j
  {
    FenceReading.BlanksStop(s, i);
  }

  lemma {:induction false} DigitsEnd(s: JsString, i: nat)
    requires i <= |s|
    ensures var j := SkipDigits(s, i);
            (forall k :: i <= k < j ==> 0x30 <= s[k] <= 0x39) && (j < |s| ==> !(0x30 <= s[j] <= 0x39))
    decreases |s| - i
  {
    if i < |s| && 0x30 <= s[i] <= 0x39 { DigitsEnd(s, i + 1); }
  }

  lemma {:induction false} HashesEnd(s: JsString, i: nat)
    requires i <= |s|
    ensures var j := SkipHashes(s, i); HashesIn(s, i, j) && (j < |s| ==> s[j] != HASH)
    decreases |s| - i
  {
    if i < |s| && s[i] == HASH { HashesEnd(s, i + 1); }
  }

  lemma HashesStopAt(s: JsString, i: nat, j: nat)
    requires HashesIn(s, i, j) && (j < |s| ==> s[j] != HASH)
    ensures SkipHashes(s, i) == j
  {
    HashesEnd(s, i);
  }

  lemma TextIsRead(s: JsString, m: nat, c: nat)
    requires m <= |s| && TextBegins(s, m, c)
    ensures c <= |s| && SpacedRest(s, m) == Some(s[c..])
  {
    hide IsLineTerminator;
    BlanksStopAt(s, m, c);
  }

  lemma RestHasText(s: JsString, m: nat) returns (c: nat)
    requires m <= |s| && SpacedRest(s, m).Some?
    ensures TextBegins(s, m, c)
  {
    hide IsLineTerminator;
    BlanksEnd(s, m);
    c := Fences.SkipBlanks(s, m);
  }

  lemma BulletIsRead(s: JsString, b: nat, c: nat)
    requires BulletItem(s, b, c)
    ensures c <= |s| && UnorderedItem(s) == Some(s[c..])
  {
    hide TextBegins, SpacedRest;
    BlanksStopAt(s, 0, b);
    TextIsRead(s, b + 1, c);
  }

  lemma NumberIsRead(s: JsString, b: nat, d: nat, c: nat)
    requires NumberedItem(s, b, d, c)
    ensures c <= |s| && OrderedItem(s) == Some(s[c..])
  {
    hide TextBegins, SpacedRest;
    BlanksStopAt(s, 0, b);
    DigitsEnd(s, b);
    assert SkipDigits(s, b) == d;
    TextIsRead(s, d + 1, c);
  }

  lemma HeadingIsRead(s: JsString, b: nat, h: nat, c: nat, x: nat)
    requires HeadingLine(s, b, h, c, x)
    ensures c <= |s| && AtxHeading(s) == Some((h - b, s[c..]))
  {
    hide IsSpace, IsLineTerminator;
    assert s[b] == HASH && (s[h] == SPACE || s[h] == TAB);
    BlanksStopAt(s, 0, b);
    HashesStopAt(s, b, h);
    BlanksStopAt(s, h, c);
    HashesStopAt(s, c, x);
  }

  /** A line is an item of a bullet list exactly when it looks like one, and its text is what follows. */
  lemma BulletsAreItems(s: JsString)
    ensures UnorderedItem(s).Some? <==> exists b: nat, c: nat :: BulletItem(s, b, c)
    ensures forall b: nat, c: nat :: BulletItem(s, b, c) ==> c <= |s| && UnorderedItem(s) == Some(s[c..])
  {
    if UnorderedItem(s).Some? {
      hide TextBegins, SpacedRest;
      var b := Fences.SkipBlanks(s, 0);
      BlanksEnd(s, 0);
      var c := RestHasText(s, b + 1);
      assert BulletItem(s, b, c);
    }
    hide UnorderedItem, BulletItem;
    forall b: nat, c: nat | BulletItem(s, b, c) ensures c <= |s| && UnorderedItem(s) == Some(s[c..]) {
      BulletIsRead(s, b, c);
    }
  }

  /** A line is an item of a numbered list exactly when it looks like one. */
  lemma NumbersAreItems(s: JsString)
    ensures OrderedItem(s).Some? <==> exists b: nat, d: nat, c: nat :: NumberedItem(s, b, d, c)
    ensures forall b: nat, d: nat, c: nat :: NumberedItem(s, b, d, c) ==>
              c <= |s| && OrderedItem(s) == Some(s[c..])
  {
    if OrderedItem(s).Some? {
      hide TextBegins, SpacedRest;
      var b := Fences.SkipBlanks(s, 0);
      BlanksEnd(s, 0);
      DigitsEnd(s, b);
      var d := SkipDigits(s, b);
      var c := RestHasText(s, d + 1);
      assert NumberedItem(s, b, d, c);
    }
    hide OrderedItem, NumberedItem;
    forall b: nat, d: nat, c: nat | NumberedItem(s, b, d, c) ensures c <= |s| && OrderedItem(s) == Some(s[c..]) {
      NumberIsRead(s, b, d, c);
    }
  }

  /** A line is a heading exactly when it looks like one; its level is the number of hashes. */
  lemma HashLinesAreHeadings(s: JsString)
    ensures AtxHeading(s).Some? <==> exists b: nat, h: nat, c: nat, x: nat :: HeadingLine(s, b, h, c, x)
    ensures forall b: nat, h: nat, c: nat, x: nat :: HeadingLine(s, b, h, c, x) ==>
              c <= |s| && AtxHeading(s) == Some((h - b, s[c..]))
  {
    if AtxHeading(s).Some? { HeadingExists(s); }
    hide AtxHeading, HeadingLine;
    forall b: nat, h: nat, c: nat, x: nat | HeadingLine(s, b, h, c, x)
      ensures c <= |s| && AtxHeading(s) == Some((h - b, s[c..]))
    {
      HeadingIsRead(s, b, h, c, x);
    }
  }

  lemma HeadingExists(s: JsString)
    requires AtxHeading(s).Some?
    ensures exists b: nat, h: nat, c: nat, x: nat :: HeadingLine(s, b, h, c, x)
  {
    hide IsSpace, IsLineTerminator;
    var b := Fences.SkipBlanks(s, 0);
    BlanksEnd(s, 0);
    var h := SkipHashes(s, b);
    HashesEnd(s, b);
    var c := Fences.SkipBlanks(s, h);
    BlanksEnd(s, h);
    var x := SkipHashes(s, c);
    HashesEnd(s, c);
    assert HeadingLine(s, b, h, c, x);
  }

  /** A line has one kind: what a bullet starts, no digit starts. */
  lemma ListKindIsRead(s: JsString)
    ensures ListKindOf(s) == Some(Unordered) <==> exists b: nat, c: nat :: BulletItem(s, b, c)
    ensures ListKindOf(s) == Some(Ordered) <==> exists b: nat, d: nat, c: nat :: NumberedItem(s, b, d, c)
    ensures forall b: nat, c: nat :: BulletItem(s, b, c) ==> c <= |s| && ItemText(s, Unordered) == s[c..]
    ensures forall b: nat, d: nat, c: nat :: NumberedItem(s, b, d, c) ==> c <= |s| && ItemText(s, Ordered) == s[c..]
  {
    BulletsAreItems(s);
    NumbersAreItems(s);
    OneKind(s);
    hide BulletItem, NumberedItem, UnorderedItem, OrderedItem;
  }

  lemma OneKind(s: JsString)
    ensures UnorderedItem(s).None? || OrderedItem(s).None?
  {
    hide SpacedRest;
    BlanksEnd(s, 0);
    DigitsEnd(s, Fences.SkipBlanks(s, 0));
  }

  // ---------------------------------------------------------------------------
  // Closing hashes
  // ---------------------------------------------------------------------------

  /** From `k` there is nothing but hashes, one or more up to `h`, and blanks, and what stands before `k` is apart. */
  predicate ClosingRun(text: JsString, k: nat, h: nat) {
    && k < h && HashesIn(text, k, h) && BlanksIn(text, h, |text|)
    && (k > 0 ==> text[k - 1] == SPACE || text[k - 1] == TAB)
  }

  /** `r` is `s` without white space around it. */
  ghost predicate IsTrimmed(r: JsString, s: JsString) {
    exists i: nat, j: nat :: TrimmedTo(r, s, i, j)
  }

  predicate TrimmedTo(r: JsString, s: JsString, i: nat, j: nat) {
    && i <= j <= |s| && r == s[i..j]
    && (forall k :: 0 <= k < i ==> IsSpace(s[k])) && (forall k :: j <= k < |s| ==> IsSpace(s[k]))
    && (i < j ==> !IsSpace(s[i]) && !IsSpace(s[j - 1]))
  }

  lemma TrimIsTrimmed(s: JsString)
    ensures IsTrimmed(Trim(s), s)
  {
    hide IsSpace, TrimStart, TrimEnd;
    TrimStartIsEnd(s);
    var t := TrimStart(s);
    EndIsTrimmed(s, |s| - |t|, t);
  }

  lemma EndIsTrimmed(s: JsString, i: nat, t: JsString)
    requires i <= |s| && t == s[i..] && (forall k :: 0 <= k < i ==> IsSpace(s[k])) && (t != [] ==> !IsSpace(t[0]))
    ensures IsTrimmed(TrimEnd(t), s)
  {
    hide IsSpace, TrimStart, TrimEnd;
    var r := TrimEnd(t);
    var j := i + |r|;
    forall k | j <= k < |s| ensures IsSpace(s[k]) { assert s[k] == t[k - i]; }
    assert r == s[i..j];
    assert TrimmedTo(r, s, i, j);
  }

  lemma {:induction false} DropsTrailing(s: JsString, hashes: bool)
    ensures var r := DropTrailing(s, hashes);
            && (if hashes then HashesIn(s, |r|, |s|) else BlanksIn(s, |r|, |s|))
            && (r != [] ==> if hashes then r[|r| - 1] != HASH else r[|r| - 1] != SPACE && r[|r| - 1] != TAB)
  {
    if s != [] && (if hashes then s[|s| - 1] == HASH else IsTabOrSpace(s[|s| - 1])) {
      DropsTrailing(s[..|s| - 1], hashes);
    }
  }

  /** A heading loses its closing run of hashes, if it has one, and the white space around what is left. */
  lemma ClosingRunIsStripped(text: JsString)
    ensures forall k: nat, h: nat :: ClosingRun(text, k, h) ==>
              k <= |text| && IsTrimmed(StripClosingSequence(text), text[..k])
    ensures (forall k: nat, h: nat :: !ClosingRun(text, k, h)) ==> IsTrimmed(StripClosingSequence(text), text)
  {
    var unpadded := DropTrailing(text, false);
    var kept := DropTrailing(unpadded, true);
    DropsTrailing(text, false);
    DropsTrailing(unpadded, true);
    TrimIsTrimmed(text);
    TrimIsTrimmed(kept);
    hide IsTrimmed, DropTrailing, Trim;
    if |kept| < |unpadded| && (kept == [] || IsTabOrSpace(kept[|kept| - 1])) {
      assert ClosingRun(text, |kept|, |unpadded|);
    }
    forall k: nat, h: nat | ClosingRun(text, k, h)
      ensures h == |unpadded| && k == |kept| && kept == text[..k]
    {
      RunIsUnique(text, unpadded, kept, k, h);
    }
  }

  lemma RunIsUnique(text: JsString, unpadded: JsString, kept: JsString, k: nat, h: nat)
    requires ClosingRun(text, k, h) && kept <= unpadded <= text
    requires BlanksIn(text, |unpadded|, |text|) && HashesIn(unpadded, |kept|, |unpadded|)
    requires unpadded != [] ==> unpadded[|unpadded| - 1] != SPACE && unpadded[|unpadded| - 1] != TAB
    requires kept != [] ==> kept[|kept| - 1] != HASH
    ensures h == |unpadded| && k == |kept| && kept == text[..k]
  {
    assert text[h - 1] == HASH;
    assert h == |unpadded|;
    assert text[k] == HASH;
    assert k == |kept|;
  }

  // ---------------------------------------------------------------------------
  // Cells
  // ---------------------------------------------------------------------------

  /** A backslash right before a pipe. */
  predicate Escapes(cell: JsString, k: nat)
    requires k < |cell|
  {
    cell[k] == '\\' as int && k + 1 < |cell| && cell[k + 1] == '|' as int
  }

  /** The first `n` units of a cell without the backslashes that stand right before a pipe. */
  function Unescaped(cell: JsString, n: nat): JsString
    requires n <= |cell|
  {
    if n == 0 then [] else Unescaped(cell, n - 1) + if Escapes(cell, n - 1) then [] else [cell[n - 1]]
  }

  lemma {:induction false} UnescapedShift(cell: JsString, drop: nat, n: nat)
    requires drop + n <= |cell|
    ensures Unescaped(cell, drop + n) == Unescaped(cell, drop) + Unescaped(cell[drop..], n)
  {
    if n > 0 {
      UnescapedShift(cell, drop, n - 1);
      assert cell[drop..][n - 1] == cell[drop + n - 1];
      assert Escapes(cell[drop..], n - 1) == Escapes(cell, drop + n - 1);
    }
  }

  /** What a cell shows is the cell without those backslashes. */
  lemma {:induction false} PipesAreUnescaped(cell: JsString)
    ensures UnescapePipes(cell) == Unescaped(cell, |cell|)
  {
    if cell != [] {
      var n := if Escapes(cell, 0) then 2 else 1;
      PipesAreUnescaped(cell[n..]);
      UnescapedShift(cell, n, |cell| - n);
      assert Unescaped(cell, 1) == if Escapes(cell, 0) then [] else [cell[0]];
      if n == 2 { assert Unescaped(cell, 2) == [PIPE]; }
    }
  }

  predicate AllWhite(s: JsString) {
    forall k :: 0 <= k < |s| ==> IsSpace(s[k])
  }

  /** `cells` are those of `cut` from `from` up to `to`, each trimmed. */
  ghost predicate TrimmedFrom(cells: seq<JsString>, cut: seq<JsString>, from: nat, to: nat) {
    && from <= to <= |cut| && |cells| == to - from
    && forall k :: 0 <= k < |cells| ==> IsTrimmed(cells[k], cut[from + k])
  }

  /** A white cell at either end is no cell. */
  function FirstShown(cut: seq<JsString>): nat {
    if cut != [] && AllWhite(cut[0]) then 1 else 0
  }

  function LastShown(cut: seq<JsString>): nat {
    if |cut| > FirstShown(cut) && AllWhite(cut[|cut| - 1]) then |cut| - 1 else |cut|
  }

  /** The row's text is cut at its unescaped pipes; a white cell at either end is left out; the others are trimmed. */
  lemma RowCellsAre(text: JsString)
    ensures exists cut :: CutAtPipes(cut, text) && TrimmedFrom(TableCells(text), cut, FirstShown(cut), LastShown(cut))
  {
    hide CutAtPipes, TrimmedFrom;
    RowIsCutAtPipes(text);
    ShownCells(Cells(text, 0, []));
  }

  lemma ShownCells(cut: seq<JsString>)
    requires cut != []
    ensures TrimmedFrom(TrimmedCells(WithoutLastBlank(WithoutFirstBlank(cut))), cut, FirstShown(cut), LastShown(cut))
  {
    hide AllWhite, IsTrimmed, Trim;
    WhiteTrims(cut[0]);
    WhiteTrims(cut[|cut| - 1]);
    var cells := TrimmedCells(WithoutLastBlank(WithoutFirstBlank(cut)));
    forall k | 0 <= k < |cells| ensures IsTrimmed(cells[k], cut[FirstShown(cut) + k]) {
      TrimIsTrimmed(cut[FirstShown(cut) + k]);
    }
  }

  lemma WhiteTrims(s: JsString)
    ensures AllWhite(s) <==> Trim(s) == []
  {
    TrimEmptyExactly(s);
  }

  // ---------------------------------------------------------------------------
  // Delimiter cells
  // ---------------------------------------------------------------------------

  /** Dashes, one or more, with a colon before and behind as told. */
  predicate DashesWith(cell: JsString, left: bool, right: bool) {
    var from := if left then 1 else 0;
    var to := |cell| - if right then 1 else 0;
    && from < to && (left ==> cell[0] == ':' as int) && (right ==> cell[|cell| - 1] == ':' as int)
    && forall k :: from <= k < to ==> cell[k] == '-' as int
  }

  /** A delimiter cell is dashes with a colon at either end or none, and the colons are its alignment. */
  lemma ColonsAlign(cell: JsString)
    ensures IsDelimiterCell(cell) <==> exists left, right :: DashesWith(cell, left, right)
    ensures forall left, right :: DashesWith(cell, left, right) ==>
              AlignmentOf(cell) == if left then Some(if right then Center else Left)
                                   else if right then Some(Right) else None
  {
    if IsDelimiterCell(cell) {
      assert DashesWith(cell, cell[0] == COLON, cell[|cell| - 1] == COLON);
    }
    forall left, right | DashesWith(cell, left, right)
      ensures IsDelimiterCell(cell) && (cell[0] == COLON <==> left) && (cell[|cell| - 1] == COLON <==> right)
    {
      assert left || cell[0] == DASH;
      assert right || cell[|cell| - 1] == DASH;
    }
  }
}
