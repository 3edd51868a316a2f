/**
 * The chat markdown document: text segments are cut into lines and grouped into paragraphs,
 * headings, lists and tables, each anchored to its span of the raw text.
 */
module MarkdownBlocks {
  import opened Options
  import opened JsText
  import opened Sequences
  import Fences = FenceSegments
  import opened InlineMarkdown

  datatype Alignment = Left | Center | Right

  datatype ChatBlock =
    | Paragraph(children: seq<Node>, sourceStart: nat, sourceEnd: nat)
    | Heading(level: nat, children: seq<Node>, sourceStart: nat, sourceEnd: nat)
    | Table(header: seq<seq<Node>>, alignments: seq<Option<Alignment>>, rows: seq<TableRow>,
            sourceStart: nat, sourceEnd: nat)
    | List(kind: ListKind, items: seq<seq<Node>>, sourceStart: nat, sourceEnd: nat)
    | Code(content: JsString, language: Option<Fences.Language>, closed: bool, sourceStart: nat, sourceEnd: nat)

  /** One body row: the parsed content of each cell. */
  datatype TableRow = TableRow(cells: seq<seq<Node>>)

  datatype ListKind = Unordered | Ordered

  datatype SourceLine = SourceLine(text: JsString, start: nat, end: nat)

  const HASH: CodeUnit := 0x23
  const PIPE: CodeUnit := 0x7C
  const DASH: CodeUnit := 0x2D

  predicate IsBlank(line: JsString) {
    Trim(line) == []
  }

  // ---------------------------------------------------------------------------
  // Line patterns
  // ---------------------------------------------------------------------------

  predicate IsTabOrSpace(c: CodeUnit) {
    c == SPACE || c == TAB
  }

  /** `(.*)$` from `i`: the rest of the line, unless it holds a line terminator. */
  function RestOfLine(s: JsString, i: nat): Option<JsString>
    requires i <= |s|
  {
    if forall k :: i <= k < |s| ==> !IsLineTerminator(s[k]) then Some(s[i..]) else None
  }

  function SkipDigits(s: JsString, i: nat): (j: nat)
    requires i <= |s|
    ensures i <= j <= |s|
    decreases |s| - i
  {
    if i < |s| && 0x30 <= s[i] <= 0x39 then SkipDigits(s, i + 1) else i
  }

  function SkipHashes(s: JsString, i: nat): (j: nat)
    requires i <= |s|
    ensures i <= j <= |s|
    decreases |s| - i
  {
    if i < |s| && s[i] == HASH then SkipHashes(s, i + 1) else i
  }

  /** `[ \t]+(.*)$` from `i`. */
  function SpacedRest(s: JsString, i: nat): Option<JsString>
    requires i <= |s|
  {
    var c := Fences.SkipBlanks(s, i);
    if c == i then None else RestOfLine(s, c)
  }

  /** `^[ \t]*[-*+][ \t]+(.*)$`. */
  function UnorderedItem(s: JsString): Option<JsString> {
    var b := Fences.SkipBlanks(s, 0);
    if b == |s| || s[b] !in {DASH, STAR, 0x2B} then None else SpacedRest(s, b + 1)
  }

  /** `^[ \t]*\d+[.)][ \t]+(.*)$`. */
  function OrderedItem(s: JsString): Option<JsString> {
    var b := Fences.SkipBlanks(s, 0);
    var d := SkipDigits(s, b);
    if d == b || d == |s| || s[d] !in {0x2E, 0x29} then None else SpacedRest(s, d + 1)
  }

  /** The ATX heading pattern: its level and the text after the hashes. */
  function AtxHeading(s: JsString): (r: Option<(nat, JsString)>)
    ensures r.Some? ==> 1 <= r.value.0 <= 6
  {
    var b := Fences.SkipBlanks(s, 0);
    var h := SkipHashes(s, b);
    var c := Fences.SkipBlanks(s, h);
    var after := SkipHashes(s, c);
    if h - b < 1 || h - b > 6 || c == h || after == |s| || IsSpace(s[after]) || RestOfLine(s, c).None? then None
    else Some((h - b, RestOfLine(s, c).value))
  }

  /** `/(^|[^\\])\|/`: the line carries an unescaped pipe. */
  predicate IsTableRow(s: JsString) {
    exists k :: 0 <= k < |s| && s[k] == PIPE && (k == 0 || s[k - 1] != BACKSLASH)
  }

  function ListKindOf(s: JsString): Option<ListKind> {
    if UnorderedItem(s).Some? then Some(Unordered)
    else if OrderedItem(s).Some? then Some(Ordered)
    else None
  }

  function ItemText(s: JsString, kind: ListKind): JsString {
    (if kind.Unordered? then UnorderedItem(s) else OrderedItem(s)).GetOr([])
  }

  /** Drop trailing characters while `[ \t]`, or while `#`. */
  function DropTrailing(s: JsString, hashes: bool): (r: JsString)
    ensures r <= s
  {
    if s != [] && (if hashes then s[|s| - 1] == HASH else IsTabOrSpace(s[|s| - 1])) then
      DropTrailing(s[..|s| - 1], hashes)
    else s
  }

  /** A heading's text without its optional closing run of hashes. */
  function StripClosingSequence(text: JsString): JsString {
    var unpadded := DropTrailing(text, false);
    var kept := DropTrailing(unpadded, true);
    Trim(if |kept| < |unpadded| && (kept == [] || IsTabOrSpace(kept[|kept| - 1])) then kept else text)
  }

  // ---------------------------------------------------------------------------
  // Table rows
  // ---------------------------------------------------------------------------

  /** The raw cells from `i` on, the first of which already holds `cell`. */
  function Cells(text: JsString, i: nat, cell: JsString): (r: seq<JsString>)
    requires i <= |text|
    ensures r != []
    decreases |text| - i
  {
    if i == |text| then [cell]
    else if text[i] == BACKSLASH && i + 1 < |text| && text[i + 1] == PIPE then
      Cells(text, i + 2, cell + [BACKSLASH, PIPE])
    else if text[i] == PIPE then [cell] + Cells(text, i + 1, [])
    else Cells(text, i + 1, cell + [text[i]])
  }

  function WithoutFirstBlank(cells: seq<JsString>): seq<JsString>
    requires cells != []
  {
    if Trim(cells[0]) == [] then cells[1..] else cells
  }

  function WithoutLastBlank(cells: seq<JsString>): seq<JsString> {
    if cells != [] && Trim(cells[|cells| - 1]) == [] then cells[..|cells| - 1] else cells
  }

  function TrimmedCells(cells: seq<JsString>): seq<JsString> {
    seq(|cells|, i requires 0 <= i < |cells| => Trim(cells[i]))
  }

  function TableCells(text: JsString): seq<JsString> {
    TrimmedCells(WithoutLastBlank(WithoutFirstBlank(Cells(text, 0, []))))
  }

  lemma CellsStep(text: JsString, i: nat, cell: JsString)
    requires i < |text|
    ensures Cells(text, i, cell) ==
            if text[i] == BACKSLASH && i + 1 < |text| && text[i + 1] == PIPE then
              Cells(text, i + 2, cell + [BACKSLASH, PIPE])
            else if text[i] == PIPE then [cell] + Cells(text, i + 1, [])
            else Cells(text, i + 1, cell + [text[i]])
  {
  }

  lemma LastCellOf(text: JsString, cell: JsString)
    ensures Cells(text, |text|, cell) == [cell]
  {
  }

  method SplitTableRow(text: JsString) returns (r: seq<JsString>)
    ensures r == TableCells(text)
  {
    hide Cells, Trim;
    var cells := [];
    var cell := [];
    var i := 0;
    while i < |text|
      invariant i <= |text|
      invariant cells + Cells(text, i, cell) == Cells(text, 0, [])
    {
      CellsStep(text, i, cell);
      var c := text[i];
      if c == BACKSLASH && i + 1 < |text| && text[i + 1] == PIPE {
        cell := cell + [BACKSLASH, PIPE];
        i := i + 2;
      } else if c == PIPE {
        Regroup(cells, [cell], Cells(text, i + 1, []));
        cells := cells + [cell];
        cell := [];
        i := i + 1;
      } else {
        cell := cell + [c];
        i := i + 1;
      }
    }
    LastCellOf(text, cell);
    cells := cells + [cell];
    if Trim(cells[0]) == [] { cells := cells[1..]; }
    if |cells| > 0 && Trim(cells[|cells| - 1]) == [] { cells := cells[..|cells| - 1]; }
    r := TrimmedCells(cells);
  }

  function UnescapePipes(cell: JsString): JsString {
    if |cell| >= 2 && cell[0] == BACKSLASH && cell[1] == PIPE then [PIPE] + UnescapePipes(cell[2..])
    else if cell == [] then []
    else [cell[0]] + UnescapePipes(cell[1..])
  }

  /** `^:?-+:?$`. */
  predicate IsDelimiterCell(cell: JsString) {
    var from := if cell != [] && cell[0] == COLON then 1 else 0;
    var to := if |cell| > from && cell[|cell| - 1] == COLON then |cell| - 1 else |cell|;
    from < to && forall k :: from <= k < to ==> cell[k] == DASH
  }

  function AlignmentOf(cell: JsString): Option<Alignment> {
    var left := cell != [] && cell[0] == COLON;
    var right := cell != [] && cell[|cell| - 1] == COLON;
    if left && right then Some(Center) else if right then Some(Right) else if left then Some(Left) else None
  }

  function Alignments(cells: seq<JsString>): (r: seq<Option<Alignment>>)
    ensures |r| == |cells|
  {
    seq(|cells|, i requires 0 <= i < |cells| => AlignmentOf(cells[i]))
  }

  /** One row of exactly `width` parsed cells; missing cells are empty, extra ones dropped. */
  function RowOf(cells: seq<JsString>, width: nat): (r: seq<seq<Node>>)
    ensures |r| == width
  {
    seq(width, i requires 0 <= i < width => Parse(UnescapePipes(if i < |cells| then cells[i] else [])))
  }

  // ---------------------------------------------------------------------------
  // Blocks, as functions of the lines
  // ---------------------------------------------------------------------------

  predicate InParagraph(line: JsString) {
    !IsBlank(line) && ListKindOf(line).None? && AtxHeading(line).None?
  }

  /** Where the run of lines starting at `i` that satisfy the block's condition stops. */
  function ListEnd(lines: seq<SourceLine>, i: nat, kind: ListKind): (j: nat)
    requires i <= |lines|
    ensures i <= j <= |lines|
    ensures i < |lines| && ListKindOf(lines[i].text) == Some(kind) ==> i < j
    decreases |lines| - i
  {
    if i < |lines| && ListKindOf(lines[i].text) == Some(kind) then ListEnd(lines, i + 1, kind) else i
  }

  function TableEnd(lines: seq<SourceLine>, i: nat): (j: nat)
    requires i <= |lines|
    ensures i <= j <= |lines|
    decreases |lines| - i
  {
    if i < |lines| && IsTableRow(lines[i].text) then TableEnd(lines, i + 1) else i
  }

  function ParagraphEnd(lines: seq<SourceLine>, i: nat): (j: nat)
    requires i <= |lines|
    ensures i <= j <= |lines|
    ensures i < |lines| && InParagraph(lines[i].text) ==> i < j
    decreases |lines| - i
  {
    if i < |lines| && InParagraph(lines[i].text) then ParagraphEnd(lines, i + 1) else i
  }

  function Items(lines: seq<SourceLine>, from: nat, to: nat, kind: ListKind): (r: seq<seq<Node>>)
    requires from <= to <= |lines|
    ensures |r| == to - from
  {
    seq(to - from, i requires 0 <= i < to - from => Parse(ItemText(lines[from + i].text, kind)))
  }

  function RowFor(text: JsString, width: nat): (r: TableRow)
    ensures |r.cells| == width
  {
    TableRow(RowOf(TableCells(text), width))
  }

  function Rows(lines: seq<SourceLine>, from: nat, to: nat, width: nat): seq<TableRow>
    requires from <= to <= |lines|
  {
    if from == to then [] else Rows(lines, from, to - 1, width) + [RowFor(lines[to - 1].text, width)]
  }

  /** The inline nodes of the lines `from..to`, with hard breaks between lines. */
  function ParagraphNodes(lines: seq<SourceLine>, from: nat, to: nat): seq<Node>
    requires from <= to <= |lines|
  {
    if from == to then []
    else
      ParagraphNodes(lines, from, to - 1) + (if to - 1 > from then [HardBreak] else [])
      + Parse(lines[to - 1].text)
  }

  predicate AreDelimiters(cells: seq<JsString>) {
    forall k :: 0 <= k < |cells| ==> IsDelimiterCell(cells[k])
  }

  /** The lines at `i` and `i + 1` are a header and its delimiter row. */
  predicate StartsTable(lines: seq<SourceLine>, i: nat) {
    && i + 1 < |lines|
    && IsTableRow(lines[i].text) && IsTableRow(lines[i + 1].text)
    && |TableCells(lines[i + 1].text)| == |TableCells(lines[i].text)|
    && AreDelimiters(TableCells(lines[i + 1].text))
  }

  function TableAt(lines: seq<SourceLine>, i: nat): ChatBlock
    requires StartsTable(lines, i)
  {
    var header := TableCells(lines[i].text);
    var end := TableEnd(lines, i + 2);
    Table(RowOf(header, |header|), Alignments(TableCells(lines[i + 1].text)),
          Rows(lines, i + 2, end, |header|), lines[i].start, lines[end - 1].end)
  }

  /** The block that starts at line `i`, and the line after it; `None` for a blank line. */
  function BlockAt(lines: seq<SourceLine>, i: nat): (r: (Option<ChatBlock>, nat))
    requires i < |lines|
    ensures i < r.1 <= |lines|
  {
    hide IsBlank, AtxHeading, ListKindOf, TableCells, IsTableRow, AreDelimiters;
    var line := lines[i];
    if IsBlank(line.text) then (None, i + 1)
    else if AtxHeading(line.text).Some? then
      var heading := AtxHeading(line.text).value;
      (Some(Heading(heading.0, Parse(StripClosingSequence(heading.1)), line.start, line.end)), i + 1)
    else if ListKindOf(line.text).Some? then
      var kind := ListKindOf(line.text).value;
      var end := ListEnd(lines, i, kind);
      (Some(List(kind, Items(lines, i, end, kind), line.start, lines[end - 1].end)), end)
    else if StartsTable(lines, i) then (Some(TableAt(lines, i)), TableEnd(lines, i + 2))
    else
      var end := ParagraphEnd(lines, i);
      (Some(Paragraph(ParagraphNodes(lines, i, end), line.start, lines[end - 1].end)), end)
  }

  function TextBlocks(lines: seq<SourceLine>, i: nat): seq<ChatBlock>
    requires i <= |lines|
    decreases |lines| - i
  {
    if i == |lines| then []
    else
      var (block, next) := BlockAt(lines, i);
      (if block.Some? then [block.value] else []) + TextBlocks(lines, next)
  }

  /** The line of `content` that starts at `start`, with absolute offsets. */
  function LineAt(content: JsString, offset: nat, start: nat): SourceLine
    requires start <= |content|
  {
    var end := Fences.LineEnd(content, start);
    SourceLine(content[start..end], offset + start, offset + end)
  }

  /** The lines of `content[start..]`. */
  function Lines(content: JsString, offset: nat, start: nat): (r: seq<SourceLine>)
    requires start <= |content|
    ensures r != [] && r[0] == LineAt(content, offset, start)
    decreases |content| - start
  {
    var newline := IndexOf(content, NEWLINE, start);
    [LineAt(content, offset, start)] + if newline == -1 then [] else Lines(content, offset, newline + 1)
  }

  function SegmentBlocks(segment: Fences.Segment): seq<ChatBlock> {
    match segment
    case Text(content, start, _) => TextBlocks(Lines(content, start, 0), 0)
    case Code(content, language, closed, start, end) => [Code(content, language, closed, start, end)]
  }

  function AllBlocks(segments: seq<Fences.Segment>): seq<ChatBlock> {
    if segments == [] then [] else SegmentBlocks(segments[0]) + AllBlocks(segments[1..])
  }

  // ---------------------------------------------------------------------------
  // The parser, pushing onto one block list
  // ---------------------------------------------------------------------------

  class BlockList {
    var items: seq<ChatBlock>

    constructor ()
      ensures items == []
    {
      items := [];
    }

    method Push(block: ChatBlock)
      modifies this
      ensures items == old(items) + [block]
    {
      items := items + [block];
    }
  }

  method SplitLines(content: JsString, offset: nat) returns (lines: seq<SourceLine>)
    ensures lines == Lines(content, offset, 0)
  {
    hide IndexOf, Lines;
    lines := [];
    var start := 0;
    while true
      invariant start <= |content|
      invariant lines + Lines(content, offset, start) == Lines(content, offset, 0)
      decreases |content| - start
    {
      var newline := IndexOf(content, NEWLINE, start);
      var end := if newline == -1 then |content| else newline;
      var line := SourceLine(content[start..end], offset + start, offset + end);
      assert line == LineAt(content, offset, start);
      hide LineAt;
      LinesUnfold(lines, content, offset, start);
      lines := lines + [line];
      if newline == -1 { break; }
      start := newline + 1;
    }
  }

  lemma LinesUnfold(done: seq<SourceLine>, content: JsString, offset: nat, start: nat)
    requires start <= |content|
    ensures var newline := IndexOf(content, NEWLINE, start);
            done + [LineAt(content, offset, start)]
            + (if newline == -1 then [] else Lines(content, offset, newline + 1))
            == done + Lines(content, offset, start)
  {
    hide IndexOf, LineAt;
  }

  method ConsumeList(lines: seq<SourceLine>, start: nat, kind: ListKind, blocks: BlockList) returns (index: nat)
    requires start < |lines| && ListKindOf(lines[start].text) == Some(kind)
    modifies blocks
    ensures index == ListEnd(lines, start, kind) && start < index <= |lines|
    ensures blocks.items == old(blocks.items)
            + [List(kind, Items(lines, start, index, kind), lines[start].start, lines[index - 1].end)]
  {
    hide ListKindOf, Parse;
    var items := [];
    index := start;
    while index < |lines| && ListKindOf(lines[index].text) == Some(kind)
      invariant start <= index <= |lines|
      invariant items == Items(lines, start, index, kind)
      invariant ListEnd(lines, index, kind) == ListEnd(lines, start, kind)
      invariant blocks.items == old(blocks.items)
    {
      var item := ParseInline(ItemText(lines[index].text, kind));
      items := items + [item];
      index := index + 1;
    }
    blocks.Push(List(kind, items, lines[start].start, lines[index - 1].end));
  }

  method ConsumeTable(lines: seq<SourceLine>, start: nat, blocks: BlockList) returns (next: Option<nat>)
    requires start < |lines|
    modifies blocks
    ensures next.Some? <==> StartsTable(lines, start)
    ensures next.Some? ==> next.value == TableEnd(lines, start + 2)
                           && blocks.items == old(blocks.items) + [TableAt(lines, start)]
    ensures next.None? ==> blocks.items == old(blocks.items)
  {
    hide TableCells, Parse, IsTableRow, AreDelimiters;
    if start + 1 >= |lines| { return None; }
    if !IsTableRow(lines[start].text) || !IsTableRow(lines[start + 1].text) { return None; }
    var header := SplitTableRow(lines[start].text);
    var delimiters := SplitTableRow(lines[start + 1].text);
    if |delimiters| != |header| { return None; }
    if !AreDelimiters(delimiters) { return None; }
    assert StartsTable(lines, start);
    var rows := [];
    var index := start + 2;
    while index < |lines| && IsTableRow(lines[index].text)
      invariant start + 2 <= index <= |lines|
      invariant rows == Rows(lines, start + 2, index, |header|)
      invariant TableEnd(lines, index) == TableEnd(lines, start + 2)
      invariant blocks.items == old(blocks.items)
    {
      var cells := SplitTableRow(lines[index].text);
      rows := rows + [TableRow(RowOf(cells, |header|))];
      index := index + 1;
    }
    blocks.Push(Table(RowOf(header, |header|), Alignments(delimiters), rows, lines[start].start, lines[index - 1].end));
    next := Some(index);
  }

  method ConsumeParagraph(lines: seq<SourceLine>, start: nat, blocks: BlockList) returns (index: nat)
    requires start < |lines| && InParagraph(lines[start].text)
    modifies blocks
    ensures index == ParagraphEnd(lines, start) && start < index <= |lines|
    ensures blocks.items == old(blocks.items)
            + [Paragraph(ParagraphNodes(lines, start, index), lines[start].start, lines[index - 1].end)]
  {
    hide InParagraph, Parse;
    var children := [];
    index := start;
    while index < |lines| && InParagraph(lines[index].text)
      invariant start <= index <= |lines|
      invariant children == ParagraphNodes(lines, start, index)
      invariant ParagraphEnd(lines, index) == ParagraphEnd(lines, start)
      invariant blocks.items == old(blocks.items)
    {
      if index > start { children := children + [HardBreak]; }
      var nodes := ParseInline(lines[index].text);
      children := children + nodes;
      index := index + 1;
    }
    blocks.Push(Paragraph(children, lines[start].start, lines[index - 1].end));
  }

  lemma TextBlocksStep(done: seq<ChatBlock>, lines: seq<SourceLine>, i: nat)
    requires i < |lines|
    ensures var (block, next) := BlockAt(lines, i);
            done + TextBlocks(lines, i)
            == (if block.Some? then done + [block.value] else done) + TextBlocks(lines, next)
  {
    hide BlockAt;
    var (block, next) := BlockAt(lines, i);
    if block.Some? {
      Regroup(done, [block.value], TextBlocks(lines, next));
    } else {
      assert [] + TextBlocks(lines, next) == TextBlocks(lines, next);
    }
  }

  lemma NoMoreBlocks(lines: seq<SourceLine>)
    ensures TextBlocks(lines, |lines|) == []
  {
  }

  method ParseTextSegment(content: JsString, sourceStart: nat, blocks: BlockList)
    modifies blocks
    ensures blocks.items == old(blocks.items) + TextBlocks(Lines(content, sourceStart, 0), 0)
  {
    hide Parse, IsBlank, AtxHeading, ListKindOf, StripClosingSequence, StartsTable, Lines, TextBlocks, TableAt,
      TableEnd, ListEnd, ParagraphEnd, Items, ParagraphNodes;
    var lines := SplitLines(content, sourceStart);
    var index := 0;
    while index < |lines|
      invariant index <= |lines|
      invariant blocks.items + TextBlocks(lines, index) == old(blocks.items) + TextBlocks(lines, 0)
    {
      TextBlocksStep(blocks.items, lines, index);
      var line := lines[index];
      if IsBlank(line.text) {
        index := index + 1;
        continue;
      }
      var heading := AtxHeading(line.text);
      if heading.Some? {
        var children := ParseInline(StripClosingSequence(heading.value.1));
        blocks.Push(Heading(heading.value.0, children, line.start, line.end));
        index := index + 1;
        continue;
      }
      var kind := ListKindOf(line.text);
      if kind.Some? {
        index := ConsumeList(lines, index, kind.value, blocks);
        continue;
      }
      var table := ConsumeTable(lines, index, blocks);
      if table.Some? {
        index := table.value;
        continue;
      }
      index := ConsumeParagraph(lines, index, blocks);
    }
    NoMoreBlocks(lines);
  }

  method ParseChatMarkdown(raw: JsString) returns (blocks: BlockList)
    ensures fresh(blocks) && blocks.items == AllBlocks(Fences.Split(raw, 0))
  {
    hide SegmentBlocks, Fences.Split, AllBlocks;
    blocks := new BlockList();
    var segments := Fences.SplitContentSegments(raw);
    var i := 0;
    AllBlocksFrom(segments, |segments|);
    assert segments[0..] == segments;
    while i < |segments|
      invariant i <= |segments|
      invariant fresh(blocks)
      invariant blocks.items + AllBlocks(segments[i..]) == AllBlocks(segments)
    {
      ghost var done := blocks.items;
      AllBlocksFrom(segments, i);
      PushSegment(segments[i], blocks);
      assert done + SegmentBlocks(segments[i]) + AllBlocks(segments[i + 1..])
          == done + (SegmentBlocks(segments[i]) + AllBlocks(segments[i + 1..]));
      i := i + 1;
    }
  }

  method PushSegment(segment: Fences.Segment, blocks: BlockList)
    modifies blocks
    ensures blocks.items == old(blocks.items) + SegmentBlocks(segment)
  {
    hide TextBlocks, Lines;
    match segment {
      case Text(content, start, _) => ParseTextSegment(content, start, blocks);
      case Code(content, language, closed, start, end) =>
        blocks.Push(Code(content, language, closed, start, end));
    }
  }

  lemma AllBlocksFrom(segments: seq<Fences.Segment>, i: nat)
    requires i <= |segments|
    ensures AllBlocks(segments[i..]) ==
            if i == |segments| then [] else SegmentBlocks(segments[i]) + AllBlocks(segments[i + 1..])
  {
    hide SegmentBlocks;
    if i < |segments| { assert segments[i..][1..] == segments[i + 1..]; }
  }
}
