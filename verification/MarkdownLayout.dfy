/**
 * What the block sequence says about the raw text: paragraphs print back exactly, tables are
 * rectangular, spans come in order, and everything outside the spans is white space.
 */
module MarkdownLayout {
  import opened Options
  import opened JsText
  import Fences = FenceSegments
  import opened InlineMarkdown
  import opened MarkdownBlocks

  /** A line shows the text it spans, which holds no newline. */
  predicate OnOneLine(raw: JsString, line: SourceLine) {
    line.start <= line.end <= |raw| && line.text == raw[line.start..line.end] && NEWLINE !in line.text
  }

  /** One newline lies between the two lines. */
  predicate Follows(raw: JsString, line: SourceLine, next: SourceLine) {
    line.end < |raw| && raw[line.end] == NEWLINE && next.start == line.end + 1
  }

  /** The lines are the text of `raw[from..to]`, cut at its newlines. */
  predicate WellPlaced(raw: JsString, lines: seq<SourceLine>, from: nat, to: nat) {
    && lines != [] && lines[0].start == from && lines[|lines| - 1].end == to <= |raw|
    && (forall k :: 0 <= k < |lines| ==> OnOneLine(raw, lines[k]) && lines[k].end <= to)
    && (forall k :: 0 <= k < |lines| - 1 ==> lines[k].end < to && Follows(raw, lines[k], lines[k + 1]))
  }

  lemma SliceOfSlice(raw: JsString, offset: nat, n: nat, a: nat, b: nat)
    requires offset + n <= |raw| && a <= b <= n
    ensures raw[offset..offset + n][a..b] == raw[offset + a..offset + b]
  {
    var part := raw[offset..offset + n];
    assert forall k :: a <= k < b ==> part[k] == raw[offset + k];
  }

  lemma LineTextIsPlaced(raw: JsString, content: JsString, offset: nat, start: nat)
    requires start <= |content| && offset + |content| <= |raw| && content == raw[offset..offset + |content|]
    ensures var line := LineAt(content, offset, start);
            && offset + start == line.start <= line.end <= offset + |content|
            && line.text == raw[line.start..line.end] && NEWLINE !in line.text
            && (var newline := IndexOf(content, NEWLINE, start);
                if newline == -1 then line.end == offset + |content|
                else line.end == offset + newline && raw[line.end] == NEWLINE)
  {
    hide IndexOf;
    SliceOfSlice(raw, offset, |content|, start, LineAt(content, offset, start).end - offset);
  }

  lemma {:induction false} LinesAreWellPlaced(raw: JsString, content: JsString, offset: nat, start: nat)
    requires start <= |content| && offset + |content| <= |raw| && content == raw[offset..offset + |content|]
    ensures WellPlaced(raw, Lines(content, offset, start), offset + start, offset + |content|)
    decreases |content| - start
  {
    hide IndexOf, WellPlaced, LineAt;
    var newline := IndexOf(content, NEWLINE, start);
    var line := LineAt(content, offset, start);
    LineTextIsPlaced(raw, content, offset, start);
    if newline == -1 {
      assert Lines(content, offset, start) == [line];
      assert WellPlaced(raw, [line], offset + start, offset + |content|) by { OneLineIsWellPlaced(raw, line); }
    } else {
      LinesAreWellPlaced(raw, content, offset, newline + 1);
      WellPlacedCons(raw, line, Lines(content, offset, newline + 1), offset + newline + 1, offset + |content|);
    }
  }

  lemma OneLineIsWellPlaced(raw: JsString, line: SourceLine)
    requires line.start <= line.end <= |raw| && line.text == raw[line.start..line.end] && NEWLINE !in line.text
    ensures WellPlaced(raw, [line], line.start, line.end)
  {
  }

  lemma WellPlacedCons(raw: JsString, line: SourceLine, rest: seq<SourceLine>, from: nat, to: nat)
    requires WellPlaced(raw, rest, from, to) && from > 0
    requires line.start <= line.end == from - 1 && from <= |raw| && raw[line.end] == NEWLINE
    requires line.text == raw[line.start..line.end] && NEWLINE !in line.text
    ensures WellPlaced(raw, [line] + rest, line.start, to)
  {
    var lines := [line] + rest;
    assert forall k :: 1 <= k < |lines| ==> lines[k] == rest[k - 1];
    assert from <= to by { assert rest[0].start <= rest[0].end <= to; }
  }

  /** The nodes of a run of lines print back to the raw text the run spans. */
  lemma {:induction false} ParagraphPrintsBack(raw: JsString, lines: seq<SourceLine>, from: nat, to: nat,
                                               first: nat, last: nat)
    requires WellPlaced(raw, lines, first, last) && from < to <= |lines|
    ensures lines[from].start <= lines[to - 1].end <= |raw|
    ensures PrintAll(ParagraphNodes(lines, from, to)) == raw[lines[from].start..lines[to - 1].end]
    decreases |lines|, (to)
  {
    hide Parse, PrintAll;
    var line := lines[to - 1];
    ParsePrintsBack(line.text);
    ParagraphStep(lines, from, to);
    hide ParagraphNodes;
    if to - 1 > from {
      ParagraphPrintsBack(raw, lines, from, to - 1, first, last);
      BreakPrints();
      var before := lines[to - 2];
      assert raw[before.end] == NEWLINE && line.start == before.end + 1;
      hide WellPlaced;
      JoinAtNewline(raw, lines[from].start, before.end, line.end);
    }
  }

  lemma ParagraphStep(lines: seq<SourceLine>, from: nat, to: nat)
    requires from < to <= |lines|
    ensures PrintAll(ParagraphNodes(lines, from, to))
            == (if to - 1 == from then [] else PrintAll(ParagraphNodes(lines, from, to - 1)) + PrintAll([HardBreak]))
               + PrintAll(Parse(lines[to - 1].text))
  {
    hide Parse, PrintAll;
    var text := Parse(lines[to - 1].text);
    if to - 1 == from {
      assert ParagraphNodes(lines, from, from) == [];
      assert ParagraphNodes(lines, from, to) == text;
    } else {
      var nodes := ParagraphNodes(lines, from, to - 1);
      PrintAppend(nodes + [HardBreak], text);
      PrintAppend(nodes, [HardBreak]);
    }
  }

  lemma BreakPrints()
    ensures PrintAll([HardBreak]) == [NEWLINE]
  {
  }

  lemma JoinAtNewline(raw: JsString, start: nat, newline: nat, end: nat)
    requires start <= newline < end <= |raw| && raw[newline] == NEWLINE
    ensures raw[start..end] == raw[start..newline] + [NEWLINE] + raw[newline + 1..end]
  {
  }

  // ---------------------------------------------------------------------------
  // Layout of the block sequence
  // ---------------------------------------------------------------------------

  predicate AllSpace(raw: JsString, from: nat, to: nat) {
    from <= to <= |raw| && forall k :: from <= k < to ==> IsSpace(raw[k])
  }

  /** The cells of a row print back to the cells of its line, an absent cell being empty. */
  ghost predicate ShowsRow(cells: seq<seq<Node>>, text: JsString, width: nat) {
    && |cells| == width
    && forall c :: 0 <= c < width ==>
         PrintAll(cells[c]) == UnescapePipes(if c < |TableCells(text)| then TableCells(text)[c] else [])
  }

  /** A header, its delimiter row, and one row for each further line. */
  ghost predicate ShowsTable(table: ChatBlock, lines: seq<SourceLine>)
    requires table.Table?
  {
    && |lines| == |table.rows| + 2 && Rectangular(table)
    && |table.header| == |TableCells(lines[0].text)| && ShowsRow(table.header, lines[0].text, |table.header|)
    && table.alignments == Alignments(TableCells(lines[1].text))
    && forall r :: 0 <= r < |table.rows| ==> ShowsRow(table.rows[r].cells, lines[r + 2].text, |table.header|)
  }

  /** The block shows the lines: a heading its one line, a list an item for each, a table its rows. */
  ghost predicate ShowsLines(block: ChatBlock, lines: seq<SourceLine>) {
    match block
    case Heading(level, children, _, _) =>
      && |lines| == 1 && 1 <= level <= 6 && AtxHeading(lines[0].text).Some?
      && level == AtxHeading(lines[0].text).value.0
      && PrintAll(children) == StripClosingSequence(AtxHeading(lines[0].text).value.1)
    case List(kind, items, _, _) =>
      && items != [] && |items| == |lines|
      && forall k :: 0 <= k < |items| ==>
           ListKindOf(lines[k].text) == Some(kind) && PrintAll(items[k]) == ItemText(lines[k].text, kind)
    case Table(_, _, _, _, _) => ShowsTable(block, lines)
    case _ => false
  }

  /** What a block says about the text it spans. */
  ghost predicate Faithful(raw: JsString, block: ChatBlock) {
    && block.sourceStart <= block.sourceEnd <= |raw|
    && match block
       case Paragraph(children, start, end) => PrintAll(children) == raw[start..end]
       case Code(content, language, closed, start, end) =>
         Fences.SegmentShows(raw, Fences.Segment.Code(content, language, closed, start, end))
       case _ => exists lines :: WellPlaced(raw, lines, block.sourceStart, block.sourceEnd) && ShowsLines(block, lines)
  }

  /** The blocks are faithful, in order and disjoint, and only white space lies between them. */
  ghost predicate Covers(raw: JsString, blocks: seq<ChatBlock>, from: nat, to: nat) {
    if blocks == [] then AllSpace(raw, from, to)
    else
      && Faithful(raw, blocks[0])
      && AllSpace(raw, from, blocks[0].sourceStart)
      && Covers(raw, blocks[1..], blocks[0].sourceEnd, to)
  }

  lemma CoversWiden(raw: JsString, blocks: seq<ChatBlock>, wider: nat, from: nat, to: nat)
    requires AllSpace(raw, wider, from) && Covers(raw, blocks, from, to)
    ensures Covers(raw, blocks, wider, to)
  {
    hide Faithful, IsSpace;
  }

  lemma {:induction false} CoversAppend(raw: JsString, a: seq<ChatBlock>, b: seq<ChatBlock>,
                                        from: nat, mid: nat, to: nat)
    requires Covers(raw, a, from, mid) && Covers(raw, b, mid, to)
    ensures Covers(raw, a + b, from, to)
  {
    hide Faithful, AllSpace;
    if a == [] {
      assert a + b == b;
      CoversWiden(raw, b, from, mid, to);
    } else {
      assert (a + b)[0] == a[0] && (a + b)[1..] == a[1..] + b;
      CoversAppend(raw, a[1..], b, a[0].sourceEnd, mid, to);
    }
  }

  predicate Rectangular(table: ChatBlock)
    requires table.Table?
  {
    && |table.alignments| == |table.header|
    && forall r :: 0 <= r < |table.rows| ==> |table.rows[r].cells| == |table.header|
  }

  lemma {:induction false} RowsHaveWidth(lines: seq<SourceLine>, from: nat, until: nat, width: nat)
    requires from <= until <= |lines|
    ensures forall r :: 0 <= r < |Rows(lines, from, until, width)| ==>
              |Rows(lines, from, until, width)[r].cells| == width
    decreases until
  {
    hide RowFor;
    if from < until { RowsHaveWidth(lines, from, until - 1, width); }
  }

  /** The cells with a pipe between each two. */
  function JoinCells(cells: seq<JsString>): JsString
    requires cells != []
  {
    if |cells| == 1 then cells[0] else cells[0] + [PIPE] + JoinCells(cells[1..])
  }

  /** Every pipe in the text follows a backslash. */
  predicate PipesAreEscaped(text: JsString) {
    forall k :: 0 <= k < |text| && text[k] == PIPE ==> k > 0 && text[k - 1] == BACKSLASH
  }

  predicate EndsInBackslash(text: JsString) {
    text != [] && text[|text| - 1] == BACKSLASH
  }

  /** A row is cut exactly at the pipes that do not follow a backslash. */
  ghost predicate CutAtPipes(cells: seq<JsString>, text: JsString) {
    && cells != [] && JoinCells(cells) == text
    && (forall k :: 0 <= k < |cells| ==> PipesAreEscaped(cells[k]))
    && (forall k :: 0 <= k < |cells| - 1 ==> !EndsInBackslash(cells[k]))
  }

  lemma CutOnce(cell: JsString, later: seq<JsString>, text: JsString)
    requires CutAtPipes(later, text) && PipesAreEscaped(cell) && !EndsInBackslash(cell)
    ensures CutAtPipes([cell] + later, cell + [PIPE] + text)
  {
    hide PipesAreEscaped, EndsInBackslash;
    assert ([cell] + later)[1..] == later;
  }

  lemma {:induction false} CellsAreCut(text: JsString, i: nat, cell: JsString)
    requires i <= |text| && PipesAreEscaped(cell)
    requires i < |text| && text[i] == PIPE ==> !EndsInBackslash(cell)
    ensures CutAtPipes(Cells(text, i, cell), cell + text[i..])
    decreases |text| - i
  {
    hide CutAtPipes, PipesAreEscaped;
    if i == |text| {
      LastCell(cell);
      assert cell + text[i..] == cell;
    } else if text[i] == BACKSLASH && i + 1 < |text| && text[i + 1] == PIPE {
      MoreOfCell(cell, [BACKSLASH, PIPE]);
      CellsAreCut(text, i + 2, cell + [BACKSLASH, PIPE]);
      assert cell + [BACKSLASH, PIPE] + text[i + 2..] == cell + text[i..];
    } else if text[i] == PIPE {
      LastCell([]);
      CellsAreCut(text, i + 1, []);
      CutOnce(cell, Cells(text, i + 1, []), [] + text[i + 1..]);
      assert cell + [PIPE] + ([] + text[i + 1..]) == cell + text[i..];
    } else {
      MoreOfCell(cell, [text[i]]);
      CellsAreCut(text, i + 1, cell + [text[i]]);
      assert cell + [text[i]] + text[i + 1..] == cell + text[i..];
    }
  }

  lemma LastCell(cell: JsString)
    ensures PipesAreEscaped([])
    ensures PipesAreEscaped(cell) ==> CutAtPipes([cell], cell)
  {
  }

  lemma MoreOfCell(cell: JsString, more: JsString)
    requires PipesAreEscaped(cell) && (more == [BACKSLASH, PIPE] || (|more| == 1 && more[0] != PIPE))
    ensures PipesAreEscaped(cell + more)
  {
  }

  /** The raw cells of every row are its text, cut at the unescaped pipes. */
  lemma RowIsCutAtPipes(text: JsString)
    ensures CutAtPipes(Cells(text, 0, []), text)
  {
    LastCell([]);
    CellsAreCut(text, 0, []);
    assert [] + text[0..] == text;
  }

  lemma TableIsRectangular(lines: seq<SourceLine>, i: nat)
    requires StartsTable(lines, i)
    ensures TableAt(lines, i).Table? && Rectangular(TableAt(lines, i))
    ensures TableAt(lines, i).sourceStart == lines[i].start
    ensures TableAt(lines, i).sourceEnd == lines[TableEnd(lines, i + 2) - 1].end
  {
    hide TableCells, IsTableRow, AreDelimiters, Parse, TableEnd, Rows;
    RowsHaveWidth(lines, i + 2, TableEnd(lines, i + 2), |TableCells(lines[i].text)|);
  }

  lemma BlockSpans(lines: seq<SourceLine>, i: nat)
    requires i < |lines| && BlockAt(lines, i).0.Some?
    ensures var (block, next) := BlockAt(lines, i);
            && block.value.sourceStart == lines[i].start && block.value.sourceEnd == lines[next - 1].end
            && !block.value.Code?
            && (block.value.Paragraph? ==> block.value.children == ParagraphNodes(lines, i, next))
  {
    hide IsBlank, ListKindOf, AtxHeading, StripClosingSequence, StartsTable, TableAt, TableEnd, ListEnd, ParagraphEnd,
      ParagraphNodes, Parse, Rectangular, Items;
    if StartsTable(lines, i) { TableIsRectangular(lines, i); }
  }

  lemma {:induction false} ListLines(lines: seq<SourceLine>, i: nat, kind: ListKind)
    requires i <= |lines|
    ensures forall k :: i <= k < ListEnd(lines, i, kind) ==> ListKindOf(lines[k].text) == Some(kind)
    decreases |lines| - i
  {
    hide ListKindOf;
    if i < |lines| && ListKindOf(lines[i].text) == Some(kind) { ListLines(lines, i + 1, kind); }
  }

  lemma ListShows(lines: seq<SourceLine>, i: nat, kind: ListKind, start: nat, end: nat)
    requires i < |lines| && ListKindOf(lines[i].text) == Some(kind)
    ensures var last := ListEnd(lines, i, kind);
            ShowsLines(List(kind, Items(lines, i, last, kind), start, end), lines[i..last])
  {
    hide ListKindOf, ItemText, Parse, PrintAll;
    var last := ListEnd(lines, i, kind);
    ListLines(lines, i, kind);
    forall k | 0 <= k < last - i
      ensures PrintAll(Items(lines, i, last, kind)[k]) == ItemText(lines[i..last][k].text, kind)
    {
      ParsePrintsBack(ItemText(lines[i + k].text, kind));
    }
  }

  lemma RowShows(text: JsString, width: nat)
    ensures ShowsRow(RowOf(TableCells(text), width), text, width)
  {
    hide TableCells, UnescapePipes, Parse, PrintAll;
    var cells := TableCells(text);
    forall c | 0 <= c < width ensures
        PrintAll(RowOf(cells, width)[c]) == UnescapePipes(if c < |cells| then cells[c] else [])
    {
      ParsePrintsBack(UnescapePipes(if c < |cells| then cells[c] else []));
    }
  }

  lemma {:induction false} RowAt(lines: seq<SourceLine>, from: nat, until: nat, width: nat, r: nat)
    requires from <= until <= |lines|
    ensures |Rows(lines, from, until, width)| == until - from
    ensures r < until - from ==> Rows(lines, from, until, width)[r] == RowFor(lines[from + r].text, width)
    decreases until
  {
    hide RowFor;
    if from < until { RowAt(lines, from, until - 1, width, r); }
  }

  lemma RowsShow(lines: seq<SourceLine>, from: nat, until: nat, width: nat)
    requires from <= until <= |lines|
    ensures var rows := Rows(lines, from, until, width);
            && |rows| == until - from
            && forall r :: 0 <= r < |rows| ==> ShowsRow(rows[r].cells, lines[from + r].text, width)
  {
    hide ShowsRow, RowOf, Rows, TableCells;
    RowAt(lines, from, until, width, 0);
    var rows := Rows(lines, from, until, width);
    forall r | 0 <= r < |rows| ensures ShowsRow(rows[r].cells, lines[from + r].text, width) {
      RowAt(lines, from, until, width, r);
      RowShows(lines[from + r].text, width);
    }
  }

  lemma TableShows(lines: seq<SourceLine>, i: nat)
    requires StartsTable(lines, i)
    ensures ShowsLines(TableAt(lines, i), lines[i..TableEnd(lines, i + 2)])
  {
    hide TableCells, IsTableRow, AreDelimiters, TableEnd, RowOf, ShowsRow, Rows, AlignmentOf;
    var end, text := TableEnd(lines, i + 2), lines[i].text;
    TableIsRectangular(lines, i);
    RowShows(text, |TableCells(text)|);
    RowsShow(lines, i + 2, end, |TableCells(text)|);
  }

  lemma BlockShows(lines: seq<SourceLine>, i: nat)
    requires i < |lines| && BlockAt(lines, i).0.Some? && !BlockAt(lines, i).0.value.Paragraph?
    ensures var (block, next) := BlockAt(lines, i); ShowsLines(block.value, lines[i..next])
  {
    hide IsBlank, AtxHeading, ListKindOf, StripClosingSequence, StartsTable, TableAt, TableEnd, ListEnd, ShowsTable,
      Parse, PrintAll, Items;
    var text := lines[i].text;
    if AtxHeading(text).Some? {
      ParsePrintsBack(StripClosingSequence(AtxHeading(text).value.1));
      HeadingLevel(text);
    } else if ListKindOf(text).Some? {
      var kind := ListKindOf(text).value;
      ListShows(lines, i, kind, lines[i].start, lines[ListEnd(lines, i, kind) - 1].end);
    } else if StartsTable(lines, i) {
      TableShows(lines, i);
    }
  }

  lemma HeadingLevel(text: JsString)
    requires AtxHeading(text).Some?
    ensures 1 <= AtxHeading(text).value.0 <= 6
  {
  }

  lemma SliceIsWellPlaced(raw: JsString, lines: seq<SourceLine>, from: nat, to: nat, i: nat, j: nat)
    requires WellPlaced(raw, lines, from, to) && i < j <= |lines|
    ensures WellPlaced(raw, lines[i..j], lines[i].start, lines[j - 1].end)
  {
    hide WellPlaced, OnOneLine, Follows;
    var end := lines[j - 1].end;
    forall k | i <= k < j ensures lines[k].end <= end && OnOneLine(raw, lines[k]) {
      LinesAscend(raw, lines, from, to, k, j - 1);
    }
    forall k | i <= k < j - 1 ensures lines[k].end < end && Follows(raw, lines[k], lines[k + 1]) {
      LinesAscend(raw, lines, from, to, k, j - 1);
    }
    LineFits(raw, lines[j - 1]);
    PartIsWellPlaced(raw, lines, i, j);
  }

  lemma PartIsWellPlaced(raw: JsString, lines: seq<SourceLine>, i: nat, j: nat)
    requires i < j <= |lines| && lines[j - 1].end <= |raw|
    requires forall k :: i <= k < j ==> lines[k].end <= lines[j - 1].end && OnOneLine(raw, lines[k])
    requires forall k :: i <= k < j - 1 ==> lines[k].end < lines[j - 1].end && Follows(raw, lines[k], lines[k + 1])
    ensures WellPlaced(raw, lines[i..j], lines[i].start, lines[j - 1].end)
  {
    hide OnOneLine, Follows;
    var part := lines[i..j];
    forall k | 0 <= k < |part| - 1 ensures part[k].end < lines[j - 1].end && Follows(raw, part[k], part[k + 1]) {
      assert part[k] == lines[i + k] && part[k + 1] == lines[i + k + 1];
    }
  }

  lemma LineFits(raw: JsString, line: SourceLine)
    requires OnOneLine(raw, line)
    ensures line.end <= |raw|
  {
  }

  lemma {:induction false} LinesAscend(raw: JsString, lines: seq<SourceLine>, from: nat, to: nat, i: nat, j: nat)
    requires WellPlaced(raw, lines, from, to) && i <= j < |lines|
    ensures lines[i].end <= lines[j].end && (i < j ==> lines[i].end < lines[j].end)
    ensures OnOneLine(raw, lines[i]) && (i < j ==> Follows(raw, lines[i], lines[i + 1]))
    decreases j
  {
    if i < j {
      LinesAscend(raw, lines, from, to, i, j - 1);
      assert Follows(raw, lines[j - 1], lines[j]) && OnOneLine(raw, lines[j]);
    }
  }

  lemma BlockIsFaithful(raw: JsString, lines: seq<SourceLine>, i: nat, from: nat, to: nat)
    requires WellPlaced(raw, lines, from, to) && i < |lines| && BlockAt(lines, i).0.Some?
    ensures Faithful(raw, BlockAt(lines, i).0.value)
  {
    hide BlockAt, ParagraphNodes, ShowsLines, WellPlaced;
    var (block, next) := BlockAt(lines, i);
    BlockSpans(lines, i);
    SpanIsOrdered(raw, lines, from, to, i, next);
    if block.value.Paragraph? {
      ParagraphPrintsBack(raw, lines, i, next, from, to);
    } else {
      BlockShows(lines, i);
      SliceIsWellPlaced(raw, lines, from, to, i, next);
    }
  }

  lemma SpanIsOrdered(raw: JsString, lines: seq<SourceLine>, from: nat, to: nat, i: nat, j: nat)
    requires WellPlaced(raw, lines, from, to) && i < j <= |lines|
    ensures lines[i].start <= lines[j - 1].end <= |raw|
  {
    LinesAscend(raw, lines, from, to, i, j - 1);
  }

  function StartOf(lines: seq<SourceLine>, i: nat, to: nat): nat {
    if i < |lines| then lines[i].start else to
  }

  /** The blocks of a text segment's lines cover it. */
  lemma {:induction false} TextBlocksCover(raw: JsString, lines: seq<SourceLine>, i: nat, from: nat, to: nat)
    requires WellPlaced(raw, lines, from, to) && i <= |lines|
    ensures Covers(raw, TextBlocks(lines, i), StartOf(lines, i, to), to)
    decreases |lines| - i
  {
    hide BlockAt, IsSpace, Faithful;
    if i < |lines| {
      var (block, next) := BlockAt(lines, i);
      var rest := TextBlocks(lines, next);
      TextBlocksCover(raw, lines, next, from, to);
      assert AllSpace(raw, lines[next - 1].end, StartOf(lines, next, to)) by { NewlineIsSpace(); }
      CoversWiden(raw, rest, lines[next - 1].end, StartOf(lines, next, to), to);
      if block.None? {
        BlankLineIsSpace(raw, lines, i, from, to);
        CoversWiden(raw, rest, lines[i].start, lines[i].end, to);
        assert TextBlocks(lines, i) == rest;
      } else {
        BlockIsFaithful(raw, lines, i, from, to);
        BlockSpans(lines, i);
        assert ([block.value] + rest)[1..] == rest;
      }
    }
  }

  lemma NewlineIsSpace()
    ensures IsSpace(NEWLINE)
  {
  }

  lemma BlankLineIsSpace(raw: JsString, lines: seq<SourceLine>, i: nat, from: nat, to: nat)
    requires WellPlaced(raw, lines, from, to) && i < |lines| && BlockAt(lines, i).0.None?
    ensures BlockAt(lines, i).1 == i + 1 && AllSpace(raw, lines[i].start, lines[i].end)
  {
    hide Trim, IsSpace, ListKindOf, AtxHeading, TableCells, IsTableRow, AreDelimiters, ParagraphNodes, Parse;
    TrimEmptyExactly(lines[i].text);
    var line := lines[i];
    forall k | line.start <= k < line.end ensures IsSpace(raw[k]) {
      assert raw[k] == line.text[k - line.start];
    }
  }

  lemma {:induction false} AllBlocksCover(raw: JsString, segments: seq<Fences.Segment>, from: nat)
    requires from <= |raw| && Fences.Tiles(raw, segments, from)
    ensures Covers(raw, AllBlocks(segments), from, |raw|)
  {
    hide TextBlocks, Lines, Fences.ShowsBody, Covers, WellPlaced;
    if segments == [] {
      assert Covers(raw, [], from, from) by { CoversNothing(raw, from); }
    } else {
      var s := segments[0];
      AllBlocksCover(raw, segments[1..], s.sourceEnd);
      if s.Text? {
        LinesAreWellPlaced(raw, s.content, from, 0);
        var lines := Lines(s.content, from, 0);
        TextBlocksCover(raw, lines, 0, from, s.sourceEnd);
        assert lines[0].start == from;
      } else {
        CodeCovers(raw, s);
      }
      CoversAppend(raw, SegmentBlocks(s), AllBlocks(segments[1..]), from, s.sourceEnd, |raw|);
    }
  }

  lemma CoversNothing(raw: JsString, at: nat)
    requires at <= |raw|
    ensures Covers(raw, [], at, at)
  {
  }

  lemma CodeCovers(raw: JsString, s: Fences.Segment)
    requires s.Code? && s.sourceStart <= s.sourceEnd <= |raw| && Fences.SegmentShows(raw, s)
    ensures Covers(raw, SegmentBlocks(s), s.sourceStart, s.sourceEnd)
  {
    hide Fences.SegmentShows;
    assert SegmentBlocks(s)[1..] == [];
  }

  /**
   * For every text: paragraphs print back to their spans, headings, list items and table cells to the
   * parts of the lines they span, code blocks hold the body between their fences; spans are in order
   * and disjoint, and no character outside them is anything but white space.
   */
  lemma DocumentCoversText(raw: JsString)
    ensures Covers(raw, AllBlocks(Fences.Split(raw, 0)), 0, |raw|)
  {
    Fences.SegmentsTile(raw, 0);
    AllBlocksCover(raw, Fences.Split(raw, 0), 0);
  }
}
