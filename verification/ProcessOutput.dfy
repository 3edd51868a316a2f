/** The output side of a child process: the live line feed, the capped capture, and settling once. */
module ProcessOutput {
  import opened Options
  import opened JsText
  import opened Sequences
  import opened Splitter

  const LINE_END: JsString := [NEWLINE]
  const CARRIAGE_RETURN: CodeUnit := 13

  datatype Source = Stdout | Stderr

  datatype ProcessResult = ProcessResult(exitCode: Option<int>, signal: Option<string>, stdout: JsString,
                                         stderr: JsString, timedOut: bool, spawnError: Option<string>)

  /** What can happen to a run; `text` is one decoded chunk. */
  datatype Event = Data(source: Source, text: JsString) | TimerFired | Errored(message: string)
                 | Closed(code: Option<int>, signal: Option<string>)

  datatype State = State(stdout: JsString, stderr: JsString, capturedBytes: nat, timedOut: bool, settled: bool,
                         pending: JsString, emitted: seq<JsString>, resolved: Option<ProcessResult>)

  const STARTED := State([], [], 0, false, false, [], [], None)

  // ---------------------------------------------------------------------------
  // Steps
  // ---------------------------------------------------------------------------

  /** A line as it is reported: without one trailing carriage return. */
  function Trimmed(line: JsString): JsString {
    if line != [] && line[|line| - 1] == CARRIAGE_RETURN then line[..|line| - 1] else line
  }

  /** The lines reported out of terminated ones: the non-empty ones. */
  function Reported(lines: seq<JsString>): seq<JsString> {
    if lines == [] then []
    else
      Reported(lines[..|lines| - 1])
      + if Trimmed(lines[|lines| - 1]) == [] then [] else [Trimmed(lines[|lines| - 1])]
  }

  function Capturing(s: State, source: Source, text: JsString, cap: int): State {
    var bytes := s.capturedBytes + Utf8Length(text);
    if bytes > cap then s.(capturedBytes := bytes)
    else if source == Stdout then s.(capturedBytes := bytes, stdout := s.stdout + text)
    else s.(capturedBytes := bytes, stderr := s.stderr + text)
  }

  function Emitting(s: State, chunk: JsString): State {
    var text := s.pending + chunk;
    s.(pending := Rest(text, LINE_END), emitted := s.emitted + Reported(Pieces(text, LINE_END)))
  }

  function Settling(s: State, result: ProcessResult): State {
    if s.settled then s
    else
      s.(settled := true, pending := [], resolved := Some(result),
         emitted := if s.pending == [] then s.emitted else s.emitted + [s.pending])
  }

  function ResultOf(s: State, ending: Event): ProcessResult
    requires IsEnding(ending)
  {
    match ending
    case Errored(message) => ProcessResult(None, None, s.stdout, s.stderr, s.timedOut, Some(message))
    case Closed(code, signal) => ProcessResult(code, signal, s.stdout, s.stderr, s.timedOut, None)
  }

  predicate IsEnding(event: Event) {
    event.Errored? || event.Closed?
  }

  function Step(s: State, event: Event, cap: int): State {
    match event
    case Data(source, text) => Emitting(Capturing(s, source, text, cap), text)
    case TimerFired => if s.settled then s else s.(timedOut := true)
    case _ => Settling(s, ResultOf(s, event))
  }

  function After(events: seq<Event>, cap: int): State {
    if events == [] then STARTED else Step(After(events[..|events| - 1], cap), events[|events| - 1], cap)
  }

  /** A run with a line listener. */
  class ProcessRun {
    const maxOutputBytes: int
    var stdout: JsString
    var stderr: JsString
    var capturedBytes: nat
    var timedOut: bool
    var settled: bool
    var pending: JsString
    var emitted: seq<JsString>
    var resolved: Option<ProcessResult>

    ghost function View(): State
      reads this
    {
      State(stdout, stderr, capturedBytes, timedOut, settled, pending, emitted, resolved)
    }

    constructor (maxOutputBytes: int)
      ensures this.maxOutputBytes == maxOutputBytes && View() == STARTED
    {
      this.maxOutputBytes := maxOutputBytes;
      stdout, stderr, capturedBytes, timedOut := [], [], 0, false;
      settled, pending, emitted, resolved := false, [], [], None;
    }

    method EmitLines(chunk: JsString)
      modifies this
      ensures View() == Emitting(old(View()), chunk)
    {
      hide Trimmed, Pieces, Rest;
      var lines := Pieces(pending + chunk, LINE_END);
      pending := Rest(pending + chunk, LINE_END);
      var i := 0;
      while i < |lines|
        invariant 0 <= i <= |lines|
        invariant View() == old(View()).(pending := pending, emitted := old(emitted) + Reported(lines[..i]))
        invariant pending == Rest(old(pending) + chunk, LINE_END)
      {
        assert lines[..i + 1][..i] == lines[..i];
        var trimmed := Trimmed(lines[i]);
        if |trimmed| > 0 {
          emitted := emitted + [trimmed];
        }
        i := i + 1;
      }
      assert lines[..i] == lines;
    }

    method Capture(source: Source, text: JsString)
      modifies this
      ensures View() == Step(old(View()), Data(source, text), maxOutputBytes)
    {
      hide Emitting, Utf8Length;
      capturedBytes := capturedBytes + Utf8Length(text);
      if capturedBytes <= maxOutputBytes {
        if source == Stdout {
          stdout := stdout + text;
        } else {
          stderr := stderr + text;
        }
      }
      EmitLines(text);
    }

    method Settle(result: ProcessResult)
      modifies this
      ensures View() == Settling(old(View()), result)
    {
      if settled {
        return;
      }
      settled := true;
      if |pending| > 0 {
        emitted := emitted + [pending];
        pending := [];
      }
      resolved := Some(result);
    }

    method OnEnding(ending: Event)
      requires IsEnding(ending)
      modifies this
      ensures View() == Step(old(View()), ending, maxOutputBytes)
    {
      match ending {
        case Errored(message) => Settle(ProcessResult(None, None, stdout, stderr, timedOut, Some(message)));
        case Closed(code, signal) => Settle(ProcessResult(code, signal, stdout, stderr, timedOut, None));
      }
    }
  }

  // ---------------------------------------------------------------------------
  // Lines
  // ---------------------------------------------------------------------------

  /** The text of all chunks, in the order in which they arrived. */
  function ArrivedText(events: seq<Event>): JsString {
    if events == [] then []
    else
      var last := events[|events| - 1];
      ArrivedText(events[..|events| - 1]) + if last.Data? then last.text else []
  }

  lemma {:induction false} ReportedParts(a: seq<JsString>, b: seq<JsString>)
    ensures Reported(a + b) == Reported(a) + Reported(b)
  {
    hide Trimmed;
    if b == [] {
      assert a + b == a;
    } else {
      var n := |b| - 1;
      assert (a + b)[..|a + b| - 1] == a + b[..n];
      ReportedParts(a, b[..n]);
    }
  }

  ghost predicate StillRunning(events: seq<Event>) {
    forall i :: 0 <= i < |events| ==> !IsEnding(events[i])
  }

  /** While the process runs, the lines reported are those of the whole text, however it was chunked. */
  lemma {:induction false} LinesOfWholeText(events: seq<Event>, cap: int)
    requires StillRunning(events)
    ensures var s, text := After(events, cap), ArrivedText(events);
            && !s.settled && s.resolved == None
            && s.emitted == Reported(Pieces(text, LINE_END)) && s.pending == Rest(text, LINE_END)
  {
    hide Reported, Utf8Length;
    if events == [] {
      NothingReported();
    } else {
      var n := |events| - 1;
      LinesOfWholeText(events[..n], cap);
      var s, text := After(events[..n], cap), ArrivedText(events[..n]);
      if events[n].Data? {
        var chunk := events[n].text;
        PartsSplitAlike(text, chunk, LINE_END);
        ReportedParts(Pieces(text, LINE_END), Pieces(Rest(text, LINE_END) + chunk, LINE_END));
        hide Pieces, Rest;
        DataStep(s, events[n], cap);
      } else {
        assert ArrivedText(events) == text + [] == text;
      }
    }
  }

  lemma DataStep(s: State, event: Event, cap: int)
    requires event.Data?
    ensures var next := Step(s, event, cap);
            && next.settled == s.settled && next.resolved == s.resolved
            && next.emitted == s.emitted + Reported(Pieces(s.pending + event.text, LINE_END))
            && next.pending == Rest(s.pending + event.text, LINE_END)
  {
    hide Reported, Pieces, Rest, Utf8Length;
  }

  lemma NothingReported()
    ensures Pieces<CodeUnit>([], LINE_END) == [] && Rest<CodeUnit>([], LINE_END) == [] && Reported([]) == []
  {
  }

  /**
   * When the process ends, the unterminated last line is reported too, as it stands; the run resolves
   * with what was captured by then.
   */
  lemma EndingFlushesTheTail(events: seq<Event>, ending: Event, cap: int)
    requires StillRunning(events) && IsEnding(ending)
    ensures var s, text := After(events + [ending], cap), ArrivedText(events);
            && s.emitted == Reported(Pieces(text, LINE_END))
                            + (if Rest(text, LINE_END) == [] then [] else [Rest(text, LINE_END)])
            && s.pending == [] && s.settled
            && s.resolved == Some(ResultOf(After(events, cap), ending))
  {
    hide Reported, Pieces, Rest;
    assert (events + [ending])[..|events|] == events;
    LinesOfWholeText(events, cap);
  }

  /** Whatever arrives after the first ending, the run is resolved once. */
  lemma {:induction false} ResolvesOnce(events: seq<Event>, later: seq<Event>, cap: int)
    requires After(events, cap).settled
    ensures After(events + later, cap).settled
    ensures After(events + later, cap).resolved == After(events, cap).resolved
  {
    hide Reported, Pieces, Rest, Utf8Length;
    if later == [] {
      assert events + later == events;
    } else {
      var n := |later| - 1;
      ResolvesOnce(events, later[..n], cap);
      assert (events + later)[..|events + later| - 1] == events + later[..n];
    }
  }

  // ---------------------------------------------------------------------------
  // Capture
  // ---------------------------------------------------------------------------

  function ArrivedFrom(source: Source, events: seq<Event>): JsString {
    if events == [] then []
    else
      var last := events[|events| - 1];
      ArrivedFrom(source, events[..|events| - 1]) + if last.Data? && last.source == source then last.text else []
  }

  function ArrivedBytes(events: seq<Event>): nat {
    if events == [] then 0
    else
      var last := events[|events| - 1];
      ArrivedBytes(events[..|events| - 1]) + if last.Data? then Utf8Length(last.text) else 0
  }

  /** The state holds the output of the first `k` events, which is all that fits under the cap. */
  ghost predicate CapturedUpTo(s: State, events: seq<Event>, cap: int, k: nat) {
    && k <= |events|
    && s.stdout == ArrivedFrom(Stdout, events[..k]) && s.stderr == ArrivedFrom(Stderr, events[..k])
    && ArrivedBytes(events[..k]) <= cap
    && s.capturedBytes == ArrivedBytes(events)
    && (k == |events| || ArrivedBytes(events[..k + 1]) > cap)
  }

  lemma {:induction false} BytesGrow(events: seq<Event>, k: nat)
    requires k <= |events|
    ensures ArrivedBytes(events[..k]) <= ArrivedBytes(events)
  {
    hide Utf8Length;
    if k < |events| {
      var n := |events| - 1;
      BytesGrow(events[..n], k);
      assert events[..n][..k] == events[..k];
    } else {
      assert events[..k] == events;
    }
  }

  /** A chunk that does not fit closes the capture: later ones are dropped even if they would fit. */
  lemma {:induction false} CaptureIsAPrefix(events: seq<Event>, cap: nat) returns (k: nat)
    ensures CapturedUpTo(After(events, cap), events, cap, k)
  {
    if events == [] {
      k := 0;
    } else {
      var n := |events| - 1;
      var before := CaptureIsAPrefix(events[..n], cap);
      assert events[..n][..before] == events[..before];
      StepCapture(After(events[..n], cap), events[n], cap);
      hide Step, Utf8Length;
      if before < n {
        assert events[..n][..before + 1] == events[..before + 1];
        BytesGrow(events, before + 1);
        k := before;
      } else if ArrivedBytes(events) <= cap {
        assert events[..|events|] == events && events[..n][..n] == events[..n];
        k := |events|;
      } else {
        assert events[..n + 1] == events;
        k := n;
      }
    }
  }

  lemma StepCapture(s: State, event: Event, cap: int)
    ensures var next := Step(s, event, cap);
            var bytes := s.capturedBytes + if event.Data? then Utf8Length(event.text) else 0;
            var fits := event.Data? && bytes <= cap;
            && next.capturedBytes == bytes
            && next.stdout == s.stdout + (if fits && event.source == Stdout then event.text else [])
            && next.stderr == s.stderr + (if fits && event.source == Stderr then event.text else [])
  {
    hide Reported, Pieces, Rest, Utf8Length;
  }

  // ---------------------------------------------------------------------------
  // What the lines are not
  // ---------------------------------------------------------------------------

  lemma AppendData(events: seq<Event>, event: Event)
    requires event.Data?
    ensures ArrivedText(events + [event]) == ArrivedText(events) + event.text
  {
    assert (events + [event])[..|events|] == events;
  }

  lemma LinesArePieces(line: JsString)
    requires forall i :: 0 <= i < |line| ==> line[i] != NEWLINE
    ensures IsPiece(line, LINE_END)
  {
    var sent := line + LINE_END;
    assert sent[|line|..|line| + 1] == LINE_END;
    forall j | 0 <= j < |line| ensures !OccursAt(sent, LINE_END, j) {
      if j + 1 <= |sent| {
        assert sent[j..j + 1] == [line[j]];
      }
    }
    FirstIs(sent, LINE_END, 0, |line|);
  }

  /** The two streams share one line buffer: a chunk of one lands in an unfinished line of the other. */
  lemma StreamsShareTheLineBuffer(a: JsString, b: JsString, c: JsString, cap: int)
    requires forall i :: 0 <= i < |a + b + c| ==> (a + b + c)[i] != NEWLINE
    ensures var events := [Data(Stdout, a), Data(Stderr, b), Data(Stdout, c + LINE_END)];
            After(events, cap).emitted == Reported([a + b + c]) && After(events, cap).pending == []
  {
    hide Reported, After, Pieces, Rest, ArrivedText;
    var events: seq<Event> := [Data(Stdout, a), Data(Stderr, b)];
    assert [Data(Stdout, a)] == [] + [Data(Stdout, a)];
    assert events == [Data(Stdout, a)] + [Data(Stderr, b)];
    NothingArrived();
    AppendData([], Data(Stdout, a));
    AppendData([Data(Stdout, a)], Data(Stderr, b));
    AppendData(events, Data(Stdout, c + LINE_END));
    var all := events + [Data(Stdout, c + LINE_END)];
    LinesOfWholeText(all, cap);
    LinesArePieces(a + b + c);
    PiecesAreUnique([a + b + c], [], LINE_END);
    JoinFirst(a + b + c, [], LINE_END);
    assert [a + b + c] + [] == [a + b + c];
    assert ArrivedText(all) == a + b + (c + LINE_END) == a + b + c + LINE_END;
    assert Joined([a + b + c], LINE_END) + [] == ArrivedText(all);
    assert all == [Data(Stdout, a), Data(Stderr, b), Data(Stdout, c + LINE_END)];
  }

  lemma NothingArrived()
    ensures ArrivedText([]) == [] && ArrivedFrom(Stdout, []) == [] && ArrivedFrom(Stderr, []) == []
  {
  }

  // ---------------------------------------------------------------------------
  // When the lines of the two streams stay apart
  // ---------------------------------------------------------------------------

  /** The lines reported of a text while it goes on, and the one reported in addition when it ends. */
  function LinesOf(text: JsString): seq<JsString> {
    Reported(Pieces(text, LINE_END))
  }

  function TailOf(text: JsString): seq<JsString> {
    if Rest(text, LINE_END) == [] then [] else [Rest(text, LINE_END)]
  }

  /** Taken together, in whatever order: the lines of the two streams, each for itself. */
  function SeparateLines(events: seq<Event>): multiset<JsString> {
    multiset(LinesOf(ArrivedFrom(Stdout, events))) + multiset(LinesOf(ArrivedFrom(Stderr, events)))
  }

  function SeparateTails(events: seq<Event>): multiset<JsString> {
    multiset(TailOf(ArrivedFrom(Stdout, events))) + multiset(TailOf(ArrivedFrom(Stderr, events)))
  }

  /** At every moment, and after the ending, the listener has the lines that two separate buffers would have given. */
  ghost predicate NothingIsMixed(events: seq<Event>, ending: Event, cap: int) {
    && (forall k :: 0 <= k <= |events| ==>
          multiset(After(events[..k], cap).emitted) == SeparateLines(events[..k]))
    && multiset(After(events + [ending], cap).emitted) == SeparateLines(events) + SeparateTails(events)
  }

  /** A line as it is handed out, with the stream it is credited to. */
  datatype Line = Line(source: Source, text: JsString)

  function Credit(source: Source, texts: seq<JsString>): (lines: seq<Line>)
    ensures |lines| == |texts| && forall i :: 0 <= i < |texts| ==> lines[i] == Line(source, texts[i])
  {
    seq(|texts|, i requires 0 <= i < |texts| => Line(source, texts[i]))
  }

  function Texts(lines: seq<Line>): (texts: seq<JsString>)
    ensures |texts| == |lines| && forall i :: 0 <= i < |lines| ==> texts[i] == lines[i].text
  {
    seq(|lines|, i requires 0 <= i < |lines| => lines[i].text)
  }

  function CreditedTo(source: Source, lines: seq<Line>): seq<JsString> {
    if lines == [] then []
    else
      var n := |lines| - 1;
      CreditedTo(source, lines[..n]) + if lines[n].source == source then [lines[n].text] else []
  }

  /** The lines handed out while running, each credited to the stream whose chunk completed it. */
  function HandedOut(events: seq<Event>): seq<Line> {
    if events == [] then []
    else
      var n := |events| - 1;
      HandedOut(events[..n])
      + if events[n].Data? then
          Credit(events[n].source, LinesOf(Rest(ArrivedText(events[..n]), LINE_END) + events[n].text))
        else []
  }

  /** All lines handed out by the end, the flushed one credited to `owner`. */
  function HandedOutByEnd(events: seq<Event>, owner: Source): seq<Line> {
    HandedOut(events) + Credit(owner, TailOf(ArrivedText(events)))
  }

  /** The lines credited to each stream are its own, in order, at every moment and after the ending. */
  ghost predicate StayApart(events: seq<Event>, owner: Source) {
    && (forall k, source :: 0 <= k <= |events| ==>
          CreditedTo(source, HandedOut(events[..k])) == LinesOf(ArrivedFrom(source, events[..k])))
    && (forall source ::
          CreditedTo(source, HandedOutByEnd(events, owner))
          == LinesOf(ArrivedFrom(source, events)) + TailOf(ArrivedFrom(source, events)))
  }

  /**
   * What the chunk goes on from is the same line: the very same, or, where the chunk begins with the
   * newline, the same but for one trailing carriage return. A chunk that ends no line does not matter.
   */
  predicate GoesOnAlike(a: JsString, b: JsString, chunk: JsString) {
    NEWLINE in chunk ==> a == b || (chunk[0] == NEWLINE && Trimmed(a) == Trimmed(b))
  }

  /** If the chunk completes a line, the buffer holds what its own stream has left unfinished. */
  predicate EndsOwnLine(before: seq<Event>, event: Event) {
    event.Data? ==>
      GoesOnAlike(Rest(ArrivedText(before), LINE_END), Rest(ArrivedFrom(event.source, before), LINE_END), event.text)
  }

  predicate AllEndOwnLines(events: seq<Event>) {
    forall n :: 0 <= n < |events| ==> EndsOwnLine(events[..n], events[n])
  }

  function Other(source: Source): Source {
    if source == Stdout then Stderr else Stdout
  }

  /** The whole unfinished line is the one stream's, and the other has none. */
  predicate UnfinishedLineIsOf(events: seq<Event>, owner: Source) {
    && Rest(ArrivedText(events), LINE_END) == Rest(ArrivedFrom(owner, events), LINE_END)
    && Rest(ArrivedFrom(Other(owner), events), LINE_END) == []
  }

  lemma FirstLine(a: JsString, chunk: JsString, k: nat)
    requires FirstAt(a, LINE_END, 0) == |a| && k < |chunk| && chunk[k] == NEWLINE && NEWLINE !in chunk[..k]
    ensures Pieces(a + chunk, LINE_END) == [a + chunk[..k]] + Pieces(chunk[k + 1..], LINE_END)
  {
    var line := a + chunk[..k];
    NoNewlineLeft(a);
    LinesArePieces(line);
    PieceComesFirst(line, chunk[k + 1..], LINE_END);
    hide *;
    CutAtNewline(chunk, k);
    RegroupFour(a, chunk[..k], LINE_END, chunk[k + 1..]);
    Regroup(a, chunk[..k], LINE_END);
    Regroup(line, LINE_END, chunk[k + 1..]);
    Regroup(chunk[..k], LINE_END, chunk[k + 1..]);
  }

  lemma CutAtNewline(chunk: JsString, k: nat)
    requires k < |chunk| && chunk[k] == NEWLINE
    ensures chunk == chunk[..k] + LINE_END + chunk[k + 1..]
  {
  }

  lemma NoNewlineLeft(a: JsString)
    requires FirstAt(a, LINE_END, 0) == |a|
    ensures NEWLINE !in a
  {
    forall j | 0 <= j < |a| ensures a[j] != NEWLINE {
      assert !OccursAt(a, LINE_END, j);
      assert a[j..j + 1] == [a[j]];
    }
  }

  lemma NoLine(a: JsString, chunk: JsString)
    requires FirstAt(a, LINE_END, 0) == |a| && NEWLINE !in chunk
    ensures Pieces(a + chunk, LINE_END) == []
  {
    NoNewlineLeft(a);
    var text := a + chunk;
    forall i: nat ensures !OccursAt(text, LINE_END, i) {
      if i < |text| { assert text[i..i + 1] == [text[i]]; }
    }
    NoPieceExactly(text, LINE_END);
  }

  lemma LinesGrow(text: JsString, chunk: JsString)
    ensures LinesOf(text + chunk) == LinesOf(text) + LinesOf(Rest(text, LINE_END) + chunk)
  {
    PartsSplitAlike(text, chunk, LINE_END);
    ReportedParts(Pieces(text, LINE_END), Pieces(Rest(text, LINE_END) + chunk, LINE_END));
  }

  lemma TrimAlike(a: JsString, b: JsString, more: JsString)
    ensures Trimmed(a + more) == Trimmed(b + more) <==> a == b || (more == [] && Trimmed(a) == Trimmed(b))
  {
    if more == [] {
      assert a + more == a && b + more == b;
    } else {
      var n := |more| - 1;
      assert (a + more)[..|a + more| - 1] == a + more[..n] && (b + more)[..|b + more| - 1] == b + more[..n];
      CommonEnd(a, b, more[..n]);
      CommonEnd(a, b, more);
    }
  }

  lemma ReportedOne(line: JsString)
    ensures Reported([line]) == if Trimmed(line) == [] then [] else [Trimmed(line)]
  {
    assert Reported([line][..0]) == [];
  }

  lemma ReportOneAlike(p: JsString, q: JsString)
    ensures Trimmed(p) == Trimmed(q) ==> Reported([p]) == Reported([q])
    ensures multiset(Reported([p])) == multiset(Reported([q])) ==> Trimmed(p) == Trimmed(q)
  {
    hide Trimmed, Reported;
    ReportedOne(p);
    ReportedOne(q);
    var x, y := Reported([p]), Reported([q]);
    if multiset(x) == multiset(y) {
      assert |x| == |multiset(x)| == |multiset(y)| == |y|;
      if x != [] {
        assert x[0] in multiset(y);
      }
    }
  }

  /** Two unfinished lines go on to the same reported lines exactly when they go on alike. */
  lemma SameLinesExactly(a: JsString, b: JsString, chunk: JsString)
    requires FirstAt(a, LINE_END, 0) == |a| && FirstAt(b, LINE_END, 0) == |b|
    ensures GoesOnAlike(a, b, chunk) ==> LinesOf(a + chunk) == LinesOf(b + chunk)
    ensures multiset(LinesOf(a + chunk)) == multiset(LinesOf(b + chunk)) ==> GoesOnAlike(a, b, chunk)
  {
    hide Pieces, FirstAt, Reported, Trimmed;
    if NEWLINE in chunk {
      var k := IndexOf(chunk, NEWLINE, 0);
      var p, q, later := a + chunk[..k], b + chunk[..k], Pieces(chunk[k + 1..], LINE_END);
      FirstLine(a, chunk, k);
      FirstLine(b, chunk, k);
      ReportedParts([p], later);
      ReportedParts([q], later);
      TrimAlike(a, b, chunk[..k]);
      ReportOneAlike(p, q);
      assert multiset(Reported([p]) + Reported(later)) == multiset(Reported([p])) + multiset(Reported(later));
      assert multiset(Reported([q]) + Reported(later)) == multiset(Reported([q])) + multiset(Reported(later));
      Cancel(multiset(Reported([p])), multiset(Reported([q])), multiset(Reported(later)));
    } else {
      NoLine(a, chunk);
      NoLine(b, chunk);
    }
  }

  lemma Cancel<T>(a: multiset<T>, b: multiset<T>, c: multiset<T>)
    ensures a + c == c + a
    ensures a + c == b + c ==> a == b
    ensures (a + b) + c == (a + c) + b == a + (b + c)
  {
    if a + c == b + c {
      assert a == (a + c) - c && b == (b + c) - c;
    }
  }

  // ---------------------------------------------------------------------------
  // The condition keeps the lines apart
  // ---------------------------------------------------------------------------

  lemma {:induction false} CreditedParts(source: Source, a: seq<Line>, b: seq<Line>)
    ensures CreditedTo(source, a + b) == CreditedTo(source, a) + CreditedTo(source, b)
  {
    if b == [] {
      assert a + b == a;
    } else {
      var n := |b| - 1;
      assert (a + b)[..|a + b| - 1] == a + b[..n];
      CreditedParts(source, a, b[..n]);
    }
  }

  lemma {:induction false} CreditedAtOnce(source: Source, to: Source, texts: seq<JsString>)
    ensures CreditedTo(source, Credit(to, texts)) == if source == to then texts else []
  {
    if texts != [] {
      var n := |texts| - 1;
      assert Credit(to, texts)[..n] == Credit(to, texts[..n]);
      CreditedAtOnce(source, to, texts[..n]);
    }
  }

  lemma OwnLinesGrow(source: Source, before: seq<Event>, event: Event)
    ensures ArrivedFrom(source, before + [event])
            == ArrivedFrom(source, before) + (if event.Data? && event.source == source then event.text else [])
    ensures ArrivedText(before + [event]) == ArrivedText(before) + (if event.Data? then event.text else [])
    ensures HandedOut(before + [event]) == HandedOut(before)
            + if event.Data? then
                Credit(event.source, LinesOf(Rest(ArrivedText(before), LINE_END) + event.text))
              else []
  {
    hide LinesOf, Rest;
    assert (before + [event])[..|before|] == before;
  }

  lemma {:induction false} CreditsAreOwn(events: seq<Event>, source: Source)
    requires AllEndOwnLines(events)
    ensures CreditedTo(source, HandedOut(events)) == LinesOf(ArrivedFrom(source, events))
  {
    if events == [] {
      NothingCredited(source);
    } else {
      var n := |events| - 1;
      var before, event := events[..n], events[n];
      PrefixEndsOwnLines(events);
      LastEndsOwnLine(events);
      hide *;
      CreditsAreOwn(before, source);
      OwnStep(before, event, source);
      assert events == before + [event];
    }
  }

  lemma NothingCredited(source: Source)
    ensures CreditedTo(source, HandedOut([])) == LinesOf(ArrivedFrom(source, []))
  {
    NothingReported();
  }

  lemma LastEndsOwnLine(events: seq<Event>)
    requires AllEndOwnLines(events) && events != []
    ensures EndsOwnLine(events[..|events| - 1], events[|events| - 1])
  {
    hide EndsOwnLine;
  }

  lemma OwnStep(before: seq<Event>, event: Event, source: Source)
    requires EndsOwnLine(before, event)
    requires CreditedTo(source, HandedOut(before)) == LinesOf(ArrivedFrom(source, before))
    ensures CreditedTo(source, HandedOut(before + [event])) == LinesOf(ArrivedFrom(source, before + [event]))
  {
    hide LinesOf, Rest, HandedOut, ArrivedFrom, ArrivedText, CreditedTo, GoesOnAlike;
    OwnLinesGrow(source, before, event);
    var own, shared := ArrivedFrom(source, before), SharedLines(before, event);
    if event.Data? {
      CreditedParts(source, HandedOut(before), Credit(event.source, shared));
      CreditedAtOnce(source, event.source, shared);
      if event.source == source {
        LinesGrow(own, event.text);
        SameLinesExactly(Rest(ArrivedText(before), LINE_END), Rest(own, LINE_END), event.text);
      } else {
        NothingAdded(own, CreditedTo(source, HandedOut(before)));
      }
    } else {
      assert own + [] == own && HandedOut(before) + [] == HandedOut(before);
    }
  }

  /** The lines a chunk completes in the shared buffer. */
  function SharedLines(before: seq<Event>, event: Event): seq<JsString> {
    if event.Data? then LinesOf(Rest(ArrivedText(before), LINE_END) + event.text) else []
  }

  lemma NothingAdded(text: JsString, texts: seq<JsString>)
    ensures text + [] == text && texts + [] == texts
  {
  }

  lemma PrefixEndsOwnLines(events: seq<Event>)
    requires AllEndOwnLines(events)
    ensures forall k :: 0 <= k <= |events| ==> AllEndOwnLines(events[..k])
  {
    hide EndsOwnLine;
    forall k, n | 0 <= k <= |events| && 0 <= n < k ensures EndsOwnLine(events[..k][..n], events[..k][n]) {
      assert events[..k][..n] == events[..n];
    }
  }

  /** With the condition, the lines stay apart. */
  lemma CleanRunsStayApart(events: seq<Event>, owner: Source)
    requires AllEndOwnLines(events) && UnfinishedLineIsOf(events, owner)
    ensures StayApart(events, owner)
  {
    hide AllEndOwnLines, LinesOf, HandedOut, ArrivedFrom, ArrivedText, CreditedTo, Rest;
    PrefixEndsOwnLines(events);
    forall k, source | 0 <= k <= |events|
      ensures CreditedTo(source, HandedOut(events[..k])) == LinesOf(ArrivedFrom(source, events[..k]))
    {
      CreditsAreOwn(events[..k], source);
    }
    assert events[..|events|] == events;
    forall source
      ensures CreditedTo(source, HandedOutByEnd(events, owner))
              == LinesOf(ArrivedFrom(source, events)) + TailOf(ArrivedFrom(source, events))
    {
      CreditsAreOwn(events, source);
      CreditedParts(source, HandedOut(events), Credit(owner, TailOf(ArrivedText(events))));
      CreditedAtOnce(source, owner, TailOf(ArrivedText(events)));
      assert source == owner || source == Other(owner);
    }
  }

  // ---------------------------------------------------------------------------
  // Lines that stay apart are what the listener gets, unmixed
  // ---------------------------------------------------------------------------

  lemma {:induction false} HandedOutIsReported(events: seq<Event>)
    ensures Texts(HandedOut(events)) == LinesOf(ArrivedText(events))
  {
    if events == [] {
      NothingReported();
    } else {
      var n := |events| - 1;
      var before, event := events[..n], events[n];
      HandedOutIsReported(before);
      assert events == before + [event];
      hide LinesOf, Rest, HandedOut, ArrivedText, ArrivedFrom;
      OwnLinesGrow(Stdout, before, event);
      var text := ArrivedText(before);
      if event.Data? {
        LinesGrow(text, event.text);
      } else {
        assert text + [] == text;
      }
    }
  }

  lemma AddUp<T>(a: seq<T>, b: seq<T>)
    ensures multiset(a + b) == multiset(a) + multiset(b)
  {
  }

  /** The texts of the lines are those credited to the one stream and those credited to the other. */
  ghost predicate AddsUp(lines: seq<Line>) {
    multiset(Texts(lines)) == multiset(CreditedTo(Stdout, lines)) + multiset(CreditedTo(Stderr, lines))
  }

  lemma {:induction false} CreditsAddUp(lines: seq<Line>)
    ensures AddsUp(lines)
  {
    if lines != [] {
      hide *;
      var n := |lines| - 1;
      CreditsAddUp(lines[..n]);
      OneMoreLine(lines[..n], lines[n], lines);
    }
  }

  lemma OneMoreLine(lines: seq<Line>, line: Line, longer: seq<Line>)
    requires longer == lines + [line] && AddsUp(lines)
    ensures AddsUp(longer)
  {
    OneMoreCredit(lines, line, longer);
    hide *;
    OneMoreText(Texts(lines), CreditedTo(Stdout, lines), CreditedTo(Stderr, lines), [line.text]);
  }

  lemma OneMoreCredit(lines: seq<Line>, line: Line, longer: seq<Line>)
    requires longer == lines + [line]
    ensures Texts(longer) == Texts(lines) + [line.text]
    ensures CreditedTo(Stdout, longer)
            == if line.source == Stdout then CreditedTo(Stdout, lines) + [line.text] else CreditedTo(Stdout, lines)
    ensures CreditedTo(Stderr, longer)
            == if line.source == Stderr then CreditedTo(Stderr, lines) + [line.text] else CreditedTo(Stderr, lines)
  {
    assert longer[..|lines|] == lines;
  }

  lemma OneMoreText<T>(all: seq<T>, p: seq<T>, q: seq<T>, text: seq<T>)
    requires multiset(all) == multiset(p) + multiset(q)
    ensures multiset(all + text) == multiset(p + text) + multiset(q) == multiset(p) + multiset(q + text)
  {
    AddUp(all, text);
    AddUp(p, text);
    AddUp(q, text);
    Cancel(multiset(p), multiset(q), multiset(text));
  }

  /** The credited lines are what the listener gets, whoever is credited with the flushed one. */
  lemma HandedOutIsEmitted(events: seq<Event>, ending: Event, cap: int, owner: Source)
    requires StillRunning(events) && IsEnding(ending)
    ensures forall k :: 0 <= k <= |events| ==> Texts(HandedOut(events[..k])) == After(events[..k], cap).emitted
    ensures Texts(HandedOutByEnd(events, owner)) == After(events + [ending], cap).emitted
  {
    hide LinesOf, Rest, HandedOut, ArrivedText, After, Pieces, Reported;
    forall k | 0 <= k <= |events| ensures Texts(HandedOut(events[..k])) == After(events[..k], cap).emitted {
      HandedOutIsReported(events[..k]);
      WholeLines(events[..k], cap);
    }
    HandedOutIsReported(events);
    EndedLines(events, ending, cap);
  }

  lemma WholeLines(events: seq<Event>, cap: int)
    requires StillRunning(events)
    ensures After(events, cap).emitted == LinesOf(ArrivedText(events))
  {
    LinesOfWholeText(events, cap);
  }

  lemma EndedLines(events: seq<Event>, ending: Event, cap: int)
    requires StillRunning(events) && IsEnding(ending)
    ensures After(events + [ending], cap).emitted == LinesOf(ArrivedText(events)) + TailOf(ArrivedText(events))
  {
    hide After, Pieces, Rest;
    EndingFlushesTheTail(events, ending, cap);
  }

  lemma ApartIsUnmixed(events: seq<Event>, ending: Event, cap: int, owner: Source)
    requires StillRunning(events) && IsEnding(ending) && StayApart(events, owner)
    ensures NothingIsMixed(events, ending, cap)
  {
    HandedOutIsEmitted(events, ending, cap, owner);
    hide LinesOf, TailOf, HandedOut, HandedOutByEnd, ArrivedText, ArrivedFrom, After, CreditedTo, Texts;
    forall k | 0 <= k <= |events|
      ensures multiset(After(events[..k], cap).emitted) == SeparateLines(events[..k])
    {
      MomentIsUnmixed(events, owner, k);
    }
    EndIsUnmixed(events, owner);
  }

  lemma MomentIsUnmixed(events: seq<Event>, owner: Source, k: nat)
    requires StayApart(events, owner) && k <= |events|
    ensures multiset(Texts(HandedOut(events[..k]))) == SeparateLines(events[..k])
  {
    hide LinesOf, TailOf, HandedOut, HandedOutByEnd, ArrivedText, ArrivedFrom, CreditedTo, Texts;
    CreditsAddUp(HandedOut(events[..k]));
    assert CreditedTo(Stdout, HandedOut(events[..k])) == LinesOf(ArrivedFrom(Stdout, events[..k]));
    assert CreditedTo(Stderr, HandedOut(events[..k])) == LinesOf(ArrivedFrom(Stderr, events[..k]));
    hide StayApart;
  }

  lemma EndIsUnmixed(events: seq<Event>, owner: Source)
    requires StayApart(events, owner)
    ensures multiset(Texts(HandedOutByEnd(events, owner))) == SeparateLines(events) + SeparateTails(events)
  {
    hide LinesOf, TailOf, HandedOut, HandedOutByEnd, ArrivedText, ArrivedFrom, CreditedTo, Texts;
    var out, err := ArrivedFrom(Stdout, events), ArrivedFrom(Stderr, events);
    CreditsAddUp(HandedOutByEnd(events, owner));
    assert CreditedTo(Stdout, HandedOutByEnd(events, owner)) == LinesOf(out) + TailOf(out);
    assert CreditedTo(Stderr, HandedOutByEnd(events, owner)) == LinesOf(err) + TailOf(err);
    hide StayApart;
    AddUp(LinesOf(out), TailOf(out));
    AddUp(LinesOf(err), TailOf(err));
  }

  // ---------------------------------------------------------------------------
  // Unmixed lines need the condition
  // ---------------------------------------------------------------------------

  lemma UnmixedEndsOwnLine(before: seq<Event>, event: Event)
    requires multiset(LinesOf(ArrivedText(before))) == SeparateLines(before)
    requires multiset(LinesOf(ArrivedText(before + [event]))) == SeparateLines(before + [event])
    ensures EndsOwnLine(before, event)
  {
    hide LinesOf, Rest, ArrivedText, ArrivedFrom, HandedOut, GoesOnAlike;
    if event.Data? {
      var all, own, other := ArrivedText(before), ArrivedFrom(event.source, before),
                             ArrivedFrom(Other(event.source), before);
      OwnLinesGrow(event.source, before, event);
      OwnLinesGrow(Other(event.source), before, event);
      assert other + [] == other;
      LinesGrow(all, event.text);
      LinesGrow(own, event.text);
      var shared, mine := LinesOf(Rest(all, LINE_END) + event.text), LinesOf(Rest(own, LINE_END) + event.text);
      AddUp(LinesOf(all), shared);
      AddUp(LinesOf(own), mine);
      SeparateLinesOf(event.source, before);
      SeparateLinesOf(event.source, before + [event]);
      hide SeparateLines;
      Cancel(multiset(LinesOf(own)), multiset(LinesOf(other)), multiset(mine));
      Cancel(multiset(mine), multiset(shared), SeparateLines(before));
      Cancel(multiset(shared), multiset(mine), SeparateLines(before));
      SameLinesExactly(Rest(all, LINE_END), Rest(own, LINE_END), event.text);
    }
  }

  lemma SeparateLinesOf(source: Source, events: seq<Event>)
    ensures SeparateLines(events)
            == multiset(LinesOf(ArrivedFrom(source, events))) + multiset(LinesOf(ArrivedFrom(Other(source), events)))
  {
    hide LinesOf, ArrivedFrom;
  }

  lemma UnmixedTailHasOneOwner(events: seq<Event>)
    requires multiset(TailOf(ArrivedText(events))) == SeparateTails(events)
    ensures UnfinishedLineIsOf(events, Stdout) || UnfinishedLineIsOf(events, Stderr)
  {
    hide Rest, ArrivedText, ArrivedFrom;
    var t := TailOf(ArrivedText(events));
    var p, q := TailOf(ArrivedFrom(Stdout, events)), TailOf(ArrivedFrom(Stderr, events));
    assert |multiset(t)| == |t| && |multiset(p) + multiset(q)| == |p| + |q|;
    if p != [] {
      assert p[0] in multiset(t);
    } else if q != [] {
      assert q[0] in multiset(t);
    }
  }

  lemma UnmixedIsClean(events: seq<Event>, ending: Event, cap: int)
    requires StillRunning(events) && IsEnding(ending) && NothingIsMixed(events, ending, cap)
    ensures AllEndOwnLines(events)
    ensures UnfinishedLineIsOf(events, Stdout) || UnfinishedLineIsOf(events, Stderr)
  {
    hide LinesOf, TailOf, ArrivedText, After, SeparateLines, SeparateTails, EndsOwnLine, UnfinishedLineIsOf;
    forall k | 0 <= k <= |events| ensures multiset(LinesOf(ArrivedText(events[..k]))) == SeparateLines(events[..k]) {
      WholeLines(events[..k], cap);
    }
    forall n | 0 <= n < |events| ensures EndsOwnLine(events[..n], events[n]) {
      assert events[..n + 1] == events[..n] + [events[n]];
      UnmixedEndsOwnLine(events[..n], events[n]);
    }
    assert events[..|events|] == events;
    EndedLines(events, ending, cap);
    var all := ArrivedText(events);
    AddUp(LinesOf(all), TailOf(all));
    Cancel(SeparateTails(events), multiset(TailOf(all)), multiset(LinesOf(all)));
    Cancel(multiset(TailOf(all)), SeparateTails(events), multiset(LinesOf(all)));
    UnmixedTailHasOneOwner(events);
  }

  /**
   * For every run and its ending, these are the same: the listener gets, at every moment and in the end,
   * the lines of the two streams and nothing else, in whatever order; its lines can be credited to the
   * streams so that each gets its own, in order; and every chunk that completes a line finds its own
   * stream's unfinished line in the buffer, while at the ending the whole unfinished line is one stream's
   * and the other has none.
   */
  lemma StayApartExactly(events: seq<Event>, ending: Event, cap: int)
    requires StillRunning(events) && IsEnding(ending)
    ensures NothingIsMixed(events, ending, cap) <==>
            AllEndOwnLines(events) && exists owner :: UnfinishedLineIsOf(events, owner)
    ensures NothingIsMixed(events, ending, cap) <==> exists owner :: StayApart(events, owner)
    ensures forall owner :: Texts(HandedOutByEnd(events, owner)) == After(events + [ending], cap).emitted
  {
    hide NothingIsMixed, AllEndOwnLines, UnfinishedLineIsOf, StayApart, HandedOutByEnd, After;
    forall owner ensures Texts(HandedOutByEnd(events, owner)) == After(events + [ending], cap).emitted {
      HandedOutIsEmitted(events, ending, cap, owner);
    }
    if NothingIsMixed(events, ending, cap) {
      UnmixedIsClean(events, ending, cap);
      var owner := if UnfinishedLineIsOf(events, Stdout) then Stdout else Stderr;
      assert UnfinishedLineIsOf(events, owner);
      CleanRunsStayApart(events, owner);
    }
    if owner :| AllEndOwnLines(events) && UnfinishedLineIsOf(events, owner) {
      CleanRunsStayApart(events, owner);
      ApartIsUnmixed(events, ending, cap, owner);
    }
    if owner :| StayApart(events, owner) {
      ApartIsUnmixed(events, ending, cap, owner);
    }
  }

  /** Two unfinished lines are flushed as one, though no chunk ever completed a line of the other stream. */
  lemma UnfinishedLinesAreFlushedAsOne(a: JsString, b: JsString, ending: Event, cap: int)
    requires a != [] && b != [] && NEWLINE !in a && NEWLINE !in b && IsEnding(ending)
    ensures var events := [Data(Stdout, a), Data(Stderr, b)];
            && AllEndOwnLines(events) && !NothingIsMixed(events, ending, cap)
            && After(events + [ending], cap).emitted == [a + b]
  {
    var events: seq<Event> := [Data(Stdout, a), Data(Stderr, b)];
    hide Rest, LinesOf, TailOf, After, HandedOut, ArrivedFrom, ArrivedText, NothingIsMixed;
    TwoChunksArrive(a, b);
    Unfinished(a);
    Unfinished(b);
    Unfinished(a + b);
    EndedLines(events, ending, cap);
    StayApartExactly(events, ending, cap);
    hide UnfinishedLineIsOf;
    if owner :| UnfinishedLineIsOf(events, owner) {
      NobodyOwnsBoth(events, owner);
    }
  }

  lemma NobodyOwnsBoth(events: seq<Event>, owner: Source)
    requires Rest(ArrivedFrom(Stdout, events), LINE_END) != [] && Rest(ArrivedFrom(Stderr, events), LINE_END) != []
    ensures !UnfinishedLineIsOf(events, owner)
  {
  }

  lemma TwoChunksArrive(a: JsString, b: JsString)
    ensures var events := [Data(Stdout, a), Data(Stderr, b)];
            && ArrivedText(events) == a + b && ArrivedFrom(Stdout, events) == a && ArrivedFrom(Stderr, events) == b
  {
    hide Rest, LinesOf, HandedOut, ArrivedFrom, ArrivedText;
    var first: seq<Event> := [Data(Stdout, a)];
    var second := Data(Stderr, b);
    NothingArrived();
    assert first == [] + first && first + [second] == [Data(Stdout, a), Data(Stderr, b)];
    OwnLinesGrow(Stdout, [], first[0]);
    OwnLinesGrow(Stderr, [], first[0]);
    OwnLinesGrow(Stdout, first, second);
    OwnLinesGrow(Stderr, first, second);
  }

  lemma Unfinished(text: JsString)
    requires NEWLINE !in text
    ensures Rest(text, LINE_END) == text && LinesOf(text) == []
    ensures TailOf(text) == if text == [] then [] else [text]
  {
    forall i: nat ensures !OccursAt(text, LINE_END, i) {
      if i < |text| { assert text[i..i + 1] == [text[i]]; }
    }
    NoPieceExactly(text, LINE_END);
  }

  /** The stream that wrote last. */
  function LastSource(events: seq<Event>): Option<Source> {
    if events == [] then None
    else
      var last := events[|events| - 1];
      if last.Data? then Some(last.source) else LastSource(events[..|events| - 1])
  }

  /** The streams take turns at line ends only. */
  predicate SwitchesAtLineEnds(events: seq<Event>) {
    forall n :: 0 <= n < |events| && events[n].Data? ==>
      LastSource(events[..n]) == Some(events[n].source) || Rest(ArrivedText(events[..n]), LINE_END) == []
  }

  /** Then the unfinished line belongs to the stream that wrote last, and the other has none. */
  lemma {:induction false} UnfinishedLineHasOneOwner(events: seq<Event>)
    requires SwitchesAtLineEnds(events)
    ensures forall source :: Rest(ArrivedFrom(source, events), LINE_END)
                             == if LastSource(events) == Some(source) then Rest(ArrivedText(events), LINE_END) else []
    ensures LastSource(events) == None ==> Rest(ArrivedText(events), LINE_END) == []
  {
    hide Pieces, Rest;
    if events == [] {
      NothingReported();
    } else {
      var n := |events| - 1;
      var before, event := events[..n], events[n];
      assert forall k :: 0 <= k <= n ==> before[..k] == events[..k];
      UnfinishedLineHasOneOwner(before);
      var all := ArrivedText(before);
      if event.Data? {
        PartsSplitAlike(all, event.text, LINE_END);
        forall source ensures Rest(ArrivedFrom(source, events), LINE_END)
                              == if event.source == source then Rest(ArrivedText(events), LINE_END) else []
        {
          var own := ArrivedFrom(source, before);
          if event.source == source {
            PartsSplitAlike(own, event.text, LINE_END);
          } else {
            assert own + [] == own;
          }
        }
      } else {
        assert all + [] == all;
        assert forall source :: ArrivedFrom(source, before) + [] == ArrivedFrom(source, before);
      }
    }
  }

  /** Taking turns at line ends keeps the lines of the two streams apart, through the ending. */
  lemma SwitchingAtLineEndsKeepsApart(events: seq<Event>, ending: Event, cap: int)
    requires StillRunning(events) && IsEnding(ending) && SwitchesAtLineEnds(events)
    ensures NothingIsMixed(events, ending, cap) && exists owner :: StayApart(events, owner)
  {
    hide StayApart, Rest, NothingIsMixed, ArrivedText, ArrivedFrom;
    forall n | 0 <= n < |events| ensures EndsOwnLine(events[..n], events[n]) {
      assert forall k :: 0 <= k <= n ==> events[..n][..k] == events[..k];
      UnfinishedLineHasOneOwner(events[..n]);
    }
    UnfinishedLineHasOneOwner(events);
    assert UnfinishedLineIsOf(events, LastSource(events).GetOr(Stdout));
    StayApartExactly(events, ending, cap);
  }
}
