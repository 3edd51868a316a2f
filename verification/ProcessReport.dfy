/** What a run reports, field by field: its lines by their characters, and the result of each ending. */
module ProcessReport {
  import opened Options
  import opened JsText
  import opened ProcessOutput

  /** The lines that show something: not empty, and more than a carriage return. */
  function Telling(lines: seq<JsString>): seq<JsString> {
    if lines == [] then []
    else
      var last := lines[|lines| - 1];
      Telling(lines[..|lines| - 1]) + if last == [] || last == [13] then [] else [last]
  }

  /** The line without the carriage return at its end, if it has one there. */
  predicate IsShownAs(line: JsString, shown: JsString) {
    if line != [] && line[|line| - 1] == 13 then line == shown + [13] else shown == line
  }

  lemma TrimmedShows(line: JsString)
    ensures IsShownAs(line, Trimmed(line))
    ensures Trimmed(line) == [] <==> line == [] || line == [13]
  {
  }

  /** Every line that shows something is reported once, in order, without one carriage return at its end. */
  lemma {:induction false} TellingLinesAreReported(lines: seq<JsString>)
    ensures |Reported(lines)| == |Telling(lines)|
    ensures forall i :: 0 <= i < |Telling(lines)| ==> IsShownAs(Telling(lines)[i], Reported(lines)[i])
  {
    hide Trimmed, IsShownAs;
    if lines != [] {
      TellingLinesAreReported(lines[..|lines| - 1]);
      TrimmedShows(lines[|lines| - 1]);
    }
  }

  /** The timer fired before the ending. */
  ghost predicate Overdue(events: seq<Event>) {
    exists i :: 0 <= i < |events| && events[i].TimerFired?
  }

  lemma {:induction false} TimerIsRemembered(events: seq<Event>, cap: int)
    requires StillRunning(events)
    ensures After(events, cap).timedOut <==> Overdue(events)
  {
    hide Reported, Utf8Length, Emitting, Capturing;
    if events != [] {
      var n := |events| - 1;
      TimerIsRemembered(events[..n], cap);
      LinesOfWholeText(events[..n], cap);
      if events[n].Data? { DataKeepsTimer(After(events[..n], cap), events[n], cap); }
      if Overdue(events) && !events[n].TimerFired? {
        var i :| 0 <= i < |events| && events[i].TimerFired?;
        assert events[..n][i].TimerFired?;
      }
      if Overdue(events[..n]) {
        var i :| 0 <= i < n && events[..n][i].TimerFired?;
        assert events[i].TimerFired?;
      }
    }
  }

  lemma DataKeepsTimer(s: State, event: Event, cap: int)
    requires event.Data?
    ensures Step(s, event, cap).timedOut == s.timedOut
  {
    hide Reported, Utf8Length;
  }

  /**
   * A run resolves with how it ended: a closed process with its code and signal, one that could not be
   * started with its error; with what was captured; and with whether the timer had fired by then.
   */
  lemma RunResolvesWith(events: seq<Event>, ending: Event, cap: nat) returns (k: nat)
    requires StillRunning(events) && IsEnding(ending)
    ensures k <= |events| && After(events + [ending], cap).resolved.Some?
    ensures var r := After(events + [ending], cap).resolved.value;
            && (ending.Closed? ==> r.exitCode == ending.code && r.signal == ending.signal && r.spawnError.None?)
            && (ending.Errored? ==> r.exitCode.None? && r.signal.None? && r.spawnError == Some(ending.message))
            && (r.timedOut <==> Overdue(events))
            && r.stdout == ArrivedFrom(Stdout, events[..k]) && r.stderr == ArrivedFrom(Stderr, events[..k])
    ensures ArrivedBytes(events[..k]) <= cap && (k < |events| ==> ArrivedBytes(events[..k + 1]) > cap)
  {
    EndingFlushesTheTail(events, ending, cap);
    TimerIsRemembered(events, cap);
    k := CaptureIsAPrefix(events, cap);
    hide After, Overdue, ArrivedFrom, ArrivedBytes;
  }
}
