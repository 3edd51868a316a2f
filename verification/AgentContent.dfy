/**
 * What a folded turn shows, read off the payloads of its events alone: the text, the thoughts,
 * the last report of each kind, the calls, the file changes, the admission and the confirms.
 */
module AgentContent {
  import opened Options
  import opened AgentTurn
  import opened AgentConfluence
  import opened Sequences

  // ---------------------------------------------------------------------------
  // Text
  // ---------------------------------------------------------------------------

  /** `r` is the last 32768 units of `s`, or all of it. */
  ghost predicate IsEndOf<T>(r: seq<T>, s: seq<T>, bound: nat) {
    && |r| == (if |s| <= bound then |s| else bound)
    && r == s[|s| - |r|..]
  }

  function WrittenText(payload: Payload): Option<string> {
    if payload.TextDelta? then Some(payload.text) else None
  }

  function WrittenThought(payload: Payload): Option<string> {
    if payload.ThoughtDelta? then Some(payload.text) else None
  }

  /** The texts written by the events, one after the other. */
  function AllWritten(events: seq<Event>, written: Payload -> Option<string>): string {
    if events == [] then ""
    else AllWritten(events[..|events| - 1], written) + written(events[|events| - 1].payload).GetOr("")
  }

  /** No event from `from` on writes. */
  ghost predicate Silent<T>(events: seq<Event>, from: nat, written: Payload -> Option<T>) {
    forall i :: from <= i < |events| ==> written(events[i].payload).None?
  }

  /** A text that starts as `before` and is extended by what the events write. */
  ghost predicate Extends(before: string, after: string, events: seq<Event>, written: Payload -> Option<string>) {
    && (Silent(events, 0, written) ==> after == before)
    && (!Silent(events, 0, written) ==> IsEndOf(after, before + AllWritten(events, written), 32768))
  }

  lemma EndOfEnd<T>(s: seq<T>, mid: seq<T>, more: seq<T>, after: seq<T>, bound: nat)
    requires IsEndOf(mid, s, bound) || mid == s
    requires IsEndOf(after, mid + more, bound)
    ensures IsEndOf(after, s + more, bound)
  {
    if mid != s {
      var cut := |s| - |mid|;
      assert s + more == s[..cut] + (mid + more);
      assert (s + more)[|s + more| - |after|..] == (mid + more)[|mid + more| - |after|..];
    }
  }

  lemma TailIsEnd<T>(s: seq<T>, bound: nat)
    ensures IsEndOf(Tail(s, bound), s, bound)
  {
  }

  lemma SilentStep<T>(events: seq<Event>, from: nat, written: Payload -> Option<T>)
    requires from < |events|
    ensures var n := |events| - 1;
            Silent(events, from, written) <==> Silent(events[..n], from, written) && written(events[n].payload).None?
  {
    var n := |events| - 1;
    assert forall i :: from <= i < n ==> events[..n][i] == events[i];
    if Silent(events, from, written) {
      forall i | from <= i < n ensures written(events[..n][i].payload).None? {
        assert written(events[i].payload).None?;
      }
    }
    if Silent(events[..n], from, written) && written(events[n].payload).None? {
      forall i | from <= i < |events| ensures written(events[i].payload).None? {
        if i < n { assert written(events[..n][i].payload).None?; }
      }
    }
  }

  lemma SilentAtEnd<T>(events: seq<Event>, written: Payload -> Option<T>)
    ensures Silent(events, |events|, written)
  {
  }

  lemma {:induction false} SilentJoinsNothing(events: seq<Event>, written: Payload -> Option<string>)
    requires Silent(events, 0, written)
    ensures AllWritten(events, written) == ""
  {
    if events != [] {
      SilentStep(events, 0, written);
      SilentJoinsNothing(events[..|events| - 1], written);
    }
  }

  lemma ExtendsStep(before: string, mid: string, after: string, events: seq<Event>, written: Payload -> Option<string>)
    requires events != [] && Extends(before, mid, events[..|events| - 1], written)
    requires var w := written(events[|events| - 1].payload);
             if w.Some? then IsEndOf(after, mid + w.value, 32768) else after == mid
    ensures Extends(before, after, events, written)
  {
    hide Silent, IsEndOf;
    var n := |events| - 1;
    var w := written(events[n].payload);
    var joined := AllWritten(events[..n], written);
    SilentStep(events, 0, written);
    if w.None? {
      assert before + joined == before + AllWritten(events, written);
    } else {
      if Silent(events[..n], 0, written) {
        SilentJoinsNothing(events[..n], written);
        assert before + "" == before;
      }
      EndOfEnd(before + joined, mid, w.value, after, 32768);
      Regroup(before, joined, w.value);
    }
  }

  /** A completion that carries a text puts it in place of what was there. */
  function ReplacingText(payload: Payload): Option<string> {
    if payload.TurnCompleted? && payload.text != "" then Some(payload.text) else None
  }

  /**
   * The text shown: the last 32768 units of the start text and all deltas, in order. A completion
   * with a text of its own replaces what was there, and only later deltas extend that.
   */
  lemma {:induction false} ContentIsTheText(msg: ChatMessage, events: seq<Event>)
    requires msg.agent.Some?
    ensures Silent(events, 0, ReplacingText) ==> Extends(msg.content, Fold(msg, events).content, events, WrittenText)
    ensures forall k :: 0 <= k < |events| && ReplacingText(events[k].payload).Some?
                        && Silent(events, k + 1, ReplacingText) ==>
              Extends(events[k].payload.text, Fold(msg, events).content, events[k + 1..], WrittenText)
  {
    hide Extends, Silent, ReduceOrderedEvent;
    if events == [] {
      NothingExtends(msg.content);
    } else {
      var n := |events| - 1;
      var init := events[..n];
      ContentIsTheText(msg, init);
      var mid, after := Fold(msg, init).content, Fold(msg, events).content;
      ContentStep(Fold(msg, init), events[n]);
      SilentStep(events, 0, ReplacingText);
      if Silent(events, 0, ReplacingText) {
        ExtendsStep(msg.content, mid, after, events, WrittenText);
      }
      forall k | 0 <= k < |events| && ReplacingText(events[k].payload).Some? && Silent(events, k + 1, ReplacingText)
        ensures Extends(events[k].payload.text, after, events[k + 1..], WrittenText)
      {
        var later := events[k + 1..];
        if k == n {
          NothingExtends(after);
        } else {
          SilentStep(events, k + 1, ReplacingText);
          assert init[k] == events[k];
          assert later[..|later| - 1] == init[k + 1..] && later[|later| - 1] == events[n];
          ExtendsStep(events[k].payload.text, mid, after, later, WrittenText);
        }
      }
    }
  }

  lemma NothingExtends(text: string)
    ensures Extends(text, text, [], WrittenText)
  {
  }

  lemma ContentStep(msg: ChatMessage, event: Event)
    requires msg.agent.Some?
    ensures var after := ReduceOrderedEvent(msg, event).content;
            && (event.payload.TextDelta? ==> IsEndOf(after, msg.content + event.payload.text, 32768))
            && (ReplacingText(event.payload).Some? ==> after == event.payload.text)
            && (!event.payload.TextDelta? && ReplacingText(event.payload).None? ==> after == msg.content)
  {
    hide NextReport, NextTrace, NextConfirms, NextPresentation, NextStatus, NextPins;
  }

  // ---------------------------------------------------------------------------
  // The last report of each kind
  // ---------------------------------------------------------------------------

  /** A field that starts as `before` and holds what was written to it last. */
  ghost predicate LastWins<T>(before: T, after: T, events: seq<Event>, written: Payload -> Option<T>) {
    && (Silent(events, 0, written) ==> after == before)
    && (forall k :: 0 <= k < |events| && written(events[k].payload).Some? && Silent(events, k + 1, written) ==>
          after == written(events[k].payload).value)
  }

  lemma LastWinsStep<T>(before: T, mid: T, after: T, events: seq<Event>, written: Payload -> Option<T>)
    requires events != [] && LastWins(before, mid, events[..|events| - 1], written)
    requires after == written(events[|events| - 1].payload).GetOr(mid)
    ensures LastWins(before, after, events, written)
  {
    hide Silent;
    var n := |events| - 1;
    SilentStep(events, 0, written);
    forall k | 0 <= k < |events| && written(events[k].payload).Some? && Silent(events, k + 1, written)
      ensures after == written(events[k].payload).value
    {
      if k < n {
        SilentStep(events, k + 1, written);
        assert events[..n][k] == events[k];
      }
    }
  }

  function WrittenVisualization(payload: Payload): Option<Option<(string, string)>> {
    if payload.ToolVisualization? then Some(Some((payload.kind, payload.guided))) else None
  }

  function WrittenPlan(payload: Payload): Option<seq<string>> {
    if payload.PlanUpdated? then Some(payload.items) else None
  }

  function WrittenUsage(payload: Payload): Option<Option<string>> {
    if payload.UsageReported? then Some(Some(payload.report)) else None
  }

  function WrittenGovernance(payload: Payload): Option<Option<string>> {
    if payload.GovernanceReported? then Some(Some(payload.report)) else None
  }

  function WrittenCandidate(payload: Payload): Option<Option<string>> {
    if payload.CandidateArtifactReady? then Some(Some(payload.candidate)) else None
  }

  function WrittenErrorStage(payload: Payload): Option<Option<string>> {
    if payload.TurnFailed? then Some(Some(payload.failureStage)) else None
  }

  /** The admission's id and status, without its stages. */
  function AdmissionHead(report: Report): Option<(string, AdmissionStatus)> {
    if report.artifactAdmission.None? then None
    else Some((report.artifactAdmission.value.admissionId, report.artifactAdmission.value.status))
  }

  function WrittenAdmission(payload: Payload): Option<Option<(string, AdmissionStatus)>> {
    match payload
    case ArtifactAdmissionStarted(admissionId) => Some(Some((admissionId, AdmissionRunning)))
    case ArtifactAccepted(admissionId, artifactId, artifactHash) =>
      Some(Some((admissionId, Accepted(artifactId, artifactHash))))
    case ArtifactRejected(admissionId, message) => Some(Some((admissionId, Rejected(message))))
    case _ => None
  }

  /** The thoughts are extended like the text; every other report is the last one sent. */
  ghost predicate ReportsStand(before: Report, after: Report, events: seq<Event>) {
    && Extends(before.thoughts, after.thoughts, events, WrittenThought)
    && LastWins(before.plan, after.plan, events, WrittenPlan)
    && LastWins(before.inferenceUsage, after.inferenceUsage, events, WrittenUsage)
    && LastWins(before.governanceAttribution, after.governanceAttribution, events, WrittenGovernance)
    && LastWins(before.candidate, after.candidate, events, WrittenCandidate)
    && LastWins(before.errorStage, after.errorStage, events, WrittenErrorStage)
    && LastWins(AdmissionHead(before), AdmissionHead(after), events, WrittenAdmission)
  }

  lemma ReportStep(report: Report, payload: Payload)
    ensures var after := NextReport(report, payload);
            && (if payload.ThoughtDelta? then IsEndOf(after.thoughts, report.thoughts + payload.text, 32768)
                else after.thoughts == report.thoughts)
            && after.plan == WrittenPlan(payload).GetOr(report.plan)
            && after.inferenceUsage == WrittenUsage(payload).GetOr(report.inferenceUsage)
            && after.governanceAttribution == WrittenGovernance(payload).GetOr(report.governanceAttribution)
            && after.candidate == WrittenCandidate(payload).GetOr(report.candidate)
            && after.errorStage == WrittenErrorStage(payload).GetOr(report.errorStage)
            && AdmissionHead(after) == WrittenAdmission(payload).GetOr(AdmissionHead(report))
  {
  }

  lemma {:induction false} LastReportsStand(msg: ChatMessage, events: seq<Event>)
    requires msg.agent.Some?
    ensures ReportsStand(msg.agent.value.report, Fold(msg, events).agent.value.report, events)
    ensures LastWins(msg.visualization, Fold(msg, events).visualization, events, WrittenVisualization)
  {
    hide Extends, LastWins, Silent, NextReport, NextTrace, NextConfirms, NextPresentation, NextStatus, NextPins;
    var before, after := msg.agent.value.report, Fold(msg, events).agent.value.report;
    if events == [] {
      NothingReported(before, msg.visualization);
    } else {
      var n := |events| - 1;
      var init := events[..n];
      LastReportsStand(msg, init);
      var mid := Fold(msg, init).agent.value.report;
      ReportStep(mid, events[n].payload);
      ExtendsStep(before.thoughts, mid.thoughts, after.thoughts, events, WrittenThought);
      LastWinsStep(before.plan, mid.plan, after.plan, events, WrittenPlan);
      LastWinsStep(before.inferenceUsage, mid.inferenceUsage, after.inferenceUsage, events, WrittenUsage);
      LastWinsStep(before.governanceAttribution, mid.governanceAttribution, after.governanceAttribution, events,
                   WrittenGovernance);
      LastWinsStep(before.candidate, mid.candidate, after.candidate, events, WrittenCandidate);
      LastWinsStep(before.errorStage, mid.errorStage, after.errorStage, events, WrittenErrorStage);
      LastWinsStep(AdmissionHead(before), AdmissionHead(mid), AdmissionHead(after), events, WrittenAdmission);
      LastWinsStep(msg.visualization, Fold(msg, init).visualization, Fold(msg, events).visualization, events,
                   WrittenVisualization);
    }
  }

  lemma NothingReported(report: Report, visualization: Option<(string, string)>)
    ensures ReportsStand(report, report, [])
    ensures LastWins(visualization, visualization, [], WrittenVisualization)
  {
  }

  // ---------------------------------------------------------------------------
  // Calls and file changes
  // ---------------------------------------------------------------------------

  /** What the browser may show of an outcome: no diagnostic, and a reason only when it did not succeed. */
  function Shown(outcome: Outcome): Outcome {
    Outcome(outcome.code, outcome.executionState,
            if outcome.executionState == Succeeded then None else outcome.terminalReason, outcome.presentation, None)
  }

  function CompletedStatus(state: ExecutionState): TraceStatus {
    if state == Succeeded then Done else if state == ExecutedFailed then Error else CancelledCall
  }

  function Completions(callId: string): Payload -> Option<(TraceStatus, Option<Outcome>)> {
    (payload: Payload) =>
      if payload.ToolCompleted? && payload.callId == callId then
        Some((CompletedStatus(payload.outcome.executionState), Some(Shown(payload.outcome))))
      else None
  }

  /** A call keeps its name and arguments and shows its last completion. */
  ghost predicate ShowsCall(before: TraceEntry, after: TraceEntry, events: seq<Event>) {
    && after.callId == before.callId && after.toolName == before.toolName && after.arguments == before.arguments
    && LastWins((before.status, before.outcome), (after.status, after.outcome), events, Completions(before.callId))
  }

  function Applications(changeId: string): Payload -> Option<(bool, Option<string>)> {
    (payload: Payload) =>
      if payload.FileChangeApplied? && payload.changeId == changeId then Some((true, Some(payload.contentHash)))
      else None
  }

  /** A file change keeps its path and diff and shows the last hash it was applied with. */
  ghost predicate ShowsChange(before: FileChange, after: FileChange, events: seq<Event>) {
    && after.changeId == before.changeId && after.relativePath == before.relativePath && after.diff == before.diff
    && LastWins((before.applied, before.contentHash), (after.applied, after.contentHash), events,
                Applications(before.changeId))
  }

  /** How many events are of the given kind. */
  function Count(events: seq<Event>, kind: Payload -> bool): nat {
    if events == [] then 0
    else Count(events[..|events| - 1], kind) + (if kind(events[|events| - 1].payload) then 1 else 0)
  }

  predicate StartsCall(payload: Payload) {
    payload.ToolStarted?
  }

  predicate ProposesChange(payload: Payload) {
    payload.FileChangeProposed?
  }

  /** The entry a start event opens. */
  function OpenedCall(payload: Payload): TraceEntry
    requires payload.ToolStarted?
  {
    TraceEntry(payload.callId, payload.toolName, payload.arguments, Running, None)
  }

  function OpenedChange(payload: Payload): FileChange
    requires payload.FileChangeProposed?
  {
    FileChange(payload.changeId, payload.relativePath, false, payload.diff, None)
  }

  /** One trace entry per start, in order, each showing what its call's completions since then say. */
  ghost predicate TraceShows(before: seq<TraceEntry>, after: seq<TraceEntry>, events: seq<Event>) {
    && |after| == |before| + Count(events, StartsCall)
    && (forall i :: 0 <= i < |before| ==> ShowsCall(before[i], after[i], events))
    && (forall s :: 0 <= s < |events| && events[s].payload.ToolStarted? ==>
          ShowsCallAt(OpenedCall(events[s].payload), after, |before| + Count(events[..s], StartsCall), events[s + 1..]))
  }

  ghost predicate ShowsCallAt(entry: TraceEntry, after: seq<TraceEntry>, place: nat, events: seq<Event>) {
    place < |after| && ShowsCall(entry, after[place], events)
  }

  ghost predicate ChangesShow(before: seq<FileChange>, after: seq<FileChange>, events: seq<Event>) {
    && |after| == |before| + Count(events, ProposesChange)
    && (forall i :: 0 <= i < |before| ==> ShowsChange(before[i], after[i], events))
    && (forall s :: 0 <= s < |events| && events[s].payload.FileChangeProposed? ==>
          ShowsChangeAt(OpenedChange(events[s].payload), after, |before| + Count(events[..s], ProposesChange),
                        events[s + 1..]))
  }

  ghost predicate ShowsChangeAt(entry: FileChange, after: seq<FileChange>, place: nat, events: seq<Event>) {
    place < |after| && ShowsChange(entry, after[place], events)
  }

  lemma ShowsCallStep(first: TraceEntry, mid: TraceEntry, after: TraceEntry, events: seq<Event>)
    requires events != [] && ShowsCall(first, mid, events[..|events| - 1])
    requires var payload := events[|events| - 1].payload;
             after == if payload.ToolCompleted? then CompleteCall(mid, payload.callId, payload.outcome) else mid
    ensures ShowsCall(first, after, events)
  {
    hide LastWins;
    LastWinsStep((first.status, first.outcome), (mid.status, mid.outcome), (after.status, after.outcome), events,
                 Completions(first.callId));
  }

  lemma NewCallShows(entry: TraceEntry)
    ensures ShowsCall(entry, entry, [])
  {
  }

  lemma ShowsChangeStep(first: FileChange, mid: FileChange, after: FileChange, events: seq<Event>)
    requires events != [] && ShowsChange(first, mid, events[..|events| - 1])
    requires var payload := events[|events| - 1].payload;
             after == if payload.FileChangeApplied? then ApplyFileChange(mid, payload.changeId, payload.contentHash)
                      else mid
    ensures ShowsChange(first, after, events)
  {
    hide LastWins;
    LastWinsStep((first.applied, first.contentHash), (mid.applied, mid.contentHash), (after.applied, after.contentHash),
                 events, Applications(first.changeId));
  }

  lemma NewChangeShows(change: FileChange)
    ensures ShowsChange(change, change, [])
  {
  }

  /** The earlier events of a kind are fewer. */
  lemma {:induction false} CountBefore(events: seq<Event>, s: nat, kind: Payload -> bool)
    requires s < |events| && kind(events[s].payload)
    ensures Count(events[..s], kind) < Count(events, kind)
  {
    var n := |events| - 1;
    if s == n {
    } else {
      CountBefore(events[..n], s, kind);
      assert events[..n][..s] == events[..s];
    }
  }

  lemma TraceStep(trace: seq<TraceEntry>, payload: Payload)
    ensures var after := NextTrace(trace, payload);
            && |after| == |trace| + (if payload.ToolStarted? then 1 else 0)
            && (payload.ToolStarted? ==> after[|trace|] == OpenedCall(payload))
            && (forall i :: 0 <= i < |trace| ==>
                  after[i] == if payload.ToolCompleted? then CompleteCall(trace[i], payload.callId, payload.outcome)
                              else trace[i])
  {
  }

  lemma TraceShowsStep(before: seq<TraceEntry>, mid: seq<TraceEntry>, events: seq<Event>)
    requires events != [] && TraceShows(before, mid, events[..|events| - 1])
    ensures TraceShows(before, NextTrace(mid, events[|events| - 1].payload), events)
  {
    hide ShowsCall, NextTrace, CompleteCall;
    var n := |events| - 1;
    var init, payload := events[..n], events[n].payload;
    var after := NextTrace(mid, payload);
    TraceStep(mid, payload);
    forall i | 0 <= i < |before| ensures ShowsCall(before[i], after[i], events) {
      ShowsCallStep(before[i], mid[i], after[i], events);
    }
    forall s | 0 <= s < |events| && events[s].payload.ToolStarted?
      ensures ShowsCallAt(OpenedCall(events[s].payload), after, |before| + Count(events[..s], StartsCall),
                          events[s + 1..])
    {
      var place := |before| + Count(events[..s], StartsCall);
      var entry, later := OpenedCall(events[s].payload), events[s + 1..];
      if s == n {
        assert later == [];
        NewCallShows(entry);
      } else {
        EarlierCallStep(before, mid, events, s);
      }
    }
  }

  lemma EarlierCallStep(before: seq<TraceEntry>, mid: seq<TraceEntry>, events: seq<Event>, s: nat)
    requires s < |events| - 1 && events[s].payload.ToolStarted? && TraceShows(before, mid, events[..|events| - 1])
    ensures ShowsCallAt(OpenedCall(events[s].payload), NextTrace(mid, events[|events| - 1].payload),
                        |before| + Count(events[..s], StartsCall), events[s + 1..])
  {
    hide ShowsCall, NextTrace, CompleteCall, OpenedCall;
    var init, payload := events[..|events| - 1], events[|events| - 1].payload;
    var place := |before| + Count(events[..s], StartsCall);
    var entry, later := OpenedCall(events[s].payload), events[s + 1..];
    TraceStep(mid, payload);
    CountBefore(init, s, StartsCall);
    assert init[..s] == events[..s] && init[s] == events[s];
    assert later[..|later| - 1] == init[s + 1..];
    assert ShowsCallAt(entry, mid, place, init[s + 1..]);
    ShowsCallStep(entry, mid[place], NextTrace(mid, payload)[place], later);
  }

  lemma ChangesStep(report: Report, payload: Payload)
    ensures var changes, after := report.fileChanges, NextReport(report, payload).fileChanges;
            && |after| == |changes| + (if payload.FileChangeProposed? then 1 else 0)
            && (payload.FileChangeProposed? ==> after[|changes|] == OpenedChange(payload))
            && (forall i :: 0 <= i < |changes| ==>
                  after[i] == if payload.FileChangeApplied? then
                                ApplyFileChange(changes[i], payload.changeId, payload.contentHash)
                              else changes[i])
  {
  }

  lemma ChangesShowStep(before: seq<FileChange>, report: Report, events: seq<Event>)
    requires events != [] && ChangesShow(before, report.fileChanges, events[..|events| - 1])
    ensures ChangesShow(before, NextReport(report, events[|events| - 1].payload).fileChanges, events)
  {
    hide ShowsChange, NextReport, ApplyFileChange;
    var n := |events| - 1;
    var init, payload := events[..n], events[n].payload;
    var mid, after := report.fileChanges, NextReport(report, payload).fileChanges;
    ChangesStep(report, payload);
    forall i | 0 <= i < |before| ensures ShowsChange(before[i], after[i], events) {
      ShowsChangeStep(before[i], mid[i], after[i], events);
    }
    forall s | 0 <= s < |events| && events[s].payload.FileChangeProposed?
      ensures ShowsChangeAt(OpenedChange(events[s].payload), after, |before| + Count(events[..s], ProposesChange),
                            events[s + 1..])
    {
      var place := |before| + Count(events[..s], ProposesChange);
      var entry, later := OpenedChange(events[s].payload), events[s + 1..];
      if s == n {
        assert later == [];
        NewChangeShows(entry);
      } else {
        EarlierChangeStep(before, report, events, s);
      }
    }
  }

  lemma EarlierChangeStep(before: seq<FileChange>, report: Report, events: seq<Event>, s: nat)
    requires s < |events| - 1 && events[s].payload.FileChangeProposed?
    requires ChangesShow(before, report.fileChanges, events[..|events| - 1])
    ensures ShowsChangeAt(OpenedChange(events[s].payload), NextReport(report, events[|events| - 1].payload).fileChanges,
                          |before| + Count(events[..s], ProposesChange), events[s + 1..])
  {
    hide ShowsChange, NextReport, ApplyFileChange, OpenedChange;
    var init, payload := events[..|events| - 1], events[|events| - 1].payload;
    var place := |before| + Count(events[..s], ProposesChange);
    var entry, later := OpenedChange(events[s].payload), events[s + 1..];
    ChangesStep(report, payload);
    CountBefore(init, s, ProposesChange);
    assert init[..s] == events[..s] && init[s] == events[s];
    assert later[..|later| - 1] == init[s + 1..];
    assert ShowsChangeAt(entry, report.fileChanges, place, init[s + 1..]);
    ShowsChangeStep(entry, report.fileChanges[place], NextReport(report, payload).fileChanges[place], later);
  }

  /**
   * Each call shows the status and outcome of its last completion since it started and is running
   * without one; each file change shows the last hash it was applied with and is proposed without one.
   */
  lemma {:induction false} CallsAndChangesShow(msg: ChatMessage, events: seq<Event>)
    requires msg.agent.Some?
    ensures TraceShows(msg.agent.value.trace, Fold(msg, events).agent.value.trace, events)
    ensures ChangesShow(msg.agent.value.report.fileChanges, Fold(msg, events).agent.value.report.fileChanges, events)
  {
    hide TraceShows, ChangesShow, NextReport, NextTrace, NextConfirms, NextPresentation, NextStatus, NextPins;
    var agent := msg.agent.value;
    if events == [] {
      NothingOpened(agent.trace, agent.report.fileChanges);
    } else {
      var n := |events| - 1;
      CallsAndChangesShow(msg, events[..n]);
      var mid := Fold(msg, events[..n]).agent.value;
      TraceShowsStep(agent.trace, mid.trace, events);
      ChangesShowStep(agent.report.fileChanges, mid.report, events);
    }
  }

  lemma NothingOpened(trace: seq<TraceEntry>, changes: seq<FileChange>)
    ensures TraceShows(trace, trace, []) && ChangesShow(changes, changes, [])
  {
  }

  // ---------------------------------------------------------------------------
  // Status and terminal outcome
  // ---------------------------------------------------------------------------

  /** The status an event gives the turn; a completion gives none while a candidate is held. */
  function Ending(payload: Payload, held: bool): Option<TurnStatus> {
    match payload
    case ArtifactAccepted(_, _, _) => Some(Completed)
    case ArtifactRejected(_, _) => Some(Failed)
    case TurnFailed(_, _) => Some(Failed)
    case TurnCancelled(_) => Some(TurnWasCancelled)
    case TurnCompleted(_) => if held then None else Some(Completed)
    case _ => None
  }

  /** A candidate was held from the start or has been sent before event `k`. */
  ghost predicate Held(candidate: Option<string>, events: seq<Event>, k: nat)
    requires k <= |events|
  {
    candidate.Some? || exists j :: 0 <= j < k && events[j].payload.CandidateArtifactReady?
  }

  ghost predicate Undecided(candidate: Option<string>, events: seq<Event>, from: nat) {
    forall k :: from <= k < |events| ==> Ending(events[k].payload, Held(candidate, events, k)).None?
  }

  /** The turn has the status its last deciding event gave it. */
  ghost predicate StatusStands(candidate: Option<string>, before: TurnStatus, after: TurnStatus, events: seq<Event>) {
    && (Undecided(candidate, events, 0) ==> after == before)
    && (forall k :: 0 <= k < |events| && Ending(events[k].payload, Held(candidate, events, k)).Some?
                    && Undecided(candidate, events, k + 1) ==>
          after == Ending(events[k].payload, Held(candidate, events, k)).value)
  }

  lemma HeldPrefix(candidate: Option<string>, events: seq<Event>, n: nat, k: nat)
    requires k <= n <= |events|
    ensures Held(candidate, events[..n], k) <==> Held(candidate, events, k)
  {
    assert forall j :: 0 <= j < k ==> events[..n][j] == events[j];
  }

  lemma UndecidedStep(candidate: Option<string>, events: seq<Event>, from: nat)
    requires from < |events|
    ensures var n := |events| - 1;
            Undecided(candidate, events, from) <==>
            Undecided(candidate, events[..n], from) && Ending(events[n].payload, Held(candidate, events, n)).None?
  {
    hide Held, Ending;
    var n := |events| - 1;
    forall k | from <= k < n
      ensures Ending(events[..n][k].payload, Held(candidate, events[..n], k))
           == Ending(events[k].payload, Held(candidate, events, k))
    {
      HeldPrefix(candidate, events, n, k);
    }
  }

  lemma StatusStep(candidate: Option<string>, before: TurnStatus, mid: TurnStatus, after: TurnStatus,
                   events: seq<Event>)
    requires events != [] && StatusStands(candidate, before, mid, events[..|events| - 1])
    requires var n := |events| - 1; after == Ending(events[n].payload, Held(candidate, events, n)).GetOr(mid)
    ensures StatusStands(candidate, before, after, events)
  {
    hide Held, Ending, Undecided;
    var n := |events| - 1;
    UndecidedStep(candidate, events, 0);
    forall k | 0 <= k < |events| && Ending(events[k].payload, Held(candidate, events, k)).Some?
               && Undecided(candidate, events, k + 1)
      ensures after == Ending(events[k].payload, Held(candidate, events, k)).value
    {
      if k < n {
        UndecidedStep(candidate, events, k + 1);
        HeldPrefix(candidate, events, n, k);
        assert events[..n][k] == events[k];
      }
    }
  }

  lemma CandidateIsHeld(candidate: Option<string>, now: Option<string>, events: seq<Event>)
    requires LastWins(candidate, now, events, WrittenCandidate)
    ensures now.Some? <==> Held(candidate, events, |events|)
  {
    if Silent(events, 0, WrittenCandidate) {
      forall j | 0 <= j < |events| ensures !events[j].payload.CandidateArtifactReady? {
        assert WrittenCandidate(events[j].payload).None?;
      }
    } else {
      var k := LastWriter(events, WrittenCandidate);
    }
  }

  lemma {:induction false} LastWriter<T>(events: seq<Event>, written: Payload -> Option<T>) returns (k: nat)
    requires !Silent(events, 0, written)
    ensures k < |events| && written(events[k].payload).Some? && Silent(events, k + 1, written)
  {
    var n := |events| - 1;
    if written(events[n].payload).Some? {
      k := n;
    } else {
      SilentStep(events, 0, written);
      k := LastWriter(events[..n], written);
      SilentStep(events, k + 1, written);
    }
  }

  /** The turn's status, read off the events and the candidate held when they came. */
  lemma {:induction false} LastEndingStands(msg: ChatMessage, events: seq<Event>)
    requires msg.agent.Some?
    ensures StatusStands(msg.agent.value.report.candidate, msg.agent.value.status,
                         Fold(msg, events).agent.value.status, events)
  {
    hide StatusStands, NextReport, NextTrace, NextConfirms, NextPresentation, NextStatus, NextPins, ReportsStand, Held;
    var agent := msg.agent.value;
    if events == [] {
      NothingEnds(agent.report.candidate, agent.status);
    } else {
      var n := |events| - 1;
      var init := events[..n];
      LastEndingStands(msg, init);
      CandidateReported(msg, init);
      var mid := Fold(msg, init).agent.value;
      CandidateIsHeld(agent.report.candidate, mid.report.candidate, init);
      HeldPrefix(agent.report.candidate, events, n, n);
      EndingStep(mid.status, mid.report, events[n].payload);
      StatusStep(agent.report.candidate, agent.status, mid.status, Fold(msg, events).agent.value.status, events);
    }
  }

  lemma CandidateReported(msg: ChatMessage, events: seq<Event>)
    requires msg.agent.Some?
    ensures LastWins(msg.agent.value.report.candidate, Fold(msg, events).agent.value.report.candidate, events,
                     WrittenCandidate)
  {
    hide LastWins, Extends, Fold;
    LastReportsStand(msg, events);
  }

  lemma NothingEnds(candidate: Option<string>, status: TurnStatus)
    ensures StatusStands(candidate, status, status, [])
  {
  }

  lemma EndingStep(status: TurnStatus, report: Report, payload: Payload)
    ensures NextStatus(status, report, payload) == Ending(payload, report.candidate.Some?).GetOr(status)
  {
  }

  function WrittenFailure(payload: Payload): Option<Option<Outcome>> {
    if payload.ToolCompleted? && payload.outcome.executionState != Succeeded then Some(Some(Shown(payload.outcome)))
    else None
  }

  /** The outcome a failed or cancelled turn reports, if no call has reported one. */
  function OfferedOutcome(payload: Payload): Option<Outcome> {
    if payload.TurnFailed? || payload.TurnCancelled? then Some(Shown(payload.outcome)) else None
  }

  /**
   * The terminal outcome: that of the last call that did not succeed; without one, what was there;
   * without that, that of the first failure or cancellation of the turn.
   */
  ghost predicate OutcomeStands(before: Option<Outcome>, after: Option<Outcome>, events: seq<Event>) {
    && (forall k :: 0 <= k < |events| && WrittenFailure(events[k].payload).Some?
                    && Silent(events, k + 1, WrittenFailure) ==>
          after == WrittenFailure(events[k].payload).value)
    && (Silent(events, 0, WrittenFailure) && before.Some? ==> after == before)
    && (Silent(events, 0, WrittenFailure) && before.None? ==>
          && (Silent(events, 0, OfferedOutcome) ==> after.None?)
          && (forall k :: 0 <= k < |events| && OfferedOutcome(events[k].payload).Some?
                          && Silent(events[..k], 0, OfferedOutcome) ==>
                after == OfferedOutcome(events[k].payload)))
  }

  lemma OutcomeStep(report: Report, payload: Payload)
    ensures NextReport(report, payload).terminalOutcome
            == if WrittenFailure(payload).Some? then WrittenFailure(payload).value
               else if report.terminalOutcome.Some? then report.terminalOutcome
               else OfferedOutcome(payload)
  {
  }

  lemma OutcomeStandsStep(before: Option<Outcome>, mid: Option<Outcome>, after: Option<Outcome>, events: seq<Event>)
    requires events != [] && OutcomeStands(before, mid, events[..|events| - 1])
    requires var payload := events[|events| - 1].payload;
             after == if WrittenFailure(payload).Some? then WrittenFailure(payload).value
                      else if mid.Some? then mid else OfferedOutcome(payload)
    ensures OutcomeStands(before, after, events)
  {
    hide Silent, WrittenFailure, OfferedOutcome;
    var n := |events| - 1;
    var init := events[..n];
    SilentStep(events, 0, WrittenFailure);
    SilentStep(events, 0, OfferedOutcome);
    forall k | 0 <= k < |events| && WrittenFailure(events[k].payload).Some? && Silent(events, k + 1, WrittenFailure)
      ensures after == WrittenFailure(events[k].payload).value
    {
      if k < n {
        SilentStep(events, k + 1, WrittenFailure);
        assert init[k] == events[k];
        FailureIsShown(events[k].payload);
      }
    }
    if Silent(events, 0, WrittenFailure) && before.None? {
      forall k | 0 <= k < |events| && OfferedOutcome(events[k].payload).Some? && Silent(events[..k], 0, OfferedOutcome)
        ensures after == OfferedOutcome(events[k].payload)
      {
        if k < n {
          assert init[k] == events[k] && init[..k] == events[..k];
        }
      }
    }
  }

  lemma FailureIsShown(payload: Payload)
    ensures WrittenFailure(payload).Some? ==> WrittenFailure(payload).value.Some?
  {
  }

  lemma {:induction false} TerminalOutcomeStands(msg: ChatMessage, events: seq<Event>)
    requires msg.agent.Some?
    ensures OutcomeStands(msg.agent.value.report.terminalOutcome, Fold(msg, events).agent.value.report.terminalOutcome,
                          events)
  {
    hide OutcomeStands, NextReport, NextTrace, NextConfirms, NextPresentation, NextStatus, NextPins;
    var before := msg.agent.value.report.terminalOutcome;
    if events == [] {
      NoOutcome(before);
    } else {
      var n := |events| - 1;
      TerminalOutcomeStands(msg, events[..n]);
      var mid := Fold(msg, events[..n]).agent.value.report;
      OutcomeStep(mid, events[n].payload);
      OutcomeStandsStep(before, mid.terminalOutcome, Fold(msg, events).agent.value.report.terminalOutcome, events);
    }
  }

  lemma NoOutcome(outcome: Option<Outcome>)
    ensures OutcomeStands(outcome, outcome, [])
  {
  }

  // ---------------------------------------------------------------------------
  // The stages of the admission
  // ---------------------------------------------------------------------------

  /** The id of the admission the events speak of at their end. */
  function AdmittedId(before: Option<string>, events: seq<Event>): Option<string> {
    if events == [] then before
    else
      match events[|events| - 1].payload
      case ArtifactAdmissionStarted(admissionId) => Some(admissionId)
      case ArtifactAccepted(admissionId, _, _) => Some(admissionId)
      case ArtifactRejected(admissionId, _) => Some(admissionId)
      case _ => AdmittedId(before, events[..|events| - 1])
  }

  /** Event `k` reports a stage of the admission current at that moment. */
  predicate ReportsStage(before: Option<string>, events: seq<Event>, k: nat)
    requires k < |events|
  {
    events[k].payload.ArtifactAdmissionStage? && AdmittedId(before, events[..k]) == Some(events[k].payload.admissionId)
  }

  /** From `from` on, no admission starts and no stage of this id is reported. */
  predicate StageLasts(before: Option<string>, events: seq<Event>, from: nat, stageId: string) {
    forall j :: from <= j < |events| ==>
      && !events[j].payload.ArtifactAdmissionStarted?
      && (ReportsStage(before, events, j) ==> events[j].payload.stage.stageId != stageId)
  }

  /** The stages there from the start that last through all events. */
  function LastingStages(stages: seq<Stage>, before: Option<string>, events: seq<Event>): seq<Stage> {
    if stages == [] then []
    else (if StageLasts(before, events, 0, stages[0].stageId) then [stages[0]] else [])
         + LastingStages(stages[1..], before, events)
  }

  /** The stage event `k` reports, unless something later removes it. */
  function ReportedAt(before: Option<string>, events: seq<Event>, k: nat): seq<Stage>
    requires k < |events|
  {
    if ReportsStage(before, events, k) && StageLasts(before, events, k + 1, events[k].payload.stage.stageId)
    then [events[k].payload.stage] else []
  }

  /** The last report of each stage of the last admission among the first `n` events, in order. */
  function ReportedStages(before: Option<string>, events: seq<Event>, n: nat): seq<Stage>
    requires n <= |events|
  {
    if n == 0 then [] else ReportedStages(before, events, n - 1) + ReportedAt(before, events, n - 1)
  }

  function AdmissionId(report: Report): Option<string> {
    if report.artifactAdmission.None? then None else Some(report.artifactAdmission.value.admissionId)
  }

  lemma ReportsStagePrefix(before: Option<string>, events: seq<Event>, n: nat, k: nat)
    requires k < n <= |events|
    ensures ReportsStage(before, events[..n], k) == ReportsStage(before, events, k)
  {
    assert events[..n][..k] == events[..k] && events[..n][k] == events[k];
  }

  lemma StageLastsStep(before: Option<string>, events: seq<Event>, from: nat, stageId: string)
    requires from < |events|
    ensures var n := |events| - 1;
            StageLasts(before, events, from, stageId) <==>
            && StageLasts(before, events[..n], from, stageId) && !events[n].payload.ArtifactAdmissionStarted?
            && (ReportsStage(before, events, n) ==> events[n].payload.stage.stageId != stageId)
  {
    hide ReportsStage;
    var n := |events| - 1;
    forall j | from <= j < n
      ensures events[..n][j] == events[j] && ReportsStage(before, events[..n], j) == ReportsStage(before, events, j)
    {
      ReportsStagePrefix(before, events, n, j);
    }
  }

  lemma {:induction false} RemoveStageFrom(a: seq<Stage>, b: seq<Stage>, stageId: string)
    ensures RemoveStage(a + b, stageId) == RemoveStage(a, stageId) + RemoveStage(b, stageId)
  {
    if a == [] {
      assert a + b == b;
    } else {
      assert (a + b)[1..] == a[1..] + b;
      RemoveStageFrom(a[1..], b, stageId);
    }
  }

  /** What one more event leaves of a list of stages. */
  function StagesLeft(before: Option<string>, events: seq<Event>, stages: seq<Stage>): seq<Stage>
    requires events != []
  {
    var n := |events| - 1;
    if events[n].payload.ArtifactAdmissionStarted? then []
    else if ReportsStage(before, events, n) then RemoveStage(stages, events[n].payload.stage.stageId)
    else stages
  }

  lemma ReportIsStage(before: Option<string>, events: seq<Event>, k: nat)
    requires k < |events|
    ensures ReportsStage(before, events, k) ==> events[k].payload.ArtifactAdmissionStage?
  {
  }

  lemma StagesLeftOf(before: Option<string>, events: seq<Event>, a: seq<Stage>, b: seq<Stage>)
    requires events != []
    ensures StagesLeft(before, events, a + b) == StagesLeft(before, events, a) + StagesLeft(before, events, b)
  {
    hide ReportsStage;
    var n := |events| - 1;
    ReportIsStage(before, events, n);
    if ReportsStage(before, events, n) { RemoveStageFrom(a, b, events[n].payload.stage.stageId); }
  }

  lemma {:induction false} LastingStep(stages: seq<Stage>, before: Option<string>, events: seq<Event>)
    requires events != []
    ensures LastingStages(stages, before, events)
            == StagesLeft(before, events, LastingStages(stages, before, events[..|events| - 1]))
  {
    if stages != [] {
      var n := |events| - 1;
      LastingStep(stages[1..], before, events);
      StageLastsStep(before, events, 0, stages[0].stageId);
      hide ReportsStage, StageLasts;
      ReportIsStage(before, events, n);
      var kept := if StageLasts(before, events[..n], 0, stages[0].stageId) then [stages[0]] else [];
      StagesLeftOf(before, events, kept, LastingStages(stages[1..], before, events[..n]));
    }
  }

  lemma ReportedAtStep(before: Option<string>, events: seq<Event>, k: nat)
    requires k < |events| - 1
    ensures ReportedAt(before, events, k) == StagesLeft(before, events, ReportedAt(before, events[..|events| - 1], k))
  {
    hide ReportsStage, StageLasts;
    var n := |events| - 1;
    ReportsStagePrefix(before, events, n, k);
    ReportIsStage(before, events, k);
    ReportIsStage(before, events, n);
    assert events[..n][k] == events[k];
    if ReportsStage(before, events, k) {
      var stage := events[k].payload.stage;
      StageLastsStep(before, events, k + 1, stage.stageId);
      assert forall stageId ::
        RemoveStage([stage], stageId) == (if stage.stageId == stageId then [] else [stage]) + RemoveStage([], stageId);
    }
  }

  lemma {:induction false} ReportedStep(before: Option<string>, events: seq<Event>, n: nat)
    requires n < |events|
    ensures ReportedStages(before, events, n)
            == StagesLeft(before, events, ReportedStages(before, events[..|events| - 1], n))
  {
    hide ReportedAt;
    if n > 0 {
      var init := events[..|events| - 1];
      ReportedStep(before, events, n - 1);
      ReportedAtStep(before, events, n - 1);
      StagesLeftOf(before, events, ReportedStages(before, init, n - 1), ReportedAt(before, init, n - 1));
    }
  }

  lemma StagesStep(report: Report, before: Option<string>, events: seq<Event>)
    requires events != [] && AdmissionId(report) == AdmittedId(before, events[..|events| - 1])
    ensures var n := |events| - 1;
            var after := NextReport(report, events[n].payload);
            && AdmissionId(after) == AdmittedId(before, events)
            && Stages(after) == StagesLeft(before, events, Stages(report))
                                + if ReportsStage(before, events, n) then [events[n].payload.stage] else []
  {
    hide AdmittedId;
    AdmittedIdStep(before, events);
  }

  lemma AdmittedIdStep(before: Option<string>, events: seq<Event>)
    requires events != []
    ensures var payload := events[|events| - 1].payload;
            AdmittedId(before, events)
            == if payload.ArtifactAdmissionStarted? || payload.ArtifactAccepted? || payload.ArtifactRejected?
               then Some(payload.admissionId) else AdmittedId(before, events[..|events| - 1])
  {
  }

  /**
   * The stages shown are those of the current admission: each stage's last report since the admission
   * started, in the order of those reports; a report for another admission shows nothing.
   */
  lemma {:induction false} StagesAreTheLastReports(msg: ChatMessage, events: seq<Event>)
    requires msg.agent.Some?
    ensures var report := msg.agent.value.report;
            var after := Fold(msg, events).agent.value.report;
            && AdmissionId(after) == AdmittedId(AdmissionId(report), events)
            && Stages(after) == LastingStages(Stages(report), AdmissionId(report), events)
                                + ReportedStages(AdmissionId(report), events, |events|)
  {
    hide NextReport, NextTrace, NextConfirms, NextPresentation, NextStatus, NextPins, ReportsStage, Stages, AdmissionId,
         StageLasts, AdmittedId, LastingStages, ReportedStages, StagesLeft;
    var report := msg.agent.value.report;
    var before := AdmissionId(report);
    if events == [] {
      NothingStaged(Stages(report), before);
    } else {
      var n := |events| - 1;
      var init := events[..n];
      StagesAreTheLastReports(msg, init);
      StagesStep(Fold(msg, init).agent.value.report, before, events);
      LastingStep(Stages(report), before, events);
      ReportedStep(before, events, n);
      LastReported(before, events);
      StagesLeftOf(before, events, LastingStages(Stages(report), before, init), ReportedStages(before, init, n));
    }
  }

  lemma LastReported(before: Option<string>, events: seq<Event>)
    requires events != []
    ensures var n := |events| - 1;
            ReportedStages(before, events, |events|)
            == ReportedStages(before, events, n)
               + if ReportsStage(before, events, n) then [events[n].payload.stage] else []
  {
  }

  lemma {:induction false} NothingStaged(stages: seq<Stage>, before: Option<string>)
    ensures LastingStages(stages, before, []) == stages && ReportedStages(before, [], 0) == []
    ensures AdmittedId(before, []) == before
  {
    if stages != [] {
      NothingStaged(stages[1..], before);
    }
  }

  // ---------------------------------------------------------------------------
  // Identity
  // ---------------------------------------------------------------------------

  predicate StartsTurn(payload: Payload) {
    payload.TurnStarted?
  }

  /** The session of the last start event is pinned; the other four pins never change. */
  ghost predicate PinsStand(before: Pins, after: Pins, events: seq<Event>) {
    && after.admittedContextFingerprint == before.admittedContextFingerprint
    && after.runtimeId == before.runtimeId && after.taskId == before.taskId
    && after.workspaceId == before.workspaceId
    && (Count(events, StartsTurn) == 0 ==> after == before)
    && (forall k :: 0 <= k < |events| && StartsTurn(events[k].payload) && Count(events[k + 1..], StartsTurn) == 0 ==>
          && after.mcpSessionId == Some(events[k].scope.mcpSessionId)
          && after.subjectScopeHash == Some(events[k].scope.subjectScopeHash)
          && after.runtimeSessionId == Some(events[k].scope.runtimeSessionId))
  }

  function Ids(events: seq<Event>): (r: seq<string>) {
    seq(|events|, i requires 0 <= i < |events| => events[i].eventId)
  }

  lemma PinsStep(before: Pins, mid: Pins, events: seq<Event>)
    requires events != [] && PinsStand(before, mid, events[..|events| - 1])
    ensures PinsStand(before, NextPins(mid, events[|events| - 1]), events)
  {
    var n := |events| - 1;
    forall k | 0 <= k < n && StartsTurn(events[k].payload) && Count(events[k + 1..], StartsTurn) == 0
      ensures !StartsTurn(events[n].payload) && Count(events[..n][k + 1..], StartsTurn) == 0
    {
      var later := events[k + 1..];
      assert later[..|later| - 1] == events[..n][k + 1..];
    }
    assert forall k :: 0 <= k < n ==> events[..n][k] == events[k];
  }

  /** The turn remembers the last 256 event ids and pins the session of the last start. */
  lemma {:induction false} IdentityStands(msg: ChatMessage, events: seq<Event>)
    requires msg.agent.Some?
    ensures var before, after := msg.agent.value, Fold(msg, events).agent.value;
            && after.turnId == before.turnId
            && PinsStand(before.pins, after.pins, events)
            && (events != [] ==> after.lastSeq == events[|events| - 1].sequence)
            && (events == [] ==> after.seenEventIds == before.seenEventIds)
            && (events != [] ==> IsEndOf(after.seenEventIds, before.seenEventIds + Ids(events), 256))
  {
    hide NextReport, NextTrace, NextConfirms, NextPresentation, NextStatus, NextPins, PinsStand, IsEndOf;
    var before := msg.agent.value;
    if events == [] {
      NothingPinned(before.pins);
    } else {
      var n := |events| - 1;
      var init := events[..n];
      IdentityStands(msg, init);
      var mid, after := Fold(msg, init).agent.value, Fold(msg, events).agent.value;
      PinsStep(before.pins, mid.pins, events);
      TailIsEnd(mid.seenEventIds + [events[n].eventId], 256);
      assert Ids(init) + [events[n].eventId] == Ids(events);
      assert before.seenEventIds + Ids([]) == before.seenEventIds;
      EndOfEnd(before.seenEventIds + Ids(init), mid.seenEventIds, [events[n].eventId], after.seenEventIds, 256);
      assert before.seenEventIds + Ids(init) + [events[n].eventId] == before.seenEventIds + Ids(events);
    }
  }

  lemma NothingPinned(pins: Pins)
    ensures PinsStand(pins, pins, [])
  {
  }

  // ---------------------------------------------------------------------------
  // Deliveries
  // ---------------------------------------------------------------------------

  /**
   * However the events of a log are delivered, short of an overflow, the turn shows what the payloads
   * of the longest contiguous prefix received say.
   */
  lemma DeliveriesShowThePrefix(start: ChatMessage, log: seq<Event>, scope: EventScope, arrivals: seq<Arrival>)
    requires LogFor(start, log, scope) && From(arrivals, log) && NeverOverflows(arrivals)
    ensures var msg := Run(start, log, arrivals);
            var end := PrefixEnd(Received(arrivals), 0);
            && msg.agent.Some? && end <= |log|
            && (Silent(log[..end], 0, ReplacingText) ==>
                  Extends(start.content, msg.content, log[..end], WrittenText))
            && ReportsStand(start.agent.value.report, msg.agent.value.report, log[..end])
            && TraceShows(start.agent.value.trace, msg.agent.value.trace, log[..end])
            && ChangesShow(start.agent.value.report.fileChanges, msg.agent.value.report.fileChanges, log[..end])
            && StatusStands(start.agent.value.report.candidate, start.agent.value.status, msg.agent.value.status,
                            log[..end])
  {
    hide Run, Fold, Silent, Extends, ReportsStand, TraceShows, ChangesShow, StatusStands, LastWins, LogFor;
    ArrivalsFoldThePrefix(start, log, scope, arrivals);
    var prefix := log[..PrefixEnd(Received(arrivals), 0)];
    FreshIsBound(start, log, scope);
    ContentIsTheText(Visible(start), prefix);
    LastReportsStand(Visible(start), prefix);
    CallsAndChangesShow(Visible(start), prefix);
    LastEndingStands(Visible(start), prefix);
  }

  lemma FreshIsBound(start: ChatMessage, log: seq<Event>, scope: EventScope)
    requires LogFor(start, log, scope)
    ensures start.agent.Some?
  {
  }
}
