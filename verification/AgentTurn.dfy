/**
 * The browser's view of one agent turn: the state a sequenced event stream is folded
 * into, the reorder buffer in front of that fold, and the permission ceremony the user
 * interface runs on the same confirm records.
 *
 * Free-form payload records (tool arguments, diffs, usage reports) are opaque strings:
 * the reducer copies them and never looks inside.
 */
module AgentTurn {
  import opened Options

  const TEXT_MAX_CHARS := 32768
  const REORDER_BUFFER_MAX := 64
  const ID_HISTORY_MAX := 256
  const GAP_TIMEOUT_MS := 5000

  // ---------------------------------------------------------------------------
  // Events
  // ---------------------------------------------------------------------------

  datatype ExecutionState = Succeeded | ExecutedFailed | NotExecuted

  datatype Outcome = Outcome(code: string, executionState: ExecutionState, terminalReason: Option<string>,
                             presentation: string, diagnostic: Option<string>)

  datatype PermissionScope = PermissionScope(mcpSessionId: string, taskId: string, turnId: string,
                                             workspaceId: string, requestId: string, capability: string,
                                             expectedPayloadHash: string)

  /** The identity every event of a turn carries and the turn pins. */
  datatype EventScope = EventScope(admittedContextFingerprint: string, runtimeId: string, taskId: string,
                                   workspaceId: string, mcpSessionId: string, subjectScopeHash: string,
                                   runtimeSessionId: string)

  datatype Verdict = Approved | Declined | Expired | Cancelled

  type UserVerdict = v: Verdict | v == Approved || v == Declined witness Approved

  datatype Stage = Stage(stageId: string, content: string)

  datatype Payload =
    | TurnStarted
    | TextDelta(text: string)
    | ThoughtDelta(text: string)
    | PlanUpdated(items: seq<string>)
    | ToolStarted(callId: string, toolName: string, arguments: string)
    | ToolProgress(callId: string)
    | ToolCompleted(callId: string, outcome: Outcome)
    | ToolVisualization(kind: string, guided: string)
    | PermissionRequested(scope: PermissionScope, operation: string, details: string, expiresAt: Option<int>)
    | PermissionResolved(scope: PermissionScope, decision: Verdict)
    | GovernanceReported(report: string)
    | FileChangeProposed(changeId: string, relativePath: string, diff: string)
    | FileChangeApplied(changeId: string, contentHash: string)
    | UsageReported(report: string)
    | CandidateArtifactReady(candidate: string)
    | ArtifactAdmissionStarted(admissionId: string)
    | ArtifactAdmissionStage(admissionId: string, stage: Stage)
    | ArtifactAccepted(admissionId: string, artifactId: string, artifactHash: string)
    | ArtifactRejected(admissionId: string, message: string)
    | TurnFailed(failureStage: string, outcome: Outcome)
    | TurnCancelled(outcome: Outcome)
    | TurnCompleted(text: string)

  datatype Event = Event(eventId: string, turnId: string, sequence: nat, scope: EventScope, payload: Payload)

  // ---------------------------------------------------------------------------
  // Turn state
  // ---------------------------------------------------------------------------

  datatype Phase =
    | Pending
    | CheckingAuthenticator
    | BootstrappingAuthenticator
    | OriginIneligible
    | AuthenticatorUnavailable
    | AwaitingUserVerification
    | Submitting
    | Final(verdict: Verdict)

  type NonTerminalPhase = p: Phase | !p.Final? witness Pending
  type FailurePhase = p: Phase | p.Pending? || p.OriginIneligible? || p.AuthenticatorUnavailable? witness Pending

  predicate IsTerminalConfirmPhase(phase: Phase) {
    phase.Final?
  }

  predicate IsConfirmDecisionInFlight(phase: Phase) {
    phase.CheckingAuthenticator? || phase.BootstrappingAuthenticator? || phase.AwaitingUserVerification?
    || phase.Submitting?
  }

  datatype ConfirmError = ConfirmError(code: string, message: string)

  datatype Confirm = Confirm(callId: Option<string>, scope: PermissionScope, operation: string, details: string,
                             expiresAt: Option<int>, phase: Phase, attemptedVerdict: Option<UserVerdict>,
                             acknowledgedVerdict: Option<UserVerdict>, authorityVerdict: Option<Verdict>,
                             error: Option<ConfirmError>)

  datatype TraceStatus = Running | Done | Error | CancelledCall

  datatype TraceEntry = TraceEntry(callId: string, toolName: string, arguments: string, status: TraceStatus,
                                   outcome: Option<Outcome>)

  /** What a presentation item stands for; an item is a key stamped with a sequence. */
  datatype ItemKey = ToolKey(callId: string) | ConfirmKey(requestId: string) | SummaryKey

  datatype Item = Item(key: ItemKey, sequence: nat)

  datatype FileChange = FileChange(changeId: string, relativePath: string, applied: bool, diff: string,
                                   contentHash: Option<string>)

  datatype AdmissionStatus = AdmissionRunning | Accepted(artifactId: string, artifactHash: string)
                           | Rejected(message: string)

  datatype Admission = Admission(admissionId: string, status: AdmissionStatus, stages: seq<Stage>)

  datatype TurnStatus = Streaming | Cancelling | Completed | TurnWasCancelled | Failed

  /** The scope fields a turn has pinned so far. */
  datatype Pins = Pins(admittedContextFingerprint: Option<string>, runtimeId: Option<string>, taskId: Option<string>,
                       workspaceId: Option<string>, mcpSessionId: Option<string>, subjectScopeHash: Option<string>,
                       runtimeSessionId: Option<string>)

  /** The parts of a turn each event overwrites or extends on their own. */
  datatype Report = Report(thoughts: string, plan: seq<string>, fileChanges: seq<FileChange>,
                           inferenceUsage: Option<string>, governanceAttribution: Option<string>,
                           candidate: Option<string>, artifactAdmission: Option<Admission>,
                           terminalOutcome: Option<Outcome>, errorStage: Option<string>)

  /** The sequence of the last folded event, -1 before the first. */
  type LastSeq = i: int | i >= -1 witness -1

  datatype TurnState = TurnState(
    turnId: string, status: TurnStatus, lastSeq: LastSeq, pins: Pins,
    seenEventIds: seq<string>, pendingEvents: map<nat, Event>, gapStartedAt: Option<int>,
    trace: seq<TraceEntry>, confirms: seq<Confirm>, presentation: seq<Item>,
    report: Report, protocolError: Option<string>)

  datatype ChatMessage = ChatMessage(content: string, visualization: Option<(string, string)>,
                                     agent: Option<TurnState>)

  /** The turn a message shows before its handle is known; the selection may pin runtime, task and workspace. */
  function PendingTurn(runtimeId: Option<string>, taskId: Option<string>, workspaceId: Option<string>): TurnState {
    TurnState("", Streaming, -1, Pins(None, runtimeId, taskId, workspaceId, None, None, None), [], map[], None,
              [], [], [], Report("", [], [], None, None, None, None, None, None), None)
  }

  function BoundTurn(state: TurnState, turnId: string, fingerprint: string): TurnState {
    state.(turnId := turnId, pins := state.pins.(admittedContextFingerprint := Some(fingerprint)))
  }

  // ---------------------------------------------------------------------------
  // Folding one in-order event
  // ---------------------------------------------------------------------------

  /** `text.slice(-n)`. */
  function Tail<T>(s: seq<T>, n: nat): seq<T> {
    if |s| <= n then s else s[|s| - n..]
  }

  function PresentationOnlyOutcome(outcome: Outcome): Outcome {
    outcome.(terminalReason := if outcome.executionState.Succeeded? then None else outcome.terminalReason,
             diagnostic := None)
  }

  predicate SamePermissionScope(left: PermissionScope, right: PermissionScope) {
    left == right
  }

  function ReconcileAuthorityVerdict(confirm: Confirm): Confirm {
    match confirm.authorityVerdict
    case None => confirm
    case Some(verdict) =>
      if verdict == Expired || verdict == Cancelled || confirm.acknowledgedVerdict == Some(verdict) then
        confirm.(phase := Final(verdict), error := None)
      else confirm
  }

  /** The items whose key is not `key`, in order. */
  function RemoveKey(items: seq<Item>, key: ItemKey): seq<Item> {
    if items == [] then []
    else if items[0].key == key then RemoveKey(items[1..], key)
    else [items[0]] + RemoveKey(items[1..], key)
  }

  predicate Governed(confirms: seq<Confirm>, callId: string) {
    exists i :: 0 <= i < |confirms| && confirms[i].callId == Some(callId)
  }

  /** The latest traced call of `operation` that no confirm governs yet. */
  function GovernedCall(trace: seq<TraceEntry>, confirms: seq<Confirm>, operation: string): (r: Option<string>)
    ensures r.Some? ==> !Governed(confirms, r.value) && exists i :: 0 <= i < |trace| && trace[i].callId == r.value
  {
    if trace == [] then None
    else
      var entry := trace[|trace| - 1];
      if entry.toolName == operation && !Governed(confirms, entry.callId) then Some(entry.callId)
      else GovernedCall(trace[..|trace| - 1], confirms, operation)
  }

  function CompleteCall(entry: TraceEntry, callId: string, outcome: Outcome): TraceEntry {
    if entry.callId == callId then
      entry.(status := match outcome.executionState
                       case ExecutedFailed => Error
                       case NotExecuted => CancelledCall
                       case Succeeded => Done,
             outcome := Some(PresentationOnlyOutcome(outcome)))
    else entry
  }

  function SettleGovernedConfirm(confirm: Confirm, callId: string): Confirm {
    if confirm.callId != Some(callId) || confirm.authorityVerdict.None? then confirm
    else confirm.(phase := Final(confirm.authorityVerdict.value), error := None)
  }

  function ResolveConfirm(confirm: Confirm, scope: PermissionScope, decision: Verdict): Confirm {
    if !SamePermissionScope(confirm.scope, scope) then confirm
    else ReconcileAuthorityVerdict(confirm.(authorityVerdict := Some(decision)))
  }

  function CancelConfirm(confirm: Confirm): Confirm {
    if IsTerminalConfirmPhase(confirm.phase) then confirm
    else confirm.(phase := Final(Cancelled), authorityVerdict := Some(Cancelled))
  }

  function MapSeq<T, U>(s: seq<T>, f: T -> U): (r: seq<U>)
    ensures |r| == |s| && forall i :: 0 <= i < |s| ==> r[i] == f(s[i])
  {
    seq(|s|, i requires 0 <= i < |s| => f(s[i]))
  }

  function NextPins(pins: Pins, event: Event): Pins {
    match event.payload
    case TurnStarted =>
      pins.(mcpSessionId := Some(event.scope.mcpSessionId), subjectScopeHash := Some(event.scope.subjectScopeHash),
            runtimeSessionId := Some(event.scope.runtimeSessionId))
    case _ => pins
  }

  function NextTrace(trace: seq<TraceEntry>, payload: Payload): seq<TraceEntry> {
    match payload
    case ToolStarted(callId, toolName, arguments) =>
      trace + [TraceEntry(callId, toolName, arguments, Running, None)]
    case ToolCompleted(callId, outcome) => MapSeq(trace, entry => CompleteCall(entry, callId, outcome))
    case _ => trace
  }

  function NextConfirms(confirms: seq<Confirm>, trace: seq<TraceEntry>, payload: Payload): seq<Confirm> {
    match payload
    case ToolCompleted(callId, _) => MapSeq(confirms, confirm => SettleGovernedConfirm(confirm, callId))
    case PermissionRequested(scope, operation, details, expiresAt) =>
      confirms + [Confirm(GovernedCall(trace, confirms, operation), scope, operation, details, expiresAt, Pending,
                          None, None, None, None)]
    case PermissionResolved(scope, decision) => MapSeq(confirms, confirm => ResolveConfirm(confirm, scope, decision))
    case TurnCancelled(_) => MapSeq(confirms, CancelConfirm)
    case _ => confirms
  }

  function NextPresentation(items: seq<Item>, trace: seq<TraceEntry>, confirms: seq<Confirm>, event: Event)
    : seq<Item>
  {
    match event.payload
    case TextDelta(_) => RemoveKey(items, SummaryKey) + [Item(SummaryKey, event.sequence)]
    case TurnCompleted(_) => RemoveKey(items, SummaryKey) + [Item(SummaryKey, event.sequence)]
    case ToolStarted(callId, _, _) => items + [Item(ToolKey(callId), event.sequence)]
    case PermissionRequested(scope, operation, _, _) =>
      var governed := GovernedCall(trace, confirms, operation);
      if governed.None? then items + [Item(ConfirmKey(scope.requestId), event.sequence)]
      else
        RemoveKey(items, ToolKey(governed.value))
        + [Item(ConfirmKey(scope.requestId), event.sequence), Item(ToolKey(governed.value), event.sequence)]
    case _ => items
  }

  function RemoveStage(stages: seq<Stage>, stageId: string): seq<Stage> {
    if stages == [] then []
    else (if stages[0].stageId == stageId then [] else [stages[0]]) + RemoveStage(stages[1..], stageId)
  }

  function Stages(report: Report): seq<Stage> {
    if report.artifactAdmission.None? then [] else report.artifactAdmission.value.stages
  }

  function FirstOutcome(report: Report, outcome: Outcome): Option<Outcome> {
    if report.terminalOutcome.Some? then report.terminalOutcome else Some(PresentationOnlyOutcome(outcome))
  }

  function ApplyFileChange(change: FileChange, changeId: string, contentHash: string): FileChange {
    if change.changeId == changeId then change.(applied := true, contentHash := Some(contentHash)) else change
  }

  function NextReport(report: Report, payload: Payload): Report {
    match payload
    case ThoughtDelta(text) => report.(thoughts := Tail(report.thoughts + text, TEXT_MAX_CHARS))
    case PlanUpdated(items) => report.(plan := items)
    case ToolCompleted(_, outcome) =>
      if outcome.executionState.Succeeded? then report
      else report.(terminalOutcome := Some(PresentationOnlyOutcome(outcome)))
    case GovernanceReported(text) => report.(governanceAttribution := Some(text))
    case FileChangeProposed(changeId, relativePath, diff) =>
      report.(fileChanges := report.fileChanges + [FileChange(changeId, relativePath, false, diff, None)])
    case FileChangeApplied(changeId, contentHash) =>
      report.(fileChanges := MapSeq(report.fileChanges, change => ApplyFileChange(change, changeId, contentHash)))
    case UsageReported(text) => report.(inferenceUsage := Some(text))
    case CandidateArtifactReady(candidate) => report.(candidate := Some(candidate))
    case ArtifactAdmissionStarted(admissionId) =>
      report.(artifactAdmission := Some(Admission(admissionId, AdmissionRunning, [])))
    case ArtifactAdmissionStage(admissionId, stage) =>
      if report.artifactAdmission.None? || report.artifactAdmission.value.admissionId != admissionId then report
      else
        var current := report.artifactAdmission.value;
        report.(artifactAdmission := Some(current.(stages := RemoveStage(current.stages, stage.stageId) + [stage])))
    case ArtifactAccepted(admissionId, artifactId, artifactHash) =>
      report.(artifactAdmission := Some(Admission(admissionId, Accepted(artifactId, artifactHash), Stages(report))))
    case ArtifactRejected(admissionId, message) =>
      report.(artifactAdmission := Some(Admission(admissionId, Rejected(message), Stages(report))))
    case TurnFailed(stage, outcome) =>
      report.(terminalOutcome := FirstOutcome(report, outcome), errorStage := Some(stage))
    case TurnCancelled(outcome) => report.(terminalOutcome := FirstOutcome(report, outcome))
    case _ => report
  }

  function NextStatus(status: TurnStatus, report: Report, payload: Payload): TurnStatus {
    match payload
    case ArtifactAccepted(_, _, _) => Completed
    case ArtifactRejected(_, _) => Failed
    case TurnFailed(_, _) => Failed
    case TurnCancelled(_) => TurnWasCancelled
    case TurnCompleted(_) => if report.candidate.None? then Completed else status
    case _ => status
  }

  function NextContent(content: string, payload: Payload): string {
    match payload
    case TextDelta(text) => Tail(content + text, TEXT_MAX_CHARS)
    case TurnCompleted(text) => if text != "" && text != content then text else content
    case _ => content
  }

  /** Fold one event into a message whose turn is bound, field by field. */
  function ReduceOrderedEvent(msg: ChatMessage, event: Event): (r: ChatMessage)
    requires msg.agent.Some?
    ensures r.agent.Some?
    ensures r.agent.value.lastSeq == event.sequence && r.agent.value.turnId == msg.agent.value.turnId
    ensures r.agent.value.pendingEvents == msg.agent.value.pendingEvents
    ensures r.agent.value.gapStartedAt == msg.agent.value.gapStartedAt
    ensures r.agent.value.protocolError == msg.agent.value.protocolError
  {
    var agent := msg.agent.value;
    ChatMessage(
      NextContent(msg.content, event.payload),
      if event.payload.ToolVisualization? then Some((event.payload.kind, event.payload.guided)) else msg.visualization,
      Some(agent.(lastSeq := event.sequence,
                  seenEventIds := Tail(agent.seenEventIds + [event.eventId], ID_HISTORY_MAX),
                  status := NextStatus(agent.status, agent.report, event.payload),
                  pins := NextPins(agent.pins, event),
                  trace := NextTrace(agent.trace, event.payload),
                  confirms := NextConfirms(agent.confirms, agent.trace, event.payload),
                  presentation := NextPresentation(agent.presentation, agent.trace, agent.confirms, event),
                  report := NextReport(agent.report, event.payload))))
  }

  // ---------------------------------------------------------------------------
  // The reorder buffer
  // ---------------------------------------------------------------------------

  /** Folding leaves the buffer and its clock alone. */
  lemma SameBuffer(msg: ChatMessage, event: Event)
    requires msg.agent.Some?
    ensures var next := ReduceOrderedEvent(msg, event);
            && next.agent.Some? && next.agent.value.pendingEvents == msg.agent.value.pendingEvents
            && next.agent.value.gapStartedAt == msg.agent.value.gapStartedAt
  {
  }

  predicate Disagrees(pinned: Option<string>, actual: string) {
    pinned.Some? && pinned.value != actual
  }

  predicate WrongScope(agent: TurnState, event: Event) {
    || Disagrees(agent.pins.admittedContextFingerprint, event.scope.admittedContextFingerprint)
    || Disagrees(agent.pins.runtimeId, event.scope.runtimeId)
    || Disagrees(agent.pins.taskId, event.scope.taskId)
    || Disagrees(agent.pins.workspaceId, event.scope.workspaceId)
    || Disagrees(agent.pins.mcpSessionId, event.scope.mcpSessionId)
    || Disagrees(agent.pins.subjectScopeHash, event.scope.subjectScopeHash)
    || Disagrees(agent.pins.runtimeSessionId, event.scope.runtimeSessionId)
  }

  function FailProtocol(msg: ChatMessage, code: string): ChatMessage
    requires msg.agent.Some?
  {
    msg.(agent := Some(msg.agent.value.(status := Failed, protocolError := Some(code))))
  }

  function WithoutPending(msg: ChatMessage, sequence: nat): ChatMessage
    requires msg.agent.Some?
  {
    msg.(agent := Some(msg.agent.value.(pendingEvents := msg.agent.value.pendingEvents - {sequence})))
  }

  /** Fold every buffered event that has become contiguous. */
  function Drain(msg: ChatMessage): (r: ChatMessage)
    requires msg.agent.Some?
    ensures r.agent.Some?
    decreases |msg.agent.value.pendingEvents|
  {
    var s := msg.agent.value.lastSeq + 1;
    if s !in msg.agent.value.pendingEvents then msg
    else
      assert (msg.agent.value.pendingEvents - {s}).Keys == msg.agent.value.pendingEvents.Keys - {s};
      Drain(ReduceOrderedEvent(WithoutPending(msg, s), msg.agent.value.pendingEvents[s]))
  }

  function ClearGap(msg: ChatMessage): ChatMessage
    requires msg.agent.Some?
  {
    if msg.agent.value.pendingEvents == map[] then msg.(agent := Some(msg.agent.value.(gapStartedAt := None))) else msg
  }

  /** What one arriving event does to the message. */
  function Apply(msg: ChatMessage, event: Event, receivedAt: int): ChatMessage {
    if msg.agent.None? || msg.agent.value.turnId != event.turnId then msg
    else
      var agent := msg.agent.value;
      if WrongScope(agent, event) then FailProtocol(msg, "protocol_wrong_scope")
      else if event.eventId in agent.seenEventIds || event.sequence <= agent.lastSeq then msg
      else if event.sequence > agent.lastSeq + 1 then
        if |agent.pendingEvents| >= REORDER_BUFFER_MAX then FailProtocol(msg, "protocol_buffer_exceeded")
        else
          msg.(agent := Some(agent.(pendingEvents := agent.pendingEvents[event.sequence := event],
                                    gapStartedAt := Some(agent.gapStartedAt.GetOr(receivedAt)))))
      else ClearGap(Drain(ReduceOrderedEvent(msg, event)))
  }

  /** The arrival handler itself, with its draining loop, meets `Apply`. */
  method ApplyAgentEvent(msg: ChatMessage, event: Event, receivedAt: int) returns (r: ChatMessage)
    ensures r == Apply(msg, event, receivedAt)
  {
    if msg.agent.None? || msg.agent.value.turnId != event.turnId { return msg; }
    var agent := msg.agent.value;
    if WrongScope(agent, event) { return FailProtocol(msg, "protocol_wrong_scope"); }
    if event.eventId in agent.seenEventIds || event.sequence <= agent.lastSeq { return msg; }
    if event.sequence > agent.lastSeq + 1 {
      if |agent.pendingEvents| >= REORDER_BUFFER_MAX { return FailProtocol(msg, "protocol_buffer_exceeded"); }
      return msg.(agent := Some(agent.(pendingEvents := agent.pendingEvents[event.sequence := event],
                                       gapStartedAt := Some(agent.gapStartedAt.GetOr(receivedAt)))));
    }
    var reduced := ReduceOrderedEvent(msg, event);
    while true
      invariant reduced.agent.Some?
      invariant Drain(reduced) == Drain(ReduceOrderedEvent(msg, event))
      decreases |reduced.agent.value.pendingEvents|
    {
      var nextSequence := reduced.agent.value.lastSeq + 1;
      if nextSequence !in reduced.agent.value.pendingEvents { break; }
      var buffered := reduced.agent.value.pendingEvents[nextSequence];
      ghost var before := reduced.agent.value.pendingEvents;
      reduced := WithoutPending(reduced, nextSequence);
      assert reduced.agent.value.pendingEvents.Keys == before.Keys - {nextSequence};
      reduced := ReduceOrderedEvent(reduced, buffered);
    }
    if reduced.agent.value.pendingEvents == map[] {
      reduced := reduced.(agent := Some(reduced.agent.value.(gapStartedAt := None)));
    }
    r := reduced;
  }

  /** The gap watchdog. A gap stamped at instant zero counts as no gap, as in the source. */
  function ExpireGap(msg: ChatMessage, now: int): ChatMessage {
    if msg.agent.None? || msg.agent.value.gapStartedAt.GetOr(0) == 0
       || now - msg.agent.value.gapStartedAt.value < GAP_TIMEOUT_MS then msg
    else FailProtocol(msg, "protocol_gap_timeout")
  }

  // ---------------------------------------------------------------------------
  // The permission ceremony
  // ---------------------------------------------------------------------------

  function UpdateConfirm(msg: ChatMessage, requestId: string, update: Confirm -> Confirm): ChatMessage {
    if msg.agent.None? then msg
    else
      msg.(agent := Some(msg.agent.value.(confirms := MapSeq(msg.agent.value.confirms, (c: Confirm) =>
        if c.scope.requestId == requestId then update(c) else c))))
  }

  function Begin(confirm: Confirm, verdict: UserVerdict, now: int): Confirm {
    if IsTerminalConfirmPhase(confirm.phase) || IsConfirmDecisionInFlight(confirm.phase) then confirm
    else if confirm.expiresAt.Some? && confirm.expiresAt.value <= now then
      confirm.(phase := Pending, error := Some(ConfirmError("permission_expired",
        "The permission request expired. Wait for authority reconciliation.")))
    else
      confirm.(phase := CheckingAuthenticator, attemptedVerdict := Some(verdict), acknowledgedVerdict := None,
               error := None)
  }

  function SetPhase(confirm: Confirm, phase: NonTerminalPhase): Confirm {
    if IsTerminalConfirmPhase(confirm.phase) then confirm else confirm.(phase := phase, error := None)
  }

  function Fail(confirm: Confirm, phase: FailurePhase, error: ConfirmError): Confirm {
    if IsTerminalConfirmPhase(confirm.phase) then confirm
    else confirm.(phase := phase, error := Some(error), acknowledgedVerdict := None)
  }

  function Acknowledge(confirm: Confirm, verdict: UserVerdict): Confirm {
    if IsTerminalConfirmPhase(confirm.phase) || confirm.attemptedVerdict != Some(verdict) then confirm
    else ReconcileAuthorityVerdict(confirm.(acknowledgedVerdict := Some(verdict), phase := Submitting))
  }

  function BeginConfirmDecision(msg: ChatMessage, requestId: string, verdict: UserVerdict, now: int): ChatMessage {
    UpdateConfirm(msg, requestId, confirm => Begin(confirm, verdict, now))
  }

  function SetConfirmPhase(msg: ChatMessage, requestId: string, phase: NonTerminalPhase): ChatMessage {
    UpdateConfirm(msg, requestId, confirm => SetPhase(confirm, phase))
  }

  function FailConfirmDecision(msg: ChatMessage, requestId: string, phase: FailurePhase, error: ConfirmError)
    : ChatMessage
  {
    UpdateConfirm(msg, requestId, confirm => Fail(confirm, phase, error))
  }

  function AcknowledgeConfirmDecision(msg: ChatMessage, requestId: string, verdict: UserVerdict): ChatMessage {
    UpdateConfirm(msg, requestId, confirm => Acknowledge(confirm, verdict))
  }
}
