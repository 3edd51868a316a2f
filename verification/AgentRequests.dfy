/**
 * What a folded turn shows of its permission requests, read off the payloads alone, and the items
 * it presents for them and for its text.
 */
module AgentRequests {
  import opened Options
  import opened AgentTurn
  import opened AgentConfluence
  import opened AgentContent

  // ---------------------------------------------------------------------------
  // One confirm
  // ---------------------------------------------------------------------------

  function Decisions(scope: PermissionScope): Payload -> Option<Verdict> {
    (payload: Payload) =>
      if payload.PermissionResolved? && payload.scope == scope then Some(payload.decision) else None
  }

  function Cancellation(payload: Payload): Option<Verdict> {
    if payload.TurnCancelled? then Some(Cancelled) else None
  }

  function Endings(callId: Option<string>): Payload -> Option<Outcome> {
    (payload: Payload) =>
      if payload.ToolCompleted? && callId == Some(payload.callId) then Some(payload.outcome) else None
  }

  predicate SameRequest(before: Confirm, after: Confirm) {
    after == before.(phase := after.phase, authorityVerdict := after.authorityVerdict, error := after.error)
  }

  /** The last decision of the authority, in the presence of the calls' and the turn's own endings. */
  ghost predicate DecisionStands(before: Confirm, after: Confirm, events: seq<Event>, k: nat, decision: Verdict)
    requires k < |events|
  {
    && (decision == Expired || decision == Cancelled ==>
          after.authorityVerdict == Some(decision) && after.phase == Final(decision) && after.error.None?)
    && (Silent(events, k + 1, Cancellation) ==> after.authorityVerdict == Some(decision))
    && (Silent(events, k + 1, Cancellation)
        && (before.acknowledgedVerdict == Some(decision) || !Silent(events, k + 1, Endings(before.callId))) ==>
          after.phase == Final(decision) && after.error.None?)
  }

  /** A decision the user has not acknowledged and no call has consumed is not shown yet. */
  ghost predicate DecisionWaits(before: Confirm, after: Confirm, events: seq<Event>, k: nat, decision: Verdict)
    requires k < |events|
  {
    before.authorityVerdict.None? && before.acknowledgedVerdict != Some(decision)
    && (decision == Approved || decision == Declined)
    && Silent(events[..k], 0, Decisions(before.scope)) && Silent(events, 0, Cancellation)
    && Silent(events, k + 1, Endings(before.callId)) ==>
      after.phase == before.phase && after.error == before.error
  }

  /** What the events make of a confirm. */
  ghost predicate ConfirmStands(before: Confirm, after: Confirm, events: seq<Event>) {
    && SameRequest(before, after)
    && (forall k :: 0 <= k < |events| && Decisions(before.scope)(events[k].payload).Some?
                    && Silent(events, k + 1, Decisions(before.scope)) ==>
          && DecisionStands(before, after, events, k, Decisions(before.scope)(events[k].payload).value)
          && DecisionWaits(before, after, events, k, Decisions(before.scope)(events[k].payload).value))
    && (Silent(events, 0, Decisions(before.scope)) && before.authorityVerdict.None? ==>
          OnlyCancelled(before, after, events))
    && (before.phase.Final? || !Silent(events, 0, Cancellation) ==> after.phase.Final?)
  }

  /** Without a decision only the turn's cancellation ends a confirm. */
  ghost predicate OnlyCancelled(before: Confirm, after: Confirm, events: seq<Event>) {
    if Silent(events, 0, Cancellation) || before.phase.Final? then after == before
    else after.phase == Final(Cancelled) && after.authorityVerdict == Some(Cancelled)
  }

  function NextConfirm(confirm: Confirm, payload: Payload): Confirm {
    match payload
    case ToolCompleted(callId, _) => SettleGovernedConfirm(confirm, callId)
    case PermissionResolved(scope, decision) => ResolveConfirm(confirm, scope, decision)
    case TurnCancelled(_) => CancelConfirm(confirm)
    case _ => confirm
  }

  lemma NothingDecided(confirm: Confirm)
    ensures ConfirmStands(confirm, confirm, [])
  {
  }

  lemma ConfirmStandsStep(before: Confirm, mid: Confirm, events: seq<Event>)
    requires events != [] && ConfirmStands(before, mid, events[..|events| - 1])
    ensures ConfirmStands(before, NextConfirm(mid, events[|events| - 1].payload), events)
  {
    hide Silent;
    var n := |events| - 1;
    var init, payload := events[..n], events[n].payload;
    var after := NextConfirm(mid, payload);
    SilentStep(events, 0, Decisions(before.scope));
    SilentStep(events, 0, Cancellation);
    forall k | 0 <= k < |events| && Decisions(before.scope)(events[k].payload).Some?
               && Silent(events, k + 1, Decisions(before.scope))
      ensures DecisionStands(before, after, events, k, Decisions(before.scope)(events[k].payload).value)
      ensures DecisionWaits(before, after, events, k, Decisions(before.scope)(events[k].payload).value)
    {
      if k < n {
        SilentStep(events, k + 1, Decisions(before.scope));
        SilentStep(events, k + 1, Cancellation);
        SilentStep(events, k + 1, Endings(before.callId));
        assert init[k] == events[k] && init[..k] == events[..k];
      } else {
        SilentAtEnd(events, Endings(before.callId));
      }
    }
  }

  // ---------------------------------------------------------------------------
  // All confirms
  // ---------------------------------------------------------------------------

  predicate AsksPermission(payload: Payload) {
    payload.PermissionRequested?
  }

  /** The call a request governs is the latest one of that name that no earlier confirm governs, if any. */
  ghost predicate Governs(callId: Option<string>, trace: seq<TraceEntry>, confirms: seq<Confirm>, operation: string) {
    match callId
    case None => forall i :: 0 <= i < |trace| && trace[i].toolName == operation ==> Governed(confirms, trace[i].callId)
    case Some(call) =>
      exists i :: 0 <= i < |trace| && LatestFree(i, call, trace, confirms, operation)
  }

  ghost predicate LatestFree(i: nat, call: string, trace: seq<TraceEntry>, confirms: seq<Confirm>, operation: string)
    requires i < |trace|
  {
    && trace[i].callId == call && trace[i].toolName == operation && !Governed(confirms, call)
    && forall j :: i < j < |trace| && trace[j].toolName == operation ==> Governed(confirms, trace[j].callId)
  }

  lemma {:induction false} GovernedCallIsLatest(trace: seq<TraceEntry>, confirms: seq<Confirm>, operation: string)
    ensures Governs(GovernedCall(trace, confirms, operation), trace, confirms, operation)
  {
    hide Governed;
    var call := GovernedCall(trace, confirms, operation);
    if trace != [] {
      var n := |trace| - 1;
      if trace[n].toolName == operation && !Governed(confirms, trace[n].callId) {
        assert LatestFree(n, trace[n].callId, trace, confirms, operation);
      } else {
        GovernedCallIsLatest(trace[..n], confirms, operation);
        if call.Some? {
          var i :| 0 <= i < n && LatestFree(i, call.value, trace[..n], confirms, operation);
          LatestStaysLatest(i, call.value, trace, confirms, operation);
        } else {
          assert forall j :: 0 <= j < n ==> trace[..n][j] == trace[j];
        }
      }
    }
  }

  /** A later call that is no candidate changes nothing. */
  lemma LatestStaysLatest(i: nat, call: string, trace: seq<TraceEntry>, confirms: seq<Confirm>, operation: string)
    requires i < |trace| - 1 && LatestFree(i, call, trace[..|trace| - 1], confirms, operation)
    requires var last := trace[|trace| - 1]; last.toolName == operation ==> Governed(confirms, last.callId)
    ensures LatestFree(i, call, trace, confirms, operation)
  {
    hide Governed;
    assert forall j :: i < j < |trace| - 1 ==> trace[..|trace| - 1][j] == trace[j];
  }

  /** The confirm a request opens. */
  ghost predicate Opens(payload: Payload, confirm: Confirm)
    requires payload.PermissionRequested?
  {
    && confirm.scope == payload.scope && confirm.operation == payload.operation
    && confirm.details == payload.details && confirm.expiresAt == payload.expiresAt
    && confirm.phase == Pending && confirm.attemptedVerdict.None? && confirm.acknowledgedVerdict.None?
    && confirm.authorityVerdict.None? && confirm.error.None?
  }

  /** The confirm at `place` was opened by this request, for the call it then governed. */
  ghost predicate Answers(msg: ChatMessage, events: seq<Event>, s: nat, after: seq<Confirm>, place: nat)
    requires msg.agent.Some? && s < |events| && events[s].payload.PermissionRequested?
  {
    var met := Fold(msg, events[..s]).agent.value;
    && place < |after|
    && Governs(after[place].callId, met.trace, met.confirms, events[s].payload.operation)
    && exists confirm :: Opens(events[s].payload, confirm) && ConfirmStands(confirm, after[place], events[s + 1..])
  }

  /** One confirm per request, in order. */
  ghost predicate ConfirmsShow(msg: ChatMessage, events: seq<Event>, after: seq<Confirm>)
    requires msg.agent.Some?
  {
    var before := msg.agent.value.confirms;
    && |after| == |before| + Count(events, AsksPermission)
    && (forall i :: 0 <= i < |before| ==> ConfirmStands(before[i], after[i], events))
    && (forall s :: 0 <= s < |events| && events[s].payload.PermissionRequested? ==>
          Answers(msg, events, s, after, |before| + Count(events[..s], AsksPermission)))
  }

  lemma NextConfirmsAre(confirms: seq<Confirm>, trace: seq<TraceEntry>, payload: Payload)
    ensures var after := NextConfirms(confirms, trace, payload);
            && |after| == |confirms| + (if payload.PermissionRequested? then 1 else 0)
            && (forall i :: 0 <= i < |confirms| ==> after[i] == NextConfirm(confirms[i], payload))
            && (payload.PermissionRequested? ==>
                  && Opens(payload, after[|confirms|])
                  && Governs(after[|confirms|].callId, trace, confirms, payload.operation))
  {
    hide Governs, GovernedCall;
    if payload.PermissionRequested? { GovernedCallIsLatest(trace, confirms, payload.operation); }
  }

  lemma AnswersStep(msg: ChatMessage, events: seq<Event>, s: nat, mid: seq<Confirm>, after: seq<Confirm>, place: nat)
    requires msg.agent.Some? && s < |events| - 1 && events[s].payload.PermissionRequested?
    requires Answers(msg, events[..|events| - 1], s, mid, place)
    requires place < |after| && after[place] == NextConfirm(mid[place], events[|events| - 1].payload)
    ensures Answers(msg, events, s, after, place)
  {
    hide Fold, Governs, ConfirmStands, NextConfirm, Opens;
    var n := |events| - 1;
    var init, later := events[..n], events[s + 1..];
    assert init[..s] == events[..s] && init[s] == events[s];
    assert later[..|later| - 1] == init[s + 1..] && later[|later| - 1] == events[n];
    var confirm :| Opens(events[s].payload, confirm) && ConfirmStands(confirm, mid[place], init[s + 1..]);
    ConfirmStandsStep(confirm, mid[place], later);
    NextKeepsCall(mid[place], events[n].payload);
  }

  lemma NextKeepsCall(confirm: Confirm, payload: Payload)
    ensures NextConfirm(confirm, payload).callId == confirm.callId
  {
  }

  /**
   * Every request opens one confirm, in order, for the latest free call of its operation; each confirm
   * shows what the authority, its call's completions and the turn's cancellation made of it.
   */
  lemma {:induction false} ConfirmsAnswerRequests(msg: ChatMessage, events: seq<Event>)
    requires msg.agent.Some?
    ensures ConfirmsShow(msg, events, Fold(msg, events).agent.value.confirms)
  {
    hide NextReport, NextTrace, NextConfirms, NextPresentation, NextStatus, NextPins, ConfirmStands, Answers,
         NextConfirm;
    var before := msg.agent.value.confirms;
    if events == [] {
      forall i | 0 <= i < |before| ensures ConfirmStands(before[i], before[i], []) { NothingDecided(before[i]); }
    } else {
      var n := |events| - 1;
      var init := events[..n];
      ConfirmsAnswerRequests(msg, init);
      var met := Fold(msg, init).agent.value;
      var mid, after := met.confirms, Fold(msg, events).agent.value.confirms;
      NextConfirmsAre(mid, met.trace, events[n].payload);
      ConfirmsShowStep(msg, events, mid, after);
    }
  }

  lemma ConfirmsShowStep(msg: ChatMessage, events: seq<Event>, mid: seq<Confirm>, after: seq<Confirm>)
    requires msg.agent.Some? && events != [] && ConfirmsShow(msg, events[..|events| - 1], mid)
    requires var n := |events| - 1;
             var met := Fold(msg, events[..n]).agent.value;
             var payload := events[n].payload;
             && mid == met.confirms
             && |after| == |mid| + (if payload.PermissionRequested? then 1 else 0)
             && (forall i :: 0 <= i < |mid| ==> after[i] == NextConfirm(mid[i], payload))
             && (payload.PermissionRequested? ==>
                   && Opens(payload, after[|mid|])
                   && Governs(after[|mid|].callId, met.trace, met.confirms, payload.operation))
    ensures ConfirmsShow(msg, events, after)
  {
    hide Fold, Governs, ConfirmStands, NextConfirm, Opens;
    var n := |events| - 1;
    var init := events[..n];
    var before := msg.agent.value.confirms;
    forall i | 0 <= i < |before| ensures ConfirmStands(before[i], after[i], events) {
      ConfirmStandsStep(before[i], mid[i], events);
    }
    forall s | 0 <= s < |events| && events[s].payload.PermissionRequested?
      ensures Answers(msg, events, s, after, |before| + Count(events[..s], AsksPermission))
    {
      if s == n {
        assert events[n + 1..] == [];
        NothingDecided(after[|mid|]);
      } else {
        EarlierAnswersStep(msg, events, s, mid, after);
      }
    }
  }

  lemma EarlierAnswersStep(msg: ChatMessage, events: seq<Event>, s: nat, mid: seq<Confirm>, after: seq<Confirm>)
    requires msg.agent.Some? && s < |events| - 1 && events[s].payload.PermissionRequested?
    requires ConfirmsShow(msg, events[..|events| - 1], mid)
    requires |mid| <= |after|
    requires forall i :: 0 <= i < |mid| ==> after[i] == NextConfirm(mid[i], events[|events| - 1].payload)
    ensures Answers(msg, events, s, after, |msg.agent.value.confirms| + Count(events[..s], AsksPermission))
  {
    hide Fold, Answers, NextConfirm;
    var init := events[..|events| - 1];
    var place := |msg.agent.value.confirms| + Count(events[..s], AsksPermission);
    CountBefore(init, s, AsksPermission);
    assert init[..s] == events[..s] && init[s] == events[s];
    assert Answers(msg, init, s, mid, place);
    AnswersStep(msg, events, s, mid, after, place);
  }

  // ---------------------------------------------------------------------------
  // Presented items
  // ---------------------------------------------------------------------------

  /** Text and completions call for the summary item. */
  function SummaryMark(payload: Payload): Option<bool> {
    if payload.TextDelta? || payload.TurnCompleted? then Some(true) else None
  }

  function RequestMark(payload: Payload): Option<bool> {
    if payload.PermissionRequested? then Some(true) else None
  }

  /** The one summary item is stamped by the last event that calls for it. */
  ghost predicate SummaryStands(before: seq<Item>, after: seq<Item>, events: seq<Event>) {
    && (Silent(events, 0, SummaryMark) ==>
          forall s: nat :: Item(SummaryKey, s) in after <==> Item(SummaryKey, s) in before)
    && (forall k :: 0 <= k < |events| && SummaryMark(events[k].payload).Some? && Silent(events, k + 1, SummaryMark) ==>
          forall s: nat :: Item(SummaryKey, s) in after <==> s == events[k].sequence)
  }

  /** A request's item is stamped by the request, a call's by its start unless a later request moves it. */
  ghost predicate RequestsStamped(after: seq<Item>, events: seq<Event>) {
    forall k :: 0 <= k < |events| ==>
      && (events[k].payload.PermissionRequested? ==>
            Item(ConfirmKey(events[k].payload.scope.requestId), events[k].sequence) in after)
      && (events[k].payload.ToolStarted? && Silent(events, k + 1, RequestMark) ==>
            Item(ToolKey(events[k].payload.callId), events[k].sequence) in after)
  }

  lemma {:induction false} RemoveKeyKeepsOthers(items: seq<Item>, key: ItemKey, item: Item)
    ensures item in RemoveKey(items, key) <==> item in items && item.key != key
  {
    if items != [] {
      assert items == [items[0]] + items[1..];
      RemoveKeyKeepsOthers(items[1..], key, item);
    }
  }

  /** What one event does to the items, item by item. */
  lemma NextItems(items: seq<Item>, trace: seq<TraceEntry>, confirms: seq<Confirm>, event: Event, item: Item)
    ensures var after := NextPresentation(items, trace, confirms, event);
            var payload := event.payload;
            && (item.key == SummaryKey ==>
                  (item in after <==>
                   if SummaryMark(payload).Some? then item.sequence == event.sequence else item in items))
            && (item.key.ConfirmKey? && item in items ==> item in after)
            && (item.key.ToolKey? && item in items && RequestMark(payload).None? ==> item in after)
            && (payload.PermissionRequested? && item == Item(ConfirmKey(payload.scope.requestId), event.sequence) ==>
                  item in after)
            && (payload.ToolStarted? && item == Item(ToolKey(payload.callId), event.sequence) ==> item in after)
  {
    hide GovernedCall, RemoveKey;
    RemoveKeyKeepsOthers(items, SummaryKey, item);
    if event.payload.PermissionRequested? {
      var call := GovernedCall(trace, confirms, event.payload.operation);
      if call.Some? { RemoveKeyKeepsOthers(items, ToolKey(call.value), item); }
    }
  }

  lemma ItemsStep(before: seq<Item>, mid: seq<Item>, trace: seq<TraceEntry>, confirms: seq<Confirm>, events: seq<Event>)
    requires events != []
    requires SummaryStands(before, mid, events[..|events| - 1]) && RequestsStamped(mid, events[..|events| - 1])
    ensures var after := NextPresentation(mid, trace, confirms, events[|events| - 1]);
            SummaryStands(before, after, events) && RequestsStamped(after, events)
  {
    hide NextPresentation, Silent;
    var n := |events| - 1;
    var init := events[..n];
    var after := NextPresentation(mid, trace, confirms, events[n]);
    forall item: Item
      ensures item.key == SummaryKey ==>
                (item in after <==>
                 if SummaryMark(events[n].payload).Some? then item.sequence == events[n].sequence else item in mid)
    {
      NextItems(mid, trace, confirms, events[n], item);
    }
    SilentStep(events, 0, SummaryMark);
    forall k | 0 <= k < n ensures init[k] == events[k]
      ensures Silent(events, k + 1, SummaryMark) <==>
              Silent(init, k + 1, SummaryMark) && SummaryMark(events[n].payload).None?
    {
      SilentStep(events, k + 1, SummaryMark);
    }
    forall k | 0 <= k < |events|
      ensures events[k].payload.PermissionRequested? ==>
                Item(ConfirmKey(events[k].payload.scope.requestId), events[k].sequence) in after
      ensures events[k].payload.ToolStarted? && Silent(events, k + 1, RequestMark) ==>
                Item(ToolKey(events[k].payload.callId), events[k].sequence) in after
    {
      if k < n { SilentStep(events, k + 1, RequestMark); }
      if events[k].payload.PermissionRequested? {
        NextItems(mid, trace, confirms, events[n],
                  Item(ConfirmKey(events[k].payload.scope.requestId), events[k].sequence));
      }
      if events[k].payload.ToolStarted? {
        NextItems(mid, trace, confirms, events[n], Item(ToolKey(events[k].payload.callId), events[k].sequence));
      }
    }
  }

  /** The items of a folded turn carry the sequences of the events that placed them. */
  lemma {:induction false} ItemsAreStamped(msg: ChatMessage, events: seq<Event>)
    requires msg.agent.Some?
    ensures SummaryStands(msg.agent.value.presentation, Fold(msg, events).agent.value.presentation, events)
    ensures RequestsStamped(Fold(msg, events).agent.value.presentation, events)
  {
    hide NextReport, NextTrace, NextConfirms, NextPresentation, NextStatus, NextPins, SummaryStands, RequestsStamped;
    var before := msg.agent.value.presentation;
    if events == [] {
      NothingPlaced(before);
    } else {
      var n := |events| - 1;
      ItemsAreStamped(msg, events[..n]);
      var mid := Fold(msg, events[..n]).agent.value;
      ItemsStep(before, mid.presentation, mid.trace, mid.confirms, events);
    }
  }

  lemma NothingPlaced(items: seq<Item>)
    ensures SummaryStands(items, items, []) && RequestsStamped(items, [])
  {
  }

  // ---------------------------------------------------------------------------
  // The user's side
  // ---------------------------------------------------------------------------

  predicate InFlight(phase: Phase) {
    phase in {CheckingAuthenticator, BootstrappingAuthenticator, AwaitingUserVerification, Submitting}
  }

  predicate Late(confirm: Confirm, now: int) {
    confirm.expiresAt.Some? && confirm.expiresAt.value <= now
  }

  /** A decision in flight is not replaced by another, whichever button is pressed. */
  lemma DecisionsDoNotOverlap(confirm: Confirm, first: UserVerdict, second: UserVerdict, now: int, later: int)
    requires !Late(confirm, now)
    ensures var begun := Begin(confirm, first, now);
            && Begin(begun, second, later) == begun
            && (begun == confirm <== confirm.phase.Final? || InFlight(confirm.phase))
  {
  }

  /** An expired request takes no decision, however open. */
  lemma LateDecisionsAreRefused(confirm: Confirm, verdict: UserVerdict, now: int)
    requires Late(confirm, now) && !confirm.phase.Final? && !InFlight(confirm.phase)
    ensures var begun := Begin(confirm, verdict, now);
            && begun.attemptedVerdict == confirm.attemptedVerdict && begun.phase == Pending
            && begun.error.Some? && begun.error.value.code == "permission_expired"
            && begun.authorityVerdict == confirm.authorityVerdict && begun.scope == confirm.scope
  {
  }

  /** A decision carried through: begun, verified, acknowledged and resolved alike, it ends in its verdict. */
  lemma CeremonyReachesVerdict(confirm: Confirm, verdict: UserVerdict, decision: Verdict, now: int,
                               phase: NonTerminalPhase)
    requires confirm.phase == Pending && confirm.authorityVerdict.None? && !Late(confirm, now)
    ensures var begun := SetPhase(Begin(confirm, verdict, now), phase);
            var sent := Acknowledge(begun, verdict);
            var resolved := ResolveConfirm(sent, confirm.scope, decision);
            && begun.phase == phase && sent.phase == Submitting && sent.acknowledgedVerdict == Some(verdict)
            && resolved.authorityVerdict == Some(decision)
            && (decision == verdict || decision == Expired || decision == Cancelled ==>
                  resolved.phase == Final(decision) && resolved.error.None?)
            && (decision != verdict && decision != Expired && decision != Cancelled ==> resolved.phase == Submitting)
  {
  }

  /** After a failed attempt a resolution alone decides nothing; a new attempt with its verdict does. */
  lemma FailedAttemptStartsOver(confirm: Confirm, failure: FailurePhase, error: ConfirmError, verdict: UserVerdict,
                                now: int)
    requires !confirm.phase.Final? && confirm.authorityVerdict.None? && !Late(confirm, now)
    ensures var failed := Fail(confirm, failure, error);
            var resolved := ResolveConfirm(failed, confirm.scope, verdict);
            var again := Acknowledge(Begin(resolved, verdict, now), verdict);
            && failed.phase == resolved.phase == failure && failed.error == resolved.error == Some(error)
            && again.phase == Final(verdict) && again.error.None?
  {
  }
}
