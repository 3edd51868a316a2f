/**
 * Whole runs of a turn: arriving events, the gap watchdog and the user's permission
 * ceremony, interleaved in any order. Proves what every run keeps.
 */
module AgentRuns {
  import opened Options
  import opened Sequences
  import opened AgentTurn

  datatype Step =
    | Arrive(event: Event, at: int)
    | Watchdog(now: int)
    | UserBegins(requestId: string, verdict: UserVerdict, now: int)
    | UserProgresses(requestId: string, phase: NonTerminalPhase)
    | UserFails(requestId: string, failure: FailurePhase, error: ConfirmError)
    | UserAcknowledged(requestId: string, verdict: UserVerdict)

  function Take(msg: ChatMessage, step: Step): ChatMessage {
    match step
    case Arrive(event, at) => Apply(msg, event, at)
    case Watchdog(now) => ExpireGap(msg, now)
    case UserBegins(requestId, verdict, now) => BeginConfirmDecision(msg, requestId, verdict, now)
    case UserProgresses(requestId, phase) => SetConfirmPhase(msg, requestId, phase)
    case UserFails(requestId, failure, error) => FailConfirmDecision(msg, requestId, failure, error)
    case UserAcknowledged(requestId, verdict) => AcknowledgeConfirmDecision(msg, requestId, verdict)
  }

  function TakeAll(msg: ChatMessage, steps: seq<Step>): ChatMessage {
    if steps == [] then msg else Take(TakeAll(msg, steps[..|steps| - 1]), steps[|steps| - 1])
  }

  /** The events a drain folds, in folding order. */
  function Drained(msg: ChatMessage): seq<Event>
    requires msg.agent.Some?
    decreases |msg.agent.value.pendingEvents|
  {
    var s := msg.agent.value.lastSeq + 1;
    if s !in msg.agent.value.pendingEvents then []
    else
      assert (msg.agent.value.pendingEvents - {s}).Keys == msg.agent.value.pendingEvents.Keys - {s};
      var event := msg.agent.value.pendingEvents[s];
      [event] + Drained(ReduceOrderedEvent(WithoutPending(msg, s), event))
  }

  predicate FoldsNow(msg: ChatMessage, event: Event) {
    && msg.agent.Some? && msg.agent.value.turnId == event.turnId
    && !WrongScope(msg.agent.value, event)
    && event.eventId !in msg.agent.value.seenEventIds
    && event.sequence == msg.agent.value.lastSeq + 1
  }

  /** The events a step folds into the turn, in folding order. */
  function Folded(msg: ChatMessage, step: Step): seq<Event> {
    if step.Arrive? && FoldsNow(msg, step.event) then
      [step.event] + Drained(ReduceOrderedEvent(msg, step.event))
    else []
  }

  /** Every event folded during a run, oldest first. */
  function History(msg: ChatMessage, steps: seq<Step>): seq<Event> {
    if steps == [] then []
    else
      var before := steps[..|steps| - 1];
      History(msg, before) + Folded(TakeAll(msg, before), steps[|steps| - 1])
  }

  /** A buffered event waits under its own sequence. */
  predicate BufferKeyed(msg: ChatMessage) {
    msg.agent.Some? ==>
      forall s :: s in msg.agent.value.pendingEvents ==> msg.agent.value.pendingEvents[s].sequence == s
  }

  predicate Blank(msg: ChatMessage) {
    && msg.agent.Some?
    && msg.agent.value.pendingEvents == map[] && msg.agent.value.trace == []
    && msg.agent.value.confirms == [] && msg.agent.value.presentation == []
  }

  // ---------------------------------------------------------------------------
  // Permission ceremony
  // ---------------------------------------------------------------------------

  /** The authority resolved exactly this request with exactly this verdict. */
  ghost predicate Resolved(history: seq<Event>, scope: PermissionScope, verdict: Verdict) {
    exists i :: 0 <= i < |history| && history[i].payload == PermissionResolved(scope, verdict)
  }

  /** A confirm shows a user verdict only if the authority really gave it. */
  ghost predicate Justified(confirm: Confirm, history: seq<Event>) {
    forall verdict: Verdict | verdict == Approved || verdict == Declined ::
      (confirm.phase == Final(verdict) || confirm.authorityVerdict == Some(verdict)) ==>
        Resolved(history, confirm.scope, verdict)
  }

  ghost predicate AllJustified(confirms: seq<Confirm>, history: seq<Event>) {
    forall i :: 0 <= i < |confirms| ==> Justified(confirms[i], history)
  }

  /** Confirms keep their place and scope, and a terminal phase is never left for another kind. */
  predicate Evolves(before: seq<Confirm>, after: seq<Confirm>) {
    && |before| <= |after|
    && forall i :: 0 <= i < |before| ==>
         && after[i].scope == before[i].scope
         && after[i].callId == before[i].callId
         && (IsTerminalConfirmPhase(before[i].phase) ==> IsTerminalConfirmPhase(after[i].phase))
  }

  lemma EvolvesReflexive(a: seq<Confirm>)
    ensures Evolves(a, a)
  {
  }

  lemma EvolvesTransitive(a: seq<Confirm>, b: seq<Confirm>, c: seq<Confirm>)
    requires Evolves(a, b) && Evolves(b, c)
    ensures Evolves(a, c)
  {
  }

  lemma MoreHistory(confirms: seq<Confirm>, history: seq<Event>, more: seq<Event>)
    requires AllJustified(confirms, history)
    ensures AllJustified(confirms, history + more)
  {
    forall i, verdict: Verdict |
      && 0 <= i < |confirms| && (verdict == Approved || verdict == Declined)
      && (confirms[i].phase == Final(verdict) || confirms[i].authorityVerdict == Some(verdict))
      ensures Resolved(history + more, confirms[i].scope, verdict)
    {
      assert Justified(confirms[i], history);
      var k :| 0 <= k < |history| && history[k].payload == PermissionResolved(confirms[i].scope, verdict);
      assert (history + more)[k] == history[k];
    }
  }

  lemma ReduceKeepsCeremony(confirms: seq<Confirm>, trace: seq<TraceEntry>, history: seq<Event>, event: Event)
    requires AllJustified(confirms, history)
    ensures var after := NextConfirms(confirms, trace, event.payload);
            AllJustified(after, history + [event]) && Evolves(confirms, after)
  {
    hide GovernedCall;
    MoreHistory(confirms, history, [event]);
    var after := NextConfirms(confirms, trace, event.payload);
    var longer := history + [event];
    assert longer[|history|] == event;
    forall i | 0 <= i < |after| ensures Justified(after[i], longer) {
      if i < |confirms| { assert Justified(confirms[i], longer); }
    }
  }

  /** What a user step does to the confirm it names. */
  function UserStepOn(confirm: Confirm, step: Step): Confirm {
    match step
    case UserBegins(_, verdict, now) => Begin(confirm, verdict, now)
    case UserProgresses(_, phase) => SetPhase(confirm, phase)
    case UserFails(_, failure, error) => Fail(confirm, failure, error)
    case UserAcknowledged(_, verdict) => Acknowledge(confirm, verdict)
    case _ => confirm
  }

  /** The step changes only confirms, and each that it names in the same way. */
  ghost predicate UserStepped(before: seq<Confirm>, after: seq<Confirm>, step: Step)
    requires !step.Arrive? && !step.Watchdog?
  {
    && |after| == |before|
    && forall i :: 0 <= i < |before| ==>
         after[i] == if before[i].scope.requestId == step.requestId then UserStepOn(before[i], step) else before[i]
  }

  lemma UserTakes(msg: ChatMessage, step: Step)
    requires msg.agent.Some? && !step.Arrive? && !step.Watchdog?
    ensures var next := Take(msg, step);
            && next.agent.Some? && UserStepped(msg.agent.value.confirms, next.agent.value.confirms, step)
            && next.agent.value == msg.agent.value.(confirms := next.agent.value.confirms)
  {
    hide Begin, SetPhase, Fail, Acknowledge;
  }

  lemma UserStepKeepsConfirm(confirm: Confirm, step: Step)
    ensures var after := UserStepOn(confirm, step);
            && after.scope == confirm.scope && after.callId == confirm.callId
            && after.authorityVerdict == confirm.authorityVerdict
            && (IsTerminalConfirmPhase(confirm.phase) ==> IsTerminalConfirmPhase(after.phase))
            && (forall verdict :: after.phase == Final(verdict) ==>
                  confirm.phase == Final(verdict) || confirm.authorityVerdict == Some(verdict))
  {
  }

  lemma UserStepKeepsCeremony(before: seq<Confirm>, after: seq<Confirm>, history: seq<Event>, step: Step)
    requires !step.Arrive? && !step.Watchdog? && UserStepped(before, after, step) && AllJustified(before, history)
    ensures AllJustified(after, history) && Evolves(before, after)
  {
    hide UserStepOn, Resolved;
    forall i | 0 <= i < |before|
      ensures Justified(after[i], history)
      ensures after[i].scope == before[i].scope && after[i].callId == before[i].callId
      ensures IsTerminalConfirmPhase(before[i].phase) ==> IsTerminalConfirmPhase(after[i].phase)
    {
      assert Justified(before[i], history);
      UserStepKeepsConfirm(before[i], step);
    }
  }

  // ---------------------------------------------------------------------------
  // Presentation
  // ---------------------------------------------------------------------------

  predicate Traced(trace: seq<TraceEntry>, callId: string) {
    exists i :: 0 <= i < |trace| && trace[i].callId == callId
  }

  predicate Requested(confirms: seq<Confirm>, requestId: string) {
    exists i :: 0 <= i < |confirms| && confirms[i].scope.requestId == requestId
  }

  predicate Shows(items: seq<Item>, key: ItemKey) {
    exists i :: 0 <= i < |items| && items[i].key == key
  }

  /** `second` stands right after `first`. */
  predicate Adjacent(items: seq<Item>, first: ItemKey, second: ItemKey) {
    exists i :: 0 <= i < |items| - 1 && items[i].key == first && items[i + 1].key == second
  }

  /** Keys are pairwise distinct and sequences never decrease. */
  predicate Ordered(items: seq<Item>) {
    forall i, j :: 0 <= i < j < |items| ==> items[i].key != items[j].key && items[i].sequence <= items[j].sequence
  }

  /** Each call and each request is shown exactly once, and nothing else but at most one summary. */
  ghost predicate Complete(items: seq<Item>, trace: seq<TraceEntry>, confirms: seq<Confirm>) {
    && (forall callId :: Shows(items, ToolKey(callId)) <==> Traced(trace, callId))
    && (forall requestId :: Shows(items, ConfirmKey(requestId)) <==> Requested(confirms, requestId))
  }

  /** No call is governed twice; a governed call is traced and shown right after its confirm. */
  predicate GovernedWell(items: seq<Item>, trace: seq<TraceEntry>, confirms: seq<Confirm>) {
    && (forall i, j :: 0 <= i < j < |confirms| && confirms[i].callId.Some? ==> confirms[i].callId != confirms[j].callId)
    && (forall i :: 0 <= i < |confirms| && confirms[i].callId.Some? ==>
          && Traced(trace, confirms[i].callId.value)
          && Adjacent(items, ConfirmKey(confirms[i].scope.requestId), ToolKey(confirms[i].callId.value)))
  }

  predicate Stamped(items: seq<Item>, lastSeq: int) {
    forall i :: 0 <= i < |items| ==> items[i].sequence <= lastSeq
  }

  ghost predicate Presentable(agent: TurnState) {
    && Ordered(agent.presentation)
    && Stamped(agent.presentation, agent.lastSeq)
    && Complete(agent.presentation, agent.trace, agent.confirms)
    && GovernedWell(agent.presentation, agent.trace, agent.confirms)
  }

  /** No call is started twice and no request is made twice. */
  predicate DistinctIds(history: seq<Event>) {
    && (forall i, j :: 0 <= i < j < |history| ==>
          (history[i].payload.ToolStarted? && history[j].payload.ToolStarted? ==>
             history[i].payload.callId != history[j].payload.callId))
    && (forall i, j :: 0 <= i < j < |history| ==>
          (history[i].payload.PermissionRequested? && history[j].payload.PermissionRequested? ==>
             history[i].payload.scope.requestId != history[j].payload.scope.requestId))
  }

  /** Everything traced was started, and everything requested was asked for, in the history. */
  ghost predicate Recorded(agent: TurnState, history: seq<Event>) {
    && (forall callId :: Traced(agent.trace, callId) ==>
          exists i :: 0 <= i < |history| && history[i].payload.ToolStarted? && history[i].payload.callId == callId)
    && (forall requestId :: Requested(agent.confirms, requestId) ==>
          exists i :: 0 <= i < |history| && history[i].payload.PermissionRequested?
                      && history[i].payload.scope.requestId == requestId)
  }

  lemma {:induction false} RemoveKeyContents(items: seq<Item>, key: ItemKey)
    requires Ordered(items)
    ensures var r := RemoveKey(items, key);
            && Ordered(r)
            && (forall item :: item in r <==> item in items && item.key != key)
  {
    if items != [] {
      RemoveKeyContents(items[1..], key);
      assert items == [items[0]] + items[1..];
      var rest := RemoveKey(items[1..], key);
      forall j | 0 <= j < |rest|
        ensures items[0].key != rest[j].key && items[0].sequence <= rest[j].sequence
      {
        assert rest[j] in items[1..];
        var k :| 0 <= k < |items[1..]| && items[1..][k] == rest[j];
        assert items[k + 1] == rest[j];
      }
    }
  }

  lemma RemoveKeyShows(items: seq<Item>, key: ItemKey, other: ItemKey)
    requires Ordered(items)
    ensures Shows(RemoveKey(items, key), other) <==> Shows(items, other) && other != key
  {
    RemoveKeyContents(items, key);
    var r := RemoveKey(items, key);
    if Shows(items, other) && other != key {
      var i :| 0 <= i < |items| && items[i].key == other;
      assert items[i] in r;
    }
    if Shows(r, other) {
      var i :| 0 <= i < |r| && r[i].key == other;
      assert r[i] in items;
    }
  }

  lemma {:induction false} RemoveKeyAdjacent(items: seq<Item>, key: ItemKey, first: ItemKey, second: ItemKey)
    requires Adjacent(items, first, second) && key != first && key != second
    ensures Adjacent(RemoveKey(items, key), first, second)
  {
    var i :| 0 <= i < |items| - 1 && items[i].key == first && items[i + 1].key == second;
    if i == 0 {
      var r := RemoveKey(items, key);
      assert items[1..][0] == items[1];
      assert r == [items[0]] + RemoveKey(items[1..], key);
      assert RemoveKey(items[1..], key) == [items[1]] + RemoveKey(items[1..][1..], key);
      assert r[0].key == first && r[1].key == second;
    } else {
      assert items[1..][i - 1].key == first && items[1..][i].key == second;
      RemoveKeyAdjacent(items[1..], key, first, second);
      var rest := RemoveKey(items[1..], key);
      var k :| 0 <= k < |rest| - 1 && rest[k].key == first && rest[k + 1].key == second;
      if items[0].key != key {
        var r := [items[0]] + rest;
        assert r[k + 1].key == first && r[k + 2].key == second;
      }
    }
  }

  lemma AppendShows(items: seq<Item>, item: Item, key: ItemKey)
    ensures Shows(items + [item], key) <==> Shows(items, key) || key == item.key
  {
    var r := items + [item];
    assert r[|items|] == item;
    if Shows(items, key) {
      var i :| 0 <= i < |items| && items[i].key == key;
      assert r[i].key == key;
    }
  }

  lemma AppendAdjacent(items: seq<Item>, item: Item, first: ItemKey, second: ItemKey)
    requires Adjacent(items, first, second)
    ensures Adjacent(items + [item], first, second)
  {
    var i :| 0 <= i < |items| - 1 && items[i].key == first && items[i + 1].key == second;
    var r := items + [item];
    assert r[i].key == first && r[i + 1].key == second;
  }

  /** Removing `key` keeps order, stamps, and everything about the other keys. */
  lemma RemoveKeepsRest(items: seq<Item>, key: ItemKey, lastSeq: int)
    requires Ordered(items) && Stamped(items, lastSeq)
    ensures Ordered(RemoveKey(items, key)) && Stamped(RemoveKey(items, key), lastSeq)
    ensures forall other :: Shows(RemoveKey(items, key), other) <==> Shows(items, other) && other != key
    ensures forall first, second :: Adjacent(items, first, second) && key != first && key != second ==>
              Adjacent(RemoveKey(items, key), first, second)
  {
    RemoveKeyContents(items, key);
    forall other ensures Shows(RemoveKey(items, key), other) <==> Shows(items, other) && other != key {
      RemoveKeyShows(items, key, other);
    }
    forall first, second | Adjacent(items, first, second) && key != first && key != second
      ensures Adjacent(RemoveKey(items, key), first, second)
    {
      RemoveKeyAdjacent(items, key, first, second);
    }
    forall i | 0 <= i < |RemoveKey(items, key)| ensures RemoveKey(items, key)[i].sequence <= lastSeq {
      assert RemoveKey(items, key)[i] in items;
    }
  }

  /** Appending an unseen key keeps order, stamps, and everything about the other keys. */
  lemma AppendKeepsRest(items: seq<Item>, item: Item, lastSeq: int)
    requires Ordered(items) && Stamped(items, lastSeq) && lastSeq <= item.sequence && !Shows(items, item.key)
    ensures Ordered(items + [item]) && Stamped(items + [item], item.sequence)
    ensures forall other :: Shows(items + [item], other) <==> Shows(items, other) || other == item.key
    ensures forall first, second :: Adjacent(items, first, second) ==> Adjacent(items + [item], first, second)
  {
    forall other ensures Shows(items + [item], other) <==> Shows(items, other) || other == item.key {
      AppendShows(items, item, other);
    }
    forall first, second | Adjacent(items, first, second) ensures Adjacent(items + [item], first, second) {
      AppendAdjacent(items, item, first, second);
    }
  }

  lemma SummaryKeepsPresentable(agent: TurnState, event: Event)
    requires Presentable(agent) && event.sequence == agent.lastSeq + 1
    ensures var items := RemoveKey(agent.presentation, SummaryKey) + [Item(SummaryKey, event.sequence)];
            && Ordered(items) && Stamped(items, event.sequence)
            && Complete(items, agent.trace, agent.confirms) && GovernedWell(items, agent.trace, agent.confirms)
  {
    hide RemoveKey, Shows, Adjacent;
    RemoveKeepsRest(agent.presentation, SummaryKey, agent.lastSeq);
    AppendKeepsRest(RemoveKey(agent.presentation, SummaryKey), Item(SummaryKey, event.sequence), agent.lastSeq);
  }

  lemma StartKeepsPresentable(agent: TurnState, entry: TraceEntry, sequence: nat)
    requires Presentable(agent) && sequence == agent.lastSeq + 1 && !Traced(agent.trace, entry.callId)
    ensures var items := agent.presentation + [Item(ToolKey(entry.callId), sequence)];
            var trace := agent.trace + [entry];
            && Ordered(items) && Stamped(items, sequence)
            && Complete(items, trace, agent.confirms) && GovernedWell(items, trace, agent.confirms)
  {
    AppendKeepsRest(agent.presentation, Item(ToolKey(entry.callId), sequence), agent.lastSeq);
    var trace := agent.trace + [entry];
    assert trace[|agent.trace|] == entry;
    forall callId ensures Traced(trace, callId) <==> Traced(agent.trace, callId) || callId == entry.callId {
      if Traced(agent.trace, callId) {
        var i :| 0 <= i < |agent.trace| && agent.trace[i].callId == callId;
        assert trace[i].callId == callId;
      }
    }
    hide Shows, Adjacent;
  }

  lemma RequestedAppend(confirms: seq<Confirm>, confirm: Confirm, requestId: string)
    ensures Requested(confirms + [confirm], requestId) <==>
            Requested(confirms, requestId) || requestId == confirm.scope.requestId
  {
    var r := confirms + [confirm];
    assert r[|confirms|] == confirm;
    if Requested(confirms, requestId) {
      var i :| 0 <= i < |confirms| && confirms[i].scope.requestId == requestId;
      assert r[i].scope.requestId == requestId;
    }
  }

  /** A request for an ungoverned operation adds its confirm at the end. */
  lemma PlainRequestKeepsPresentable(items: seq<Item>, trace: seq<TraceEntry>, confirms: seq<Confirm>,
                                     confirm: Confirm, sequence: nat, lastSeq: int)
    requires Ordered(items) && Stamped(items, lastSeq) && lastSeq <= sequence
    requires Complete(items, trace, confirms) && GovernedWell(items, trace, confirms)
    requires !Requested(confirms, confirm.scope.requestId) && confirm.callId.None?
    ensures var shown := items + [Item(ConfirmKey(confirm.scope.requestId), sequence)];
            && Ordered(shown) && Stamped(shown, sequence)
            && Complete(shown, trace, confirms + [confirm]) && GovernedWell(shown, trace, confirms + [confirm])
  {
    hide Traced, Shows, Adjacent, Requested;
    AppendKeepsRest(items, Item(ConfirmKey(confirm.scope.requestId), sequence), lastSeq);
    forall requestId ensures Requested(confirms + [confirm], requestId) <==>
                             Requested(confirms, requestId) || requestId == confirm.scope.requestId {
      RequestedAppend(confirms, confirm, requestId);
    }
  }

  /** A request that governs a traced call moves the call's item right behind its own. */
  lemma GoverningRequestKeepsPresentable(items: seq<Item>, trace: seq<TraceEntry>, confirms: seq<Confirm>,
                                         confirm: Confirm, sequence: nat, lastSeq: int)
    requires Ordered(items) && Stamped(items, lastSeq) && lastSeq <= sequence
    requires Complete(items, trace, confirms) && GovernedWell(items, trace, confirms)
    requires !Requested(confirms, confirm.scope.requestId)
    requires confirm.callId.Some? && Traced(trace, confirm.callId.value)
    requires forall i :: 0 <= i < |confirms| ==> confirms[i].callId != confirm.callId
    ensures var shown := RemoveKey(items, ToolKey(confirm.callId.value))
                         + [Item(ConfirmKey(confirm.scope.requestId), sequence)]
                         + [Item(ToolKey(confirm.callId.value), sequence)];
            && Ordered(shown) && Stamped(shown, sequence)
            && Complete(shown, trace, confirms + [confirm]) && GovernedWell(shown, trace, confirms + [confirm])
  {
    hide Traced, Shows, Adjacent, Requested, RemoveKey, Ordered, Stamped;
    var request := Item(ConfirmKey(confirm.scope.requestId), sequence);
    var tool := Item(ToolKey(confirm.callId.value), sequence);
    var kept := RemoveKey(items, tool.key);
    RemoveKeepsRest(items, tool.key, lastSeq);
    AppendKeepsRest(kept, request, lastSeq);
    AppendKeepsRest(kept + [request], tool, sequence);
    LastTwoAreAdjacent(kept, request, tool);
    forall requestId ensures Requested(confirms + [confirm], requestId) <==>
                             Requested(confirms, requestId) || requestId == confirm.scope.requestId {
      RequestedAppend(confirms, confirm, requestId);
    }
  }

  lemma LastTwoAreAdjacent(items: seq<Item>, first: Item, second: Item)
    ensures Adjacent(items + [first] + [second], first.key, second.key)
  {
    var r := items + [first] + [second];
    assert r[|items|] == first && r[|items| + 1] == second;
  }

  lemma RequestKeepsPresentable(agent: TurnState, event: Event)
    requires Presentable(agent) && event.sequence == agent.lastSeq + 1 && event.payload.PermissionRequested?
    requires !Requested(agent.confirms, event.payload.scope.requestId)
    ensures var items := NextPresentation(agent.presentation, agent.trace, agent.confirms, event);
            var confirms := NextConfirms(agent.confirms, agent.trace, event.payload);
            && Ordered(items) && Stamped(items, event.sequence)
            && Complete(items, agent.trace, confirms) && GovernedWell(items, agent.trace, confirms)
  {
    var governed := GovernedCall(agent.trace, agent.confirms, event.payload.operation);
    assert governed.Some? ==> Traced(agent.trace, governed.value)
                              && forall i :: 0 <= i < |agent.confirms| ==> agent.confirms[i].callId != governed;
    hide RemoveKey, GovernedCall, Ordered, Stamped, Complete, GovernedWell, Requested, Traced;
    var confirms := NextConfirms(agent.confirms, agent.trace, event.payload);
    var confirm := confirms[|agent.confirms|];
    assert confirms == agent.confirms + [confirm];
    if governed.None? {
      PlainRequestKeepsPresentable(agent.presentation, agent.trace, agent.confirms, confirm, event.sequence,
                                   agent.lastSeq);
    } else {
      GoverningRequestKeepsPresentable(agent.presentation, agent.trace, agent.confirms, confirm, event.sequence,
                                       agent.lastSeq);
      var request := Item(ConfirmKey(confirm.scope.requestId), event.sequence);
      var tool := Item(ToolKey(governed.value), event.sequence);
      Regroup(RemoveKey(agent.presentation, tool.key), [request], [tool]);
      assert [request] + [tool] == [request, tool];
    }
  }

  lemma SameTraceKeys(before: seq<TraceEntry>, after: seq<TraceEntry>, callId: string)
    requires |before| == |after| && forall i :: 0 <= i < |before| ==> before[i].callId == after[i].callId
    ensures Traced(before, callId) <==> Traced(after, callId)
  {
  }

  lemma SameConfirmKeys(before: seq<Confirm>, after: seq<Confirm>, requestId: string)
    requires Evolves(before, after) && |before| == |after|
    ensures Requested(before, requestId) <==> Requested(after, requestId)
  {
    if Requested(after, requestId) {
      var i :| 0 <= i < |after| && after[i].scope.requestId == requestId;
      assert before[i].scope.requestId == requestId;
    }
    if Requested(before, requestId) {
      var i :| 0 <= i < |before| && before[i].scope.requestId == requestId;
      assert after[i].scope.requestId == requestId;
    }
  }

  /** Replacing confirms and trace entries in place leaves the presentation as good as it was. */
  lemma InPlaceKeepsPresentable(items: seq<Item>, trace: seq<TraceEntry>, trace': seq<TraceEntry>,
                                confirms: seq<Confirm>, confirms': seq<Confirm>)
    requires Complete(items, trace, confirms) && GovernedWell(items, trace, confirms)
    requires |trace| == |trace'| && forall i :: 0 <= i < |trace| ==> trace[i].callId == trace'[i].callId
    requires Evolves(confirms, confirms') && |confirms| == |confirms'|
    ensures Complete(items, trace', confirms') && GovernedWell(items, trace', confirms')
  {
    forall callId ensures Traced(trace, callId) <==> Traced(trace', callId) { SameTraceKeys(trace, trace', callId); }
    forall requestId ensures Requested(confirms, requestId) <==> Requested(confirms', requestId) {
      SameConfirmKeys(confirms, confirms', requestId);
    }
    hide Shows, Adjacent, Traced, Requested;
  }

  /** One folded event keeps the presentation invariant, given fresh ids. */
  lemma ReduceKeepsPresentable(msg: ChatMessage, event: Event, history: seq<Event>)
    requires msg.agent.Some? && Presentable(msg.agent.value) && Recorded(msg.agent.value, history)
    requires DistinctIds(history + [event]) && event.sequence == msg.agent.value.lastSeq + 1
    requires AllJustified(msg.agent.value.confirms, history)
    ensures Presentable(ReduceOrderedEvent(msg, event).agent.value)
  {
    var agent := msg.agent.value;
    var after := ReduceOrderedEvent(msg, event).agent.value;
    var longer := history + [event];
    assert longer[|history|] == event && forall i :: 0 <= i < |history| ==> longer[i] == history[i];
    ReduceKeepsCeremony(agent.confirms, agent.trace, history, event);
    hide NextReport, GovernedCall, RemoveKey;
    match event.payload {
      case TextDelta(_) => SummaryKeepsPresentable(agent, event);
      case TurnCompleted(_) => SummaryKeepsPresentable(agent, event);
      case ToolStarted(callId, toolName, arguments) =>
        forall i | 0 <= i < |history| && history[i].payload.ToolStarted? ensures history[i].payload.callId != callId {
          assert longer[i] == history[i];
        }
        StartKeepsPresentable(agent, TraceEntry(callId, toolName, arguments, Running, None), event.sequence);
      case PermissionRequested(scope, _, _, _) =>
        forall i | 0 <= i < |history| && history[i].payload.PermissionRequested?
          ensures history[i].payload.scope.requestId != scope.requestId
        {
          assert longer[i] == history[i];
        }
        RequestKeepsPresentable(agent, event);
      case _ =>
        InPlaceKeepsPresentable(agent.presentation, agent.trace, after.trace, agent.confirms, after.confirms);
    }
  }

  lemma ReduceKeepsRecorded(msg: ChatMessage, event: Event, history: seq<Event>)
    requires msg.agent.Some? && Recorded(msg.agent.value, history)
    ensures Recorded(ReduceOrderedEvent(msg, event).agent.value, history + [event])
  {
    hide NextReport, GovernedCall, RemoveKey, NextPresentation;
    var agent, after := msg.agent.value, ReduceOrderedEvent(msg, event).agent.value;
    var longer := history + [event];
    assert longer[|history|] == event && forall i :: 0 <= i < |history| ==> longer[i] == history[i];
    forall callId | Traced(after.trace, callId)
      ensures exists i :: 0 <= i < |longer| && longer[i].payload.ToolStarted? && longer[i].payload.callId == callId
    {
      var k :| 0 <= k < |after.trace| && after.trace[k].callId == callId;
      if k < |agent.trace| {
        assert Traced(agent.trace, callId) by { assert agent.trace[k].callId == callId; }
      } else {
        assert longer[|history|].payload.callId == callId;
      }
    }
    forall requestId | Requested(after.confirms, requestId)
      ensures exists i :: 0 <= i < |longer| && longer[i].payload.PermissionRequested?
                          && longer[i].payload.scope.requestId == requestId
    {
      var k :| 0 <= k < |after.confirms| && after.confirms[k].scope.requestId == requestId;
      if k < |agent.confirms| {
        assert Requested(agent.confirms, requestId) by { assert agent.confirms[k].scope.requestId == requestId; }
      } else {
        assert longer[|history|].payload.scope.requestId == requestId;
      }
    }
  }

  // ---------------------------------------------------------------------------
  // Over whole runs
  // ---------------------------------------------------------------------------

  ghost predicate Sound(msg: ChatMessage, history: seq<Event>) {
    && msg.agent.Some?
    && BufferKeyed(msg)
    && AllJustified(msg.agent.value.confirms, history)
    && Recorded(msg.agent.value, history)
    && (DistinctIds(history) ==> Presentable(msg.agent.value))
  }

  lemma DistinctPrefix(history: seq<Event>, more: seq<Event>)
    requires DistinctIds(history + more)
    ensures DistinctIds(history)
  {
    assert forall i :: 0 <= i < |history| ==> (history + more)[i] == history[i];
  }

  lemma ReduceKeepsSound(msg: ChatMessage, event: Event, history: seq<Event>)
    requires Sound(msg, history) && event.sequence == msg.agent.value.lastSeq + 1
    ensures Sound(ReduceOrderedEvent(msg, event), history + [event])
    ensures Evolves(msg.agent.value.confirms, ReduceOrderedEvent(msg, event).agent.value.confirms)
  {
    ReduceKeepsCeremony(msg.agent.value.confirms, msg.agent.value.trace, history, event);
    ReduceKeepsRecorded(msg, event, history);
    if DistinctIds(history + [event]) {
      DistinctPrefix(history, [event]);
      ReduceKeepsPresentable(msg, event, history);
    }
    assert ReduceOrderedEvent(msg, event).agent.value.confirms
        == NextConfirms(msg.agent.value.confirms, msg.agent.value.trace, event.payload);
    hide AllJustified, Recorded, Presentable, DistinctIds, NextConfirms, ReduceOrderedEvent;
  }

  /** Taking the next event out of the buffer. */
  lemma TakeOutKeepsSound(msg: ChatMessage, history: seq<Event>)
    requires Sound(msg, history) && msg.agent.value.lastSeq + 1 in msg.agent.value.pendingEvents
    ensures var s := msg.agent.value.lastSeq + 1;
            var thinner := WithoutPending(msg, s);
            && Sound(thinner, history) && msg.agent.value.pendingEvents[s].sequence == s
            && thinner.agent.value.lastSeq == msg.agent.value.lastSeq
            && thinner.agent.value.confirms == msg.agent.value.confirms
            && |thinner.agent.value.pendingEvents| < |msg.agent.value.pendingEvents|
  {
    hide AllJustified, Recorded, Presentable, DistinctIds;
    var s := msg.agent.value.lastSeq + 1;
    var thinner := WithoutPending(msg, s);
    assert thinner.agent.value.pendingEvents.Keys == msg.agent.value.pendingEvents.Keys - {s};
    BufferDoesNotMatter(msg, thinner, history);
  }

  lemma {:induction false} DrainKeepsSound(msg: ChatMessage, history: seq<Event>)
    requires Sound(msg, history)
    ensures Sound(Drain(msg), history + Drained(msg))
    ensures Evolves(msg.agent.value.confirms, Drain(msg).agent.value.confirms)
    decreases |msg.agent.value.pendingEvents|
  {
    hide AllJustified, Recorded, Presentable, DistinctIds, BufferKeyed, ReduceOrderedEvent, Evolves, WithoutPending;
    var s := msg.agent.value.lastSeq + 1;
    EvolvesReflexive(msg.agent.value.confirms);
    if s !in msg.agent.value.pendingEvents {
      assert history + [] == history;
    } else {
      var event := msg.agent.value.pendingEvents[s];
      var thinner := WithoutPending(msg, s);
      TakeOutKeepsSound(msg, history);
      ReduceKeepsSound(thinner, event, history);
      var next := ReduceOrderedEvent(thinner, event);
      SameBuffer(thinner, event);
      DrainKeepsSound(next, history + [event]);
      EvolvesTransitive(msg.agent.value.confirms, next.agent.value.confirms, Drain(next).agent.value.confirms);
      assert history + [event] + Drained(next) == history + ([event] + Drained(next));
    }
  }

  lemma BufferDoesNotMatter(msg: ChatMessage, other: ChatMessage, history: seq<Event>)
    requires Sound(msg, history) && other.agent.Some? && BufferKeyed(other)
    requires other.agent.value.trace == msg.agent.value.trace
    requires other.agent.value.confirms == msg.agent.value.confirms
    requires other.agent.value.presentation == msg.agent.value.presentation
    requires other.agent.value.lastSeq == msg.agent.value.lastSeq
    ensures Sound(other, history)
  {
  }

  lemma UserKeepsSound(msg: ChatMessage, step: Step, history: seq<Event>)
    requires Sound(msg, history) && !step.Arrive? && !step.Watchdog?
    ensures Sound(Take(msg, step), history)
    ensures Evolves(msg.agent.value.confirms, Take(msg, step).agent.value.confirms)
  {
    hide Take, UserStepped, AllJustified, DistinctIds, Requested, Traced, Evolves;
    UserTakes(msg, step);
    var before, after := msg.agent.value.confirms, Take(msg, step).agent.value.confirms;
    UserStepKeepsCeremony(before, after, history, step);
    SameLength(before, after, step);
    forall requestId ensures Requested(before, requestId) <==> Requested(after, requestId) {
      SameConfirmKeys(before, after, requestId);
    }
    if DistinctIds(history) {
      InPlaceKeepsPresentable(msg.agent.value.presentation, msg.agent.value.trace, msg.agent.value.trace,
                              before, after);
    }
    hide Complete, GovernedWell, Ordered, Stamped;
  }

  lemma SameLength(before: seq<Confirm>, after: seq<Confirm>, step: Step)
    requires !step.Arrive? && !step.Watchdog? && UserStepped(before, after, step)
    ensures |after| == |before|
  {
  }

  lemma TakeKeepsSound(msg: ChatMessage, step: Step, history: seq<Event>)
    requires Sound(msg, history)
    ensures Sound(Take(msg, step), history + Folded(msg, step))
    ensures Evolves(msg.agent.value.confirms, Take(msg, step).agent.value.confirms)
  {
    hide AllJustified, Recorded, Presentable, DistinctIds, ReduceOrderedEvent, Drain, Drained;
    assert history + [] == history;
    match step {
      case Arrive(event, at) =>
        if FoldsNow(msg, event) {
          ReduceKeepsSound(msg, event, history);
          var reduced := ReduceOrderedEvent(msg, event);
          DrainKeepsSound(reduced, history + [event]);
          var drained := Drain(reduced);
          assert history + [event] + Drained(reduced) == history + ([event] + Drained(reduced));
          assert Take(msg, step) == ClearGap(drained);
          BufferDoesNotMatter(drained, ClearGap(drained), history + Folded(msg, step));
        } else {
          BufferDoesNotMatter(msg, Take(msg, step), history);
        }
      case Watchdog(now) => BufferDoesNotMatter(msg, Take(msg, step), history);
      case _ => UserKeepsSound(msg, step, history);
    }
  }

  lemma {:induction false} RunKeepsSound(msg: ChatMessage, steps: seq<Step>)
    requires Blank(msg)
    ensures Sound(TakeAll(msg, steps), History(msg, steps))
  {
    hide Take, Folded;
    if steps == [] {
      assert forall callId :: !Traced([], callId);
      assert forall requestId :: !Requested([], requestId);
      assert forall key :: !Shows([], key);
    } else {
      var n := |steps| - 1;
      RunKeepsSound(msg, steps[..n]);
      TakeKeepsSound(TakeAll(msg, steps[..n]), steps[n], History(msg, steps[..n]));
    }
  }

  /** A run shows approval or refusal only for requests the authority resolved that very way. */
  lemma VerdictsComeFromTheAuthority(msg: ChatMessage, steps: seq<Step>, i: nat, verdict: UserVerdict)
    requires Blank(msg)
    requires TakeAll(msg, steps).agent.Some? && i < |TakeAll(msg, steps).agent.value.confirms|
    requires TakeAll(msg, steps).agent.value.confirms[i].phase == Final(verdict)
    ensures Resolved(History(msg, steps), TakeAll(msg, steps).agent.value.confirms[i].scope, verdict)
  {
    RunKeepsSound(msg, steps);
    assert Justified(TakeAll(msg, steps).agent.value.confirms[i], History(msg, steps));
  }

  /** However a run goes on, a confirm keeps its place and scope, and a terminal phase stays terminal. */
  lemma {:induction false} TerminalPhasesAreClosed(msg: ChatMessage, steps: seq<Step>, more: seq<Step>)
    requires Blank(msg)
    ensures TakeAll(msg, steps).agent.Some? && TakeAll(msg, steps + more).agent.Some?
    ensures Evolves(TakeAll(msg, steps).agent.value.confirms, TakeAll(msg, steps + more).agent.value.confirms)
  {
    hide Take, AllJustified, Recorded, Presentable, BufferKeyed, DistinctIds, Evolves, Folded;
    RunKeepsSound(msg, steps);
    var confirms := TakeAll(msg, steps).agent.value.confirms;
    EvolvesReflexive(confirms);
    if more == [] {
      assert steps + more == steps;
    } else {
      var n := |more| - 1;
      var before := steps + more[..n];
      TerminalPhasesAreClosed(msg, steps, more[..n]);
      assert (steps + more)[..|steps + more| - 1] == before;
      RunKeepsSound(msg, before);
      TakeKeepsSound(TakeAll(msg, before), more[n], History(msg, before));
      hide History, Blank;
      EvolvesTransitive(confirms, TakeAll(msg, before).agent.value.confirms,
                        TakeAll(msg, steps + more).agent.value.confirms);
    }
  }

  /** With distinct call and request ids, every run shows each call and each request exactly once. */
  lemma RunsPresentWell(msg: ChatMessage, steps: seq<Step>)
    requires Blank(msg) && DistinctIds(History(msg, steps))
    ensures TakeAll(msg, steps).agent.Some? && Presentable(TakeAll(msg, steps).agent.value)
  {
    RunKeepsSound(msg, steps);
  }

  // ---------------------------------------------------------------------------
  // Acknowledgement and resolution commute
  // ---------------------------------------------------------------------------

  /** The user's acknowledgement and a resolution with the same verdict may come in either order. */
  lemma AcknowledgeAndResolveCommute(msg: ChatMessage, requestId: string, verdict: UserVerdict, event: Event)
    requires msg.agent.Some?
    requires event.payload.PermissionResolved? && event.payload.decision == verdict
    ensures ReduceOrderedEvent(AcknowledgeConfirmDecision(msg, requestId, verdict), event)
         == AcknowledgeConfirmDecision(ReduceOrderedEvent(msg, event), requestId, verdict)
  {
    var confirms := msg.agent.value.confirms;
    var left := ReduceOrderedEvent(AcknowledgeConfirmDecision(msg, requestId, verdict), event);
    var right := AcknowledgeConfirmDecision(ReduceOrderedEvent(msg, event), requestId, verdict);
    hide NextReport, NextPresentation;
    assert left.agent.value.confirms == right.agent.value.confirms;
  }

  /** For any pair of verdicts: exactly when the order of the two cannot be told from the confirm. */
  lemma AcknowledgeAndResolveCommuteExactly(confirm: Confirm, verdict: UserVerdict, decision: Verdict)
    ensures Acknowledge(ResolveConfirm(confirm, confirm.scope, decision), verdict)
            == ResolveConfirm(Acknowledge(confirm, verdict), confirm.scope, decision)
            <==>
            || decision == verdict
            || IsTerminalConfirmPhase(confirm.phase)
            || confirm.attemptedVerdict != Some(verdict)
            || ((decision == Expired || decision == Cancelled) && confirm.acknowledgedVerdict == Some(verdict))
            || (&& (decision == Approved || decision == Declined)
                && confirm.acknowledgedVerdict != Some(decision)
                && confirm.authorityVerdict !in {Some(verdict), Some(Expired), Some(Cancelled)})
  {
  }
}
