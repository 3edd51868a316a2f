/**
 * What may reach a turn at all: every folded event agrees with the scope the turn had pinned, and the
 * watchdog speaks up exactly when a gap has stayed open for too long.
 */
module AgentScope {
  import opened Options
  import opened AgentTurn
  import opened AgentRuns
  import opened AgentConfluence

  /** Everything buffered agrees with the pins. */
  ghost predicate BufferInScope(pins: Pins, pending: map<nat, Event>) {
    forall s :: s in pending ==> InScope(pins, pending[s].scope)
  }

  /** What is pinned in `first` is pinned alike in `later`. */
  predicate StillPinned(first: Pins, later: Pins) {
    && Kept(first.admittedContextFingerprint, later.admittedContextFingerprint)
    && Kept(first.runtimeId, later.runtimeId) && Kept(first.taskId, later.taskId)
    && Kept(first.workspaceId, later.workspaceId) && Kept(first.mcpSessionId, later.mcpSessionId)
    && Kept(first.subjectScopeHash, later.subjectScopeHash) && Kept(first.runtimeSessionId, later.runtimeSessionId)
  }

  predicate Kept(first: Option<string>, later: Option<string>) {
    first.Some? ==> later == first
  }

  ghost predicate AllInScope(pins: Pins, events: seq<Event>) {
    forall i :: 0 <= i < |events| ==> InScope(pins, events[i].scope)
  }

  /** A bound turn is where every delivery and every run may start: nothing folded, buffered or shown. */
  lemma BoundTurnsAreFresh(msg: ChatMessage, runtimeId: Option<string>, taskId: Option<string>,
                           workspaceId: Option<string>, turnId: string, fingerprint: string)
    ensures var bound := BoundTurn(PendingTurn(runtimeId, taskId, workspaceId), turnId, fingerprint);
            var start := msg.(agent := Some(bound));
            && Fresh(start) && Blank(start) && BufferInScope(bound.pins, bound.pendingEvents)
            && bound.turnId == turnId && bound.status == Streaming
            && forall scope :: InScope(bound.pins, scope) <==>
                 && scope.admittedContextFingerprint == fingerprint
                 && (runtimeId.Some? ==> scope.runtimeId == runtimeId.value)
                 && (taskId.Some? ==> scope.taskId == taskId.value)
                 && (workspaceId.Some? ==> scope.workspaceId == workspaceId.value)
  {
  }

  /** An arriving event of the turn is refused for its scope exactly when it disagrees with a pin. */
  lemma RefusedForScopeExactly(msg: ChatMessage, event: Event, at: int)
    requires msg.agent.Some? && msg.agent.value.turnId == event.turnId
    ensures !InScope(msg.agent.value.pins, event.scope) ==>
              && Apply(msg, event, at).agent.Some?
              && Apply(msg, event, at).agent.value
                 == msg.agent.value.(status := Failed, protocolError := Some("protocol_wrong_scope"))
              && Folded(msg, Arrive(event, at)) == []
    ensures WrongScope(msg.agent.value, event) <==> !InScope(msg.agent.value.pins, event.scope)
  {
    hide ReduceOrderedEvent, Drain, Drained;
  }

  lemma InScopeOfFirst(first: Pins, pins: Pins, scope: EventScope)
    requires StillPinned(first, pins) && InScope(pins, scope)
    ensures InScope(first, scope)
  {
  }

  lemma ReduceKeepsPinned(first: Pins, msg: ChatMessage, event: Event)
    requires msg.agent.Some? && StillPinned(first, msg.agent.value.pins) && InScope(first, event.scope)
    ensures StillPinned(first, ReduceOrderedEvent(msg, event).agent.value.pins)
  {
    hide NextReport, NextTrace, NextConfirms, NextPresentation, NextStatus, NextContent;
  }

  /** A turn whose pins and buffer agree with `first`. */
  ghost predicate Agrees(first: Pins, msg: ChatMessage) {
    msg.agent.Some? && StillPinned(first, msg.agent.value.pins) && BufferInScope(first, msg.agent.value.pendingEvents)
  }

  lemma {:induction false} DrainKeepsScope(first: Pins, msg: ChatMessage)
    requires Agrees(first, msg)
    ensures Agrees(first, Drain(msg)) && AllInScope(first, Drained(msg))
    decreases |msg.agent.value.pendingEvents|
  {
    hide ReduceOrderedEvent, InScope, StillPinned;
    var s := msg.agent.value.lastSeq + 1;
    if s in msg.agent.value.pendingEvents {
      var event := msg.agent.value.pendingEvents[s];
      var thinner := WithoutPending(msg, s);
      assert thinner.agent.value.pendingEvents.Keys == msg.agent.value.pendingEvents.Keys - {s};
      ReduceKeepsPinned(first, thinner, event);
      DrainKeepsScope(first, ReduceOrderedEvent(thinner, event));
    }
  }

  lemma UserKeepsTurn(msg: ChatMessage, step: Step)
    requires msg.agent.Some? && !step.Arrive?
    ensures var after := Take(msg, step).agent;
            && after.Some? && after.value.pins == msg.agent.value.pins
            && after.value.pendingEvents == msg.agent.value.pendingEvents
  {
    hide Begin, SetPhase, Fail, Acknowledge;
  }

  lemma TakeKeepsScope(first: Pins, msg: ChatMessage, step: Step)
    requires Agrees(first, msg)
    ensures Agrees(first, Take(msg, step)) && AllInScope(first, Folded(msg, step))
  {
    hide ReduceOrderedEvent, InScope, StillPinned, Drain, Drained, WrongScope;
    if !step.Arrive? {
      UserKeepsTurn(msg, step);
    } else if msg.agent.value.turnId == step.event.turnId {
      RefusedForScopeExactly(msg, step.event, step.at);
      if InScope(msg.agent.value.pins, step.event.scope) {
        InScopeOfFirst(first, msg.agent.value.pins, step.event.scope);
        ArrivalKeepsScope(first, msg, step.event, step.at);
      }
    }
  }

  lemma ArrivalKeepsScope(first: Pins, msg: ChatMessage, event: Event, at: int)
    requires Agrees(first, msg) && InScope(first, event.scope)
    ensures Agrees(first, Apply(msg, event, at)) && AllInScope(first, Folded(msg, Arrive(event, at)))
  {
    hide ReduceOrderedEvent, InScope, StillPinned, Drain, Drained, WrongScope;
    if FoldsNow(msg, event) {
      ReduceKeepsPinned(first, msg, event);
      DrainKeepsScope(first, ReduceOrderedEvent(msg, event));
    }
  }

  /**
   * No event enters the history that disagrees with what was pinned, and what is pinned stays pinned.
   * The run may start anywhere, provided that what is buffered there agrees.
   */
  lemma {:induction false} HistoryStaysInScope(msg: ChatMessage, steps: seq<Step>)
    requires msg.agent.Some? && BufferInScope(msg.agent.value.pins, msg.agent.value.pendingEvents)
    ensures TakeAll(msg, steps).agent.Some?
    ensures StillPinned(msg.agent.value.pins, TakeAll(msg, steps).agent.value.pins)
    ensures AllInScope(msg.agent.value.pins, History(msg, steps))
    ensures BufferInScope(msg.agent.value.pins, TakeAll(msg, steps).agent.value.pendingEvents)
  {
    hide Take, Folded, InScope;
    if steps != [] {
      var n := |steps| - 1;
      HistoryStaysInScope(msg, steps[..n]);
      TakeKeepsScope(msg.agent.value.pins, TakeAll(msg, steps[..n]), steps[n]);
    }
  }

  /** Every event folded arrived in the run, in scope of what was pinned when it arrived. */
  ghost predicate Admitted(msg: ChatMessage, steps: seq<Step>, event: Event) {
    exists m :: 0 <= m < |steps| && AdmittedAt(msg, steps, m, event)
  }

  ghost predicate AdmittedAt(msg: ChatMessage, steps: seq<Step>, m: nat, event: Event)
    requires m < |steps|
  {
    var met := TakeAll(msg, steps[..m]).agent;
    && steps[m].Arrive? && steps[m].event == event
    && met.Some? && met.value.turnId == event.turnId && InScope(met.value.pins, event.scope)
  }

  /** Buffered events and those of the history were all admitted. */
  ghost predicate AllAdmitted(msg: ChatMessage, steps: seq<Step>, now: ChatMessage, history: seq<Event>) {
    && now.agent.Some?
    && (forall s :: s in now.agent.value.pendingEvents ==> Admitted(msg, steps, now.agent.value.pendingEvents[s]))
    && (forall i :: 0 <= i < |history| ==> Admitted(msg, steps, history[i]))
  }

  lemma AdmittedLater(msg: ChatMessage, steps: seq<Step>, event: Event)
    requires steps != [] && Admitted(msg, steps[..|steps| - 1], event)
    ensures Admitted(msg, steps, event)
  {
    hide TakeAll, InScope;
    var n := |steps| - 1;
    var m :| 0 <= m < n && AdmittedAt(msg, steps[..n], m, event);
    assert steps[..n][..m] == steps[..m] && steps[..n][m] == steps[m];
    assert AdmittedAt(msg, steps, m, event);
  }

  /** Draining folds what was buffered, and nothing else. */
  lemma {:induction false} DrainedWasBuffered(msg: ChatMessage)
    requires msg.agent.Some?
    ensures forall i :: 0 <= i < |Drained(msg)| ==> Drained(msg)[i] in msg.agent.value.pendingEvents.Values
    ensures Drain(msg).agent.value.pendingEvents.Values <= msg.agent.value.pendingEvents.Values
    decreases |msg.agent.value.pendingEvents|
  {
    hide ReduceOrderedEvent;
    var s := msg.agent.value.lastSeq + 1;
    if s in msg.agent.value.pendingEvents {
      var event := msg.agent.value.pendingEvents[s];
      var thinner := WithoutPending(msg, s);
      assert thinner.agent.value.pendingEvents.Keys == msg.agent.value.pendingEvents.Keys - {s};
      assert thinner.agent.value.pendingEvents.Values <= msg.agent.value.pendingEvents.Values;
      SameBuffer(thinner, event);
      DrainedWasBuffered(ReduceOrderedEvent(thinner, event));
    }
  }

  /** Where an event folded or buffered by a step comes from. */
  ghost predicate FromHere(msg: ChatMessage, step: Step, event: Event)
    requires msg.agent.Some?
  {
    || event in msg.agent.value.pendingEvents.Values
    || (&& step.Arrive? && event == step.event && msg.agent.value.turnId == event.turnId
        && InScope(msg.agent.value.pins, event.scope))
  }

  lemma StepFoldsWhatIsHere(msg: ChatMessage, step: Step)
    requires msg.agent.Some?
    ensures Take(msg, step).agent.Some?
    ensures forall s :: s in Take(msg, step).agent.value.pendingEvents ==>
              FromHere(msg, step, Take(msg, step).agent.value.pendingEvents[s])
    ensures forall i :: 0 <= i < |Folded(msg, step)| ==> FromHere(msg, step, Folded(msg, step)[i])
  {
    hide ReduceOrderedEvent, InScope, Drain, Drained, WrongScope;
    if !step.Arrive? {
      UserKeepsTurn(msg, step);
    } else {
      ArrivalFoldsWhatIsHere(msg, step.event, step.at);
    }
  }

  lemma ArrivalFoldsWhatIsHere(msg: ChatMessage, event: Event, at: int)
    requires msg.agent.Some?
    ensures var step := Arrive(event, at);
            && Apply(msg, event, at).agent.Some?
            && (forall s :: s in Apply(msg, event, at).agent.value.pendingEvents ==>
                  FromHere(msg, step, Apply(msg, event, at).agent.value.pendingEvents[s]))
            && (forall i :: 0 <= i < |Folded(msg, step)| ==> FromHere(msg, step, Folded(msg, step)[i]))
  {
    hide ReduceOrderedEvent, InScope, Drain, Drained, WrongScope;
    if msg.agent.value.turnId == event.turnId {
      RefusedForScopeExactly(msg, event, at);
      if FoldsNow(msg, event) {
        SameBuffer(msg, event);
        DrainedWasBuffered(ReduceOrderedEvent(msg, event));
      }
    }
  }

  lemma StepKeepsAdmitted(msg: ChatMessage, steps: seq<Step>)
    requires steps != []
    requires var n := |steps| - 1;
             AllAdmitted(msg, steps[..n], TakeAll(msg, steps[..n]), History(msg, steps[..n]))
    ensures AllAdmitted(msg, steps, TakeAll(msg, steps), History(msg, steps))
  {
    hide Take, Folded, InScope, Admitted;
    var n := |steps| - 1;
    var met := TakeAll(msg, steps[..n]);
    StepFoldsWhatIsHere(met, steps[n]);
    forall event | FromHere(met, steps[n], event) ensures Admitted(msg, steps, event) {
      HereIsAdmitted(msg, steps, event);
    }
    forall i | 0 <= i < |History(msg, steps[..n])| ensures Admitted(msg, steps, History(msg, steps[..n])[i]) {
      AdmittedLater(msg, steps, History(msg, steps[..n])[i]);
    }
  }

  lemma HereIsAdmitted(msg: ChatMessage, steps: seq<Step>, event: Event)
    requires steps != []
    requires var n := |steps| - 1;
             && AllAdmitted(msg, steps[..n], TakeAll(msg, steps[..n]), History(msg, steps[..n]))
             && FromHere(TakeAll(msg, steps[..n]), steps[n], event)
    ensures Admitted(msg, steps, event)
  {
    hide TakeAll, InScope, History;
    var n := |steps| - 1;
    if event in TakeAll(msg, steps[..n]).agent.value.pendingEvents.Values {
      assert Admitted(msg, steps[..n], event);
      AdmittedLater(msg, steps, event);
    } else {
      assert AdmittedAt(msg, steps, n, event);
    }
  }

  /** Every event of a run's history arrived in it, for this turn and in scope of what was then pinned. */
  lemma {:induction false} HistoryWasAdmitted(msg: ChatMessage, steps: seq<Step>)
    requires Blank(msg)
    ensures TakeAll(msg, steps).agent.Some?
    ensures forall i :: 0 <= i < |History(msg, steps)| ==> Admitted(msg, steps, History(msg, steps)[i])
  {
    HistoryIsAllAdmitted(msg, steps);
  }

  lemma {:induction false} HistoryIsAllAdmitted(msg: ChatMessage, steps: seq<Step>)
    requires Blank(msg)
    ensures AllAdmitted(msg, steps, TakeAll(msg, steps), History(msg, steps))
  {
    hide Take, Folded, InScope, Admitted;
    if steps != [] {
      HistoryIsAllAdmitted(msg, steps[..|steps| - 1]);
      StepKeepsAdmitted(msg, steps);
    }
  }

  /** A start event that fills the gap pins its own session; what waited behind it is not looked at again. */
  lemma BufferedEventsAreNotCheckedAgain(msg: ChatMessage, start: Event, early: Event)
    requires Blank(msg) && msg.agent.value.lastSeq == -1 && msg.agent.value.seenEventIds == []
    requires msg.agent.value.pins == Pins(None, None, None, None, None, None, None)
    requires start.payload.TurnStarted? && start.sequence == 0 && early.sequence == 1
    requires start.turnId == early.turnId == msg.agent.value.turnId
    requires start.scope.mcpSessionId != early.scope.mcpSessionId && !early.payload.TurnStarted?
    ensures var steps := [Arrive(early, 0), Arrive(start, 1)];
            && History(msg, steps) == [start, early]
            && TakeAll(msg, steps).agent.Some?
            && !InScope(TakeAll(msg, steps).agent.value.pins, early.scope)
  {
    var first, second := Arrive(early, 0), Arrive(start, 1);
    TwoSteps(msg, first, second);
    EarlyWaits(msg, early);
    FillerDrains(Take(msg, first), start, early);
  }

  lemma TwoSteps(msg: ChatMessage, first: Step, second: Step)
    ensures TakeAll(msg, [first, second]) == Take(Take(msg, first), second)
    ensures History(msg, [first, second]) == Folded(msg, first) + Folded(Take(msg, first), second)
  {
    hide Take, Folded;
    assert [first, second][..1] == [first] && [first][..0] == [];
    assert TakeAll(msg, []) == msg && History(msg, []) == [];
  }

  lemma EarlyWaits(msg: ChatMessage, early: Event)
    requires msg.agent.Some? && msg.agent.value.lastSeq == -1 && msg.agent.value.seenEventIds == []
    requires msg.agent.value.pendingEvents == map[] && early.sequence == 1 && early.turnId == msg.agent.value.turnId
    requires msg.agent.value.pins == Pins(None, None, None, None, None, None, None)
    ensures Folded(msg, Arrive(early, 0)) == []
    ensures var waiting := Take(msg, Arrive(early, 0));
            && waiting.agent.Some? && waiting.agent.value.pendingEvents == map[1 := early]
            && waiting.agent.value == msg.agent.value.(pendingEvents := waiting.agent.value.pendingEvents,
                                                       gapStartedAt := waiting.agent.value.gapStartedAt)
  {
    hide ReduceOrderedEvent, Drain, Drained;
  }

  lemma FillerDrains(waiting: ChatMessage, start: Event, early: Event)
    requires waiting.agent.Some? && waiting.agent.value.lastSeq == -1 && waiting.agent.value.seenEventIds == []
    requires waiting.agent.value.pins == Pins(None, None, None, None, None, None, None)
    requires waiting.agent.value.pendingEvents == map[1 := early]
    requires start.payload.TurnStarted? && start.sequence == 0 && start.turnId == waiting.agent.value.turnId
    requires early.sequence == 1 && !early.payload.TurnStarted?
    requires start.scope.mcpSessionId != early.scope.mcpSessionId
    ensures Folded(waiting, Arrive(start, 1)) == [start, early]
    ensures var after := Take(waiting, Arrive(start, 1)).agent; after.Some? && !InScope(after.value.pins, early.scope)
  {
    hide NextReport, NextTrace, NextConfirms, NextPresentation, NextStatus, NextContent;
    var started := ReduceOrderedEvent(waiting, start);
    var thinner := WithoutPending(started, 1);
    assert thinner.agent.value.pendingEvents == map[];
    var done := ReduceOrderedEvent(thinner, early);
    assert Drain(started) == Drain(done) == done;
    assert Drained(started) == [early] + Drained(done);
  }

  /** The watchdog fails the turn exactly when a gap, opened at any instant but zero, is 5000 ms old. */
  lemma WatchdogFiresExactly(msg: ChatMessage, now: int)
    ensures var after := Take(msg, Watchdog(now));
            var due := msg.agent.Some? && msg.agent.value.gapStartedAt.Some?
                       && msg.agent.value.gapStartedAt.value != 0 && now >= msg.agent.value.gapStartedAt.value + 5000;
            && (!due ==> after == msg)
            && (due ==> after.agent == Some(msg.agent.value.(status := Failed,
                                                             protocolError := Some("protocol_gap_timeout")))
                        && after.content == msg.content && after.visualization == msg.visualization)
  {
  }
}
