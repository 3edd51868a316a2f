/**
 * Confluence of the reorder buffer. The events of one turn form a log, indexed by
 * sequence; arrivals are any list of log indices, in any order and with any duplicates.
 */
module AgentConfluence {
  import opened Options
  import opened AgentTurn

  /** A message with the reorder buffer hidden: everything the user can see. */
  function Visible(msg: ChatMessage): ChatMessage {
    if msg.agent.None? then msg
    else msg.(agent := Some(msg.agent.value.(pendingEvents := map[], gapStartedAt := None)))
  }

  /** The reference: fold the events strictly in order. */
  function Fold(msg: ChatMessage, events: seq<Event>): (r: ChatMessage)
    requires msg.agent.Some?
    ensures r.agent.Some?
  {
    if events == [] then msg
    else ReduceOrderedEvent(Fold(msg, events[..|events| - 1]), events[|events| - 1])
  }

  /** Folding neither reads nor changes the buffer. */
  lemma ReduceIgnoresBuffer(msg: ChatMessage, event: Event)
    requires msg.agent.Some?
    ensures Visible(ReduceOrderedEvent(msg, event)) == ReduceOrderedEvent(Visible(msg), event)
  {
    assert Visible(ReduceOrderedEvent(msg, event)).agent == ReduceOrderedEvent(Visible(msg), event).agent;
  }

  // ---------------------------------------------------------------------------
  // Logs, arrivals and what has been received
  // ---------------------------------------------------------------------------

  predicate Pinned(field: Option<string>, actual: string) {
    field == None || field == Some(actual)
  }

  predicate InScope(pins: Pins, scope: EventScope) {
    && Pinned(pins.admittedContextFingerprint, scope.admittedContextFingerprint)
    && Pinned(pins.runtimeId, scope.runtimeId)
    && Pinned(pins.taskId, scope.taskId)
    && Pinned(pins.workspaceId, scope.workspaceId)
    && Pinned(pins.mcpSessionId, scope.mcpSessionId)
    && Pinned(pins.subjectScopeHash, scope.subjectScopeHash)
    && Pinned(pins.runtimeSessionId, scope.runtimeSessionId)
  }

  /** A bound turn no event has reached yet. */
  predicate Fresh(msg: ChatMessage) {
    && msg.agent.Some?
    && msg.agent.value.lastSeq == -1
    && msg.agent.value.seenEventIds == []
    && msg.agent.value.pendingEvents == map[]
    && msg.agent.value.gapStartedAt == None
    && msg.agent.value.protocolError == None
  }

  /** One event per sequence from 0, distinct ids, one scope, all for this turn. */
  ghost predicate LogFor(msg: ChatMessage, log: seq<Event>, scope: EventScope) {
    && Fresh(msg)
    && InScope(msg.agent.value.pins, scope)
    && (forall i :: 0 <= i < |log| ==>
          log[i].sequence == i && log[i].scope == scope && log[i].turnId == msg.agent.value.turnId)
    && (forall i, j :: 0 <= i < j < |log| ==> log[i].eventId != log[j].eventId)
  }

  datatype Arrival = Arrival(index: nat, at: int)

  predicate From(arrivals: seq<Arrival>, log: seq<Event>) {
    forall k :: 0 <= k < |arrivals| ==> arrivals[k].index < |log|
  }

  function Run(msg: ChatMessage, log: seq<Event>, arrivals: seq<Arrival>): ChatMessage
    requires From(arrivals, log)
  {
    if arrivals == [] then msg
    else
      var last := arrivals[|arrivals| - 1];
      Apply(Run(msg, log, arrivals[..|arrivals| - 1]), log[last.index], last.at)
  }

  function Received(arrivals: seq<Arrival>): set<nat> {
    set k | 0 <= k < |arrivals| :: arrivals[k].index
  }

  /** The length of the longest contiguous prefix received, counting from `from`. */
  function PrefixEnd(received: set<nat>, from: nat): (n: nat)
    ensures n >= from && n !in received && forall i :: from <= i < n ==> i in received
    decreases |set i | i in received && i >= from|
  {
    if from !in received then from
    else
      assert (set i | i in received && i >= from + 1) == (set i | i in received && i >= from) - {from};
      PrefixEnd(received, from + 1)
  }

  /** What lies beyond the first gap. */
  function BeyondGap(received: set<nat>): (r: set<nat>)
    ensures r <= received
  {
    set i | i in received && i > PrefixEnd(received, 0)
  }

  /** No arrival beyond the gap finds 64 events already waiting there. */
  predicate NeverOverflows(arrivals: seq<Arrival>) {
    forall k :: 0 <= k < |arrivals| ==> Fits(arrivals[..k], arrivals[k].index)
  }

  predicate Fits(before: seq<Arrival>, index: nat) {
    index > PrefixEnd(Received(before), 0) ==> |BeyondGap(Received(before))| < REORDER_BUFFER_MAX
  }

  function Waiting(log: seq<Event>, indices: set<nat>): map<nat, Event>
    requires forall i :: i in indices ==> i < |log|
  {
    map i | i in indices :: log[i]
  }

  // ---------------------------------------------------------------------------
  // The simulation
  // ---------------------------------------------------------------------------

  /** `msg` has folded exactly `log[..p]`, and its scope and id history are as they should be. */
  ghost predicate Tracks(start: ChatMessage, msg: ChatMessage, log: seq<Event>, scope: EventScope, p: nat)
    requires start.agent.Some?
  {
    && p <= |log|
    && msg.agent.Some?
    && Visible(msg) == Fold(Visible(start), log[..p])
    && msg.agent.value.lastSeq == p - 1
    && msg.agent.value.turnId == start.agent.value.turnId
    && msg.agent.value.protocolError == None
    && InScope(msg.agent.value.pins, scope)
    && (forall id :: id in msg.agent.value.seenEventIds ==> exists i :: 0 <= i < p && log[i].eventId == id)
  }

  /** The claim about a message after any arrivals. */
  ghost predicate Canonical(start: ChatMessage, msg: ChatMessage, log: seq<Event>, scope: EventScope,
                            received: set<nat>)
    requires start.agent.Some?
    requires forall i :: i in received ==> i < |log|
  {
    && Tracks(start, msg, log, scope, PrefixEnd(received, 0))
    && msg.agent.value.pendingEvents == Waiting(log, BeyondGap(received))
    && (msg.agent.value.gapStartedAt.Some? <==> BeyondGap(received) != {})
  }

  lemma ReduceTracks(start: ChatMessage, msg: ChatMessage, log: seq<Event>, scope: EventScope, p: nat)
    requires LogFor(start, log, scope)
    requires Tracks(start, msg, log, scope, p) && p < |log|
    ensures Tracks(start, ReduceOrderedEvent(msg, log[p]), log, scope, p + 1)
  {
    ReduceIgnoresBuffer(msg, log[p]);
    assert log[..p + 1][..p] == log[..p];
    var r := ReduceOrderedEvent(msg, log[p]).agent.value;
    forall id | id in r.seenEventIds ensures exists i :: 0 <= i < p + 1 && log[i].eventId == id {
      assert r.seenEventIds == Tail(msg.agent.value.seenEventIds + [log[p].eventId], ID_HISTORY_MAX);
      assert id in msg.agent.value.seenEventIds + [log[p].eventId];
      if id !in msg.agent.value.seenEventIds {
        assert id == log[p].eventId;
      }
    }
  }

  /** Draining folds on to the end of the contiguous prefix and leaves the rest waiting. */
  lemma {:induction false} DrainReachesGap(start: ChatMessage, msg: ChatMessage, log: seq<Event>, scope: EventScope,
                                           received: set<nat>, p: nat)
    requires LogFor(start, log, scope)
    requires forall i :: i in received ==> i < |log|
    requires Tracks(start, msg, log, scope, p)
    requires forall i :: 0 <= i < p ==> i in received
    requires msg.agent.value.pendingEvents == Waiting(log, set i | i in received && i >= p)
    ensures Tracks(start, Drain(msg), log, scope, PrefixEnd(received, 0))
    ensures Drain(msg).agent.value.pendingEvents == Waiting(log, BeyondGap(received))
    ensures Drain(msg).agent.value.gapStartedAt == msg.agent.value.gapStartedAt
    decreases |log| - p
  {
    hide ReduceOrderedEvent, Fold;
    var end := PrefixEnd(received, 0);
    if p in received {
      var thinner := WithoutPending(msg, p);
      assert Visible(thinner) == Visible(msg);
      ReduceTracks(start, thinner, log, scope, p);
      var next := ReduceOrderedEvent(thinner, log[p]);
      assert next.agent.value.pendingEvents == Waiting(log, set i | i in received && i >= p + 1);
      DrainReachesGap(start, next, log, scope, received, p + 1);
    } else {
      assert end == p;
      assert (set i | i in received && i >= p) == BeyondGap(received);
    }
  }

  lemma TracksIgnoresBuffer(start: ChatMessage, msg: ChatMessage, other: ChatMessage, log: seq<Event>,
                            scope: EventScope, p: nat)
    requires start.agent.Some? && Tracks(start, msg, log, scope, p)
    requires other.agent.Some? && Visible(other) == Visible(msg)
    ensures Tracks(start, other, log, scope, p)
  {
    hide Fold;
    var a, b := Visible(msg).agent.value, Visible(other).agent.value;
    assert a.lastSeq == b.lastSeq && a.turnId == b.turnId && a.pins == b.pins;
  }

  /** Buffering an event that came early changes the buffer and nothing else. */
  lemma EarlyEventWaits(msg: ChatMessage, event: Event, at: int)
    requires msg.agent.Some? && msg.agent.value.turnId == event.turnId && !WrongScope(msg.agent.value, event)
    requires event.eventId !in msg.agent.value.seenEventIds && event.sequence > msg.agent.value.lastSeq + 1
    requires |msg.agent.value.pendingEvents| < REORDER_BUFFER_MAX
    ensures var r := Apply(msg, event, at);
            && r.agent.Some? && Visible(r) == Visible(msg)
            && r.agent.value.pendingEvents == msg.agent.value.pendingEvents[event.sequence := event]
            && r.agent.value.gapStartedAt.Some?
  {
    hide ReduceOrderedEvent, WrongScope, Drain;
  }

  /** An event of the log that was not folded yet passes every check of the arrival handler. */
  lemma EventPassesChecks(start: ChatMessage, msg: ChatMessage, log: seq<Event>, scope: EventScope, p: nat, i: nat)
    requires LogFor(start, log, scope) && p <= i < |log| && Tracks(start, msg, log, scope, p)
    ensures msg.agent.Some? && msg.agent.value.turnId == log[i].turnId && !WrongScope(msg.agent.value, log[i])
    ensures log[i].eventId !in msg.agent.value.seenEventIds
    ensures log[i].sequence == i && msg.agent.value.lastSeq == p - 1
  {
    hide Fold, Visible;
    NoFalseDuplicate(start, msg, log, scope, p, i);
  }

  lemma InOrderEventFolds(msg: ChatMessage, event: Event, at: int)
    requires msg.agent.Some? && msg.agent.value.turnId == event.turnId && !WrongScope(msg.agent.value, event)
    requires event.eventId !in msg.agent.value.seenEventIds && event.sequence == msg.agent.value.lastSeq + 1
    ensures Apply(msg, event, at) == ClearGap(Drain(ReduceOrderedEvent(msg, event)))
  {
    hide ReduceOrderedEvent, WrongScope, Drain, ClearGap;
  }

  lemma GapCleared(msg: ChatMessage)
    requires msg.agent.Some?
    ensures ClearGap(msg).agent.Some? && Visible(ClearGap(msg)) == Visible(msg)
    ensures ClearGap(msg).agent.value.pendingEvents == msg.agent.value.pendingEvents
    ensures ClearGap(msg).agent.value.gapStartedAt.Some? <==>
            msg.agent.value.gapStartedAt.Some? && msg.agent.value.pendingEvents != map[]
  {
  }

  /** The next event in order: fold it, then drain. */
  lemma InOrderArrival(start: ChatMessage, msg: ChatMessage, log: seq<Event>, scope: EventScope,
                       received: set<nat>, at: int)
    requires LogFor(start, log, scope)
    requires forall i :: i in received ==> i < |log|
    requires Canonical(start, msg, log, scope, received)
    requires PrefixEnd(received, 0) < |log|
    ensures var p := PrefixEnd(received, 0);
            Canonical(start, Apply(msg, log[p], at), log, scope, received + {p})
  {
    hide ReduceOrderedEvent, Fold, Drain, ClearGap, Apply, WrongScope, Visible;
    var p := PrefixEnd(received, 0);
    var more := received + {p};
    EventPassesChecks(start, msg, log, scope, p, p);
    InOrderEventFolds(msg, log[p], at);
    ReduceTracks(start, msg, log, scope, p);
    var reduced := ReduceOrderedEvent(msg, log[p]);
    SameBuffer(msg, log[p]);
    assert (set i | i in more && i >= p + 1) == BeyondGap(received);
    DrainReachesGap(start, reduced, log, scope, more, p + 1);
    var drained := Drain(reduced);
    GapCleared(drained);
    TracksIgnoresBuffer(start, drained, ClearGap(drained), log, scope, PrefixEnd(more, 0));
    hide Tracks, LogFor;
    assert drained.agent.value.pendingEvents.Keys == BeyondGap(more);
    assert BeyondGap(more) <= BeyondGap(received);
  }

  /** An event beyond the gap, with room for it: wait. */
  lemma EarlyArrival(start: ChatMessage, msg: ChatMessage, log: seq<Event>, scope: EventScope,
                     received: set<nat>, arrival: Arrival)
    requires LogFor(start, log, scope) && arrival.index < |log|
    requires forall i :: i in received ==> i < |log|
    requires Canonical(start, msg, log, scope, received)
    requires arrival.index > PrefixEnd(received, 0)
    requires |BeyondGap(received)| < REORDER_BUFFER_MAX
    ensures Canonical(start, Apply(msg, log[arrival.index], arrival.at), log, scope, received + {arrival.index})
  {
    hide Fold, PrefixEnd, BeyondGap, Apply, WrongScope, Visible, Tracks;
    var more, p := received + {arrival.index}, PrefixEnd(received, 0);
    EventPassesChecks(start, msg, log, scope, p, arrival.index);
    hide LogFor;
    BeyondGapGrows(received, arrival.index);
    assert msg.agent.value.pendingEvents.Keys == BeyondGap(received);
    EarlyEventWaits(msg, log[arrival.index], arrival.at);
    var r := Apply(msg, log[arrival.index], arrival.at);
    TracksIgnoresBuffer(start, msg, r, log, scope, p);
    assert r.agent.value.pendingEvents == Waiting(log, BeyondGap(more));
  }

  /** One arrival keeps the claim, unless it overflows the buffer. */
  lemma ArrivalKeepsCanonical(start: ChatMessage, msg: ChatMessage, log: seq<Event>, scope: EventScope,
                              received: set<nat>, arrival: Arrival)
    requires LogFor(start, log, scope) && arrival.index < |log|
    requires forall i :: i in received ==> i < |log|
    requires Canonical(start, msg, log, scope, received)
    requires arrival.index > PrefixEnd(received, 0) ==> |BeyondGap(received)| < REORDER_BUFFER_MAX
    ensures Canonical(start, Apply(msg, log[arrival.index], arrival.at), log, scope, received + {arrival.index})
  {
    if arrival.index < PrefixEnd(received, 0) {
      hide ReduceOrderedEvent, Fold, Drain;
      assert received + {arrival.index} == received;
    } else if arrival.index == PrefixEnd(received, 0) {
      InOrderArrival(start, msg, log, scope, received, arrival.at);
    } else {
      EarlyArrival(start, msg, log, scope, received, arrival);
    }
  }

  lemma NoFalseDuplicate(start: ChatMessage, msg: ChatMessage, log: seq<Event>, scope: EventScope, p: nat, i: nat)
    requires LogFor(start, log, scope) && i < |log|
    requires Tracks(start, msg, log, scope, p) && i >= p
    ensures log[i].eventId !in msg.agent.value.seenEventIds
  {
    assert forall j :: 0 <= j < p ==> log[j].eventId != log[i].eventId;
  }

  lemma {:induction false} PrefixUnchanged(received: set<nat>, extra: nat, from: nat)
    requires extra > PrefixEnd(received, from)
    ensures PrefixEnd(received + {extra}, from) == PrefixEnd(received, from)
    decreases extra - from
  {
    if from in received {
      PrefixUnchanged(received, extra, from + 1);
    }
  }

  lemma BeyondGapGrows(received: set<nat>, extra: nat)
    requires extra > PrefixEnd(received, 0)
    ensures PrefixEnd(received + {extra}, 0) == PrefixEnd(received, 0)
    ensures BeyondGap(received + {extra}) == BeyondGap(received) + {extra}
  {
    PrefixUnchanged(received, extra, 0);
  }

  lemma ReceivedStep(arrivals: seq<Arrival>)
    requires arrivals != []
    ensures Received(arrivals) == Received(arrivals[..|arrivals| - 1]) + {arrivals[|arrivals| - 1].index}
  {
    var n := |arrivals| - 1;
    forall i | i in Received(arrivals) ensures i in Received(arrivals[..n]) + {arrivals[n].index} {
      var k :| 0 <= k < |arrivals| && arrivals[k].index == i;
      if k < n { assert arrivals[..n][k].index == i; }
    }
    forall i | i in Received(arrivals[..n]) + {arrivals[n].index} ensures i in Received(arrivals) {
      if i != arrivals[n].index {
        var k :| 0 <= k < n && arrivals[..n][k].index == i;
        assert arrivals[k].index == i;
      }
    }
  }

  lemma NeverOverflowsPrefix(arrivals: seq<Arrival>)
    requires arrivals != []
    ensures NeverOverflows(arrivals) <==> NeverOverflows(arrivals[..|arrivals| - 1])
                                          && Fits(arrivals[..|arrivals| - 1], arrivals[|arrivals| - 1].index)
  {
    var n := |arrivals| - 1;
    assert forall k :: 0 <= k < n ==> arrivals[..n][..k] == arrivals[..k] && arrivals[..n][k] == arrivals[k];
    if NeverOverflows(arrivals) {
      forall k | 0 <= k < n ensures Fits(arrivals[..n][..k], arrivals[..n][k].index) {
        assert Fits(arrivals[..k], arrivals[k].index);
      }
      assert Fits(arrivals[..n], arrivals[n].index);
    }
    if NeverOverflows(arrivals[..n]) && Fits(arrivals[..n], arrivals[n].index) {
      forall k | 0 <= k < |arrivals| ensures Fits(arrivals[..k], arrivals[k].index) {
        if k < n { assert Fits(arrivals[..n][..k], arrivals[..n][k].index); }
      }
    }
  }

  /**
   * After any arrivals that do not overflow the buffer, the turn has folded exactly the longest
   * contiguous prefix received, in order, and what waits is exactly what lies beyond the gap.
   */
  lemma {:induction false} ArrivalsFoldThePrefix(start: ChatMessage, log: seq<Event>, scope: EventScope,
                                                 arrivals: seq<Arrival>)
    requires LogFor(start, log, scope) && From(arrivals, log) && NeverOverflows(arrivals)
    ensures var received := Received(arrivals);
            var msg := Run(start, log, arrivals);
            var end := PrefixEnd(received, 0);
            && msg.agent.Some? && end <= |log|
            && msg.agent.value.lastSeq == end - 1
            && Visible(msg) == Fold(Visible(start), log[..end])
            && msg.agent.value.pendingEvents.Keys == BeyondGap(received)
            && (forall i :: i in msg.agent.value.pendingEvents ==>
                  i < |log| && msg.agent.value.pendingEvents[i] == log[i])
            && (msg.agent.value.gapStartedAt.Some? <==> msg.agent.value.pendingEvents != map[])
  {
    ArrivalsAreCanonical(start, log, scope, arrivals);
    var received := Received(arrivals);
  }

  lemma {:induction false} ArrivalsAreCanonical(start: ChatMessage, log: seq<Event>, scope: EventScope,
                                                arrivals: seq<Arrival>)
    requires LogFor(start, log, scope) && From(arrivals, log) && NeverOverflows(arrivals)
    ensures Canonical(start, Run(start, log, arrivals), log, scope, Received(arrivals))
  {
    if arrivals == [] {
      assert log[..0] == [];
      assert Received(arrivals) == {};
      assert BeyondGap({}) == {};
      assert Waiting(log, {}) == map[];
    } else {
      var n := |arrivals| - 1;
      NeverOverflowsPrefix(arrivals);
      ArrivalsAreCanonical(start, log, scope, arrivals[..n]);
      ReceivedStep(arrivals);
      ArrivalKeepsCanonical(start, Run(start, log, arrivals[..n]), log, scope, Received(arrivals[..n]), arrivals[n]);
    }
  }

  /** Two deliveries of the same events, in whatever order and multiplicity, look the same. */
  lemma DeliveryOrderDoesNotMatter(start: ChatMessage, log: seq<Event>, scope: EventScope,
                                   first: seq<Arrival>, second: seq<Arrival>)
    requires LogFor(start, log, scope) && From(first, log) && From(second, log)
    requires NeverOverflows(first) && NeverOverflows(second)
    requires Received(first) == Received(second)
    ensures Visible(Run(start, log, first)) == Visible(Run(start, log, second))
    ensures Run(start, log, first).agent.Some? && Run(start, log, second).agent.Some?
    ensures Run(start, log, first).agent.value.pendingEvents == Run(start, log, second).agent.value.pendingEvents
  {
    ArrivalsAreCanonical(start, log, scope, first);
    ArrivalsAreCanonical(start, log, scope, second);
  }

  /** Once a protocol error is shown, no arrival takes it away. */
  lemma {:induction false} DrainKeepsProtocolError(msg: ChatMessage)
    requires msg.agent.Some?
    ensures Drain(msg).agent.value.protocolError == msg.agent.value.protocolError
    decreases |msg.agent.value.pendingEvents|
  {
    var s := msg.agent.value.lastSeq + 1;
    if s in msg.agent.value.pendingEvents {
      assert (msg.agent.value.pendingEvents - {s}).Keys == msg.agent.value.pendingEvents.Keys - {s};
      DrainKeepsProtocolError(ReduceOrderedEvent(WithoutPending(msg, s), msg.agent.value.pendingEvents[s]));
    }
  }

  lemma {:induction false} ProtocolErrorStays(start: ChatMessage, log: seq<Event>, arrivals: seq<Arrival>, k: nat)
    requires From(arrivals, log) && k <= |arrivals| && start.agent.Some?
    requires Run(start, log, arrivals[..k]).agent.Some?
    requires Run(start, log, arrivals[..k]).agent.value.protocolError.Some?
    ensures Run(start, log, arrivals).agent.Some? && Run(start, log, arrivals).agent.value.protocolError.Some?
    decreases |arrivals| - k
  {
    hide ReduceOrderedEvent, Drain;
    if k == |arrivals| {
      assert arrivals[..k] == arrivals;
    } else {
      var msg := Run(start, log, arrivals[..k]);
      var event := log[arrivals[k].index];
      assert arrivals[..k + 1][..k] == arrivals[..k];
      DrainKeepsProtocolError(ReduceOrderedEvent(msg, event));
      ProtocolErrorStays(start, log, arrivals, k + 1);
    }
  }

  lemma FullBufferRefuses(start: ChatMessage, msg: ChatMessage, log: seq<Event>, scope: EventScope,
                          received: set<nat>, arrival: Arrival)
    requires LogFor(start, log, scope) && arrival.index < |log|
    requires forall i :: i in received ==> i < |log|
    requires Canonical(start, msg, log, scope, received)
    requires arrival.index > PrefixEnd(received, 0)
    requires |BeyondGap(received)| >= REORDER_BUFFER_MAX
    ensures Apply(msg, log[arrival.index], arrival.at) == FailProtocol(msg, "protocol_buffer_exceeded")
  {
    hide ReduceOrderedEvent, Fold, Drain;
    NoFalseDuplicate(start, msg, log, scope, PrefixEnd(received, 0), arrival.index);
    assert msg.agent.value.pendingEvents.Keys == BeyondGap(received);
  }

  /** The overflow error is reported exactly when some arrival finds 64 events waiting beyond the gap. */
  lemma {:induction false} OverflowReportedExactly(start: ChatMessage, log: seq<Event>, scope: EventScope,
                                                   arrivals: seq<Arrival>)
    requires LogFor(start, log, scope) && From(arrivals, log)
    ensures Run(start, log, arrivals).agent.Some?
    ensures Run(start, log, arrivals).agent.value.protocolError.None? <==> NeverOverflows(arrivals)
  {
    hide ReduceOrderedEvent, Drain, Fold;
    if arrivals != [] {
      var n := |arrivals| - 1;
      OverflowReportedExactly(start, log, scope, arrivals[..n]);
      NeverOverflowsPrefix(arrivals);
      if NeverOverflows(arrivals) {
        ArrivalsAreCanonical(start, log, scope, arrivals);
      } else if NeverOverflows(arrivals[..n]) {
        ArrivalsAreCanonical(start, log, scope, arrivals[..n]);
        FullBufferRefuses(start, Run(start, log, arrivals[..n]), log, scope, Received(arrivals[..n]), arrivals[n]);
      } else {
        ProtocolErrorStays(start, log, arrivals, n);
      }
    }
  }
}
