/**
 * The claim protocol over whole runs: any number of instances share the tables, the clock
 * advances, instances crash, and their transactions interleave in any order.
 */
module JobProtocol {
  import opened Options
  import opened JobRepository
  import opened JobRows

  datatype Call =
    | Admitting(request: Request, newJobId: string)
    | Reconciling(profile: string)
    | Beating(jobId: string)
    | Updating(jobId: string, update: OwnerCall)

  datatype Step = Tick(ms: nat) | Crash(instanceId: string) | Do(instanceId: string, call: Call)

  datatype World = World(tables: Tables, now: int, crashed: set<string>)

  function CallerIn(world: World, instanceId: string): Caller {
    Caller(instanceId, None, world.now)
  }

  function TablesAfter(tables: Tables, caller: Caller, call: Call): Tables {
    match call
    case Admitting(request, newJobId) => AdmitOn(tables, caller, request, newJobId).tables
    case Reconciling(profile) => Reconcile(tables, caller, profile)
    case Beating(jobId) => HeartbeatOn(tables, caller, jobId).0
    case Updating(jobId, update) => OwnerUpdate(tables, caller, jobId, update).tables
  }

  function Next(world: World, step: Step): World {
    match step
    case Tick(ms) => world.(now := world.now + ms)
    case Crash(instanceId) => world.(crashed := world.crashed + {instanceId})
    case Do(instanceId, call) =>
      if instanceId in world.crashed then world
      else world.(tables := TablesAfter(world.tables, CallerIn(world, instanceId), call))
  }

  function Run(world: World, steps: seq<Step>): World
    decreases |steps|
  {
    if steps == [] then world else Run(Next(world, steps[0]), steps[1..])
  }

  // ---------------------------------------------------------------------------
  // At most one active job
  // ---------------------------------------------------------------------------

  predicate AtMostOneActive(tables: Tables) {
    forall a, b | a in tables.jobs && b in tables.jobs
      :: (IsActive(tables.jobs[a].state) && IsActive(tables.jobs[b].state)
          && tables.jobs[a].profile == tables.jobs[b].profile) ==> a == b
  }

  lemma CallKeepsAtMostOneActive(tables: Tables, caller: Caller, call: Call)
    requires AtMostOneActive(tables)
    ensures AtMostOneActive(TablesAfter(tables, caller, call))
  {
    if call.Admitting? {
      var reconciled := Reconcile(tables, caller, call.request.profile);
      assert AtMostOneActive(reconciled);
      if ActiveIds(reconciled, call.request.profile) == {} {
        assert forall id :: id in reconciled.jobs && reconciled.jobs[id].profile == call.request.profile ==>
                 id !in ActiveIds(reconciled, call.request.profile);
      }
    }
  }

  /** Under every interleaving, each profile has at most one active job, without any database index. */
  lemma {:induction false} RunsKeepAtMostOneActive(world: World, steps: seq<Step>)
    requires AtMostOneActive(world.tables)
    ensures AtMostOneActive(Run(world, steps).tables)
    decreases |steps|
  {
    if steps != [] {
      if steps[0].Do? {
        CallKeepsAtMostOneActive(world.tables, CallerIn(world, steps[0].instanceId), steps[0].call);
      }
      RunsKeepAtMostOneActive(Next(world, steps[0]), steps[1..]);
    }
  }

  // ---------------------------------------------------------------------------
  // Who may change a row
  // ---------------------------------------------------------------------------

  /** Whether a foreign step would reclaim the row: it reconciles the row's profile past the cutoff. */
  predicate Reconciles(call: Call, profile: string) {
    (call.Admitting? && call.request.profile == profile) || (call.Reconciling? && call.profile == profile)
  }

  /**
   * A step keeps every row, and changes one only if it was active and either its own owner
   * asked for it by name, or another instance reclaimed it for silence.
   */
  lemma RowsChangeOnlyByOwnerOrReclaim(world: World, step: Step, id: string)
    requires id in world.tables.jobs
    ensures id in Next(world, step).tables.jobs
    ensures var row, row' := world.tables.jobs[id], Next(world, step).tables.jobs[id];
            row' != row ==>
              && IsActive(row.state) && step.Do? && step.instanceId !in world.crashed
              && row'.ownerInstanceId == row.ownerInstanceId && row'.profile == row.profile
              && if step.instanceId == row.ownerInstanceId then
                   (step.call.Beating? || step.call.Updating?) && step.call.jobId == id
                 else
                   && Reconciles(step.call, row.profile)
                   && world.now - row.heartbeatAt > HEARTBEAT_STALE_AFTER_MS
                   && IsInterrupted(row, row', world.now)
  {
    hide Blames, OwnerPublished, IsNew, Claimable, AdmitOn, Reconcile, HeartbeatOn, OwnerUpdate, IsLogTail;
    if step.Do? && step.instanceId !in world.crashed {
      var caller := CallerIn(world, step.instanceId);
      match step.call {
        case Admitting(request, newJobId) => AdmissionCommitsExactly(world.tables, caller, request, newJobId);
        case Reconciling(profile) => ReconcileInterrupts(world.tables, caller, profile);
        case Beating(jobId) => HeartbeatCommitsExactly(world.tables, caller, jobId);
        case Updating(jobId, update) => OwnerCallCommitsExactly(world.tables, caller, jobId, update);
      }
    }
  }

  /** A terminal row is the same row in every later state. */
  lemma {:induction false} TerminalRowsAreFrozen(world: World, steps: seq<Step>, id: string)
    requires id in world.tables.jobs && !IsActive(world.tables.jobs[id].state)
    ensures id in Run(world, steps).tables.jobs
    ensures Run(world, steps).tables.jobs[id] == world.tables.jobs[id]
    decreases |steps|
  {
    if steps != [] {
      RowsChangeOnlyByOwnerOrReclaim(world, steps[0], id);
      TerminalRowsAreFrozen(Next(world, steps[0]), steps[1..], id);
    }
  }

  // ---------------------------------------------------------------------------
  // Reclaim exactness
  // ---------------------------------------------------------------------------

  /** The owner's calls that refresh the heartbeat of its active job. */
  predicate SignOfLife(call: Call, id: string) {
    || call == Beating(id)
    || (call.Updating? && call.jobId == id && !call.update.ClearCleanup? && Accepted(call.update))
  }

  function Beat(world: World, step: Step, owner: string, id: string, last: int): int {
    if step.Do? && step.instanceId == owner && owner !in world.crashed && SignOfLife(step.call, id) then world.now
    else last
  }

  /** When the owner last showed life, read off the schedule alone, starting from `last`. */
  function LastBeat(world: World, steps: seq<Step>, owner: string, id: string, last: int): int
    decreases |steps|
  {
    if steps == [] then last
    else
      LastBeat(Next(world, steps[0]), steps[1..], owner, id, Beat(world, steps[0], owner, id, last))
  }

  /** Whenever another instance reconciles the profile, the owner showed life at most 90 s ago. */
  predicate Punctual(world: World, steps: seq<Step>, owner: string, id: string, profile: string, last: int)
    decreases |steps|
  {
    steps == [] || (
      && (steps[0].Do? && steps[0].instanceId != owner && Reconciles(steps[0].call, profile) ==>
            world.now - last <= HEARTBEAT_STALE_AFTER_MS)
      && Punctual(Next(world, steps[0]), steps[1..], owner, id, profile,
                  Beat(world, steps[0], owner, id, last)))
  }

  /** Whether some instance other than the owner ever changes the row during the run. */
  predicate TouchedByOther(world: World, steps: seq<Step>, owner: string, id: string)
    decreases |steps|
  {
    steps != [] && (
      || (&& steps[0].Do? && steps[0].instanceId != owner
          && id in world.tables.jobs && id in Next(world, steps[0]).tables.jobs
          && Next(world, steps[0]).tables.jobs[id] != world.tables.jobs[id])
      || TouchedByOther(Next(world, steps[0]), steps[1..], owner, id))
  }

  /** A job whose owner is punctual is never touched, let alone failed, by another instance. */
  lemma {:induction false} PunctualOwnersAreNeverReclaimed(world: World, steps: seq<Step>, id: string, last: int)
    requires id in world.tables.jobs
    requires IsActive(world.tables.jobs[id].state) ==> world.tables.jobs[id].heartbeatAt == last
    requires Punctual(world, steps, world.tables.jobs[id].ownerInstanceId, id, world.tables.jobs[id].profile, last)
    ensures !TouchedByOther(world, steps, world.tables.jobs[id].ownerInstanceId, id)
    ensures var row := Run(world, steps).tables.jobs;
            id in row && (IsActive(row[id].state) ==>
              row[id].heartbeatAt == LastBeat(world, steps, world.tables.jobs[id].ownerInstanceId, id, last))
    decreases |steps|
  {
    if steps != [] {
      var owner := world.tables.jobs[id].ownerInstanceId;
      var next := Next(world, steps[0]);
      RowsChangeOnlyByOwnerOrReclaim(world, steps[0], id);
      var beat := Beat(world, steps[0], owner, id, last);
      assert IsActive(next.tables.jobs[id].state) ==> next.tables.jobs[id].heartbeatAt == beat;
      PunctualOwnersAreNeverReclaimed(next, steps[1..], id, beat);
    }
  }

  /**
   * An admission under a fresh id succeeds exactly when every active job of the profile is
   * foreign and silent for more than 90 s; those jobs are then failed, and the new one is active.
   */
  lemma AdmissionSucceedsExactly(tables: Tables, caller: Caller, request: Request, newJobId: string)
    requires newJobId !in tables.jobs
    ensures var outcome := AdmitOn(tables, caller, request, newJobId);
            && (outcome.result.Ok? <==>
                  forall id | id in ActiveIds(tables, request.profile) ::
                    && tables.jobs[id].ownerInstanceId != caller.instanceId
                    && caller.now - tables.jobs[id].heartbeatAt > HEARTBEAT_STALE_AFTER_MS)
            && (outcome.result.Ok? ==>
                  && ActiveIds(outcome.tables, request.profile) == {newJobId}
                  && outcome.tables.jobs[newJobId].ownerInstanceId == caller.instanceId
                  && forall id | id in ActiveIds(tables, request.profile) ::
                       IsInterrupted(tables.jobs[id], outcome.tables.jobs[id], caller.now))
            && (outcome.result.Err? ==> outcome == Outcome(tables, Err(ActiveJobExists)))
  {
    AdmissionCommitsExactly(tables, caller, request, newJobId);
    hide AdmitOn, IsInterrupted;
    forall id | id in tables.jobs
      ensures id in ActiveIds(tables, request.profile) <==>
              tables.jobs[id].profile == request.profile
              && (tables.jobs[id].state == Queued || tables.jobs[id].state == Running)
    {
    }
    var outcome := AdmitOn(tables, caller, request, newJobId);
    if outcome.result.Ok? {
      forall id | id in outcome.tables.jobs && id != newJobId
        ensures id !in ActiveIds(outcome.tables, request.profile)
      {
        InterruptedIsInactive(tables.jobs[id], outcome.tables.jobs[id], caller.now);
      }
    }
  }

  lemma InterruptedIsInactive(row: JobRow, after: JobRow, now: int)
    ensures IsInterrupted(row, after, now) ==> !IsActive(after.state)
  {
  }

  /** Once a job is terminal, no heartbeat or mutation naming it ever succeeds again, by anyone. */
  lemma NothingSucceedsAfterReclaim(world: World, steps: seq<Step>, id: string, caller: Caller, update: OwnerCall)
    requires id in world.tables.jobs && !IsActive(world.tables.jobs[id].state)
    ensures var tables := Run(world, steps).tables;
            && HeartbeatOn(tables, caller, id) == (tables, false)
            && OwnerUpdate(tables, caller, id, update).result.Err?
            && OwnerUpdate(tables, caller, id, update).tables == tables
  {
    TerminalRowsAreFrozen(world, steps, id);
  }

  // ---------------------------------------------------------------------------
  // Published projections
  // ---------------------------------------------------------------------------

  /** The status a successful owner call publishes. */
  function Published(update: OwnerCall): Option<Status> {
    match update
    case Succeed(status, _) => Some(status)
    case Publish(status, _, _) => Some(status)
    case Complete(status, _) => Some(status)
    case _ => None
  }

  /** The step is a successful publication into `profile` by a live owner of an active job. */
  predicate Publishes(world: World, step: Step, profile: string) {
    && step.Do? && step.call.Updating? && step.instanceId !in world.crashed
    && OwnerUpdate(world.tables, CallerIn(world, step.instanceId), step.call.jobId, step.call.update).result.Ok?
    && Published(step.call.update).Some?
    && Published(step.call.update).value.profile == profile
  }

  predicate NeverPublishes(world: World, steps: seq<Step>, profile: string)
    decreases |steps|
  {
    steps == [] ||
      (!Publishes(world, steps[0], profile) && NeverPublishes(Next(world, steps[0]), steps[1..], profile))
  }

  /** A publication is what readers see right after it commits. */
  lemma PublicationIsVisible(world: World, step: Step, profile: string)
    requires Publishes(world, step, profile)
    ensures var projections := Next(world, step).tables.projections;
            && profile in projections
            && projections[profile].status == Published(step.call.update).value
            && projections[profile].projection == projections[profile].status.projection
            && projections[profile].publishedByJobId == step.call.jobId
            && (step.call.update.Publish? ==> projections[profile].pendingCleanup == Some(step.call.update.cleanup))
            && (!step.call.update.Publish? ==> projections[profile].pendingCleanup == None)
            && forall other | other != profile ::
                 && (other in projections <==> other in world.tables.projections)
                 && (other in projections ==> projections[other] == world.tables.projections[other])
  {
  }

  /**
   * A published projection stays what readers see until another publication into its profile;
   * failures, crashes, reclaims and cleanups only ever clear its pending cleanup.
   */
  lemma {:induction false} PublicationsAreDurable(world: World, steps: seq<Step>, profile: string)
    requires profile in world.tables.projections && NeverPublishes(world, steps, profile)
    ensures var before, after := world.tables.projections, Run(world, steps).tables.projections;
            && profile in after
            && after[profile].projection == before[profile].projection
            && after[profile].status == before[profile].status
            && after[profile].publishedByJobId == before[profile].publishedByJobId
            && (|| after[profile].pendingCleanup == before[profile].pendingCleanup
                || after[profile].pendingCleanup == None)
    decreases |steps|
  {
    if steps != [] {
      PublicationsAreDurable(Next(world, steps[0]), steps[1..], profile);
    }
  }

  predicate PublishersExist(tables: Tables) {
    forall profile :: profile in tables.projections ==>
      tables.projections[profile].publishedByJobId in tables.jobs
      && tables.projections[profile].status.profile == profile
  }

  /** Every published row names an existing job and sits under its own status's profile, in every run. */
  lemma {:induction false} RunsKeepPublishers(world: World, steps: seq<Step>)
    requires PublishersExist(world.tables)
    ensures PublishersExist(Run(world, steps).tables)
    decreases |steps|
  {
    if steps != [] {
      RunsKeepPublishers(Next(world, steps[0]), steps[1..]);
    }
  }
}
