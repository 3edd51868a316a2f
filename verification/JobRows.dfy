/**
 * What each transaction leaves in a job's row and in the published projections, column by column:
 * for every column, who writes it and what.
 */
module JobRows {
  import opened Options
  import opened JobRepository

  /** The columns an admission writes once and for all. */
  predicate SameClaim(before: JobRow, after: JobRow) {
    && after.profile == before.profile && after.operation == before.operation
    && after.manifestSha256 == before.manifestSha256 && after.lockSha256 == before.lockSha256
    && after.ownerInstanceId == before.ownerInstanceId && after.ownerPid == before.ownerPid
    && after.createdAt == before.createdAt
  }

  /** The first stage in which an operation does work. */
  function FirstWork(operation: Operation): Stage {
    if operation == Repair then Repairing
    else if operation == Uninstall then Uninstalling
    else if operation == Verify then PythonVerify
    else Installing
  }

  /** Whether a job of this operation can have been at work in the stage it last reported. */
  predicate AtWork(operation: Operation, stage: Stage) {
    && stage != Admission && stage != Transition
    && !(operation == Verify && (stage == Installing || stage == Repairing))
  }

  /** The stage to blame: the one the job was at work in, or else the first its operation performs. */
  predicate Blames(operation: Operation, current: Option<Stage>, stage: Stage) {
    stage == if current.Some? && AtWork(operation, current.value) then current.value else FirstWork(operation)
  }

  /** `after` is `before`, failed at `now` because its process was lost; nothing else was touched. */
  predicate IsInterrupted(before: JobRow, after: JobRow, now: int) {
    && SameClaim(before, after)
    && after.state == Failed && after.finishedAt == Some(now)
    && after.failure.Some? && after.failure.value.Interrupted?
    && after.failure.value.operation == before.operation
    && Blames(before.operation, before.currentStage, after.failure.value.stage)
    && after.currentStage == before.currentStage && after.heartbeatAt == before.heartbeatAt
    && after.startedAt == before.startedAt && after.result == before.result && after.logTail == before.logTail
  }

  /** Another instance may take the job away: it is active, foreign, and silent for more than 90 s. */
  predicate MayReclaim(row: JobRow, caller: Caller, profile: string) {
    && row.profile == profile && (row.state == Queued || row.state == Running)
    && row.ownerInstanceId != caller.instanceId && caller.now - row.heartbeatAt > 90000
  }

  /** A reconciliation interrupts exactly the rows it may reclaim and leaves every other row as it was. */
  lemma ReconcileInterrupts(tables: Tables, caller: Caller, profile: string)
    ensures var after := Reconcile(tables, caller, profile);
            && after.projections == tables.projections && after.jobs.Keys == tables.jobs.Keys
            && (forall id :: id in tables.jobs ==>
                  if MayReclaim(tables.jobs[id], caller, profile)
                  then IsInterrupted(tables.jobs[id], after.jobs[id], caller.now)
                  else after.jobs[id] == tables.jobs[id])
            && AbandonedIds(tables, caller, profile)
               == set id | id in tables.jobs && MayReclaim(tables.jobs[id], caller, profile)
  {
    forall id | id in tables.jobs
      ensures Abandoned(tables.jobs[id], caller, profile) <==> MayReclaim(tables.jobs[id], caller, profile)
      ensures MayReclaim(tables.jobs[id], caller, profile) ==>
                IsInterrupted(tables.jobs[id], Reconcile(tables, caller, profile).jobs[id], caller.now)
    {
    }
  }

  /** A job as it is right after its admission. */
  predicate IsNew(row: JobRow, caller: Caller, request: Request) {
    && row.profile == request.profile && row.operation == request.operation
    && row.manifestSha256 == request.manifestSha256 && row.lockSha256 == request.lockSha256
    && row.ownerInstanceId == caller.instanceId && row.ownerPid == caller.pid
    && row.state == Queued && row.currentStage == Some(Admission)
    && row.heartbeatAt == caller.now && row.createdAt == caller.now
    && row.startedAt.None? && row.finishedAt.None? && row.result.None? && row.failure.None? && row.logTail.None?
  }

  /** Every active job of the profile may be reclaimed. */
  predicate Claimable(tables: Tables, caller: Caller, profile: string) {
    forall id :: id in tables.jobs && tables.jobs[id].profile == profile
                 && (tables.jobs[id].state == Queued || tables.jobs[id].state == Running) ==>
                   MayReclaim(tables.jobs[id], caller, profile)
  }

  /**
   * An admission commits exactly when every active job of the profile may be reclaimed and the id is
   * new; it interrupts those jobs, adds the new one and leaves the rest. Otherwise nothing changes.
   */
  lemma AdmissionCommitsExactly(tables: Tables, caller: Caller, request: Request, newJobId: string)
    ensures var outcome := AdmitOn(tables, caller, request, newJobId);
            var after := outcome.tables;
            && (outcome.result.Ok? <==> Claimable(tables, caller, request.profile) && newJobId !in tables.jobs)
            && (outcome.result.Ok? ==>
                  && after.projections == tables.projections
                  && after.jobs.Keys == tables.jobs.Keys + {newJobId}
                  && IsNew(after.jobs[newJobId], caller, request) && outcome.result.value == after.jobs[newJobId]
                  && (forall id :: id in tables.jobs ==>
                        if MayReclaim(tables.jobs[id], caller, request.profile)
                        then IsInterrupted(tables.jobs[id], after.jobs[id], caller.now)
                        else after.jobs[id] == tables.jobs[id]))
            && (outcome.result.Err? ==>
                  && after == tables
                  && outcome.result.error == if Claimable(tables, caller, request.profile) then DuplicateJobId
                                             else ActiveJobExists)
  {
    ReconcileInterrupts(tables, caller, request.profile);
    var reconciled := Reconcile(tables, caller, request.profile);
    ReconciledIsFree(tables, caller, request.profile);
    hide Reconcile, IsInterrupted, MayReclaim, Claimable, ActiveIds;
  }

  /** Nothing active is left after a reconciliation exactly when all that was active could be reclaimed. */
  lemma ReconciledIsFree(tables: Tables, caller: Caller, profile: string)
    ensures ActiveIds(Reconcile(tables, caller, profile), profile) == {} <==> Claimable(tables, caller, profile)
  {
    ReconcileInterrupts(tables, caller, profile);
    var reconciled := Reconcile(tables, caller, profile);
    hide Reconcile;
    if Claimable(tables, caller, profile) {
      forall id | id in reconciled.jobs ensures id !in ActiveIds(reconciled, profile) {
        assert id in tables.jobs;
      }
    } else {
      var id :| id in tables.jobs && tables.jobs[id].profile == profile
                && (tables.jobs[id].state == Queued || tables.jobs[id].state == Running)
                && !MayReclaim(tables.jobs[id], caller, profile);
      assert id in ActiveIds(reconciled, profile);
    }
  }

  // ---------------------------------------------------------------------------
  // The owner's own transactions
  // ---------------------------------------------------------------------------

  predicate Finishes(call: OwnerCall) {
    call.Succeed? || call.Complete?
  }

  /** The status a call stores and publishes. */
  predicate Carries(call: OwnerCall) {
    Finishes(call) || call.Publish?
  }

  /** The payload was checked and found wanting. */
  predicate Malformed(call: OwnerCall) {
    (Carries(call) || call.GiveUp?) && !call.valid
  }

  /** The last 200 lines, each cut at 2048 units. */
  predicate IsLogTail(tail: seq<string>, lines: seq<string>) {
    && |tail| == (if |lines| <= 200 then |lines| else 200)
    && forall i :: 0 <= i < |tail| ==>
         var line := lines[|lines| - |tail| + i];
         tail[i] == if |line| <= 2048 then line else line[..2048]
  }

  /** For each column of its own row: when an owner's call writes it, and what. */
  predicate OwnerWrote(before: JobRow, after: JobRow, call: OwnerCall, now: int) {
    && SameClaim(before, after)
    && after.state == (if call.Run? then Running else if Finishes(call) then Succeeded
                       else if call.GiveUp? then Failed else before.state)
    && after.currentStage == (if call.Run? || call.Advance? then Some(call.stage) else before.currentStage)
    && after.heartbeatAt == (if call.ClearCleanup? then before.heartbeatAt else now)
    && after.startedAt == (if call.Run? && before.startedAt.None? then Some(now) else before.startedAt)
    && after.finishedAt == (if Finishes(call) || call.GiveUp? then Some(now) else before.finishedAt)
    && after.result == (if Carries(call) then Some(call.status) else before.result)
    && after.failure == (if Finishes(call) then None else if call.GiveUp? then Some(call.failure) else before.failure)
    && (if call.KeepLog? then after.logTail.Some? && IsLogTail(after.logTail.value, call.lines)
        else after.logTail == before.logTail)
  }

  /** The one projection row a call may touch, and how; every other row stays. */
  ghost predicate OwnerPublished(before: map<string, ProjectionRow>, after: map<string, ProjectionRow>, jobId: string,
                                 row: JobRow, call: OwnerCall, now: int)
  {
    if Carries(call) then
      && after.Keys == before.Keys + {call.status.profile}
      && (forall profile :: profile in before && profile != call.status.profile ==>
            profile in after && after[profile] == before[profile])
      && call.status.profile in after
      && var written := after[call.status.profile];
         && written.projection == call.status.projection && written.status == call.status
         && written.publishedByJobId == jobId && written.updatedAt == now
         && written.pendingCleanup == if call.Publish? then Some(call.cleanup) else None
    else if call.ClearCleanup? then
      && after.Keys == before.Keys
      && (forall profile :: profile in before ==>
            && profile in after
            && after[profile].projection == before[profile].projection
            && after[profile].status == before[profile].status
            && after[profile].publishedByJobId == before[profile].publishedByJobId
            && (profile == row.profile ==> after[profile].pendingCleanup.None? && after[profile].updatedAt == now)
            && (profile != row.profile ==> after[profile] == before[profile]))
    else after == before
  }

  /**
   * An owner's call commits exactly on its own active job with a well-formed payload, and then writes
   * these columns of that row and nothing else; otherwise it changes nothing and says what was wrong first.
   */
  lemma OwnerCallCommitsExactly(tables: Tables, caller: Caller, jobId: string, call: OwnerCall)
    ensures var outcome := OwnerUpdate(tables, caller, jobId, call);
            if jobId !in tables.jobs then outcome == Outcome(tables, Err(JobNotFound))
            else if tables.jobs[jobId].ownerInstanceId != caller.instanceId then
              outcome == Outcome(tables, Err(NotJobOwner))
            else if tables.jobs[jobId].state == Succeeded || tables.jobs[jobId].state == Failed then
              outcome == Outcome(tables, Err(JobAlreadyTerminal))
            else if Malformed(call) then outcome == Outcome(tables, Err(InvalidPayload))
            else
              var after := outcome.tables;
              && after.jobs.Keys == tables.jobs.Keys && outcome.result == Ok(after.jobs[jobId])
              && (forall id :: id in tables.jobs && id != jobId ==> after.jobs[id] == tables.jobs[id])
              && OwnerWrote(tables.jobs[jobId], after.jobs[jobId], call, caller.now)
              && OwnerPublished(tables.projections, after.projections, jobId, tables.jobs[jobId], call, caller.now)
  {
    hide LogTail, OwnerPublished, UpdatedProjections, OwnerWrote, UpdatedRow;
    if jobId in tables.jobs {
      RowIsWritten(tables.jobs[jobId], call, caller.now);
      ProjectionsArePublished(tables.projections, jobId, tables.jobs[jobId], call, caller.now);
    }
  }

  lemma LogTailIsCut(lines: seq<string>)
    ensures IsLogTail(LogTail(lines), lines)
  {
    var tail := LogTail(lines);
    forall i | 0 <= i < |tail|
      ensures var line := lines[|lines| - |tail| + i]; tail[i] == if |line| <= 2048 then line else line[..2048]
    {
      assert IsCut(tail[i], lines[|lines| - |tail| + i]);
    }
  }

  lemma RowIsWritten(row: JobRow, call: OwnerCall, now: int)
    ensures OwnerWrote(row, UpdatedRow(row, call, now), call, now)
  {
    hide LogTail, IsLogTail;
    if call.KeepLog? { LogTailIsCut(call.lines); }
  }

  lemma ProjectionsArePublished(projections: map<string, ProjectionRow>, jobId: string, row: JobRow, call: OwnerCall,
                                now: int)
    ensures OwnerPublished(projections, UpdatedProjections(projections, jobId, row, call, now), jobId, row, call, now)
  {
  }

  /** A heartbeat refreshes one column of the caller's own active job, or does nothing and says so. */
  lemma HeartbeatCommitsExactly(tables: Tables, caller: Caller, jobId: string)
    ensures var (after, alive) := HeartbeatOn(tables, caller, jobId);
            && (alive <==> && jobId in tables.jobs && tables.jobs[jobId].ownerInstanceId == caller.instanceId
                           && (tables.jobs[jobId].state == Queued || tables.jobs[jobId].state == Running))
            && (!alive ==> after == tables)
            && (alive ==>
                  && after.projections == tables.projections && after.jobs.Keys == tables.jobs.Keys
                  && (forall id :: id in tables.jobs && id != jobId ==> after.jobs[id] == tables.jobs[id])
                  && after.jobs[jobId].heartbeatAt == caller.now
                  && after.jobs[jobId] == tables.jobs[jobId].(heartbeatAt := after.jobs[jobId].heartbeatAt))
  {
  }
}
