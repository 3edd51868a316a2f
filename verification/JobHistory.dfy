/**
 * A job's row read as the record of a run: how it came to be running, finished or failed, and
 * what it says about that, in every interleaving of transactions, ticks and crashes.
 */
module JobHistory {
  import opened Options
  import opened JobRepository
  import opened JobRows
  import opened JobProtocol

  predicate Live(row: JobRow) {
    row.state == Queued || row.state == Running
  }

  /** A running instance calls for a job of its own that is still active. */
  predicate OwnerCalls(world: World, step: Step, id: string) {
    && step.Do? && step.instanceId !in world.crashed
    && id in world.tables.jobs && Live(world.tables.jobs[id])
    && world.tables.jobs[id].ownerInstanceId == step.instanceId
  }

  /** The owner's update of the job commits. */
  predicate Acts(world: World, step: Step, id: string) {
    && OwnerCalls(world, step, id) && step.call.Updating? && step.call.jobId == id && !Malformed(step.call.update)
  }

  predicate Beats(world: World, step: Step, id: string) {
    OwnerCalls(world, step, id) && step.call == Beating(id)
  }

  /** Another instance takes the job away: by reconciling its profile, or by an admission that commits. */
  predicate TakesAway(world: World, step: Step, id: string) {
    && step.Do? && step.instanceId !in world.crashed && id in world.tables.jobs
    && var caller, profile := CallerIn(world, step.instanceId), world.tables.jobs[id].profile;
       && MayReclaim(world.tables.jobs[id], caller, profile)
       && (|| (step.call.Reconciling? && step.call.profile == profile)
           || (&& step.call.Admitting? && step.call.request.profile == profile
               && Claimable(world.tables, caller, profile) && step.call.newJobId !in world.tables.jobs))
  }

  /** What one step leaves of a row. */
  predicate RowMoved(world: World, step: Step, id: string, before: JobRow, after: JobRow) {
    if Acts(world, step, id) then OwnerWrote(before, after, step.call.update, world.now)
    else if Beats(world, step, id) then
      after.heartbeatAt == world.now && after == before.(heartbeatAt := after.heartbeatAt)
    else if TakesAway(world, step, id) then IsInterrupted(before, after, world.now)
    else after == before
  }

  lemma StepMovesRow(world: World, step: Step, id: string)
    requires id in world.tables.jobs
    ensures id in Next(world, step).tables.jobs
    ensures RowMoved(world, step, id, world.tables.jobs[id], Next(world, step).tables.jobs[id])
  {
    hide OwnerWrote, IsInterrupted, OwnerPublished, AdmitOn, Reconcile, HeartbeatOn, OwnerUpdate, IsNew, Claimable;
    if step.Do? && step.instanceId !in world.crashed {
      var caller := CallerIn(world, step.instanceId);
      match step.call {
        case Admitting(request, newJobId) =>
          AdmissionCommitsExactly(world.tables, caller, request, newJobId);
          NotTakenAlone(world, caller, request.profile, id);
        case Reconciling(profile) => ReconcileInterrupts(world.tables, caller, profile);
        case Beating(jobId) => HeartbeatCommitsExactly(world.tables, caller, jobId);
        case Updating(jobId, update) => OwnerCallCommitsExactly(world.tables, caller, jobId, update);
      }
    }
  }

  lemma NotTakenAlone(world: World, caller: Caller, profile: string, id: string)
    requires id in world.tables.jobs
    ensures MayReclaim(world.tables.jobs[id], caller, profile) ==> world.tables.jobs[id].profile == profile
  {
  }

  // ---------------------------------------------------------------------------
  // Over whole runs
  // ---------------------------------------------------------------------------

  /** The world before step `k`. */
  function Before(world: World, steps: seq<Step>, k: nat): World
    requires k <= |steps|
  {
    JobProtocol.Run(world, steps[..k])
  }

  predicate ActedAt(world: World, steps: seq<Step>, id: string, k: nat) {
    k < |steps| && Acts(Before(world, steps, k), steps[k], id)
  }

  predicate RanAt(world: World, steps: seq<Step>, id: string, k: nat) {
    ActedAt(world, steps, id, k) && steps[k].call.update.Run?
  }

  predicate FinishedAt(world: World, steps: seq<Step>, id: string, k: nat) {
    ActedAt(world, steps, id, k) && Finishes(steps[k].call.update)
  }

  predicate GaveUpAt(world: World, steps: seq<Step>, id: string, k: nat) {
    ActedAt(world, steps, id, k) && steps[k].call.update.GiveUp?
  }

  predicate TakenAt(world: World, steps: seq<Step>, id: string, k: nat) {
    k < |steps| && TakesAway(Before(world, steps, k), steps[k], id)
  }

  /** The moment the job ended, one way or another. */
  predicate EndedAt(world: World, steps: seq<Step>, id: string, k: nat) {
    FinishedAt(world, steps, id, k) || GaveUpAt(world, steps, id, k) || TakenAt(world, steps, id, k)
  }

  /** What the row says about the step that ended it. */
  predicate EndTells(row: JobRow, step: Step, now: int)
    requires step.Do?
  {
    && row.finishedAt == Some(now)
    && (if step.call.Updating? && Finishes(step.call.update) then
          row.state == Succeeded && row.result == Some(step.call.update.status) && row.failure.None?
        else if step.call.Updating? && step.call.update.GiveUp? then
          row.state == Failed && row.failure == Some(step.call.update.failure)
        else
          && row.state == Failed && row.failure.Some? && row.failure.value.Interrupted?
          && row.failure.value.operation == row.operation
          && Blames(row.operation, row.currentStage, row.failure.value.stage))
  }

  /** The row is the record of the run: live until it ended, running once it ran, and then what the end made it. */
  ghost predicate RowTells(world: World, steps: seq<Step>, id: string, row: JobRow)
    requires id in world.tables.jobs
  {
    && SameClaim(world.tables.jobs[id], row)
    && (Live(row) <==> forall k: nat :: !EndedAt(world, steps, id, k))
    && (forall k: nat :: EndedAt(world, steps, id, k) ==> EndTells(row, steps[k], Before(world, steps, k).now))
    && (Live(row) ==>
          (row.state == Running <==>
           world.tables.jobs[id].state == Running || exists k: nat :: RanAt(world, steps, id, k)))
  }

  lemma {:induction false} LastStep(world: World, steps: seq<Step>)
    requires steps != []
    ensures JobProtocol.Run(world, steps) == Next(Before(world, steps, |steps| - 1), steps[|steps| - 1])
    decreases |steps|
  {
    hide Next;
    var n := |steps| - 1;
    if n > 0 {
      LastStep(Next(world, steps[0]), steps[1..]);
      assert steps[1..][..n - 1] == steps[..n][1..];
    } else {
      assert steps[1..] == [] && steps[..0] == [];
    }
  }

  /** The moments of a run are those before its last step, and that step. */
  lemma MomentsStep(world: World, steps: seq<Step>, id: string)
    requires steps != []
    ensures var n := |steps| - 1;
            forall k: nat ::
              && RanAt(world, steps, id, k) == (if k == n then RanAt(world, steps, id, n)
                                                else RanAt(world, steps[..n], id, k))
              && EndedAt(world, steps, id, k) == (if k == n then EndedAt(world, steps, id, n)
                                                  else EndedAt(world, steps[..n], id, k))
              && (k < n ==> Before(world, steps[..n], k) == Before(world, steps, k) && steps[..n][k] == steps[k])
  {
    hide JobProtocol.Run, Acts, TakesAway;
    var n := |steps| - 1;
    forall k: nat | k < n
      ensures steps[..n][..k] == steps[..k] && steps[..n][k] == steps[k]
    {
    }
  }

  /** A step that ends the job ends a live one, and the row says so. */
  lemma EndIsTold(world: World, steps: seq<Step>, id: string, before: JobRow, after: JobRow)
    requires steps != [] && EndedAt(world, steps, id, |steps| - 1)
    requires var met := Before(world, steps, |steps| - 1);
             && id in met.tables.jobs && met.tables.jobs[id] == before
             && RowMoved(met, steps[|steps| - 1], id, before, after)
    ensures Live(before) && !Live(after) && SameClaim(before, after)
    ensures steps[|steps| - 1].Do? && EndTells(after, steps[|steps| - 1], Before(world, steps, |steps| - 1).now)
  {
    hide Before, Blames, IsLogTail;
  }

  /** Any other step leaves an ended row as it is, and a live row live. */
  lemma OtherStepsTellNothing(world: World, steps: seq<Step>, id: string, before: JobRow, after: JobRow)
    requires steps != [] && !EndedAt(world, steps, id, |steps| - 1)
    requires var met := Before(world, steps, |steps| - 1);
             && id in met.tables.jobs && met.tables.jobs[id] == before
             && RowMoved(met, steps[|steps| - 1], id, before, after)
    ensures SameClaim(before, after) && (!Live(before) ==> after == before) && (Live(before) ==> Live(after))
    ensures Live(before) ==>
              (after.state == Running <==> before.state == Running || RanAt(world, steps, id, |steps| - 1))
    ensures !Live(before) ==> !RanAt(world, steps, id, |steps| - 1)
  {
    hide Before, Blames, IsLogTail;
  }

  lemma RowTellsStep(world: World, steps: seq<Step>, id: string, before: JobRow, after: JobRow)
    requires id in world.tables.jobs && steps != []
    requires RowTells(world, steps[..|steps| - 1], id, before)
    requires var met := Before(world, steps, |steps| - 1);
             && id in met.tables.jobs && met.tables.jobs[id] == before
             && RowMoved(met, steps[|steps| - 1], id, before, after)
    ensures RowTells(world, steps, id, after)
  {
    var n := |steps| - 1;
    MomentsStep(world, steps, id);
    if EndedAt(world, steps, id, n) {
      EndIsTold(world, steps, id, before, after);
    } else {
      OtherStepsTellNothing(world, steps, id, before, after);
    }
    hide Before, EndedAt, RanAt, RowMoved, Live, EndTells;
  }

  /**
   * The row of a job that was active says how the run went: it is live exactly until its live owner's
   * accepted finish or failure commits or another instance takes it away for silence, it is running
   * only once its owner ran it, and its columns say which of these it was, and when.
   */
  lemma {:induction false} RowsTellTheirHistory(world: World, steps: seq<Step>, id: string)
    requires id in world.tables.jobs && Live(world.tables.jobs[id])
    ensures id in JobProtocol.Run(world, steps).tables.jobs
    ensures RowTells(world, steps, id, JobProtocol.Run(world, steps).tables.jobs[id])
  {
    hide Next, EndTells, RowMoved, RowTells;
    if steps == [] {
      NothingTold(world, id);
    } else {
      var n := |steps| - 1;
      RowsTellTheirHistory(world, steps[..n], id);
      LastStep(world, steps);
      var met := Before(world, steps, n);
      StepMovesRow(met, steps[n], id);
      RowTellsStep(world, steps, id, met.tables.jobs[id], Next(met, steps[n]).tables.jobs[id]);
    }
  }

  lemma NothingTold(world: World, id: string)
    requires id in world.tables.jobs && Live(world.tables.jobs[id])
    ensures RowTells(world, [], id, world.tables.jobs[id])
  {
    hide Acts, TakesAway, Before;
  }

  /** A job succeeds only by an accepted finish of its live owner, whose status is then its result. */
  lemma SuccessIsTheOwners(world: World, steps: seq<Step>, id: string)
    requires id in world.tables.jobs && Live(world.tables.jobs[id])
    ensures var jobs := JobProtocol.Run(world, steps).tables.jobs;
            && id in jobs
            && (jobs[id].state == Succeeded <==> exists k: nat :: FinishedAt(world, steps, id, k))
            && (forall k: nat :: FinishedAt(world, steps, id, k) ==>
                  jobs[id].result == Some(steps[k].call.update.status) && jobs[id].failure.None?)
  {
    RowsTellTheirHistory(world, steps, id);
    FinishEnds(world, steps, id, JobProtocol.Run(world, steps).tables.jobs[id]);
  }

  lemma FinishEnds(world: World, steps: seq<Step>, id: string, row: JobRow)
    requires id in world.tables.jobs && RowTells(world, steps, id, row)
    ensures row.state == Succeeded <==> exists k: nat :: FinishedAt(world, steps, id, k)
    ensures forall k: nat :: FinishedAt(world, steps, id, k) ==>
              row.result == Some(steps[k].call.update.status) && row.failure.None?
  {
    hide Before, Blames, SameClaim;
    forall k: nat | FinishedAt(world, steps, id, k)
      ensures row.state == Succeeded && row.result == Some(steps[k].call.update.status) && row.failure.None?
    {
      assert EndedAt(world, steps, id, k);
    }
    if row.state == Succeeded {
      var k: nat :| EndedAt(world, steps, id, k);
      assert FinishedAt(world, steps, id, k);
    }
  }

  /**
   * A job fails only by its live owner's accepted failure, or because another instance reconciled its
   * profile more than 90 s after its last sign of life; which of the two, its failure says.
   */
  lemma FailureIsReportedOrReclaimed(world: World, steps: seq<Step>, id: string)
    requires id in world.tables.jobs && Live(world.tables.jobs[id])
    ensures var jobs := JobProtocol.Run(world, steps).tables.jobs;
            && id in jobs
            && (jobs[id].state == Failed <==>
                exists k: nat :: GaveUpAt(world, steps, id, k) || TakenAt(world, steps, id, k))
            && (forall k: nat :: GaveUpAt(world, steps, id, k) ==>
                  jobs[id].failure == Some(steps[k].call.update.failure))
            && (forall k: nat :: TakenAt(world, steps, id, k) ==>
                  && jobs[id].failure.Some? && jobs[id].failure.value.Interrupted?
                  && jobs[id].failure.value.operation == world.tables.jobs[id].operation
                  && Blames(jobs[id].operation, jobs[id].currentStage, jobs[id].failure.value.stage))
  {
    RowsTellTheirHistory(world, steps, id);
    FailureEnds(world, steps, id, JobProtocol.Run(world, steps).tables.jobs[id]);
  }

  lemma FailureEnds(world: World, steps: seq<Step>, id: string, row: JobRow)
    requires id in world.tables.jobs && RowTells(world, steps, id, row)
    ensures row.state == Failed <==>
            exists k: nat :: GaveUpAt(world, steps, id, k) || TakenAt(world, steps, id, k)
    ensures forall k: nat :: GaveUpAt(world, steps, id, k) ==> row.failure == Some(steps[k].call.update.failure)
    ensures forall k: nat :: TakenAt(world, steps, id, k) ==>
              && row.failure.Some? && row.failure.value.Interrupted? && row.failure.value.operation == row.operation
              && Blames(row.operation, row.currentStage, row.failure.value.stage)
    ensures row.operation == world.tables.jobs[id].operation
  {
    hide Before, Blames;
    forall k: nat | GaveUpAt(world, steps, id, k) || TakenAt(world, steps, id, k)
      ensures row.state == Failed && EndTells(row, steps[k], Before(world, steps, k).now)
    {
      assert EndedAt(world, steps, id, k);
    }
    if row.state == Failed {
      var k: nat :| EndedAt(world, steps, id, k);
      assert GaveUpAt(world, steps, id, k) || TakenAt(world, steps, id, k);
    }
  }
}
