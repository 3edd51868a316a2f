/**
 * The durable claim on a research environment: one table of jobs and one of published
 * projections, shared by every process instance. Each repository method is one immediate
 * transaction: a function on the tables first, then the method that meets it.
 *
 * Instants are milliseconds; a transaction reads its clock once.
 */
module JobRepository {
  import opened Options

  const HEARTBEAT_STALE_AFTER_MS := 90000
  const PERSISTED_LOG_LINES := 200
  const MAX_LOG_LINE_CHARS := 2048

  datatype Operation = Install | Repair | Verify | Uninstall | RemoveCapability | RestoreCapability

  datatype Stage = Admission | Installing | Repairing | Uninstalling | Transition | PythonVerify | JuliaVerify

  datatype JobState = Queued | Running | Succeeded | Failed

  datatype Status = Status(profile: string, projection: string, body: string)

  datatype Failure = Interrupted(stage: Stage, operation: Operation) | Reported(body: string)

  datatype JobRow = JobRow(profile: string, operation: Operation, state: JobState, currentStage: Option<Stage>,
                           manifestSha256: string, lockSha256: string, ownerInstanceId: string,
                           ownerPid: Option<int>, heartbeatAt: int, createdAt: int, startedAt: Option<int>,
                           finishedAt: Option<int>, result: Option<Status>, failure: Option<Failure>,
                           logTail: Option<seq<string>>)

  datatype ProjectionRow = ProjectionRow(projection: string, status: Status, pendingCleanup: Option<string>,
                                         publishedByJobId: string, updatedAt: int)

  datatype Tables = Tables(jobs: map<string, JobRow>, projections: map<string, ProjectionRow>)

  datatype JobError = ActiveJobExists | NotJobOwner | JobNotFound | JobAlreadyTerminal | InvalidPayload
                    | DuplicateJobId

  /** Who runs a transaction, and when. */
  datatype Caller = Caller(instanceId: string, pid: Option<int>, now: int)

  /** What a transaction leaves behind and what it returns; an error rolls every write back. */
  datatype Outcome = Outcome(tables: Tables, result: Result<JobRow, JobError>)

  datatype Request = Request(operation: Operation, manifestSha256: string, lockSha256: string, profile: string)

  predicate IsActive(state: JobState) {
    state.Queued? || state.Running?
  }

  // ---------------------------------------------------------------------------
  // Reclaiming
  // ---------------------------------------------------------------------------

  /** The stage an interrupted job is charged with. */
  function InterruptedStageFor(operation: Operation, currentStage: Option<Stage>): Stage {
    match currentStage
    case Some(Installing) => if operation.Verify? then PythonVerify else Installing
    case Some(Repairing) => if operation.Verify? then PythonVerify else Repairing
    case Some(Uninstalling) => Uninstalling
    case Some(PythonVerify) => PythonVerify
    case Some(JuliaVerify) => JuliaVerify
    case _ =>
      match operation
      case Repair => Repairing
      case Uninstall => Uninstalling
      case Verify => PythonVerify
      case _ => Installing
  }

  /** The stages the shared contract lets a job of this operation report. */
  function StagesOf(operation: Operation): set<Stage> {
    match operation
    case Install => {Admission, Installing, PythonVerify, JuliaVerify}
    case Repair => {Admission, Repairing, PythonVerify, JuliaVerify}
    case Verify => {Admission, PythonVerify, JuliaVerify}
    case Uninstall => {Admission, Uninstalling}
    case RemoveCapability => {Admission, Installing, Transition, PythonVerify, JuliaVerify}
    case RestoreCapability => {Admission, Installing, Transition, PythonVerify, JuliaVerify}
  }

  predicate Abandoned(row: JobRow, caller: Caller, profile: string) {
    && row.profile == profile
    && IsActive(row.state)
    && row.ownerInstanceId != caller.instanceId
    && row.heartbeatAt < caller.now - HEARTBEAT_STALE_AFTER_MS
  }

  function Interrupt(row: JobRow, now: int): JobRow {
    row.(state := Failed, finishedAt := Some(now),
         failure := Some(Interrupted(InterruptedStageFor(row.operation, row.currentStage), row.operation)))
  }

  function Reconcile(tables: Tables, caller: Caller, profile: string): Tables {
    tables.(jobs := map id | id in tables.jobs ::
      if Abandoned(tables.jobs[id], caller, profile) then Interrupt(tables.jobs[id], caller.now) else tables.jobs[id])
  }

  function AbandonedIds(tables: Tables, caller: Caller, profile: string): set<string> {
    set id | id in tables.jobs && Abandoned(tables.jobs[id], caller, profile)
  }

  function ActiveIds(tables: Tables, profile: string): set<string> {
    set id | id in tables.jobs && tables.jobs[id].profile == profile && IsActive(tables.jobs[id].state)
  }

  // ---------------------------------------------------------------------------
  // The transactions, on tables
  // ---------------------------------------------------------------------------

  function NewRow(caller: Caller, request: Request): JobRow {
    JobRow(request.profile, request.operation, Queued, Some(Admission), request.manifestSha256, request.lockSha256,
           caller.instanceId, caller.pid, caller.now, caller.now, None, None, None, None, None)
  }

  function AdmitOn(tables: Tables, caller: Caller, request: Request, newJobId: string): Outcome {
    var reconciled := Reconcile(tables, caller, request.profile);
    if ActiveIds(reconciled, request.profile) != {} then Outcome(tables, Err(ActiveJobExists))
    else if newJobId in reconciled.jobs then Outcome(tables, Err(DuplicateJobId))
    else
      var row := NewRow(caller, request);
      Outcome(reconciled.(jobs := reconciled.jobs[newJobId := row]), Ok(row))
  }

  function OwnedAndActive(tables: Tables, caller: Caller, jobId: string): Result<JobRow, JobError> {
    if jobId !in tables.jobs then Err(JobNotFound)
    else if tables.jobs[jobId].ownerInstanceId != caller.instanceId then Err(NotJobOwner)
    else if !IsActive(tables.jobs[jobId].state) then Err(JobAlreadyTerminal)
    else Ok(tables.jobs[jobId])
  }

  function HeartbeatOn(tables: Tables, caller: Caller, jobId: string): (Tables, bool) {
    if OwnedAndActive(tables, caller, jobId).Err? then (tables, false)
    else (tables.(jobs := tables.jobs[jobId := tables.jobs[jobId].(heartbeatAt := caller.now)]), true)
  }

  /** What an owner may ask of its own active job. */
  datatype OwnerCall =
    | Run(stage: Stage)
    | Advance(stage: Stage)
    | KeepLog(lines: seq<string>)
    | Succeed(status: Status, valid: bool)
    | Publish(status: Status, cleanup: string, valid: bool)
    | Complete(status: Status, valid: bool)
    | ClearCleanup
    | GiveUp(failure: Failure, valid: bool)

  /** `valid` is the verdict of the injected contract parser on the payload. */
  predicate Accepted(call: OwnerCall) {
    match call
    case Succeed(_, valid) => valid
    case Publish(_, _, valid) => valid
    case Complete(_, valid) => valid
    case GiveUp(_, valid) => valid
    case _ => true
  }

  /** A line within the bound is kept whole; of a longer one, exactly the bound is kept. */
  predicate IsCut(kept: string, line: string) {
    kept <= line && |kept| == if |line| <= MAX_LOG_LINE_CHARS then |line| else MAX_LOG_LINE_CHARS
  }

  /** The last lines, each cut at the bound. */
  function LogTail(lines: seq<string>): (tail: seq<string>)
    ensures |tail| == if |lines| <= PERSISTED_LOG_LINES then |lines| else PERSISTED_LOG_LINES
    ensures forall i :: 0 <= i < |tail| ==> IsCut(tail[i], lines[|lines| - |tail| + i])
  {
    var last := if |lines| <= PERSISTED_LOG_LINES then lines else lines[|lines| - PERSISTED_LOG_LINES..];
    seq(|last|, i requires 0 <= i < |last| =>
      if |last[i]| <= MAX_LOG_LINE_CHARS then last[i] else last[i][..MAX_LOG_LINE_CHARS])
  }

  function UpdatedRow(row: JobRow, call: OwnerCall, now: int): JobRow {
    match call
    case Run(stage) =>
      row.(state := Running, currentStage := Some(stage), startedAt := Some(row.startedAt.GetOr(now)),
           heartbeatAt := now)
    case Advance(stage) => row.(currentStage := Some(stage), heartbeatAt := now)
    case KeepLog(lines) => row.(logTail := Some(LogTail(lines)), heartbeatAt := now)
    case Succeed(status, _) =>
      row.(state := Succeeded, finishedAt := Some(now), heartbeatAt := now, result := Some(status), failure := None)
    case Publish(status, _, _) => row.(result := Some(status), heartbeatAt := now)
    case Complete(status, _) =>
      row.(state := Succeeded, finishedAt := Some(now), heartbeatAt := now, result := Some(status), failure := None)
    case ClearCleanup => row
    case GiveUp(failure, _) =>
      row.(state := Failed, finishedAt := Some(now), heartbeatAt := now, failure := Some(failure))
  }

  /** Insert or replace the row of the status's own profile. */
  function Upsert(projections: map<string, ProjectionRow>, jobId: string, status: Status, cleanup: Option<string>,
                  now: int): map<string, ProjectionRow>
  {
    projections[status.profile := ProjectionRow(status.projection, status, cleanup, jobId, now)]
  }

  function UpdatedProjections(projections: map<string, ProjectionRow>, jobId: string, row: JobRow, call: OwnerCall,
                              now: int): map<string, ProjectionRow>
  {
    match call
    case Succeed(status, _) => Upsert(projections, jobId, status, None, now)
    case Publish(status, cleanup, _) => Upsert(projections, jobId, status, Some(cleanup), now)
    case Complete(status, _) => Upsert(projections, jobId, status, None, now)
    case ClearCleanup =>
      if row.profile in projections then
        projections[row.profile := projections[row.profile].(pendingCleanup := None, updatedAt := now)]
      else projections
    case _ => projections
  }

  function OwnerUpdate(tables: Tables, caller: Caller, jobId: string, call: OwnerCall): Outcome {
    var owned := OwnedAndActive(tables, caller, jobId);
    if owned.Err? then Outcome(tables, owned)
    else if !Accepted(call) then Outcome(tables, Err(InvalidPayload))
    else
      var row := UpdatedRow(owned.value, call, caller.now);
      Outcome(Tables(tables.jobs[jobId := row],
                     UpdatedProjections(tables.projections, jobId, owned.value, call, caller.now)), Ok(row))
  }

  // ---------------------------------------------------------------------------
  // The repository
  // ---------------------------------------------------------------------------

  class Database {
    var jobs: map<string, JobRow>
    var projections: map<string, ProjectionRow>

    constructor ()
      ensures Contents() == Tables(map[], map[])
    {
      jobs, projections := map[], map[];
    }

    function Contents(): Tables
      reads this
    {
      Tables(jobs, projections)
    }
  }

  class ResearchEnvironmentJobRepository {
    const db: Database
    const instanceId: string
    const pid: Option<int>

    constructor (db: Database, instanceId: string, pid: Option<int>)
      ensures this.db == db && this.instanceId == instanceId && this.pid == pid
    {
      this.db, this.instanceId, this.pid := db, instanceId, pid;
    }

    function At(now: int): Caller {
      Caller(instanceId, pid, now)
    }

    method ReconcileAbandoned(profile: string, now: int) returns (reclaimed: set<string>)
      modifies db
      ensures db.Contents() == Reconcile(old(db.Contents()), At(now), profile)
      ensures reclaimed == AbandonedIds(old(db.Contents()), At(now), profile)
    {
      reclaimed := AbandonedIds(db.Contents(), At(now), profile);
      ghost var before := db.Contents();
      var todo := reclaimed;
      while todo != {}
        invariant todo <= reclaimed
        invariant db.projections == before.projections && db.jobs.Keys == before.jobs.Keys
        invariant forall id :: id in db.jobs ==>
          db.jobs[id] == if id in reclaimed - todo then Interrupt(before.jobs[id], now) else before.jobs[id]
      {
        var id :| id in todo;
        db.jobs := db.jobs[id := Interrupt(db.jobs[id], now)];
        todo := todo - {id};
      }
    }

    method Admit(request: Request, newJobId: string, now: int) returns (r: Result<JobRow, JobError>)
      modifies db
      ensures var expected := AdmitOn(old(db.Contents()), At(now), request, newJobId);
              db.Contents() == expected.tables && r == expected.result
    {
      var before := db.jobs;
      var _ := ReconcileAbandoned(request.profile, now);
      if ActiveIds(db.Contents(), request.profile) != {} {
        db.jobs := before;
        return Err(ActiveJobExists);
      }
      if newJobId in db.jobs {
        db.jobs := before;
        return Err(DuplicateJobId);
      }
      var row := NewRow(At(now), request);
      db.jobs := db.jobs[newJobId := row];
      r := Ok(row);
    }

    method Heartbeat(jobId: string, now: int) returns (alive: bool)
      modifies db
      ensures (db.Contents(), alive) == HeartbeatOn(old(db.Contents()), At(now), jobId)
    {
      alive := jobId in db.jobs && db.jobs[jobId].ownerInstanceId == instanceId && IsActive(db.jobs[jobId].state);
      if alive {
        db.jobs := db.jobs[jobId := db.jobs[jobId].(heartbeatAt := now)];
      }
    }

    method AssertOwnedAndActive(jobId: string) returns (r: Result<JobRow, JobError>)
      ensures forall now :: r == OwnedAndActive(db.Contents(), At(now), jobId)
    {
      if jobId !in db.jobs { return Err(JobNotFound); }
      var row := db.jobs[jobId];
      if row.ownerInstanceId != instanceId { return Err(NotJobOwner); }
      if !IsActive(row.state) { return Err(JobAlreadyTerminal); }
      r := Ok(row);
    }

    method UpsertPublishedProjection(jobId: string, status: Status, cleanup: Option<string>, now: int)
      modifies db`projections
      ensures db.projections == Upsert(old(db.projections), jobId, status, cleanup, now)
    {
      db.projections := db.projections[status.profile :=
        ProjectionRow(status.projection, status, cleanup, jobId, now)];
    }

    method MarkRunning(jobId: string, stage: Stage, now: int) returns (r: Result<JobRow, JobError>)
      modifies db
      ensures var expected := OwnerUpdate(old(db.Contents()), At(now), jobId, Run(stage));
              db.Contents() == expected.tables && r == expected.result
    {
      var owned := AssertOwnedAndActive(jobId);
      assert owned == OwnedAndActive(db.Contents(), At(now), jobId);
      if owned.Err? { return owned; }
      var startedAt := if owned.value.startedAt.Some? then owned.value.startedAt else Some(now);
      db.jobs := db.jobs[jobId := owned.value.(state := Running, currentStage := Some(stage), startedAt := startedAt,
                                               heartbeatAt := now)];
      r := Ok(db.jobs[jobId]);
    }

    method AdvanceStage(jobId: string, stage: Stage, now: int) returns (r: Result<JobRow, JobError>)
      modifies db
      ensures var expected := OwnerUpdate(old(db.Contents()), At(now), jobId, Advance(stage));
              db.Contents() == expected.tables && r == expected.result
    {
      var owned := AssertOwnedAndActive(jobId);
      assert owned == OwnedAndActive(db.Contents(), At(now), jobId);
      if owned.Err? { return owned; }
      db.jobs := db.jobs[jobId := owned.value.(currentStage := Some(stage), heartbeatAt := now)];
      r := Ok(db.jobs[jobId]);
    }

    method AppendLogTail(jobId: string, lines: seq<string>, now: int) returns (r: Result<JobRow, JobError>)
      modifies db
      ensures var expected := OwnerUpdate(old(db.Contents()), At(now), jobId, KeepLog(lines));
              db.Contents() == expected.tables && r == expected.result
    {
      var owned := AssertOwnedAndActive(jobId);
      assert owned == OwnedAndActive(db.Contents(), At(now), jobId);
      if owned.Err? { return owned; }
      var bounded := LogTail(lines);
      db.jobs := db.jobs[jobId := owned.value.(logTail := Some(bounded), heartbeatAt := now)];
      r := Ok(db.jobs[jobId]);
    }

    method MarkSucceeded(jobId: string, status: Status, valid: bool, now: int) returns (r: Result<JobRow, JobError>)
      modifies db
      ensures var expected := OwnerUpdate(old(db.Contents()), At(now), jobId, Succeed(status, valid));
              db.Contents() == expected.tables && r == expected.result
    {
      var owned := AssertOwnedAndActive(jobId);
      assert owned == OwnedAndActive(db.Contents(), At(now), jobId);
      if owned.Err? { return owned; }
      if !valid { return Err(InvalidPayload); }
      UpsertPublishedProjection(jobId, status, None, now);
      db.jobs := db.jobs[jobId := owned.value.(state := Succeeded, finishedAt := Some(now), heartbeatAt := now,
                                               result := Some(status), failure := None)];
      r := Ok(db.jobs[jobId]);
    }

    method PublishProjection(jobId: string, status: Status, cleanup: string, valid: bool, now: int)
      returns (r: Result<JobRow, JobError>)
      modifies db
      ensures var expected := OwnerUpdate(old(db.Contents()), At(now), jobId, Publish(status, cleanup, valid));
              db.Contents() == expected.tables && r == expected.result
    {
      var owned := AssertOwnedAndActive(jobId);
      assert owned == OwnedAndActive(db.Contents(), At(now), jobId);
      if owned.Err? { return owned; }
      if !valid { return Err(InvalidPayload); }
      UpsertPublishedProjection(jobId, status, Some(cleanup), now);
      db.jobs := db.jobs[jobId := owned.value.(result := Some(status), heartbeatAt := now)];
      r := Ok(db.jobs[jobId]);
    }

    method CompletePublishedTransition(jobId: string, status: Status, valid: bool, now: int)
      returns (r: Result<JobRow, JobError>)
      modifies db
      ensures var expected := OwnerUpdate(old(db.Contents()), At(now), jobId, Complete(status, valid));
              db.Contents() == expected.tables && r == expected.result
    {
      var owned := AssertOwnedAndActive(jobId);
      assert owned == OwnedAndActive(db.Contents(), At(now), jobId);
      if owned.Err? { return owned; }
      if !valid { return Err(InvalidPayload); }
      UpsertPublishedProjection(jobId, status, None, now);
      db.jobs := db.jobs[jobId := owned.value.(state := Succeeded, finishedAt := Some(now), heartbeatAt := now,
                                               result := Some(status), failure := None)];
      r := Ok(db.jobs[jobId]);
    }

    method ClearPendingCleanup(jobId: string, now: int) returns (r: Result<JobRow, JobError>)
      modifies db
      ensures var expected := OwnerUpdate(old(db.Contents()), At(now), jobId, ClearCleanup);
              db.Contents() == expected.tables && r == expected.result
    {
      var owned := AssertOwnedAndActive(jobId);
      assert owned == OwnedAndActive(db.Contents(), At(now), jobId);
      if owned.Err? { return owned; }
      var profile := owned.value.profile;
      if profile in db.projections {
        db.projections := db.projections[profile :=
          db.projections[profile].(pendingCleanup := None, updatedAt := now)];
      }
      r := Ok(db.jobs[jobId]);
    }

    method MarkFailed(jobId: string, failure: Failure, valid: bool, now: int) returns (r: Result<JobRow, JobError>)
      modifies db
      ensures var expected := OwnerUpdate(old(db.Contents()), At(now), jobId, GiveUp(failure, valid));
              db.Contents() == expected.tables && r == expected.result
    {
      var owned := AssertOwnedAndActive(jobId);
      assert owned == OwnedAndActive(db.Contents(), At(now), jobId);
      if owned.Err? { return owned; }
      if !valid { return Err(InvalidPayload); }
      db.jobs := db.jobs[jobId := owned.value.(state := Failed, finishedAt := Some(now), heartbeatAt := now,
                                               failure := Some(failure))];
      r := Ok(db.jobs[jobId]);
    }
  }

  /**
   * A reclaimed job's failure carries a stage its operation may report, exactly when the stage
   * it was in belongs to the operation, is no work stage, or is one a verify job is excused for.
   */
  lemma InterruptedStageIsLegal(operation: Operation, currentStage: Option<Stage>)
    ensures InterruptedStageFor(operation, currentStage) != Admission
    ensures InterruptedStageFor(operation, currentStage) in StagesOf(operation) <==>
            || currentStage.None?
            || currentStage.value in StagesOf(operation)
            || currentStage.value == Transition
            || (operation.Verify? && (currentStage.value == Installing || currentStage.value == Repairing))
  {
  }
}
