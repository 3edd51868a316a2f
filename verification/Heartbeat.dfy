/**
 * The claim's liveness timer. The host's `setInterval` and `clearInterval` calls and the
 * claim-lost notifications are recorded in `log`, oldest first.
 */
module Heartbeat {
  import opened Options
  import opened JobRepository
  import opened JobProtocol

  datatype TimerEvent = IntervalSet(handle: nat) | IntervalCleared(handle: nat) | ClaimLost(jobId: string)

  datatype Timer = Timer(handle: Option<nat>, activeJobId: Option<string>, log: seq<TimerEvent>)

  function Stopped(timer: Timer): Timer {
    Timer(None, None, if timer.handle.Some? then timer.log + [IntervalCleared(timer.handle.value)] else timer.log)
  }

  function Started(timer: Timer, jobId: string, newHandle: nat): Timer {
    Timer(Some(newHandle), Some(jobId), Stopped(timer).log + [IntervalSet(newHandle)])
  }

  /** The job the next tick beats for, if any; the empty id counts as none. */
  function BeatsFor(timer: Timer): Option<string> {
    if timer.activeJobId == Some("") then None else timer.activeJobId
  }

  /** A tick, given whether the repository still accepted the heartbeat. */
  function Ticked(timer: Timer, alive: bool): Timer {
    match BeatsFor(timer)
    case None => timer
    case Some(jobId) => if alive then timer else Stopped(timer).(log := Stopped(timer).log + [ClaimLost(jobId)])
  }

  class ResearchEnvironmentHeartbeat {
    const repository: ResearchEnvironmentJobRepository
    var handle: Option<nat>
    var activeJobId: Option<string>
    var log: seq<TimerEvent>

    constructor (repository: ResearchEnvironmentJobRepository)
      ensures this.repository == repository && Contents() == Timer(None, None, [])
    {
      this.repository := repository;
      handle, activeJobId, log := None, None, [];
    }

    function Contents(): Timer
      reads this
    {
      Timer(handle, activeJobId, log)
    }

    method Start(jobId: string, newHandle: nat)
      modifies this
      ensures Contents() == Started(old(Contents()), jobId, newHandle)
    {
      Stop();
      activeJobId := Some(jobId);
      log := log + [IntervalSet(newHandle)];
      handle := Some(newHandle);
    }

    method Stop()
      modifies this
      ensures Contents() == Stopped(old(Contents()))
    {
      if handle.Some? {
        log := log + [IntervalCleared(handle.value)];
        handle := None;
      }
      activeJobId := None;
    }

    method Tick(now: int)
      modifies this, repository.db
      ensures var before := old(repository.db.Contents());
              var job := BeatsFor(old(Contents()));
              if job.None? then repository.db.Contents() == before && Contents() == old(Contents())
              else
                var beat := HeartbeatOn(before, repository.At(now), job.value);
                repository.db.Contents() == beat.0 && Contents() == Ticked(old(Contents()), beat.1)
    {
      if activeJobId.None? || activeJobId.value == "" { return; }
      var jobId := activeJobId.value;
      var alive := repository.Heartbeat(jobId, now);
      if !alive {
        Stop();
        log := log + [ClaimLost(jobId)];
      }
    }
  }

  // ---------------------------------------------------------------------------
  // The timer composed with the protocol
  // ---------------------------------------------------------------------------

  /** One instance's timer beside the shared world. */
  datatype Composite = Composite(world: World, owner: string, timer: Timer)

  /** Any protocol step, a firing of the timer, or a call of the host; a crashed owner does neither of the last. */
  datatype CompositeStep = Elsewhere(step: Step) | Fire | HostStarts(jobId: string, handle: nat) | HostStops

  function CompositeNext(c: Composite, step: CompositeStep): Composite {
    match step
    case Elsewhere(s) => c.(world := Next(c.world, s))
    case Fire =>
      var job := BeatsFor(c.timer);
      if c.owner in c.world.crashed || job.None? then c
      else
        var beat := HeartbeatOn(c.world.tables, CallerIn(c.world, c.owner), job.value);
        c.(world := c.world.(tables := beat.0), timer := Ticked(c.timer, beat.1))
    case HostStarts(jobId, handle) =>
      if c.owner in c.world.crashed then c else c.(timer := Started(c.timer, jobId, handle))
    case HostStops => if c.owner in c.world.crashed then c else c.(timer := Stopped(c.timer))
  }

  function CompositeRun(c: Composite, steps: seq<CompositeStep>): Composite
    decreases |steps|
  {
    if steps == [] then c else CompositeRun(CompositeNext(c, steps[0]), steps[1..])
  }

  predicate HostIsQuiet(steps: seq<CompositeStep>) {
    forall i :: 0 <= i < |steps| ==> steps[i].Elsewhere? || steps[i].Fire?
  }

  predicate NeverStarts(steps: seq<CompositeStep>, jobId: string) {
    forall i :: 0 <= i < |steps| && steps[i].HostStarts? ==> steps[i].jobId != jobId
  }

  /** The first thing that the live owner's host or timer does is a firing. */
  predicate FiresFirst(c: Composite, steps: seq<CompositeStep>)
    decreases |steps|
  {
    steps != [] &&
    if steps[0].Elsewhere? || c.owner in c.world.crashed then FiresFirst(CompositeNext(c, steps[0]), steps[1..])
    else steps[0].Fire?
  }

  /** How often the loss of the job was reported. */
  function Reports(log: seq<TimerEvent>, jobId: string): nat {
    if log == [] then 0
    else Reports(log[..|log| - 1], jobId) + if log[|log| - 1] == ClaimLost(jobId) then 1 else 0
  }

  function Watching(timer: Timer, jobId: string): nat {
    if timer.activeJobId == Some(jobId) then 1 else 0
  }

  function StartsOf(steps: seq<CompositeStep>, jobId: string): nat {
    if steps == [] then 0
    else (if steps[0].HostStarts? && steps[0].jobId == jobId then 1 else 0) + StartsOf(steps[1..], jobId)
  }

  lemma ReportsStep(log: seq<TimerEvent>, event: TimerEvent, jobId: string)
    ensures Reports(log + [event], jobId) == Reports(log, jobId) + if event == ClaimLost(jobId) then 1 else 0
  {
    assert (log + [event])[..|log|] == log;
  }

  /** A stop and a start report nothing, and a firing only the job that is watched. */
  lemma StepReports(c: Composite, step: CompositeStep, jobId: string)
    ensures var next := CompositeNext(c, step);
            && c.timer.log <= next.timer.log
            && Reports(next.timer.log, jobId) + Watching(next.timer, jobId)
               <= Reports(c.timer.log, jobId) + Watching(c.timer, jobId) + StartsOf([step], jobId)
            && Reports(next.timer.log, jobId) <= Reports(c.timer.log, jobId) + Watching(c.timer, jobId)
            && Reports(c.timer.log, jobId) <= Reports(next.timer.log, jobId)
  {
    hide Next, HeartbeatOn, Reports, Stopped, Started, Ticked;
    StopReports(c.timer, jobId);
    TickReports(c.timer, true, jobId);
    TickReports(c.timer, false, jobId);
    if step.HostStarts? {
      StartReports(c.timer, step.jobId, step.handle, jobId);
    }
  }

  /** A tick reports the watched job, once, and then watches nothing; or it changes nothing. */
  lemma TickReports(timer: Timer, alive: bool, jobId: string)
    ensures var after := Ticked(timer, alive);
            && timer.log <= after.log && Reports(timer.log, jobId) <= Reports(after.log, jobId)
            && Reports(after.log, jobId) + Watching(after, jobId) <= Reports(timer.log, jobId) + Watching(timer, jobId)
  {
    StopReports(timer, jobId);
    if BeatsFor(timer).Some? {
      ReportsStep(Stopped(timer).log, ClaimLost(BeatsFor(timer).value), jobId);
    }
    hide Reports;
  }

  lemma StartReports(timer: Timer, started: string, handle: nat, jobId: string)
    ensures var after := Started(timer, started, handle);
            && timer.log <= after.log && Reports(after.log, jobId) == Reports(timer.log, jobId)
            && Watching(after, jobId) == if started == jobId then 1 else 0
  {
    StopReports(timer, jobId);
    ReportsStep(Stopped(timer).log, IntervalSet(handle), jobId);
    hide Reports;
  }

  lemma StopReports(timer: Timer, jobId: string)
    ensures Reports(Stopped(timer).log, jobId) == Reports(timer.log, jobId) && timer.log <= Stopped(timer).log
    ensures Watching(Stopped(timer), jobId) == 0
  {
    if timer.handle.Some? {
      ReportsStep(timer.log, IntervalCleared(timer.handle.value), jobId);
    }
  }

  /** Over every run, with any starts and stops by the host, a job is reported lost at most once per start. */
  lemma {:induction false} ReportedAtMostOncePerStart(c: Composite, steps: seq<CompositeStep>, jobId: string)
    ensures var after := CompositeRun(c, steps).timer;
            && c.timer.log <= after.log
            && Reports(after.log, jobId) + Watching(after, jobId)
               <= Reports(c.timer.log, jobId) + Watching(c.timer, jobId) + StartsOf(steps, jobId)
    decreases |steps|
  {
    hide CompositeNext, Reports, Watching;
    if steps != [] {
      StepReports(c, steps[0], jobId);
      ReportedAtMostOncePerStart(CompositeNext(c, steps[0]), steps[1..], jobId);
      assert StartsOf([steps[0]], jobId) == if steps[0].HostStarts? && steps[0].jobId == jobId then 1 else 0 by {
        assert [steps[0]][1..] == [];
      }
    }
  }

  lemma {:induction false} IdleTimerStaysIdle(c: Composite, steps: seq<CompositeStep>)
    requires BeatsFor(c.timer).None?
    ensures HostIsQuiet(steps) ==> CompositeRun(c, steps).timer == c.timer
    decreases |steps|
  {
    if steps != [] && HostIsQuiet(steps) {
      IdleTimerStaysIdle(CompositeNext(c, steps[0]), steps[1..]);
    }
  }

  /** A job that is not watched, and not started again, is never reported. */
  lemma {:induction false} UnwatchedIsNotReported(c: Composite, steps: seq<CompositeStep>, jobId: string)
    requires c.timer.activeJobId != Some(jobId) && NeverStarts(steps, jobId)
    ensures Reports(CompositeRun(c, steps).timer.log, jobId) == Reports(c.timer.log, jobId)
    ensures c.timer.log <= CompositeRun(c, steps).timer.log
    decreases |steps|
  {
    hide Reports;
    if steps != [] {
      StepReports(c, steps[0], jobId);
      UnwatchedIsNotReported(CompositeNext(c, steps[0]), steps[1..], jobId);
    }
  }

  /**
   * Once a job is lost, and unless the host starts it again, its loss is reported exactly once if the
   * timer fires before the host's next start or stop, and otherwise never. The firing clears the
   * interval and then reports; while the host is quiet that is all that ever happens.
   */
  lemma {:induction false} LostClaimIsReportedOnce(c: Composite, steps: seq<CompositeStep>, jobId: string, handle: nat)
    requires jobId != "" && c.timer.activeJobId == Some(jobId) && c.timer.handle == Some(handle)
    requires jobId in c.world.tables.jobs && !IsActive(c.world.tables.jobs[jobId].state)
    requires NeverStarts(steps, jobId)
    ensures var after := CompositeRun(c, steps).timer;
            var reported := c.timer.log + [IntervalCleared(handle), ClaimLost(jobId)];
            && Reports(after.log, jobId) == Reports(c.timer.log, jobId) + (if FiresFirst(c, steps) then 1 else 0)
            && (FiresFirst(c, steps) ==> reported <= after.log)
            && (HostIsQuiet(steps) ==> after == if FiresFirst(c, steps) then Timer(None, None, reported) else c.timer)
    decreases |steps|
  {
    hide Reports;
    if steps != [] {
      var next := CompositeNext(c, steps[0]);
      if steps[0].Elsewhere? || c.owner in c.world.crashed {
        if steps[0].Elsewhere? {
          RowsChangeOnlyByOwnerOrReclaim(c.world, steps[0].step, jobId);
        }
        LostClaimIsReportedOnce(next, steps[1..], jobId, handle);
      } else if steps[0].Fire? {
        FiringReports(c, jobId, handle);
        IdleTimerStaysIdle(next, steps[1..]);
        UnwatchedIsNotReported(next, steps[1..], jobId);
      } else {
        HostCallReportsNothing(c, steps[0], jobId);
        UnwatchedIsNotReported(next, steps[1..], jobId);
      }
    }
  }

  /** The first firing after a loss. */
  lemma FiringReports(c: Composite, jobId: string, handle: nat)
    requires jobId != "" && c.timer.activeJobId == Some(jobId) && c.timer.handle == Some(handle)
    requires jobId in c.world.tables.jobs && !IsActive(c.world.tables.jobs[jobId].state)
    requires c.owner !in c.world.crashed
    ensures var next := CompositeNext(c, Fire).timer;
            && next == Timer(None, None, c.timer.log + [IntervalCleared(handle), ClaimLost(jobId)])
            && Reports(next.log, jobId) == Reports(c.timer.log, jobId) + 1
  {
    var log := c.timer.log;
    ReportsStep(log, IntervalCleared(handle), jobId);
    ReportsStep(log + [IntervalCleared(handle)], ClaimLost(jobId), jobId);
    assert log + [IntervalCleared(handle)] + [ClaimLost(jobId)] == log + [IntervalCleared(handle), ClaimLost(jobId)];
  }

  lemma HostCallReportsNothing(c: Composite, step: CompositeStep, jobId: string)
    requires step.HostStops? || (step.HostStarts? && step.jobId != jobId)
    ensures Reports(CompositeNext(c, step).timer.log, jobId) == Reports(c.timer.log, jobId)
    ensures c.owner !in c.world.crashed ==> CompositeNext(c, step).timer.activeJobId != Some(jobId)
  {
    StopReports(c.timer, jobId);
    if step.HostStarts? {
      ReportsStep(Stopped(c.timer).log, IntervalSet(step.handle), jobId);
    }
  }

  /** While the owner's job is active and its own, a firing refreshes the claim and reports nothing. */
  lemma HeldClaimIsRefreshed(c: Composite, jobId: string)
    requires jobId != "" && c.timer.activeJobId == Some(jobId) && c.owner !in c.world.crashed
    requires jobId in c.world.tables.jobs && IsActive(c.world.tables.jobs[jobId].state)
    requires c.world.tables.jobs[jobId].ownerInstanceId == c.owner
    ensures CompositeNext(c, Fire).timer == c.timer
    ensures CompositeNext(c, Fire).world.tables.jobs[jobId]
            == c.world.tables.jobs[jobId].(heartbeatAt := c.world.now)
  {
  }

  /** The owner's claim on the job still holds. */
  predicate ClaimHolds(world: World, owner: string, jobId: string) {
    && jobId in world.tables.jobs && IsActive(world.tables.jobs[jobId].state)
    && world.tables.jobs[jobId].ownerInstanceId == owner
  }

  predicate OnlyElsewhere(steps: seq<CompositeStep>) {
    forall i :: 0 <= i < |steps| ==> steps[i].Elsewhere?
  }

  lemma {:induction false} ElsewhereKeepsTimer(c: Composite, steps: seq<CompositeStep>)
    requires OnlyElsewhere(steps)
    ensures CompositeRun(c, steps).timer == c.timer && CompositeRun(c, steps).owner == c.owner
    decreases |steps|
  {
    if steps != [] { ElsewhereKeepsTimer(CompositeNext(c, steps[0]), steps[1..]); }
  }

  /**
   * Whatever happens elsewhere after a start, the next firing beats for the job it was started for: it
   * refreshes that job's claim if it still holds, and otherwise clears the new interval and reports that job.
   */
  lemma StartedTimerBeatsForItsJob(c: Composite, jobId: string, handle: nat, steps: seq<CompositeStep>)
    requires jobId != "" && c.owner !in c.world.crashed && OnlyElsewhere(steps)
    requires c.owner !in CompositeRun(CompositeNext(c, HostStarts(jobId, handle)), steps).world.crashed
    ensures var started := CompositeNext(c, HostStarts(jobId, handle));
            var before := CompositeRun(started, steps);
            var after := CompositeNext(before, Fire);
            && started.timer.log
               == c.timer.log + (if c.timer.handle.Some? then [IntervalCleared(c.timer.handle.value)] else [])
                  + [IntervalSet(handle)]
            && (ClaimHolds(before.world, c.owner, jobId) ==>
                  && jobId in after.world.tables.jobs
                  && after.world.tables.jobs[jobId].heartbeatAt == before.world.now && after.timer == started.timer)
            && (!ClaimHolds(before.world, c.owner, jobId) ==>
                  && after.world == before.world
                  && after.timer.log == started.timer.log + [IntervalCleared(handle), ClaimLost(jobId)]
                  && after.timer.handle.None? && after.timer.activeJobId.None?)
  {
    var started := CompositeNext(c, HostStarts(jobId, handle));
    ElsewhereKeepsTimer(started, steps);
    var before := CompositeRun(started, steps);
    hide CompositeRun;
    if !ClaimHolds(before.world, c.owner, jobId) {
      var log := started.timer.log;
      assert log + [IntervalCleared(handle)] + [ClaimLost(jobId)] == log + [IntervalCleared(handle), ClaimLost(jobId)];
    }
  }
}
