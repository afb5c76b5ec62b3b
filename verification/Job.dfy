/** The job object: its state machine, its tasks, and the two counters it keeps while task events arrive. */
module Jobs {
  import opened JobMachine
  import opened Persistence
  import opened Tasks
  import opened Delivery
  import JobRuns

  class Task {
    const id: string
    var state: TaskState
    var persistence: PersistenceState

    constructor (id: string)
      ensures this.id == id && state == TaskState.NEW && persistence == PersistenceState.NEW
    {
      this.id := id;
      state := TaskState.NEW;
      persistence := PersistenceState.NEW;
    }

    /** Changes the state and returns whether it was different. */
    method SetState(newState: TaskState) returns (changed: bool)
      requires !persistence.DELETED?
      modifies this
      ensures changed == (old(state) != newState)
      ensures state == newState
      ensures persistence == if changed then old(persistence).Dirtied() else old(persistence)
    {
      if state != newState {
        state := newState;
        persistence := persistence.Dirtied();
        return true;
      }
      return false;
    }

    method MarkToDelete()
      requires !persistence.DELETED?
      modifies this`persistence
      ensures persistence == TODELETE
    {
      persistence := TODELETE;
    }
  }

  datatype JobEvent = JobEvent(status: JobStatus, error: string)

  /** What `Trigger` returns: nil, an UnhandledEvent error, or a panic. */
  datatype TriggerResult = Nil | UnhandledEventError | Panic

  /** Whether a task in state `s` is counted in one of the counters of its job. */
  predicate Counted(s: TaskState) {
    Active(s) || s == TaskState.FAILED
  }

  /** The task states after a reset of those in `states` (of all of them when there is no list). */
  function ResetStates(ss: seq<TaskState>, all: bool, states: seq<TaskState>): (ss': seq<TaskState>)
    ensures |ss'| == |ss|
  {
    seq(|ss|, i requires 0 <= i < |ss| => if all || ss[i] in states then TaskState.NEW else ss[i])
  }

  /** The tasks that a reset sends back and that are in one of `among`. */
  ghost function Sent(ss: seq<TaskState>, all: bool, states: seq<TaskState>, among: set<TaskState>): (ks: set<nat>)
    ensures ks == set k: nat | k < |ss| && (all || ss[k] in states) && ss[k] in among
  {
    set k: nat | k < |ss| && (all || ss[k] in states) && ss[k] in among
  }

  lemma {:induction false} SentSnoc(ss: seq<TaskState>, all: bool, states: seq<TaskState>, among: set<TaskState>)
    requires ss != []
    ensures var n, s := |ss| - 1, ss[|ss| - 1];
            |Sent(ss, all, states, among)| == |Sent(ss[..n], all, states, among)| +
                if (all || s in states) && s in among then 1 else 0
  {
    var n: nat := |ss| - 1;
    var before := Sent(ss[..n], all, states, among);
    var last := if (all || ss[n] in states) && ss[n] in among then {n} else {};
    assert forall k | 0 <= k < n :: ss[..n][k] == ss[k];
    SetsApart(Sent(ss, all, states, among), before, last);
  }

  lemma {:induction false} SetsApart(a: set<nat>, b: set<nat>, c: set<nat>)
    requires b !! c && forall k :: k in a <==> k in b || k in c
    ensures |a| == |b| + |c|
  {
    assert a == b + c;
  }

  /** A reset activates the tasks that it lists and that were not active, and clears those that had failed. */
  lemma {:induction false} ResetCensus(ss: seq<TaskState>, all: bool, states: seq<TaskState>)
    ensures ActiveCensus(ResetStates(ss, all, states)) ==
              ActiveCensus(ss) + |Sent(ss, all, states, {TaskState.FAILED, CANCELLED, TaskState.DONE})|
    ensures FailedCensus(ResetStates(ss, all, states)) ==
              FailedCensus(ss) - |Sent(ss, all, states, {TaskState.FAILED})|
  {
    if ss != [] {
      var n := |ss| - 1;
      ResetCensus(ss[..n], all, states);
      assert ResetStates(ss, all, states)[..n] == ResetStates(ss[..n], all, states);
      SentSnoc(ss, all, states, {TaskState.FAILED, CANCELLED, TaskState.DONE});
      SentSnoc(ss, all, states, {TaskState.FAILED});
      hide Sent;
    }
  }

  /** The states of a consolidation that goes well, until it is done. */
  predicate InPipeline(s: JobState) {
    match s
    case NEW | CREATED | CONSOLIDATIONINPROGRESS | CONSOLIDATIONDONE | CONSOLIDATIONINDEXED
      | CONSOLIDATIONEFFECTIVE => true
    case _ => false
  }

  /** A step of the consolidation failed: its states can be retried. */
  predicate StepFailed(s: JobState) {
    match s
    case INITIALISATIONFAILED | CONSOLIDATIONFAILED | CANCELLATIONFAILED | ROLLBACKFAILED | DONEBUTUNTIDY => true
    case _ => false
  }

  /** The other states of a consolidation: retried, cancelled or over. */
  predicate Aside(s: JobState) {
    match s
    case CONSOLIDATIONRETRYING | CONSOLIDATIONFORCERETRYING | CONSOLIDATIONCANCELLING | ABORTED | DONE | FAILED => true
    case _ => false
  }

  class Job {
    const jobType: JobType
    const executionLevel: int
    var persistence: PersistenceState
    var state: JobState
    var waiting: bool
    var activeTasks: int
    var failedTasks: int
    var tasks: seq<Task>
    /** Every job event that was triggered since the creation of the job. */
    ghost var received: seq<JobStatus>

    // ----- Specification ---------------------------------------------------

    ghost function Current(): View reads this`state, this`waiting {
      View(state, waiting)
    }

    /** The job is where its events lead. */
    ghost predicate Replays() reads this {
      After(jobType, executionLevel, received) == Running(Current())
    }

    ghost function States(): seq<TaskState> reads this`tasks, tasks {
      var ts := tasks;
      seq(|ts|, i requires 0 <= i < |ts| reads ts => ts[i].state)
    }

    ghost function Ids(): seq<string> reads this`tasks {
      var ts := tasks;
      seq(|ts|, i requires 0 <= i < |ts| => ts[i].id)
    }

    /** The active tasks that are counted but not loaded. A fully loaded job has none. */
    ghost function UnloadedActive(): int reads this, tasks {
      activeTasks - ActiveCensus(States())
    }

    ghost function UnloadedFailed(): int reads this, tasks {
      failedTasks - FailedCensus(States())
    }

    /** The counters cover at least the loaded tasks, and no entity has been deleted. */
    ghost predicate Valid() reads this, tasks {
      && !persistence.DELETED?
      && (forall i, j | 0 <= i < j < |tasks| :: tasks[i] != tasks[j])
      && (forall i | 0 <= i < |tasks| :: !tasks[i].persistence.DELETED?)
      && UnloadedActive() >= 0
      && UnloadedFailed() >= 0
    }

    // ----- Creation --------------------------------------------------------

    constructor Init(jobType: JobType, executionLevel: int)
      ensures Valid() && Replays()
      ensures this.jobType == jobType && this.executionLevel == executionLevel
      ensures tasks == [] && activeTasks == failedTasks == 0 && persistence == PersistenceState.NEW
    {
      this.jobType := jobType;
      this.executionLevel := executionLevel;
      persistence := PersistenceState.NEW;
      state, waiting := JobState.NEW, false;
      activeTasks, failedTasks := 0, 0;
      tasks := [];
      received := [];
    }

    /** A consolidation cannot be executed synchronously: the null job stands for the validation error. */
    static method NewConsolidationJob(executionLevel: int) returns (job: Job?)
      ensures job == null <==> executionLevel == EXECUTION_SYNCHRONOUS
      ensures job != null ==> fresh(job) && job.Valid() && job.Replays() && job.tasks == []
      ensures job != null ==> job.jobType == CONSOLIDATION && job.executionLevel == executionLevel
    {
      if executionLevel == EXECUTION_SYNCHRONOUS {
        return null;
      }
      job := new Job.Init(CONSOLIDATION, executionLevel);
    }

    // ----- State machine ---------------------------------------------------

    method Dirty()
      requires !persistence.DELETED?
      modifies this`persistence
      ensures persistence == old(persistence).Dirtied()
    {
      persistence := persistence.Dirtied();
    }

    method ChangeState(newState: JobState) returns (r: TriggerResult)
      requires !persistence.DELETED?
      modifies this`state, this`waiting, this`persistence
      ensures r == Nil && Current() == Enter(executionLevel, newState)
      ensures persistence == old(persistence).Dirtied()
    {
      state := newState;
      waiting := executionLevel >= PauseLevel(state);
      Dirty();
      return Nil;
    }

    /** Logs mark the job dirty, even when the event is not handled. */
    method Trigger(evt: JobEvent) returns (r: TriggerResult)
      requires !persistence.DELETED?
      modifies this`state, this`waiting, this`persistence, this`received
      ensures received == old(received) + [evt.status]
      ensures match Step(jobType, executionLevel, old(Current()), evt.status)
              case Handled(v) => r == Nil && Current() == v && persistence == old(persistence).Dirtied()
              case Unhandled => r == UnhandledEventError && Current() == old(Current()) &&
                  persistence == if evt.error != "" && evt.status != Continue then old(persistence).Dirtied()
                                 else old(persistence)
              case Panicked => r == Panic && Current() == old(Current())
      ensures old(Replays()) && jobType != INGESTION ==> Replays() && r != Panic
    {
      ReplayOne(evt.status);
      received := received + [evt.status];
      r := UnhandledEventError;
      if evt.status == Continue {
        if waiting {
          waiting := false;
          Dirty();
          r := Nil;
        }
      } else if evt.status == RetryForced && RetriesInPlace(state) {
        Dirty();
        r := Nil;
      } else {
        if evt.error != "" {
          Dirty();
        }
        match jobType
        case CONSOLIDATION => r := TriggerConsolidation(evt.status);
        case DELETION => r := TriggerDeletion(evt.status);
        case INGESTION => r := Panic;
      }
    }

    /** One more event in the history of a job that is where its events lead. */
    lemma {:induction false} ReplayOne(e: JobStatus)
      ensures Replays() && jobType != INGESTION ==>
                Dispatched(jobType, state) &&
                After(jobType, executionLevel, received + [e])
                == Resume(Current(), Step(jobType, executionLevel, Current(), e))
    {
      assert (received + [e])[..|received|] == received;
      if Replays() && jobType != INGESTION {
        JobRuns.NeverPanics(jobType, executionLevel, received);
      }
    }

    /** The state that `e` leads to on the way to the swap and to the deletion. */
    method NextInPipeline(e: JobStatus) returns (next: Target)
      requires InPipeline(state)
      ensures next == ConsolidationTarget(state, waiting, e)
    {
      next := Stay;
      match state {
        case NEW =>
          if e.CancelledByUserForced? {
            next := Goto(ABORTED);
          } else if e.CancelledByUser? {
            if waiting { next := Goto(ABORTED); }
          } else if e.JobCreated? {
            next := Goto(CREATED);
          }
        case CREATED =>
          if e.CancelledByUserForced? {
            next := Goto(ABORTED);
          } else if e.CancelledByUser? {
            if waiting { next := Goto(ABORTED); }
          } else if e.PrepareOrdersFailed? {
            next := Goto(INITIALISATIONFAILED);
          } else if e.OrdersPrepared? {
            next := Goto(CONSOLIDATIONINPROGRESS);
          }
        case CONSOLIDATIONINPROGRESS =>
          if e.RetryForced? {
            next := Goto(CONSOLIDATIONFORCERETRYING);
          } else if e.Retried? {
            next := Goto(CONSOLIDATIONRETRYING);
          } else if e.CancelledByUser? || e.CancelledByUserForced? {
            next := Goto(CONSOLIDATIONCANCELLING);
          } else if e.ConsolidationFailed? {
            next := Goto(CONSOLIDATIONFAILED);
          } else if e.SendOrdersFailed? {
            next := Goto(CONSOLIDATIONFAILED);
          } else if e.ConsolidationDone? {
            next := Goto(CONSOLIDATIONDONE);
          }
        case CONSOLIDATIONDONE =>
          if e.CancelledByUserForced? {
            next := Goto(ABORTED);
          } else if e.CancelledByUser? {
            if waiting { next := Goto(ABORTED); }
          } else if e.ConsolidationIndexingFailed? {
            next := Goto(CONSOLIDATIONFAILED);
          } else if e.ConsolidationIndexed? {
            next := Goto(CONSOLIDATIONINDEXED);
          }
        case CONSOLIDATIONINDEXED =>
          if e.CancelledByUserForced? {
            next := Goto(ABORTED);
          } else if e.CancelledByUser? {
            if waiting { next := Goto(ABORTED); }
          } else if e.SwapDatasetsFailed? {
            next := Goto(CONSOLIDATIONFAILED);
          } else if e.DatasetsSwapped? {
            next := Goto(CONSOLIDATIONEFFECTIVE);
          }
        case CONSOLIDATIONEFFECTIVE =>
          if e.StartDeletionFailed? {
            next := Goto(DONEBUTUNTIDY);
          } else if e.DeletionStarted? {
            next := Goto(JobState.DONE);
          }
        case _ =>
      }
    }

    /** The state that `e` leads to from a step that failed, and that can be retried. */
    method NextAfterFailure(e: JobStatus) returns (next: Target)
      requires StepFailed(state)
      ensures next == ConsolidationTarget(state, waiting, e)
    {
      next := Stay;
      match state {
        case DONEBUTUNTIDY =>
          if e.RetryForced? || e.Retried? {
            next := Goto(CONSOLIDATIONEFFECTIVE);
          }
        case CANCELLATIONFAILED =>
          if e.Retried? || e.RetryForced? {
            next := Goto(CONSOLIDATIONCANCELLING);
          }
        case INITIALISATIONFAILED =>
          if e.Retried? || e.RetryForced? {
            next := Goto(CREATED);
          } else if e.CancelledByUser? || e.CancelledByUserForced? {
            next := Goto(ABORTED);
          }
        case CONSOLIDATIONFAILED =>
          if e.Retried? || e.RetryForced? {
            next := Goto(CONSOLIDATIONRETRYING);
          } else if e.CancelledByUser? || e.CancelledByUserForced? {
            next := Goto(ABORTED);
          }
        case ROLLBACKFAILED =>
          if e.RetryForced? || e.Retried? {
            next := Goto(ABORTED);
          } else if e.CancelledByUserForced? {
            next := Goto(JobState.FAILED);
          }
        case _ =>
      }
    }

    /** The state that `e` leads to while the job is retried or cancelled, and once it is over. */
    method NextAside(e: JobStatus) returns (next: Target)
      requires Aside(state)
      ensures next == ConsolidationTarget(state, waiting, e)
    {
      next := Stay;
      match state {
        case DONE =>
        case CONSOLIDATIONCANCELLING =>
          if e.CancellationFailed? {
            next := Goto(CANCELLATIONFAILED);
          } else if e.CancellationDone? {
            next := Goto(ABORTED);
          }
        case ABORTED =>
          if e.RollbackFailed? {
            next := Goto(ROLLBACKFAILED);
          } else if e.RollbackDone? {
            next := Goto(JobState.FAILED);
          }
        case CONSOLIDATIONRETRYING | CONSOLIDATIONFORCERETRYING =>
          if e.ConsolidationRetryFailed? {
            next := Goto(CONSOLIDATIONFAILED);
          } else if e.OrdersPrepared? {
            next := Goto(CONSOLIDATIONINPROGRESS);
          }
        case _ =>
      }
    }

    /** The state that `e` leads to, and whether the current state is known. */
    method NextConsolidation(e: JobStatus) returns (next: Target, known: bool)
      ensures known == Dispatched(CONSOLIDATION, state)
      ensures known ==> next == ConsolidationTarget(state, waiting, e)
    {
      hide ConsolidationTarget;
      match state {
        case NEW | CREATED | CONSOLIDATIONINPROGRESS | CONSOLIDATIONDONE | CONSOLIDATIONINDEXED
          | CONSOLIDATIONEFFECTIVE =>
          next := NextInPipeline(e);
          known := true;
        case INITIALISATIONFAILED | CONSOLIDATIONFAILED | CANCELLATIONFAILED | ROLLBACKFAILED | DONEBUTUNTIDY =>
          next := NextAfterFailure(e);
          known := true;
        case DELETIONINPROGRESS | DELETIONEFFECTIVE | DELETIONFAILED =>
          // The states of a deletion have no case.
          next, known := Stay, false;
        case _ =>
          next := NextAside(e);
          known := true;
      }
    }

    method TriggerConsolidation(e: JobStatus) returns (r: TriggerResult)
      requires !persistence.DELETED?
      modifies this`state, this`waiting, this`persistence
      ensures !Dispatched(CONSOLIDATION, old(state)) ==> r == Panic && Current() == old(Current())
      ensures Dispatched(CONSOLIDATION, old(state)) ==>
                match ConsolidationTarget(old(state), old(waiting), e)
                case Goto(s) => r == Nil && Current() == Enter(executionLevel, s)
                case Stay => r == UnhandledEventError && Current() == old(Current())
      ensures persistence == if r == Nil then old(persistence).Dirtied() else old(persistence)
    {
      var next, known := NextConsolidation(e);
      if !known {
        return Panic;
      }
      match next {
        case Goto(s) => r := ChangeState(s);
        case Stay => r := UnhandledEventError;
      }
    }

    /** The state that `e` leads to, and whether the current state is known. */
    method NextDeletion(e: JobStatus) returns (next: Target, known: bool)
      ensures known == Dispatched(DELETION, state)
      ensures known ==> next == DeletionTarget(state, waiting, e)
    {
      known := true;
      next := Stay;
      match state {
        case NEW =>
          if e.CancelledByUserForced? {
            next := Goto(ABORTED);
          } else if e.CancelledByUser? {
            if waiting { next := Goto(ABORTED); }
          } else if e.JobCreated? {
            next := Goto(CREATED);
          }
        case CREATED =>
          if e.CancelledByUserForced? {
            next := Goto(ABORTED);
          } else if e.CancelledByUser? {
            if waiting { next := Goto(ABORTED); }
          } else if e.DeletionNotReady? {
            next := Goto(INITIALISATIONFAILED);
          } else if e.DeletionReady? {
            next := Goto(DELETIONINPROGRESS);
          }
        case DELETIONINPROGRESS =>
          if e.CancelledByUserForced? {
            next := Goto(ABORTED);
          } else if e.CancelledByUser? {
            if waiting { next := Goto(ABORTED); }
          } else if e.RemovalFailed? {
            next := Goto(DELETIONFAILED);
          } else if e.RemovalDone? {
            next := Goto(DELETIONEFFECTIVE);
          }
        case DELETIONEFFECTIVE =>
          if e.CancelledByUserForced? {
            next := Goto(ABORTED);
          } else if e.DeletionFailed? {
            next := Goto(DONEBUTUNTIDY);
          } else if e.DeletionDone? {
            next := Goto(JobState.DONE);
          }
        case DONE =>
        case DONEBUTUNTIDY =>
          if e.RetryForced? {
            next := Goto(DELETIONEFFECTIVE);
          }
        case DELETIONFAILED =>
          if e.Retried? || e.RetryForced? {
            next := Goto(DELETIONINPROGRESS);
          } else if e.CancelledByUser? || e.CancelledByUserForced? {
            next := Goto(ABORTED);
          }
        case ABORTED =>
          if e.RollbackFailed? {
            next := Goto(ROLLBACKFAILED);
          } else if e.RollbackDone? {
            next := Goto(JobState.FAILED);
          }
        case ROLLBACKFAILED =>
          if e.RetryForced? || e.Retried? {
            next := Goto(ABORTED);
          } else if e.CancelledByUserForced? {
            next := Goto(JobState.FAILED);
          }
        case INITIALISATIONFAILED =>
          if e.RetryForced? || e.Retried? {
            next := Goto(CREATED);
          } else if e.CancelledByUserForced? {
            next := Goto(JobState.FAILED);
          }
        case FAILED =>
        case _ => known := false;
      }
    }

    method TriggerDeletion(e: JobStatus) returns (r: TriggerResult)
      requires !persistence.DELETED?
      modifies this`state, this`waiting, this`persistence
      ensures !Dispatched(DELETION, old(state)) ==> r == Panic && Current() == old(Current())
      ensures Dispatched(DELETION, old(state)) ==>
                match DeletionTarget(old(state), old(waiting), e)
                case Goto(s) => r == Nil && Current() == Enter(executionLevel, s)
                case Stay => r == UnhandledEventError && Current() == old(Current())
      ensures persistence == if r == Nil then old(persistence).Dirtied() else old(persistence)
    {
      var next, known := NextDeletion(e);
      if !known {
        return Panic;
      }
      match next {
        case Goto(s) => r := ChangeState(s);
        case Stay => r := UnhandledEventError;
      }
    }

    // ----- Tasks -----------------------------------------------------------

    /** Adds a new task, unless its payload cannot be marshalled. */
    method CreateTask(id: string, marshalled: bool)
      requires Valid()
      modifies this`tasks, this`activeTasks, this`persistence
      ensures Valid()
      ensures marshalled ==> |tasks| == |old(tasks)| + 1 && tasks[..|old(tasks)|] == old(tasks)
      ensures marshalled ==> fresh(tasks[|old(tasks)|]) && tasks[|old(tasks)|].id == id
      ensures marshalled ==> States() == old(States()) + [TaskState.NEW]
      ensures !marshalled ==> tasks == old(tasks) && activeTasks == old(activeTasks) && persistence == old(persistence)
      ensures UnloadedActive() == old(UnloadedActive()) && UnloadedFailed() == old(UnloadedFailed())
    {
      if marshalled {
        ghost var ss := States();
        var t := new Task(id);
        activeTasks := activeTasks + 1;
        tasks := tasks + [t];
        Dirty();
        CensusAppend(ss, TaskState.NEW);
        assert States() == ss + [TaskState.NEW];
      }
    }

    /** Adds `inc` to the counter of the tasks in state `s`. A negative counter would panic: callers rule it out. */
    method UpdateTaskCounters(s: TaskState, inc: int)
      requires !persistence.DELETED?
      requires activeTasks + (if Active(s) then inc else 0) >= 0
      requires failedTasks + (if s == TaskState.FAILED then inc else 0) >= 0
      modifies this`activeTasks, this`failedTasks, this`persistence
      ensures activeTasks == old(activeTasks) + if Active(s) then inc else 0
      ensures failedTasks == old(failedTasks) + if s == TaskState.FAILED then inc else 0
      ensures persistence == if s in {TaskState.NEW, PENDING, TaskState.FAILED} then old(persistence).Dirtied()
                             else old(persistence)
    {
      match s
      case PENDING | NEW =>
        activeTasks := activeTasks + inc;
        Dirty();
      case FAILED =>
        failedTasks := failedTasks + inc;
        Dirty();
      case _ =>
    }

    method SetTaskState(task: Task, newState: TaskState, ghost k: nat)
      requires Valid()
      requires k < |tasks| && tasks[k] == task
      modifies this`activeTasks, this`failedTasks, this`persistence, task
      ensures Valid()
      ensures States() == old(States())[k := newState]
      ensures UnloadedActive() == old(UnloadedActive()) && UnloadedFailed() == old(UnloadedFailed())
      ensures persistence == if old(task.state) != newState && (Counted(old(task.state)) || Counted(newState))
                             then old(persistence).Dirtied() else old(persistence)
      ensures task.persistence == if old(task.state) != newState then old(task.persistence).Dirtied()
                                  else old(task.persistence)
    {
      ghost var ss := States();
      CensusUpdate(ss, k, newState);
      CensusUpdate(ss, k, TaskState.DONE);
      var oldState := task.state;
      var changed := task.SetState(newState);
      assert States() == ss[k := newState];
      if changed {
        UpdateTaskCounters(oldState, -1);
        UpdateTaskCounters(newState, 1);
        assert States() == ss[k := newState];
        assert UnloadedActive() == old(UnloadedActive()) && UnloadedFailed() == old(UnloadedFailed());
      } else {
        assert ss[k := newState] == ss;
      }
    }

    /** The first task with this id, or null; `k` is its place. */
    method FindTask(taskID: string) returns (t: Task?, ghost k: nat)
      ensures t == if Find(Ids(), taskID) < |tasks| then tasks[Find(Ids(), taskID)] else null
      ensures k == Find(Ids(), taskID)
    {
      k := 0;
      FindFirst(Ids(), taskID, Find(Ids(), taskID));
      for i := 0 to |tasks|
        invariant k == i
        invariant forall m | 0 <= m < i :: tasks[m].id != taskID
      {
        if tasks[i].id == taskID {
          FindFirst(Ids(), taskID, i);
          return tasks[i], i;
        }
        k := k + 1;
      }
      FindFirst(Ids(), taskID, |tasks|);
      return null, |tasks|;
    }

    method UpdateTask(evt: TaskEvent) returns (r: UpdateResult)
      requires Valid()
      modifies this`activeTasks, this`failedTasks, this`persistence, tasks
      ensures Valid()
      ensures var listens := state in {CONSOLIDATIONINPROGRESS, CONSOLIDATIONCANCELLING, DELETIONEFFECTIVE};
              && States() == DeliverOne(listens, Ids(), old(States()), evt)
              && r == DeliverResult(listens, Ids(), old(States()), evt)
      ensures state !in {CONSOLIDATIONINPROGRESS, CONSOLIDATIONCANCELLING, DELETIONEFFECTIVE} ==>
                States() == old(States())
      ensures r in {UnhandledEvent, UpdateResult.Panicked} <==>
                var k := Find(Ids(), evt.taskID);
                && k < |tasks| && StateOf(evt.status) != old(States())[k]
                && (old(States())[k] == TaskState.DONE ||
                    state !in {CONSOLIDATIONINPROGRESS, CONSOLIDATIONCANCELLING, DELETIONEFFECTIVE})
      ensures r == UpdateResult.Panicked ==> evt.status in {TaskSent, TaskIgnored}
      ensures r == UnhandledEvent ==> evt.status in {TaskSuccessful, TaskFailed, TaskCancelled}
      ensures r == EntityNotFound <==> evt.taskID !in Ids()
      ensures UnloadedActive() == old(UnloadedActive()) && UnloadedFailed() == old(UnloadedFailed())
      ensures States() == old(States()) ==> persistence == old(persistence)
    {
      var task, k := FindTask(evt.taskID);
      if task == null {
        return EntityNotFound;
      }
      hide Find;
      hide Reported;
      hide ReportResult;
      hide Valid;
      r := UpdateFound(task, evt.status, k);
    }

    /** The update of a task once it is found, in place `k`. */
    method UpdateFound(task: Task, status: TaskStatus, ghost k: nat) returns (r: UpdateResult)
      requires Valid()
      requires k < |tasks| && tasks[k] == task
      modifies this`activeTasks, this`failedTasks, this`persistence, tasks
      ensures Valid()
      ensures var listens := state in {CONSOLIDATIONINPROGRESS, CONSOLIDATIONCANCELLING, DELETIONEFFECTIVE};
              && States() == old(States())[k := Reported(listens, old(task.state), status)]
              && r == ReportResult(listens, old(task.state), status)
      ensures UnloadedActive() == old(UnloadedActive()) && UnloadedFailed() == old(UnloadedFailed())
      ensures States() == old(States()) ==> persistence == old(persistence)
    {
      ghost var ss := States();
      assert ss[k] == task.state && ss[k := ss[k]] == ss;
      hide ActiveCensus;
      hide FailedCensus;
      var newState := StateOf(status);
      if newState == task.state {
        return Ok;
      }
      if state != CONSOLIDATIONINPROGRESS && state != DELETIONEFFECTIVE && state != CONSOLIDATIONCANCELLING {
        return if Printable(status) then UnhandledEvent else UpdateResult.Panicked;
      }
      match task.state {
        case DONE =>
          return if Printable(status) then UnhandledEvent else UpdateResult.Panicked;
        case FAILED | CANCELLED =>
          if newState != TaskState.DONE {
            return Ok;
          }
        case _ =>
      }
      SetTaskState(task, newState, k);
      assert States()[k] != ss[k];
      if newState == TaskState.FAILED {
        Dirty();
      }
      return Ok;
    }

    /** Sends the tasks whose state is in `states` (all the tasks when `all`) back to NEW. */
    method ResetTasks(all: bool, states: seq<TaskState>)
      requires Valid()
      modifies this`activeTasks, this`failedTasks, this`persistence, tasks
      ensures Valid()
      ensures States() == ResetStates(old(States()), all, states)
      ensures var ss := old(States());
              && (forall k | 0 <= k < |ss| :: States()[k] == if all || ss[k] in states then TaskState.NEW else ss[k])
              && activeTasks == old(activeTasks) +
                   |Sent(ss, all, states, {TaskState.FAILED, CANCELLED, TaskState.DONE})|
              && failedTasks == old(failedTasks) - |Sent(ss, all, states, {TaskState.FAILED})|
      ensures UnloadedActive() == old(UnloadedActive()) && UnloadedFailed() == old(UnloadedFailed())
    {
      ghost var ss := States();
      ghost var target := ResetStates(ss, all, states);
      for i := 0 to |tasks|
        invariant Valid() && tasks == old(tasks)
        invariant forall m | 0 <= m < |tasks| :: States()[m] == if m < i then target[m] else ss[m]
        invariant UnloadedActive() == old(UnloadedActive()) && UnloadedFailed() == old(UnloadedFailed())
      {
        assert tasks[i].state == States()[i] == ss[i];
        if all || tasks[i].state in states {
          SetTaskState(tasks[i], TaskState.NEW, i);
        }
      }
      assert States() == target;
      ResetCensus(ss, all, states);
    }

    method CancelTask(index: nat)
      requires Valid() && index < |tasks|
      modifies this`activeTasks, this`failedTasks, this`persistence, tasks
      ensures Valid()
      ensures States() == old(States())[index := TaskState.CANCELLED]
      ensures UnloadedActive() == old(UnloadedActive()) && UnloadedFailed() == old(UnloadedFailed())
    {
      SetTaskState(tasks[index], TaskState.CANCELLED, index);
    }

    /** Marks a task to be deleted; unless it already left the database, it is cancelled first. */
    method DeleteTask(index: nat)
      requires Valid() && index < |tasks|
      modifies this`activeTasks, this`failedTasks, this`persistence, tasks[index]
      ensures Valid()
      ensures States() == if old(tasks[index].persistence).IsActive()
                          then old(States())[index := TaskState.CANCELLED] else old(States())
      ensures tasks[index].persistence == TODELETE
      ensures UnloadedActive() == old(UnloadedActive()) && UnloadedFailed() == old(UnloadedFailed())
    {
      var task := tasks[index];
      if task.persistence.IsActive() {
        SetTaskState(task, TaskState.CANCELLED, index);
      }
      ghost var ss := States();
      task.MarkToDelete();
      assert States() == ss;
    }

    /** After deleting all its tasks, when none was already on its way out, a job counts only unloaded tasks. */
    method DeleteAllTasks()
      requires Valid()
      modifies this`activeTasks, this`failedTasks, this`persistence, tasks
      ensures Valid()
      ensures forall i | 0 <= i < |tasks| :: tasks[i].persistence == TODELETE
      ensures forall i | 0 <= i < |tasks| ::
                States()[i] == if old(tasks[i].persistence).IsActive()
                               then TaskState.CANCELLED else old(States())[i]
      ensures UnloadedActive() == old(UnloadedActive()) && UnloadedFailed() == old(UnloadedFailed())
      ensures (forall i | 0 <= i < |tasks| :: old(tasks[i].persistence).IsActive()) ==>
                activeTasks == old(UnloadedActive()) && failedTasks == old(UnloadedFailed())
    {
      ghost var ss := States();
      hide PersistenceState.IsActive;
      hide PersistenceState.Dirtied;
      hide ActiveCensus;
      hide FailedCensus;
      for i := 0 to |tasks|
        invariant Valid() && tasks == old(tasks)
        invariant forall m | 0 <= m < i :: tasks[m].persistence == TODELETE
        invariant forall m | i <= m < |tasks| :: tasks[m].persistence == old(tasks[m].persistence)
        invariant forall m | 0 <= m < |tasks| ::
                    States()[m] == if m < i && old(tasks[m].persistence).IsActive() then TaskState.CANCELLED else ss[m]
        invariant UnloadedActive() == old(UnloadedActive()) && UnloadedFailed() == old(UnloadedFailed())
      {
        DeleteTask(i);
      }
      if forall i | 0 <= i < |tasks| :: old(tasks[i].persistence).IsActive() {
        NobodyCounted(States());
      }
    }
  }

  /** `Find` is the only first place of an id. */
  lemma FindFirst(ids: seq<string>, id: string, k: nat)
    requires k <= |ids| && (k < |ids| ==> ids[k] == id) && forall m | 0 <= m < k :: ids[m] != id
    ensures Find(ids, id) == k
  {
  }

  lemma {:induction false} NobodyCounted(ss: seq<TaskState>)
    requires forall s | s in ss :: !Counted(s)
    ensures ActiveCensus(ss) == 0 && FailedCensus(ss) == 0
  {
    if ss != [] {
      assert ss[|ss| - 1] in ss;
      NobodyCounted(ss[..|ss| - 1]);
    }
  }
}
