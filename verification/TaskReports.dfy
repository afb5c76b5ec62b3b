/** What the service does to the tasks of a job: it hears about them, one event at a time. */
module TaskReports {
  import opened JobMachine
  import opened Tasks
  import opened Delivery
  import opened Jobs

  /** Where a task ends when its end is reported, to a job that listens or not. */
  function Ended(listening: bool, s: TaskState, succeeded: bool): TaskState {
    if !listening || (s != TaskState.NEW && s != PENDING) then s
    else if succeeded then TaskState.DONE else TaskState.FAILED
  }

  /** Reports the end of the task number `k`, if it is active. */
  method ReportOne(job: Job, k: nat, succeeded: bool) returns (answers: seq<UpdateResult>)
    requires job.Valid() && k < |job.tasks|
    requires forall i, j | 0 <= i < j < |job.tasks| :: job.tasks[i].id != job.tasks[j].id
    modifies job`activeTasks, job`failedTasks, job`persistence, job.tasks
    ensures job.Valid()
    ensures job.UnloadedActive() == old(job.UnloadedActive()) && job.UnloadedFailed() == old(job.UnloadedFailed())
    ensures var listening := job.state in {CONSOLIDATIONINPROGRESS, CONSOLIDATIONCANCELLING, DELETIONEFFECTIVE};
            && job.States() == old(job.States())[k := Ended(listening, old(job.States())[k], succeeded)]
            && forall a | a in answers :: a == if listening then Ok else UnhandledEvent
  {
    ghost var ss := job.States();
    assert ss[k] == job.tasks[k].state && ss[k := ss[k]] == ss;
    answers := [];
    if job.tasks[k].state == TaskState.NEW || job.tasks[k].state == PENDING {
      FindFirst(job.Ids(), job.tasks[k].id, k);
      var answer := job.UpdateTask(TaskEvent(job.tasks[k].id, if succeeded then TaskSuccessful else TaskFailed));
      answers := [answer];
    }
  }

  /** Reports the end of every active task. While the consolidation is in progress or being cancelled, or the deletion
      is effective, every report is accepted, and only the tasks that are not loaded are still counted as active. In any
      other state each report is refused and changes nothing. */
  method ReportAll(job: Job, succeeded: seq<bool>) returns (answers: seq<UpdateResult>)
    requires job.Valid() && |succeeded| == |job.tasks|
    requires forall i, j | 0 <= i < j < |job.tasks| :: job.tasks[i].id != job.tasks[j].id
    modifies job`activeTasks, job`failedTasks, job`persistence, job.tasks
    ensures job.Valid()
    ensures job.UnloadedActive() == old(job.UnloadedActive()) && job.UnloadedFailed() == old(job.UnloadedFailed())
    ensures job.state in {CONSOLIDATIONINPROGRESS, CONSOLIDATIONCANCELLING, DELETIONEFFECTIVE} ==>
              && (forall a | a in answers :: a == Ok)
              && (forall i | 0 <= i < |job.tasks| ::
                    job.States()[i] == if old(job.States())[i] !in {TaskState.NEW, PENDING} then old(job.States())[i]
                                       else if succeeded[i] then TaskState.DONE else TaskState.FAILED)
              && job.activeTasks == old(job.UnloadedActive())
    ensures job.state !in {CONSOLIDATIONINPROGRESS, CONSOLIDATIONCANCELLING, DELETIONEFFECTIVE} ==>
              job.States() == old(job.States()) && forall a | a in answers :: a == UnhandledEvent
  {
    answers := [];
    ghost var ss := job.States();
    ghost var listening := job.state in {CONSOLIDATIONINPROGRESS, CONSOLIDATIONCANCELLING, DELETIONEFFECTIVE};
    hide Job.Valid;
    hide ActiveCensus;
    hide FailedCensus;
    for i := 0 to |job.tasks|
      invariant job.Valid() && job.tasks == old(job.tasks)
      invariant job.UnloadedActive() == old(job.UnloadedActive()) && job.UnloadedFailed() == old(job.UnloadedFailed())
      invariant forall a | a in answers :: a == if listening then Ok else UnhandledEvent
      invariant forall k | 0 <= k < |job.tasks| ::
                  job.States()[k] == if k < i then Ended(listening, ss[k], succeeded[k]) else ss[k]
    {
      var answer := ReportOne(job, i, succeeded[i]);
      answers := answers + answer;
    }
    if listening {
      NoneActive(job.States());
    } else {
      assert job.States() == ss;
    }
  }

  lemma {:induction false} NoneActive(ss: seq<TaskState>)
    requires forall s | s in ss :: !Active(s)
    ensures ActiveCensus(ss) == 0
  {
    if ss != [] {
      assert ss[|ss| - 1] in ss;
      NoneActive(ss[..|ss| - 1]);
    }
  }
}
