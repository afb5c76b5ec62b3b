/** Delivery of task events to a job that accepts them: what the order and the number of deliveries can change. */
module Delivery {
  import opened Tasks

  datatype TaskEvent = TaskEvent(taskID: string, status: TaskStatus)

  /** The index of the first task named `id`, or `|ids|`. */
  function Find(ids: seq<string>, id: string): (k: nat)
    ensures k <= |ids|
    ensures k < |ids| ==> ids[k] == id
    ensures forall m | 0 <= m < k :: ids[m] != id
  {
    if ids == [] then 0 else if ids[0] == id then 0 else 1 + Find(ids[1..], id)
  }

  /** The states of the tasks after one event. An event for an unknown task changes nothing. */
  function DeliverOne(accepts: bool, ids: seq<string>, ss: seq<TaskState>, e: TaskEvent): (ss': seq<TaskState>)
    requires |ids| == |ss|
    ensures |ss'| == |ss|
  {
    var k := Find(ids, e.taskID);
    if k == |ids| then ss else ss[k := Reported(accepts, ss[k], e.status)]
  }

  /** What the job answers to that event. */
  function DeliverResult(accepts: bool, ids: seq<string>, ss: seq<TaskState>, e: TaskEvent): UpdateResult
    requires |ids| == |ss|
  {
    var k := Find(ids, e.taskID);
    if k == |ids| then EntityNotFound else ReportResult(accepts, ss[k], e.status)
  }

  /** What one event does to the task that it names, in a job that accepts it. */
  lemma ReportMeans(ids: seq<string>, ss: seq<TaskState>, e: TaskEvent, k: nat)
    requires |ids| == |ss| && k < |ss|
    ensures var s := DeliverOne(true, ids, ss, e)[k];
            if Find(ids, e.taskID) != k then s == ss[k]
            else match ss[k]
              case DONE => s == DONE
              case FAILED | CANCELLED => s == if e.status == TaskSuccessful then DONE else ss[k]
              case NEW | PENDING =>
                match e.status
                case TaskSent => s == PENDING
                case TaskSuccessful => s == DONE
                case TaskFailed => s == FAILED
                case TaskIgnored | TaskCancelled => s == CANCELLED
  {
  }

  /** The states of the tasks after the events `es`, while the job accepts them. */
  function Deliver(ids: seq<string>, ss: seq<TaskState>, es: seq<TaskEvent>): (ss': seq<TaskState>)
    requires |ids| == |ss|
    ensures |ss'| == |ss|
  {
    if es == [] then ss else DeliverOne(true, ids, Deliver(ids, ss, es[..|es| - 1]), es[|es| - 1])
  }

  /** Some event of `es` reports `status` for the task number `k`. */
  ghost predicate Hears(ids: seq<string>, es: seq<TaskEvent>, k: nat, status: TaskStatus) {
    exists i | 0 <= i < |es| :: Find(ids, es[i].taskID) == k && es[i].status == status
  }

  lemma {:induction false} HearsSnoc(ids: seq<string>, es: seq<TaskEvent>, k: nat, status: TaskStatus)
    requires es != []
    ensures Hears(ids, es, k, status) <==>
      (Hears(ids, es[..|es| - 1], k, status) ||
       (Find(ids, es[|es| - 1].taskID) == k && es[|es| - 1].status == status))
  {
  }

  /** A task ends with the highest rank reported for it, or keeps its own: neither order nor duplicates lower it. */
  lemma {:induction false} EndsAtHighestReport(ids: seq<string>, ss: seq<TaskState>, es: seq<TaskEvent>, k: nat)
    requires |ids| == |ss| && k < |ss|
    ensures var s := Deliver(ids, ss, es)[k];
            && Rank(s) >= Rank(ss[k])
            && (s == ss[k] || exists status :: Hears(ids, es, k, status) && s == StateOf(status))
            && (forall status :: Hears(ids, es, k, status) ==> Rank(StateOf(status)) <= Rank(s))
  {
    if es != [] {
      var front := es[..|es| - 1];
      EndsAtHighestReport(ids, ss, front, k);
      forall status ensures Hears(ids, es, k, status) <==>
          (Hears(ids, front, k, status) || (Find(ids, es[|es| - 1].taskID) == k && es[|es| - 1].status == status)) {
        HearsSnoc(ids, es, k, status);
      }
      var mid, s := Deliver(ids, ss, front)[k], Deliver(ids, ss, es)[k];
      if s != mid {
        assert Hears(ids, es, k, es[|es| - 1].status) && s == StateOf(es[|es| - 1].status);
      } else if mid != ss[k] {
        var status :| Hears(ids, front, k, status) && mid == StateOf(status);
        assert Hears(ids, es, k, status);
      }
    }
  }

  /** DONE iff it was DONE or a success was delivered, and active iff it was and only TaskSent was delivered. */
  lemma {:induction false} DoneIffSuccess(ids: seq<string>, ss: seq<TaskState>, es: seq<TaskEvent>, k: nat)
    requires |ids| == |ss| && k < |ss|
    ensures Deliver(ids, ss, es)[k] == DONE <==> ss[k] == DONE || Hears(ids, es, k, TaskSuccessful)
    ensures Active(Deliver(ids, ss, es)[k]) <==>
              Active(ss[k]) && forall status :: Hears(ids, es, k, status) ==> status == TaskSent
  {
    EndsAtHighestReport(ids, ss, es, k);
    assert forall status :: status != TaskSent ==> Rank(StateOf(status)) >= 2;
  }

  /** The task events of a job, whatever their order, their interleaving between tasks and their duplicates. */
  ghost predicate SameEvents(es: seq<TaskEvent>, es': seq<TaskEvent>) {
    forall e :: e in es <==> e in es'
  }

  lemma {:induction false} StillHears(ids: seq<string>, es: seq<TaskEvent>, es': seq<TaskEvent>, k: nat,
                                      status: TaskStatus)
    requires SameEvents(es, es') && Hears(ids, es, k, status)
    ensures Hears(ids, es', k, status)
  {
    var i :| 0 <= i < |es| && Find(ids, es[i].taskID) == k && es[i].status == status;
    assert es[i] in es';
    var j :| 0 <= j < |es'| && es'[j] == es[i];
  }

  lemma {:induction false} SameHears(ids: seq<string>, es: seq<TaskEvent>, es': seq<TaskEvent>, k: nat)
    requires SameEvents(es, es')
    ensures forall status :: Hears(ids, es, k, status) <==> Hears(ids, es', k, status)
  {
    forall status ensures Hears(ids, es, k, status) <==> Hears(ids, es', k, status) {
      if Hears(ids, es, k, status) {
        StillHears(ids, es, es', k, status);
      }
      if Hears(ids, es', k, status) {
        StillHears(ids, es', es, k, status);
      }
    }
  }

  /** The same set of events leads to the same DONE tasks and to the same number of active tasks. */
  lemma {:induction false} OnlyTheSetMatters(ids: seq<string>, ss: seq<TaskState>, es: seq<TaskEvent>,
                                             es': seq<TaskEvent>)
    requires |ids| == |ss| && SameEvents(es, es')
    ensures forall k | 0 <= k < |ss| :: Deliver(ids, ss, es)[k] == DONE <==> Deliver(ids, ss, es')[k] == DONE
    ensures ActiveCensus(Deliver(ids, ss, es)) == ActiveCensus(Deliver(ids, ss, es'))
  {
    forall k | 0 <= k < |ss|
      ensures Deliver(ids, ss, es)[k] == DONE <==> Deliver(ids, ss, es')[k] == DONE
      ensures Active(Deliver(ids, ss, es)[k]) == Active(Deliver(ids, ss, es')[k])
    {
      DoneIffSuccess(ids, ss, es, k);
      DoneIffSuccess(ids, ss, es', k);
      SameHears(ids, es, es', k);
    }
    SameActiveCensus(Deliver(ids, ss, es), Deliver(ids, ss, es'));
  }

  // ----- The number of failed tasks ----------------------------------------

  lemma {:induction false} DeliverConcat(ids: seq<string>, ss: seq<TaskState>, es: seq<TaskEvent>, es': seq<TaskEvent>)
    requires |ids| == |ss|
    ensures Deliver(ids, ss, es + es') == Deliver(ids, Deliver(ids, ss, es), es')
  {
    hide DeliverOne;
    hide Find;
    if es' == [] {
      assert es + es' == es;
    } else {
      var n := |es'| - 1;
      DeliverConcat(ids, ss, es, es'[..n]);
      assert (es + es')[..|es| + n] == es + es'[..n];
    }
  }

  /** Only a success moves a task that failed or was cancelled. */
  lemma {:induction false} FirstFinalStands(ids: seq<string>, ss: seq<TaskState>, es: seq<TaskEvent>, k: nat)
    requires |ids| == |ss| && k < |ss| && Rank(ss[k]) == 2 && !Hears(ids, es, k, TaskSuccessful)
    ensures Deliver(ids, ss, es)[k] == ss[k]
  {
    if es != [] {
      HearsSnoc(ids, es, k, TaskSuccessful);
      FirstFinalStands(ids, ss, es[..|es| - 1], k);
    }
  }

  /** Both a failure and a cancellation (or an ignore, which cancels) are reported for an active task, and no success:
      the first of the two stands. */
  ghost predicate Contested(ids: seq<string>, ss: seq<TaskState>, es: seq<TaskEvent>, k: nat)
    requires k < |ss|
  {
    && Active(ss[k]) && Hears(ids, es, k, TaskFailed) && !Hears(ids, es, k, TaskSuccessful)
    && (Hears(ids, es, k, TaskCancelled) || Hears(ids, es, k, TaskIgnored))
  }

  /** Whether any other task ends failed only depends on which statuses are reported for it. */
  lemma {:induction false} FailedIff(ids: seq<string>, ss: seq<TaskState>, es: seq<TaskEvent>, k: nat)
    requires |ids| == |ss| && k < |ss| && !Contested(ids, ss, es, k)
    ensures Deliver(ids, ss, es)[k] == FAILED <==>
              && !Hears(ids, es, k, TaskSuccessful)
              && (ss[k] == FAILED || (Active(ss[k]) && Hears(ids, es, k, TaskFailed)))
  {
    EndsAtHighestReport(ids, ss, es, k);
    DoneIffSuccess(ids, ss, es, k);
    if Rank(ss[k]) == 2 && !Hears(ids, es, k, TaskSuccessful) {
      FirstFinalStands(ids, ss, es, k);
    }
  }

  /** A list whose failed tasks are also failed in the other one has at most as many, and fewer if one is not. */
  lemma {:induction false} FailedCensusMonotone(ss: seq<TaskState>, ss': seq<TaskState>)
    requires |ss| == |ss'| && forall k | 0 <= k < |ss| && ss[k] == FAILED :: ss'[k] == FAILED
    ensures FailedCensus(ss) <= FailedCensus(ss')
    ensures (exists k | 0 <= k < |ss| :: ss[k] != FAILED && ss'[k] == FAILED) ==> FailedCensus(ss) < FailedCensus(ss')
  {
    if ss != [] {
      FailedCensusMonotone(ss[..|ss| - 1], ss'[..|ss| - 1]);
    }
  }

  /** The events with these statuses (or, if not `among`, the others), in order. */
  function Only(es: seq<TaskEvent>, statuses: set<TaskStatus>, among: bool): seq<TaskEvent> {
    if es == [] then []
    else
      var e := es[|es| - 1];
      Only(es[..|es| - 1], statuses, among) + if (e.status in statuses) == among then [e] else []
  }

  /** The same events, those with these statuses first. */
  function First(es: seq<TaskEvent>, statuses: set<TaskStatus>): seq<TaskEvent> {
    Only(es, statuses, true) + Only(es, statuses, false)
  }

  lemma {:induction false} OnlyHears(ids: seq<string>, es: seq<TaskEvent>, statuses: set<TaskStatus>, among: bool,
                                     k: nat, status: TaskStatus)
    ensures Hears(ids, Only(es, statuses, among), k, status) <==>
              (status in statuses) == among && Hears(ids, es, k, status)
  {
    if es != [] {
      var front, e := es[..|es| - 1], es[|es| - 1];
      OnlyHears(ids, front, statuses, among, k, status);
      HearsSnoc(ids, es, k, status);
      var kept := Only(front, statuses, among);
      if (e.status in statuses) == among {
        HearsSnoc(ids, kept + [e], k, status);
        assert (kept + [e])[..|kept|] == kept && Only(es, statuses, among) == kept + [e];
      } else {
        assert Only(es, statuses, among) == kept;
      }
    }
  }

  lemma OnlySnoc(es: seq<TaskEvent>, statuses: set<TaskStatus>, among: bool)
    requires es != []
    ensures var e := es[|es| - 1];
            Only(es, statuses, among) ==
              Only(es[..|es| - 1], statuses, among) + if (e.status in statuses) == among then [e] else []
  {
  }

  lemma {:induction false} OneMoreEvent(a: seq<TaskEvent>, b: seq<TaskEvent>, es: seq<TaskEvent>, e: TaskEvent)
    requires multiset(a) + multiset(b) == multiset(es)
    ensures multiset(a + [e]) + multiset(b) == multiset(es + [e])
    ensures multiset(a) + multiset(b + [e]) == multiset(es + [e])
  {
  }

  lemma {:induction false} PartsPermute(es: seq<TaskEvent>, statuses: set<TaskStatus>)
    ensures multiset(Only(es, statuses, true)) + multiset(Only(es, statuses, false)) == multiset(es)
  {
    if es != [] {
      var front, e := es[..|es| - 1], es[|es| - 1];
      PartsPermute(front, statuses);
      OnlySnoc(es, statuses, true);
      OnlySnoc(es, statuses, false);
      hide Only;
      OneMoreEvent(Only(front, statuses, true), Only(front, statuses, false), front, e);
      assert es == front + [e];
      assert forall xs: seq<TaskEvent> :: xs + [] == xs;
    }
  }

  lemma {:induction false} FirstPermutes(es: seq<TaskEvent>, statuses: set<TaskStatus>)
    ensures multiset(First(es, statuses)) == multiset(es)
  {
    PartsPermute(es, statuses);
    hide Only;
  }

  lemma {:induction false} PermutedEvents(es: seq<TaskEvent>, es': seq<TaskEvent>)
    requires multiset(es) == multiset(es')
    ensures SameEvents(es, es')
  {
    forall e ensures e in es <==> e in es' {
      assert e in multiset(es) <==> e in multiset(es');
    }
  }

  /** With these statuses first, a task that hears one of them and no success ends in the state that they report. */
  lemma {:induction false} FirstDecides(ids: seq<string>, ss: seq<TaskState>, es: seq<TaskEvent>, k: nat,
                                        statuses: set<TaskStatus>, s: TaskState)
    requires |ids| == |ss| && k < |ss| && Active(ss[k]) && !Hears(ids, es, k, TaskSuccessful)
    requires Rank(s) == 2 && forall status | status in statuses :: StateOf(status) == s
    requires exists status | status in statuses :: Hears(ids, es, k, status)
    ensures Deliver(ids, ss, First(es, statuses))[k] == s
  {
    var first, rest := Only(es, statuses, true), Only(es, statuses, false);
    forall status: TaskStatus
      ensures Hears(ids, first, k, status) <==> status in statuses && Hears(ids, es, k, status)
    {
      OnlyHears(ids, es, statuses, true, k, status);
    }
    OnlyHears(ids, es, statuses, false, k, TaskSuccessful);
    EndsAtHighestReport(ids, ss, first, k);
    FirstFinalStands(ids, Deliver(ids, ss, first), rest, k);
    DeliverConcat(ids, ss, first, rest);
  }

  const CANCELLING := {TaskCancelled, TaskIgnored}

  /** A contested task ends as the events that come first say, any other one as it would in any order. */
  lemma {:induction false} BothOrders(ids: seq<string>, ss: seq<TaskState>, es: seq<TaskEvent>, k: nat)
    requires |ids| == |ss| && k < |ss|
    ensures var f := Deliver(ids, ss, First(es, {TaskFailed}))[k];
            var c := Deliver(ids, ss, First(es, CANCELLING))[k];
            if Contested(ids, ss, es, k) then f == FAILED && c == CANCELLED else f == FAILED <==> c == FAILED
  {
    if Contested(ids, ss, es, k) {
      FirstDecides(ids, ss, es, k, {TaskFailed}, FAILED);
      FirstDecides(ids, ss, es, k, CANCELLING, CANCELLED);
    } else {
      FirstSameEvents(es, {TaskFailed});
      FirstSameEvents(es, CANCELLING);
      hide First;
      SameHears(ids, es, First(es, {TaskFailed}), k);
      SameHears(ids, es, First(es, CANCELLING), k);
      FailedIff(ids, ss, First(es, {TaskFailed}), k);
      FailedIff(ids, ss, First(es, CANCELLING), k);
    }
  }

  lemma {:induction false} FirstSameEvents(es: seq<TaskEvent>, statuses: set<TaskStatus>)
    ensures SameEvents(es, First(es, statuses))
  {
    FirstPermutes(es, statuses);
    PermutedEvents(es, First(es, statuses));
  }

  /** The number of failed tasks depends on the order too as soon as one task is contested: with the failures first
      there are more of them than with the cancellations first. */
  lemma {:induction false} FailedTasksDependOnOrder(ids: seq<string>, ss: seq<TaskState>, es: seq<TaskEvent>, k: nat)
      returns (failures: seq<TaskEvent>, cancellations: seq<TaskEvent>)
    requires |ids| == |ss| && k < |ss| && Contested(ids, ss, es, k)
    ensures multiset(failures) == multiset(es) && multiset(cancellations) == multiset(es)
    ensures FailedCensus(Deliver(ids, ss, cancellations)) < FailedCensus(Deliver(ids, ss, failures))
  {
    failures, cancellations := First(es, {TaskFailed}), First(es, CANCELLING);
    FirstPermutes(es, {TaskFailed});
    FirstPermutes(es, CANCELLING);
    BothOrders(ids, ss, es, k);
    var c, f := Deliver(ids, ss, cancellations), Deliver(ids, ss, failures);
    forall j: nat | j < |ss| ensures c[j] == FAILED ==> f[j] == FAILED {
      BothOrders(ids, ss, es, j);
    }
    FailedCensusMonotone(c, f);
  }

  /** Any other list of the same events leads to the same number of failed tasks. */
  ghost predicate FailedTasksDetermined(ids: seq<string>, ss: seq<TaskState>, es: seq<TaskEvent>)
    requires |ids| == |ss|
  {
    forall es' :: SameEvents(es, es') ==> FailedCensus(Deliver(ids, ss, es')) == FailedCensus(Deliver(ids, ss, es))
  }

  /** The set of events determines the number of failed tasks exactly when no task is contested. */
  lemma {:induction false} FailedTasksIff(ids: seq<string>, ss: seq<TaskState>, es: seq<TaskEvent>)
    requires |ids| == |ss|
    ensures FailedTasksDetermined(ids, ss, es) <==> forall k: nat | k < |ss| :: !Contested(ids, ss, es, k)
  {
    if k: nat :| k < |ss| && Contested(ids, ss, es, k) {
      var failures, cancellations := FailedTasksDependOnOrder(ids, ss, es, k);
      PermutedEvents(es, failures);
      PermutedEvents(es, cancellations);
    } else {
      forall es' | SameEvents(es, es')
        ensures FailedCensus(Deliver(ids, ss, es')) == FailedCensus(Deliver(ids, ss, es))
      {
        UncontestedCensus(ids, ss, es, es');
      }
    }
  }

  lemma {:induction false} UncontestedCensus(ids: seq<string>, ss: seq<TaskState>, es: seq<TaskEvent>,
                                             es': seq<TaskEvent>)
    requires |ids| == |ss| && SameEvents(es, es') && forall k: nat | k < |ss| :: !Contested(ids, ss, es, k)
    ensures FailedCensus(Deliver(ids, ss, es')) == FailedCensus(Deliver(ids, ss, es))
  {
    forall k: nat | k < |ss| ensures Deliver(ids, ss, es)[k] == FAILED <==> Deliver(ids, ss, es')[k] == FAILED {
      SameHears(ids, es, es', k);
      FailedIff(ids, ss, es, k);
      FailedIff(ids, ss, es', k);
    }
    FailedCensusMonotone(Deliver(ids, ss, es), Deliver(ids, ss, es'));
    FailedCensusMonotone(Deliver(ids, ss, es'), Deliver(ids, ss, es));
  }

  /** A task leaves the active ones at most once: after any prefix of the events that made it inactive, it stays so. */
  lemma {:induction false} InactiveForGood(ids: seq<string>, ss: seq<TaskState>, es: seq<TaskEvent>, i: nat, k: nat)
    requires |ids| == |ss| && k < |ss| && i <= |es|
    requires !Active(Deliver(ids, ss, es[..i])[k])
    ensures !Active(Deliver(ids, ss, es)[k])
  {
    if i == |es| {
      assert es[..i] == es;
    } else {
      assert es[..|es| - 1][..i] == es[..i];
      InactiveForGood(ids, ss, es[..|es| - 1], i, k);
    }
  }
}
