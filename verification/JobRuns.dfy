/** What holds over every run of a job, whatever the events received and the execution level. */
module JobRuns {
  import opened JobMachine

  // ----- No panic ----------------------------------------------------------

  lemma ConsolidationTargetsDispatched(s: JobState, waiting: bool, e: JobStatus)
    ensures ConsolidationTarget(s, waiting, e).Goto? ==>
              Dispatched(CONSOLIDATION, ConsolidationTarget(s, waiting, e).state)
  {
  }

  lemma DeletionTargetsDispatched(s: JobState, waiting: bool, e: JobStatus)
    ensures DeletionTarget(s, waiting, e).Goto? ==> Dispatched(DELETION, DeletionTarget(s, waiting, e).state)
  {
  }

  /** From NEW, no run of a consolidation or deletion job reaches the "Unknown state" panic. */
  lemma {:induction false} NeverPanics(t: JobType, level: int, es: seq<JobStatus>)
    requires t != INGESTION
    ensures After(t, level, es).Running?
    ensures Dispatched(t, After(t, level, es).view.state)
  {
    hide ConsolidationTarget;
    hide DeletionTarget;
    if es != [] {
      NeverPanics(t, level, es[..|es| - 1]);
      var v := After(t, level, es[..|es| - 1]).view;
      ConsolidationTargetsDispatched(v.state, v.waiting, es[|es| - 1]);
      DeletionTargetsDispatched(v.state, v.waiting, es[|es| - 1]);
    }
  }

  /** The state reached after the first `i` events. */
  ghost function At(t: JobType, level: int, es: seq<JobStatus>, i: nat): (v: View)
    requires t != INGESTION && i <= |es|
  {
    NeverPanics(t, level, es[..i]);
    After(t, level, es[..i]).view
  }

  /** One step of a run, in terms of `At`. */
  lemma {:induction false} AtNext(t: JobType, level: int, es: seq<JobStatus>, i: nat)
    requires t != INGESTION && i < |es|
    ensures Running(At(t, level, es, i + 1))
         == Resume(At(t, level, es, i), Step(t, level, At(t, level, es, i), es[i]))
  {
    NeverPanics(t, level, es[..i + 1]);
    assert es[..i + 1][..i] == es[..i];
  }

  /** Event number `i` of the run is `e` and it is accepted. */
  ghost predicate AcceptedAt(t: JobType, level: int, es: seq<JobStatus>, i: nat, e: JobStatus)
    requires t != INGESTION
  {
    i < |es| && es[i] == e && Step(t, level, At(t, level, es, i), e).Handled?
  }

  /** Event number `i` changes the state of the job. */
  ghost predicate MovesAt(t: JobType, level: int, es: seq<JobStatus>, i: nat)
    requires t != INGESTION && i < |es|
  {
    At(t, level, es, i + 1).state != At(t, level, es, i).state
  }

  // ----- Absorbing sets ----------------------------------------------------

  /** No event leads a job of type `t` out of `S`. */
  ghost predicate Absorbing(t: JobType, S: set<JobState>) {
    forall s, waiting, e ::
      s in S && DispatchTarget(t, s, waiting, e).Goto? ==> DispatchTarget(t, s, waiting, e).state in S
  }

  lemma {:induction false} StaysIn(t: JobType, level: int, es: seq<JobStatus>, S: set<JobState>, i: nat, j: nat)
    requires t != INGESTION && i <= j <= |es|
    requires Absorbing(t, S) && At(t, level, es, i).state in S
    ensures At(t, level, es, j).state in S
    decreases j
  {
    if i < j {
      StaysIn(t, level, es, S, i, j - 1);
      AtNext(t, level, es, j - 1);
    }
  }

  const EFFECTIVE := {CONSOLIDATIONEFFECTIVE, DONEBUTUNTIDY, DONE}
  const GIVEN_UP := {ABORTED, ROLLBACKFAILED, FAILED}

  /** Once the datasets are swapped, a consolidation job can neither be aborted nor fail. */
  lemma {:induction false} PointOfNoReturn(level: int, es: seq<JobStatus>, i: nat, j: nat)
    requires AcceptedAt(CONSOLIDATION, level, es, i, DatasetsSwapped)
    requires i < j <= |es|
    ensures At(CONSOLIDATION, level, es, j).state in EFFECTIVE
  {
    AtNext(CONSOLIDATION, level, es, i);
    StaysIn(CONSOLIDATION, level, es, EFFECTIVE, i + 1, j);
  }

  lemma {:induction false} SwappedAtMostOnce(level: int, es: seq<JobStatus>, i: nat, j: nat)
    requires AcceptedAt(CONSOLIDATION, level, es, i, DatasetsSwapped)
    requires AcceptedAt(CONSOLIDATION, level, es, j, DatasetsSwapped)
    ensures i == j
  {
    if i < j {
      PointOfNoReturn(level, es, i, j);
    } else if j < i {
      PointOfNoReturn(level, es, j, i);
    }
  }

  /** A job of either type that was aborted only rolls back: it never becomes effective or done. */
  lemma {:induction false} AbortedNeverEffective(t: JobType, level: int, es: seq<JobStatus>, i: nat, j: nat)
    requires t != INGESTION && i <= j <= |es|
    requires At(t, level, es, i).state == ABORTED
    ensures At(t, level, es, j).state in GIVEN_UP
  {
    StaysIn(t, level, es, GIVEN_UP, i, j);
  }

  lemma {:induction false} FinalStatesAbsorb(t: JobType, level: int, es: seq<JobStatus>, i: nat, j: nat)
    requires t != INGESTION && i <= j <= |es|
    requires At(t, level, es, i).state in {DONE, FAILED}
    ensures At(t, level, es, j).state == At(t, level, es, i).state
  {
    StaysIn(t, level, es, {At(t, level, es, i).state}, i, j);
  }

  // ----- How a job got where it is -----------------------------------------

  /** A run that ends in `S`, where it did not start, entered `S` for the last time at some event. */
  lemma {:induction false} LastEntry(t: JobType, level: int, es: seq<JobStatus>, S: set<JobState>, n: nat)
      returns (i: nat)
    requires t != INGESTION && n <= |es|
    requires NEW !in S && At(t, level, es, n).state in S
    ensures i < n && At(t, level, es, i).state !in S
    ensures forall k: nat | i < k <= n :: At(t, level, es, k).state in S
    ensures var s, s' := At(t, level, es, i), At(t, level, es, i + 1).state;
            DispatchTarget(t, s.state, s.waiting, es[i]) == Goto(s') && AcceptedAt(t, level, es, i, es[i])
    decreases n
  {
    assert es[..0] == [];
    AtNext(t, level, es, n - 1);
    if At(t, level, es, n - 1).state in S {
      i := LastEntry(t, level, es, S, n - 1);
    } else {
      i := n - 1;
    }
  }

  /** The history of a job that is DONE: the indices of the six milestones. */
  datatype Milestones =
    Milestones(created: nat, prepared: nat, consolidated: nat, indexed: nat, swapped: nat, done: nat)

  ghost predicate Quiet(level: int, es: seq<JobStatus>, from: nat, to: nat) {
    forall k: nat | from < k < to && k < |es| :: !MovesAt(CONSOLIDATION, level, es, k)
  }

  ghost predicate IsHistory(level: int, es: seq<JobStatus>, m: Milestones) {
    && m.created < m.prepared < m.consolidated < m.indexed < m.swapped < m.done < |es|
    && AcceptedAt(CONSOLIDATION, level, es, m.created, JobCreated)
    && AcceptedAt(CONSOLIDATION, level, es, m.prepared, OrdersPrepared)
    && AcceptedAt(CONSOLIDATION, level, es, m.consolidated, ConsolidationDone)
    && AcceptedAt(CONSOLIDATION, level, es, m.indexed, ConsolidationIndexed)
    && AcceptedAt(CONSOLIDATION, level, es, m.swapped, DatasetsSwapped)
    && AcceptedAt(CONSOLIDATION, level, es, m.done, DeletionStarted)
    && Quiet(level, es, m.prepared, m.consolidated)
    && Quiet(level, es, m.consolidated, m.indexed)
    && Quiet(level, es, m.indexed, m.swapped)
    && Quiet(level, es, m.done, |es|)
  }

  /** A job that is in the pipeline was created. */
  lemma {:induction false} WasCreated(level: int, es: seq<JobStatus>, n: nat) returns (i: nat)
    requires n <= |es| && At(CONSOLIDATION, level, es, n).state !in GIVEN_UP + {NEW}
    ensures i < n && AcceptedAt(CONSOLIDATION, level, es, i, JobCreated)
  {
    var all := set s: JobState | s !in GIVEN_UP + {NEW};
    i := LastEntry(CONSOLIDATION, level, es, all, n);
    if At(CONSOLIDATION, level, es, i).state in GIVEN_UP {
      StaysIn(CONSOLIDATION, level, es, GIVEN_UP, i, n);
    }
  }

  /** One hop backwards: a job in `s` after `n` events entered it by the event number `i`. */
  lemma {:induction false} EnteredBy(level: int, es: seq<JobStatus>, s: JobState, n: nat) returns (i: nat)
    requires n <= |es| && s != NEW && At(CONSOLIDATION, level, es, n).state == s
    ensures i < n && AcceptedAt(CONSOLIDATION, level, es, i, es[i]) && Quiet(level, es, i, n)
    ensures var v := At(CONSOLIDATION, level, es, i); ConsolidationTarget(v.state, v.waiting, es[i]) == Goto(s)
  {
    i := LastEntry(CONSOLIDATION, level, es, {s}, n);
    forall k: nat | i < k < n ensures !MovesAt(CONSOLIDATION, level, es, k) {
      assert At(CONSOLIDATION, level, es, k).state in {s};
      assert At(CONSOLIDATION, level, es, k + 1).state in {s};
    }
  }

  /** Each milestone of the pipeline is the only way into its state. */
  lemma OnlyWayIn(s: JobState, waiting: bool, e: JobStatus)
    ensures ConsolidationTarget(s, waiting, e) == Goto(DONE) ==> e == DeletionStarted && s == CONSOLIDATIONEFFECTIVE
    ensures (s !in EFFECTIVE && ConsolidationTarget(s, waiting, e) in {Goto(CONSOLIDATIONEFFECTIVE),
                                                                       Goto(DONEBUTUNTIDY), Goto(DONE)})
            ==> e == DatasetsSwapped && s == CONSOLIDATIONINDEXED
    ensures ConsolidationTarget(s, waiting, e) == Goto(CONSOLIDATIONINDEXED) ==>
              e == ConsolidationIndexed && s == CONSOLIDATIONDONE
    ensures ConsolidationTarget(s, waiting, e) == Goto(CONSOLIDATIONDONE) ==>
              e == ConsolidationDone && s == CONSOLIDATIONINPROGRESS
    ensures ConsolidationTarget(s, waiting, e) == Goto(CONSOLIDATIONINPROGRESS) ==>
              e == OrdersPrepared && s !in GIVEN_UP + {NEW}
  {
  }

  lemma {:induction false} EnteredByMilestone(level: int, es: seq<JobStatus>, s: JobState, n: nat) returns (i: nat)
    requires n <= |es| && At(CONSOLIDATION, level, es, n).state == s
    requires s in {DONE, CONSOLIDATIONINDEXED, CONSOLIDATIONDONE, CONSOLIDATIONINPROGRESS}
    ensures i < n && AcceptedAt(CONSOLIDATION, level, es, i, es[i]) && Quiet(level, es, i, n)
    ensures var before := At(CONSOLIDATION, level, es, i).state;
            match s
            case DONE => es[i] == DeletionStarted && before == CONSOLIDATIONEFFECTIVE
            case CONSOLIDATIONINDEXED => es[i] == ConsolidationIndexed && before == CONSOLIDATIONDONE
            case CONSOLIDATIONDONE => es[i] == ConsolidationDone && before == CONSOLIDATIONINPROGRESS
            case _ => es[i] == OrdersPrepared && before !in GIVEN_UP + {NEW}
  {
    i := EnteredBy(level, es, s, n);
    var v := At(CONSOLIDATION, level, es, i);
    OnlyWayIn(v.state, v.waiting, es[i]);
  }

  lemma {:induction false} EnteredBySwap(level: int, es: seq<JobStatus>, n: nat) returns (i: nat)
    requires n <= |es| && At(CONSOLIDATION, level, es, n).state in EFFECTIVE
    ensures i < n && AcceptedAt(CONSOLIDATION, level, es, i, DatasetsSwapped)
    ensures At(CONSOLIDATION, level, es, i).state == CONSOLIDATIONINDEXED
  {
    i := LastEntry(CONSOLIDATION, level, es, EFFECTIVE, n);
    var v := At(CONSOLIDATION, level, es, i);
    OnlyWayIn(v.state, v.waiting, es[i]);
  }

  /** A DONE job accepted the six milestones in order, and between the last preparation of its orders
      and the swap nothing else moved it. */
  lemma {:induction false} DoneHistory(level: int, es: seq<JobStatus>) returns (m: Milestones)
    requires At(CONSOLIDATION, level, es, |es|).state == DONE
    ensures IsHistory(level, es, m)
  {
    var done := EnteredByMilestone(level, es, DONE, |es|);
    var swapped := EnteredBySwap(level, es, done);
    var indexed := EnteredByMilestone(level, es, CONSOLIDATIONINDEXED, swapped);
    var consolidated := EnteredByMilestone(level, es, CONSOLIDATIONDONE, indexed);
    var prepared := EnteredByMilestone(level, es, CONSOLIDATIONINPROGRESS, consolidated);
    var created := WasCreated(level, es, prepared);
    m := Milestones(created, prepared, consolidated, indexed, swapped, done);
  }

  /** Every retry that moved the job before the swap is followed by fresh orders, a fresh consolidation
      and a fresh indexing before the swap. */
  lemma {:induction false} RetryIsRedone(level: int, es: seq<JobStatus>, r: nat, e: JobStatus) returns (m: Milestones)
    requires At(CONSOLIDATION, level, es, |es|).state == DONE
    requires e in {Retried, RetryForced}
    requires AcceptedAt(CONSOLIDATION, level, es, r, e) && MovesAt(CONSOLIDATION, level, es, r)
    requires forall i: nat :: AcceptedAt(CONSOLIDATION, level, es, i, DatasetsSwapped) ==> r < i
    ensures IsHistory(level, es, m) && r < m.prepared
  {
    m := DoneHistory(level, es);
    assert r < m.swapped;
  }

  // ----- Two runs of the same events ---------------------------------------

  /** Without CancelledByUser the execution level changes when a job pauses, never where it goes. */
  lemma {:induction false} LevelOnlyPauses(t: JobType, level1: int, level2: int, es: seq<JobStatus>, i: nat)
    requires t != INGESTION && i <= |es|
    requires CancelledByUser !in es
    ensures At(t, level1, es, i).state == At(t, level2, es, i).state
  {
    if i == 0 {
      assert es[..0] == [];
    } else {
      LevelOnlyPauses(t, level1, level2, es, i - 1);
      AtNext(t, level1, es, i - 1);
      AtNext(t, level2, es, i - 1);
      assert es[i - 1] in es;
    }
  }

  /** As long as the states agree, a job of lower level waits only where the one of higher level does. */
  lemma {:induction false} LowerLevelWaitsLess(t: JobType, low: int, high: int, es: seq<JobStatus>, i: nat)
    requires t != INGESTION && low <= high && i <= |es|
    requires forall k: nat | k <= i :: At(t, low, es, k).state == At(t, high, es, k).state
    ensures At(t, low, es, i).waiting ==> At(t, high, es, i).waiting
  {
    if i == 0 {
      assert es[..0] == [];
    } else {
      LowerLevelWaitsLess(t, low, high, es, i - 1);
      AtNext(t, low, es, i - 1);
      AtNext(t, high, es, i - 1);
      assert At(t, low, es, i - 1).state == At(t, high, es, i - 1).state;
      assert At(t, low, es, i).state == At(t, high, es, i).state;
    }
  }

  lemma {:induction false} StepsPart(t: JobType, low: int, high: int, v: View, v': View, e: JobStatus)
    requires t != INGESTION && low <= high && v.state == v'.state && (v.waiting ==> v'.waiting)
    requires Dispatched(t, v.state)
    requires Resume(v, Step(t, low, v, e)).view.state != Resume(v', Step(t, high, v', e)).view.state
    ensures e == CancelledByUser && !v.waiting && v'.waiting
    ensures Step(t, low, v, e) == Unhandled && Resume(v', Step(t, high, v', e)).view.state == ABORTED
  {
    assert e != Continue && !(e == RetryForced && RetriesInPlace(v.state));
    assert DispatchTarget(t, v.state, v.waiting, e) != DispatchTarget(t, v.state, v'.waiting, e);
  }

  /** The states part only when the user cancels a job that pauses at the higher level and not at the lower:
      the paused one is aborted, the other one ignores the event. */
  lemma {:induction false} PartOnlyByCancelling(t: JobType, low: int, high: int, es: seq<JobStatus>, i: nat)
    requires t != INGESTION && low <= high && i < |es|
    requires forall k: nat | k <= i :: At(t, low, es, k).state == At(t, high, es, k).state
    requires At(t, low, es, i + 1).state != At(t, high, es, i + 1).state
    ensures es[i] == CancelledByUser
    ensures !At(t, low, es, i).waiting && At(t, high, es, i).waiting
    ensures At(t, low, es, i + 1) == At(t, low, es, i) && At(t, high, es, i + 1).state == ABORTED
  {
    LowerLevelWaitsLess(t, low, high, es, i);
    NeverPanics(t, low, es[..i]);
    AtNext(t, low, es, i);
    AtNext(t, high, es, i);
    StepsPart(t, low, high, At(t, low, es, i), At(t, high, es, i), es[i]);
  }

  lemma {:induction false} AsynchronousNeverWaits(t: JobType, level: int, es: seq<JobStatus>, i: nat)
    requires t != INGESTION && level <= EXECUTION_ASYNCHRONOUS && i <= |es|
    ensures !At(t, level, es, i).waiting
  {
    if i == 0 {
      assert es[..0] == [];
    } else {
      AsynchronousNeverWaits(t, level, es, i - 1);
      AtNext(t, level, es, i - 1);
    }
  }

  // ----- Every job can be brought to an end --------------------------------

  /** How far a state is from the end of its job. */
  function Distance(t: JobType, s: JobState): nat {
    match s
    case DONE | FAILED => 0
    case CONSOLIDATIONEFFECTIVE | DELETIONEFFECTIVE | ABORTED | ROLLBACKFAILED => 1
    case INITIALISATIONFAILED => if t.CONSOLIDATION? then 2 else 1
    case CONSOLIDATIONINPROGRESS | CONSOLIDATIONRETRYING | CONSOLIDATIONFORCERETRYING | CANCELLATIONFAILED => 3
    case _ => 2
  }

  /** An event that brings a job nearer to its end, and the state it leads to. */
  function Exit(t: JobType, s: JobState): (JobStatus, JobState) {
    match s
    case CONSOLIDATIONINPROGRESS => (CancelledByUserForced, CONSOLIDATIONCANCELLING)
    case CONSOLIDATIONRETRYING | CONSOLIDATIONFORCERETRYING => (ConsolidationRetryFailed, CONSOLIDATIONFAILED)
    case CANCELLATIONFAILED => (Retried, CONSOLIDATIONCANCELLING)
    case CONSOLIDATIONCANCELLING => (CancellationDone, ABORTED)
    case CONSOLIDATIONEFFECTIVE => (DeletionStarted, DONE)
    case DELETIONEFFECTIVE => (DeletionDone, DONE)
    case DONEBUTUNTIDY => (RetryForced, if t.CONSOLIDATION? then CONSOLIDATIONEFFECTIVE else DELETIONEFFECTIVE)
    case ABORTED => (RollbackDone, FAILED)
    case ROLLBACKFAILED => (CancelledByUserForced, FAILED)
    case INITIALISATIONFAILED => (CancelledByUserForced, if t.CONSOLIDATION? then ABORTED else FAILED)
    case _ => (CancelledByUserForced, ABORTED)
  }

  function WayOut(t: JobType, s: JobState): (out: seq<JobStatus>)
    ensures |out| == Distance(t, s) <= 3
    decreases Distance(t, s)
  {
    if Distance(t, s) == 0 then [] else [Exit(t, s).0] + WayOut(t, Exit(t, s).1)
  }

  /** The run that goes on from `r` with the events `es`. */
  function Continued(t: JobType, level: int, r: Run, es: seq<JobStatus>): Run
    decreases es
  {
    if es == [] || r.Crashed? then r
    else Continued(t, level, Resume(r.view, Step(t, level, r.view, es[0])), es[1..])
  }

  lemma {:induction false} AfterConcat(t: JobType, level: int, es: seq<JobStatus>, es': seq<JobStatus>)
    ensures After(t, level, es + es') == Continued(t, level, After(t, level, es), es')
    decreases |es'|
  {
    if es' == [] {
      assert es + es' == es;
    } else {
      AfterConcat(t, level, es + [es'[0]], es'[1..]);
      assert (es + [es'[0]]) + es'[1..] == es + es';
      assert (es + [es'[0]])[..|es|] == es;
      if After(t, level, es).Crashed? {
        assert After(t, level, es + [es'[0]]).Crashed?;
      }
    }
  }

  /** The dispatch table has the exit of every state, whether or not the job waits. */
  lemma ExitDispatched(t: JobType, s: JobState, waiting: bool)
    requires Dispatched(t, s) && !s.DONE? && !s.FAILED?
    ensures DispatchTarget(t, s, waiting, Exit(t, s).0) == Goto(Exit(t, s).1)
    ensures Dispatched(t, Exit(t, s).1)
  {
  }

  /** The way out works whatever the execution level and whether or not the job waits. */
  lemma {:induction false} WayOutEnds(t: JobType, level: int, v: View)
    requires Dispatched(t, v.state)
    ensures var r := Continued(t, level, Running(v), WayOut(t, v.state)); r.Running? && r.view.state in {DONE, FAILED}
    decreases Distance(t, v.state)
  {
    hide DispatchTarget;
    if Distance(t, v.state) > 0 {
      var (e, s) := Exit(t, v.state);
      ExitDispatched(t, v.state, v.waiting);
      assert Step(t, level, v, e) == Handled(Enter(level, s));
      assert WayOut(t, v.state)[1..] == WayOut(t, s);
      WayOutEnds(t, level, Enter(level, s));
    }
  }

  /** From every reachable state at most three events, whatever the level, end the job in DONE or FAILED. */
  lemma {:induction false} CanAlwaysEnd(t: JobType, level: int, es: seq<JobStatus>)
    requires t != INGESTION
    ensures var out := WayOut(t, At(t, level, es, |es|).state);
            && |out| <= 3
            && After(t, level, es + out).Running?
            && After(t, level, es + out).view.state in {DONE, FAILED}
  {
    assert es[..|es|] == es;
    NeverPanics(t, level, es);
    WayOutEnds(t, level, At(t, level, es, |es|));
    AfterConcat(t, level, es, WayOut(t, At(t, level, es, |es|).state));
  }

  /** An event that is not handled changes neither the state nor the pause. */
  lemma {:induction false} UnhandledChangesNothing(t: JobType, level: int, es: seq<JobStatus>, i: nat)
    requires t != INGESTION && i < |es|
    requires !AcceptedAt(t, level, es, i, es[i])
    ensures At(t, level, es, i + 1) == At(t, level, es, i)
  {
    AtNext(t, level, es, i);
  }
}
