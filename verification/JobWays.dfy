/** What each event does to a job, along its runs: the only ways into each state, the only ways to be cancelled, how a
    failed step is retried, and when a job waits. The states are written out here: nothing refers to the table. */
module JobWays {
  import opened JobMachine
  import opened JobRuns

  /** The view of a job of type `t` in state `v` after the event `e`. */
  function Next(t: JobType, level: int, v: View, e: JobStatus): View
    requires t != INGESTION && Dispatched(t, v.state)
  {
    Resume(v, Step(t, level, v, e)).view
  }

  /** Each step of a run is such a step. */
  lemma {:induction false} NextInRun(t: JobType, level: int, es: seq<JobStatus>, i: nat)
    requires t != INGESTION && i < |es|
    ensures Dispatched(t, At(t, level, es, i).state)
    ensures At(t, level, es, i + 1) == Next(t, level, At(t, level, es, i), es[i])
  {
    NeverPanics(t, level, es[..i]);
    AtNext(t, level, es, i);
    hide Step;
  }

  /** The event takes the job to another state, `s`. */
  predicate Enters(t: JobType, level: int, v: View, e: JobStatus, s: JobState)
    requires t != INGESTION && Dispatched(t, v.state)
  {
    v.state != s && Next(t, level, v, e).state == s
  }

  /** The dispatch decides, but for Continue and the retries in place. */
  lemma {:induction false} EntersIff(t: JobType, level: int, v: View, e: JobStatus)
    requires t != INGESTION && Dispatched(t, v.state)
    ensures forall s :: Enters(t, level, v, e, s) <==>
              !e.Continue? && !(e.RetryForced? && RetriesInPlace(v.state)) && s != v.state &&
              DispatchTarget(t, v.state, v.waiting, e) == Goto(s)
  {
    hide DispatchTarget;
    hide RetriesInPlace;
    hide PauseLevel;
  }

  // ----- The only ways in: consolidation -----------------------------------

  /** From the creation to the orders. */
  lemma {:induction false} WaysForward(level: int, v: View, e: JobStatus)
    requires Dispatched(CONSOLIDATION, v.state)
    ensures var s := v.state;
            && !Enters(CONSOLIDATION, level, v, e, NEW)
            && (Enters(CONSOLIDATION, level, v, e, CREATED) <==>
                  (s.NEW? && e.JobCreated?) || (s.INITIALISATIONFAILED? && (e.Retried? || e.RetryForced?)))
            && (Enters(CONSOLIDATION, level, v, e, CONSOLIDATIONINPROGRESS) <==>
                  (s.CREATED? || s.CONSOLIDATIONRETRYING? || s.CONSOLIDATIONFORCERETRYING?) && e.OrdersPrepared?)
  {
    EntersIff(CONSOLIDATION, level, v, e);
    hide Enters;
  }

  /** From there to the deletion of the old datasets. */
  lemma {:induction false} WaysToTheEnd(level: int, v: View, e: JobStatus)
    requires Dispatched(CONSOLIDATION, v.state)
    ensures var s := v.state;
            && (Enters(CONSOLIDATION, level, v, e, CONSOLIDATIONDONE) <==>
                  s.CONSOLIDATIONINPROGRESS? && e.ConsolidationDone?)
            && (Enters(CONSOLIDATION, level, v, e, CONSOLIDATIONINDEXED) <==>
                  s.CONSOLIDATIONDONE? && e.ConsolidationIndexed?)
            && (Enters(CONSOLIDATION, level, v, e, CONSOLIDATIONEFFECTIVE) <==>
                  (s.CONSOLIDATIONINDEXED? && e.DatasetsSwapped?) ||
                  (s.DONEBUTUNTIDY? && (e.Retried? || e.RetryForced?)))
            && (Enters(CONSOLIDATION, level, v, e, DONE) <==> s.CONSOLIDATIONEFFECTIVE? && e.DeletionStarted?)
  {
    EntersIff(CONSOLIDATION, level, v, e);
    hide Enters;
  }

  /** The failures of a step. */
  lemma {:induction false} WaysToFail(level: int, v: View, e: JobStatus)
    requires Dispatched(CONSOLIDATION, v.state)
    ensures var s := v.state;
            && (Enters(CONSOLIDATION, level, v, e, INITIALISATIONFAILED) <==> s.CREATED? && e.PrepareOrdersFailed?)
            && (Enters(CONSOLIDATION, level, v, e, CONSOLIDATIONFAILED) <==>
                  (s.CONSOLIDATIONINPROGRESS? && (e.SendOrdersFailed? || e.ConsolidationFailed?)) ||
                  (s.CONSOLIDATIONDONE? && e.ConsolidationIndexingFailed?) ||
                  (s.CONSOLIDATIONINDEXED? && e.SwapDatasetsFailed?) ||
                  ((s.CONSOLIDATIONRETRYING? || s.CONSOLIDATIONFORCERETRYING?) && e.ConsolidationRetryFailed?))
            && (Enters(CONSOLIDATION, level, v, e, DONEBUTUNTIDY) <==>
                  s.CONSOLIDATIONEFFECTIVE? && e.StartDeletionFailed?)
  {
    EntersIff(CONSOLIDATION, level, v, e);
    hide Enters;
  }

  lemma {:induction false} WaysToRetry(level: int, v: View, e: JobStatus)
    requires Dispatched(CONSOLIDATION, v.state)
    ensures var s := v.state;
            && (Enters(CONSOLIDATION, level, v, e, CONSOLIDATIONRETRYING) <==>
                  (s.CONSOLIDATIONINPROGRESS? && e.Retried?) ||
                  (s.CONSOLIDATIONFAILED? && (e.Retried? || e.RetryForced?)))
            && (Enters(CONSOLIDATION, level, v, e, CONSOLIDATIONFORCERETRYING) <==>
                  s.CONSOLIDATIONINPROGRESS? && e.RetryForced?)
  {
    EntersIff(CONSOLIDATION, level, v, e);
    hide Enters;
  }

  /** Cancellation, while the consolidation is in progress. */
  lemma {:induction false} WaysToCancel(level: int, v: View, e: JobStatus)
    requires Dispatched(CONSOLIDATION, v.state)
    ensures var s := v.state;
            && (Enters(CONSOLIDATION, level, v, e, CONSOLIDATIONCANCELLING) <==>
                  (s.CONSOLIDATIONINPROGRESS? && (e.CancelledByUser? || e.CancelledByUserForced?)) ||
                  (s.CANCELLATIONFAILED? && (e.Retried? || e.RetryForced?)))
            && (Enters(CONSOLIDATION, level, v, e, CANCELLATIONFAILED) <==>
                  s.CONSOLIDATIONCANCELLING? && e.CancellationFailed?)
  {
    EntersIff(CONSOLIDATION, level, v, e);
    hide Enters;
  }

  /** Between two steps the user can only abort a job that waits, unless it is forced. */
  lemma {:induction false} WaysToAbort(level: int, v: View, e: JobStatus)
    requires Dispatched(CONSOLIDATION, v.state)
    ensures var s := v.state;
            Enters(CONSOLIDATION, level, v, e, ABORTED) <==>
              || ((s.NEW? || s.CREATED? || s.CONSOLIDATIONDONE? || s.CONSOLIDATIONINDEXED?) &&
                  (e.CancelledByUserForced? || (e.CancelledByUser? && v.waiting)))
              || ((s.INITIALISATIONFAILED? || s.CONSOLIDATIONFAILED?) &&
                  (e.CancelledByUser? || e.CancelledByUserForced?))
              || (s.CONSOLIDATIONCANCELLING? && e.CancellationDone?)
              || (s.ROLLBACKFAILED? && (e.Retried? || e.RetryForced?))
  {
    EntersIff(CONSOLIDATION, level, v, e);
    hide Enters;
  }

  /** The end of a job that was aborted. */
  lemma {:induction false} WaysBack(level: int, v: View, e: JobStatus)
    requires Dispatched(CONSOLIDATION, v.state)
    ensures var s := v.state;
            && (Enters(CONSOLIDATION, level, v, e, ROLLBACKFAILED) <==> s.ABORTED? && e.RollbackFailed?)
            && (Enters(CONSOLIDATION, level, v, e, FAILED) <==>
                  (s.ABORTED? && e.RollbackDone?) || (s.ROLLBACKFAILED? && e.CancelledByUserForced?))
  {
    EntersIff(CONSOLIDATION, level, v, e);
    hide Enters;
  }

  /** It never enters the states of a deletion. */
  lemma {:induction false} NoWayToDelete(level: int, v: View, e: JobStatus)
    requires Dispatched(CONSOLIDATION, v.state)
    ensures Next(CONSOLIDATION, level, v, e).state !in {DELETIONINPROGRESS, DELETIONEFFECTIVE, DELETIONFAILED}
  {
    assert v.state !in {DELETIONINPROGRESS, DELETIONEFFECTIVE, DELETIONFAILED};
  }

  // ----- The only ways in: deletion ----------------------------------------

  lemma {:induction false} DeletionWaysForward(level: int, v: View, e: JobStatus)
    requires Dispatched(DELETION, v.state)
    ensures var s := v.state;
            && !Enters(DELETION, level, v, e, NEW)
            && (Enters(DELETION, level, v, e, CREATED) <==>
                  (s.NEW? && e.JobCreated?) || (s.INITIALISATIONFAILED? && (e.Retried? || e.RetryForced?)))
            && (Enters(DELETION, level, v, e, DELETIONINPROGRESS) <==>
                  (s.CREATED? && e.DeletionReady?) || (s.DELETIONFAILED? && (e.Retried? || e.RetryForced?)))
            && (Enters(DELETION, level, v, e, DELETIONEFFECTIVE) <==>
                  (s.DELETIONINPROGRESS? && e.RemovalDone?) || (s.DONEBUTUNTIDY? && e.RetryForced?))
            && (Enters(DELETION, level, v, e, DONE) <==> s.DELETIONEFFECTIVE? && e.DeletionDone?)
  {
    EntersIff(DELETION, level, v, e);
    hide Enters;
  }

  lemma {:induction false} DeletionWaysToFail(level: int, v: View, e: JobStatus)
    requires Dispatched(DELETION, v.state)
    ensures var s := v.state;
            && (Enters(DELETION, level, v, e, INITIALISATIONFAILED) <==> s.CREATED? && e.DeletionNotReady?)
            && (Enters(DELETION, level, v, e, DELETIONFAILED) <==> s.DELETIONINPROGRESS? && e.RemovalFailed?)
            && (Enters(DELETION, level, v, e, DONEBUTUNTIDY) <==> s.DELETIONEFFECTIVE? && e.DeletionFailed?)
  {
    EntersIff(DELETION, level, v, e);
    hide Enters;
  }

  lemma {:induction false} DeletionWaysBack(level: int, v: View, e: JobStatus)
    requires Dispatched(DELETION, v.state)
    ensures var s := v.state;
            && (Enters(DELETION, level, v, e, ABORTED) <==>
                  ((s.NEW? || s.CREATED? || s.DELETIONINPROGRESS?) &&
                   (e.CancelledByUserForced? || (e.CancelledByUser? && v.waiting))) ||
                  (s.DELETIONEFFECTIVE? && e.CancelledByUserForced?) ||
                  (s.DELETIONFAILED? && (e.CancelledByUser? || e.CancelledByUserForced?)) ||
                  (s.ROLLBACKFAILED? && (e.Retried? || e.RetryForced?)))
            && (Enters(DELETION, level, v, e, ROLLBACKFAILED) <==> s.ABORTED? && e.RollbackFailed?)
            && (Enters(DELETION, level, v, e, FAILED) <==>
                  (s.ABORTED? && e.RollbackDone?) ||
                  ((s.ROLLBACKFAILED? || s.INITIALISATIONFAILED?) && e.CancelledByUserForced?))
            && v.state !in {CONSOLIDATIONINPROGRESS, CONSOLIDATIONDONE, CONSOLIDATIONINDEXED,
                  CONSOLIDATIONEFFECTIVE, CONSOLIDATIONFAILED, CONSOLIDATIONRETRYING, CONSOLIDATIONFORCERETRYING,
                  CONSOLIDATIONCANCELLING, CANCELLATIONFAILED}
  {
    EntersIff(DELETION, level, v, e);
    hide Enters;
  }

  /** The other accepted events: Continue ends a pause, and a forced retry restarts some states in place. */
  lemma {:induction false} AcceptedIff(t: JobType, level: int, es: seq<JobStatus>, i: nat)
    requires t != INGESTION && i < |es|
    ensures AcceptedAt(t, level, es, i, es[i]) <==>
              || MovesAt(t, level, es, i)
              || (es[i] == Continue && At(t, level, es, i).waiting)
              || (es[i] == RetryForced &&
                  At(t, level, es, i).state in {NEW, CREATED, CONSOLIDATIONDONE, CONSOLIDATIONINDEXED,
                    CONSOLIDATIONEFFECTIVE, CONSOLIDATIONRETRYING, CONSOLIDATIONFORCERETRYING, CONSOLIDATIONCANCELLING,
                    DELETIONINPROGRESS, DELETIONEFFECTIVE, ABORTED})
  {
    NeverPanics(t, level, es[..i]);
    AtNext(t, level, es, i);
  }

  // ----- Cancellation ------------------------------------------------------

  lemma OnlyCancelled(t: JobType, s: JobState, waiting: bool, e: JobStatus)
    requires !e.CancelledByUser? && !e.CancelledByUserForced?
    requires !s.CONSOLIDATIONCANCELLING? && !s.CANCELLATIONFAILED? && !s.ABORTED? && !s.ROLLBACKFAILED? && !s.FAILED?
    ensures var r := DispatchTarget(t, s, waiting, e);
            r.Goto? ==> !r.state.CONSOLIDATIONCANCELLING? && !r.state.CANCELLATIONFAILED? && !r.state.ABORTED? &&
                        !r.state.ROLLBACKFAILED? && !r.state.FAILED?
  {
  }

  /** A job is cancelled, rolled back or failed only if the user cancelled it: nothing else leads there. */
  lemma {:induction false} CancelledByTheUser(t: JobType, level: int, es: seq<JobStatus>, n: nat) returns (i: nat)
    requires t != INGESTION && n <= |es|
    requires At(t, level, es, n).state in
               {CONSOLIDATIONCANCELLING, CANCELLATIONFAILED, ABORTED, ROLLBACKFAILED, FAILED}
    ensures i < n && es[i] in {CancelledByUser, CancelledByUserForced} && AcceptedAt(t, level, es, i, es[i])
    ensures forall k: nat | i < k <= n :: At(t, level, es, k).state in
              {CONSOLIDATIONCANCELLING, CANCELLATIONFAILED, ABORTED, ROLLBACKFAILED, FAILED}
  {
    i := LastEntry(t, level, es, {CONSOLIDATIONCANCELLING, CANCELLATIONFAILED, ABORTED, ROLLBACKFAILED, FAILED}, n);
    var v := At(t, level, es, i);
    if es[i] != CancelledByUser && es[i] != CancelledByUserForced {
      OnlyCancelled(t, v.state, v.waiting, es[i]);
    }
    hide DispatchTarget;
    hide AcceptedAt;
  }

  /** So without a cancellation in its events, no job is ever in one of these states, whatever fails. */
  lemma {:induction false} NotCancelledUnlessAsked(t: JobType, level: int, es: seq<JobStatus>, n: nat)
    requires t != INGESTION && n <= |es|
    requires CancelledByUser !in es[..n] && CancelledByUserForced !in es[..n]
    ensures At(t, level, es, n).state !in
              {CONSOLIDATIONCANCELLING, CANCELLATIONFAILED, ABORTED, ROLLBACKFAILED, FAILED}
  {
    assert forall i | 0 <= i < n :: es[..n][i] == es[i];
    if At(t, level, es, n).state in {CONSOLIDATIONCANCELLING, CANCELLATIONFAILED, ABORTED, ROLLBACKFAILED, FAILED} {
      var i := CancelledByTheUser(t, level, es, n);
    }
  }

  // ----- Failed steps ------------------------------------------------------

  /** The failure of each step of a consolidation is accepted while the step is done. */
  lemma {:induction false} FailureIsAccepted(level: int, es: seq<JobStatus>, i: nat)
    requires i < |es|
    requires match At(CONSOLIDATION, level, es, i).state
             case CREATED => es[i] == PrepareOrdersFailed
             case CONSOLIDATIONINPROGRESS => es[i] in {SendOrdersFailed, ConsolidationFailed}
             case CONSOLIDATIONRETRYING | CONSOLIDATIONFORCERETRYING => es[i] == ConsolidationRetryFailed
             case CONSOLIDATIONDONE => es[i] == ConsolidationIndexingFailed
             case CONSOLIDATIONINDEXED => es[i] == SwapDatasetsFailed
             case CONSOLIDATIONEFFECTIVE => es[i] == StartDeletionFailed
             case CONSOLIDATIONCANCELLING => es[i] == CancellationFailed
             case ABORTED => es[i] == RollbackFailed
             case _ => false
    ensures AcceptedAt(CONSOLIDATION, level, es, i, es[i])
    ensures At(CONSOLIDATION, level, es, i + 1).state ==
              match At(CONSOLIDATION, level, es, i).state
              case CREATED => INITIALISATIONFAILED
              case CONSOLIDATIONEFFECTIVE => DONEBUTUNTIDY
              case CONSOLIDATIONCANCELLING => CANCELLATIONFAILED
              case ABORTED => ROLLBACKFAILED
              case _ => CONSOLIDATIONFAILED
  {
    AtNext(CONSOLIDATION, level, es, i);
  }

  /** In each failed state a retry, forced or not, is accepted, and starts again: the step itself, or the whole
      consolidation. */
  lemma {:induction false} RetryStartsAgain(level: int, es: seq<JobStatus>, i: nat)
    requires i < |es| && es[i] in {Retried, RetryForced}
    requires At(CONSOLIDATION, level, es, i).state in
               {INITIALISATIONFAILED, CONSOLIDATIONFAILED, DONEBUTUNTIDY, CANCELLATIONFAILED, ROLLBACKFAILED}
    ensures AcceptedAt(CONSOLIDATION, level, es, i, es[i])
    ensures At(CONSOLIDATION, level, es, i + 1).state ==
              match At(CONSOLIDATION, level, es, i).state
              case INITIALISATIONFAILED => CREATED
              case CONSOLIDATIONFAILED => CONSOLIDATIONRETRYING
              case DONEBUTUNTIDY => CONSOLIDATIONEFFECTIVE
              case CANCELLATIONFAILED => CONSOLIDATIONCANCELLING
              case _ => ABORTED
  {
    AtNext(CONSOLIDATION, level, es, i);
  }

  /** The failures of a deletion and their retries; the last step is only retried by force. */
  lemma {:induction false} DeletionFailureIsRetried(level: int, es: seq<JobStatus>, i: nat)
    requires i + 1 < |es| && es[i + 1] in {Retried, RetryForced}
    requires match At(DELETION, level, es, i).state
             case CREATED => es[i] == DeletionNotReady
             case DELETIONINPROGRESS => es[i] == RemovalFailed
             case DELETIONEFFECTIVE => es[i] == DeletionFailed
             case ABORTED => es[i] == RollbackFailed
             case _ => false
    ensures AcceptedAt(DELETION, level, es, i, es[i])
    ensures var failed, again := At(DELETION, level, es, i + 1).state, At(DELETION, level, es, i + 2).state;
            match At(DELETION, level, es, i).state
            case CREATED => failed == INITIALISATIONFAILED && again == CREATED
            case DELETIONINPROGRESS => failed == DELETIONFAILED && again == DELETIONINPROGRESS
            case DELETIONEFFECTIVE =>
              failed == DONEBUTUNTIDY && again == if es[i + 1] == RetryForced then DELETIONEFFECTIVE else DONEBUTUNTIDY
            case _ => failed == ROLLBACKFAILED && again == ABORTED
  {
    NextInRun(DELETION, level, es, i);
    NextInRun(DELETION, level, es, i + 1);
    var v, v' := At(DELETION, level, es, i), At(DELETION, level, es, i + 1);
    assert AcceptedAt(DELETION, level, es, i, es[i]) <==> Step(DELETION, level, v, es[i]).Handled?;
    assert AcceptedAt(DELETION, level, es, i + 1, es[i + 1]) <==> Step(DELETION, level, v', es[i + 1]).Handled?;
    hide AcceptedAt;
    hide At;
    hide After;
    hide PauseLevel;
  }

  lemma FailedStays(t: JobType, s: JobState, waiting: bool, e: JobStatus)
    requires s in {INITIALISATIONFAILED, CONSOLIDATIONFAILED, CANCELLATIONFAILED, ROLLBACKFAILED, DELETIONFAILED,
                   DONEBUTUNTIDY}
    requires e !in {Retried, RetryForced, CancelledByUser, CancelledByUserForced}
    ensures DispatchTarget(t, s, waiting, e) == Stay
  {
  }

  /** And until the user retries or cancels, a failed job stays failed. */
  lemma {:induction false} FailedWaitsForTheUser(t: JobType, level: int, es: seq<JobStatus>, i: nat, j: nat)
    requires t != INGESTION && i <= j <= |es|
    requires At(t, level, es, i).state in {INITIALISATIONFAILED, CONSOLIDATIONFAILED, CANCELLATIONFAILED,
                                           ROLLBACKFAILED, DELETIONFAILED, DONEBUTUNTIDY}
    requires forall k | i <= k < j :: es[k] !in {Retried, RetryForced, CancelledByUser, CancelledByUserForced}
    ensures At(t, level, es, j).state == At(t, level, es, i).state
    decreases j
  {
    if i < j {
      FailedWaitsForTheUser(t, level, es, i, j - 1);
      var v, e := At(t, level, es, j - 1), es[j - 1];
      FailedStays(t, v.state, v.waiting, e);
      NextInRun(t, level, es, j - 1);
      hide At;
      hide DispatchTarget;
    }
  }

  // ----- Pauses ------------------------------------------------------------

  /** A job that enters a state waits there for the user, or not, according to its level: never below 2; on the critical
      steps at 2, on the major ones too at 3, everywhere but at the end at 4. Then it waits until it moves on, or is
      told to continue. */
  lemma {:induction false} WaitsIff(t: JobType, level: int, es: seq<JobStatus>, i: nat)
    requires t != INGESTION && i < |es|
    ensures var s := At(t, level, es, i + 1).state;
            MovesAt(t, level, es, i) ==> (At(t, level, es, i + 1).waiting <==>
              || (level >= 2 && s in {CONSOLIDATIONINPROGRESS, CONSOLIDATIONEFFECTIVE, DELETIONINPROGRESS})
              || (level >= 3 && s in {CREATED, CONSOLIDATIONDONE, CONSOLIDATIONRETRYING, CONSOLIDATIONFORCERETRYING,
                                      CONSOLIDATIONCANCELLING, DELETIONEFFECTIVE, ABORTED})
              || (level >= 4 && s !in {DONE, FAILED, DONEBUTUNTIDY})
              || level >= 5)
    ensures !MovesAt(t, level, es, i) ==>
              (At(t, level, es, i + 1).waiting <==> At(t, level, es, i).waiting && es[i] != Continue)
  {
    NextInRun(t, level, es, i);
    PausesInNext(t, level, At(t, level, es, i), es[i]);
    hide At;
    hide Next;
  }

  lemma {:induction false} PausesInNext(t: JobType, level: int, v: View, e: JobStatus)
    requires t != INGESTION && Dispatched(t, v.state)
    ensures var v' := Next(t, level, v, e);
            if v'.state != v.state then v' == Enter(level, v'.state)
            else v'.waiting <==> v.waiting && e != Continue
  {
    if DispatchTarget(t, v.state, v.waiting, e).Goto? {
      Leaves(t, v, e);
    }
    hide DispatchTarget;
    hide PauseLevel;
  }

  /** No dispatched event leads a state to itself. */
  lemma Leaves(t: JobType, v: View, e: JobStatus)
    ensures DispatchTarget(t, v.state, v.waiting, e) != Goto(v.state)
  {
  }
}
