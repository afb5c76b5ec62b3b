# Geocube: a verified model of the job engine, the workers and the index arithmetic

This project models, in Dafny, the parts of Geocube where several steps, goroutines or formulas have to fit together,
and proves what they are meant to guarantee.

* **Jobs** (`JobMachine`, `JobRuns`, `JobWays`, `Job`, `Tasks`, `Delivery`, `TaskReports`, `Persistence`). A job is a
  machine of twenty states, fed with events by the service, its workers and its users. `JobMachine` gives the
  transition tables event by event, as one reads a specification; `Jobs.Job.Trigger`, written state by state like the
  program, is proved to implement them. `JobRuns` then speaks about whole runs, of any length and for any events, and
  `JobWays` says, with the states written out, what leads into each state, how a failed step is retried and where a job
  waits. `Jobs.Job` is the object itself, with its tasks and the two counters that it keeps while task events arrive;
  `Delivery` says what the order and the number of deliveries of those events can change.
* **The consolidation worker** (`Worker`). One delivery of a message, the life of a message under the contract of the
  queue and in the PostgreSQL queue, and the composition with the job: what the task ends as.
* **The ordered pool** (`WorkerPool`). The workers that merge the slices of a cube, their queue, one unbuffered channel
  per slice and the collector that streams the slices in order, as interleaved steps, with or without cancellation.
* **Predownloaded files** (`Predownload`, `Downloads`). The references of the remote files of a cube, and the life of
  each local copy: download worker, slices, acknowledgements, remover.
* **The cube** (`CubeStream`). The pool and the predownload together: a slice that waits for its files holds a worker
  and then a place in the ordered stream.
* **Temporary files of a consolidation** (`TempFiles`, `Quota`). The counter of each downloaded file and the quota that
  the download workers share.
* **Indices** (`Grouping`, `CubeRecords`, `Palette`, `Containers`). Grouping the datasets of a cube, the cursor that
  builds a palette, and which dataset owns which band of a file.
* **Arithmetic** (`Cast`, `Overviews`, `Extent`). Two value mappings fused into one scaling, the number of overviews,
  and the window of a container that a set of datasets covers. Numbers are exact reals.

`Basics` and `Sequences` hold what several of these modules need.

Concurrency is modelled by interleaved steps: `Enabled` says when a step is possible, `Apply` what it does, and a theorem
about every run (`IsRun`) is a theorem about every schedule. Where the program loops over mutable data, the model is a
method with a loop, proved against a function whose own properties are lemmas.

`dafny verify dfyconfig.toml` checks everything.

## What the proofs found

Each of these is stated by a lemma below, with the condition under which the property holds.

* A file that a slice lists twice gets more references than acknowledgements, so it is never removed
  (`Downloads.RemovedIffListedOnce`, an equivalence).
* When two records of a consolidation have the same id, both merge the datasets of the last one, and a temporary file
  may be removed while it is still needed. `TempFiles.NeverLosesIff` gives the exact condition on the counters, for any
  number of workers, and `TempFiles.RecordsNeverLoseIff` the exact condition on the records. The condition fails as
  soon as a downloaded file is referenced once, by the last of several records of the same id
  (`TempFiles.RepeatedIdRemovesTooEarly`), and holds when records of the same id have the same datasets
  (`TempFiles.AgreeingRecordsCover`). The service sorts the datasets by date and record id before it groups them
  (`internal/svc/consolidater.go:426-428`), so the ids of its records are distinct: only a consolidation event written
  by hand can repeat an id.
* The counter of a temporary file counts every spelling of its uri, but only the references that spell it as the parsed
  uri does (`interface/storage/uri/uri.go:72-76, 120-125`) are redirected to the local copy. The counter is exact when
  all do (`TempFiles.DistinctIdsExact`, an equivalence); otherwise the copy stays until the workspace is removed
  (`TempFiles.SpelledOtherwiseStays`).
* The datasets of a cube of groups of records land in the row of their group, for all groups, exactly when those of
  each record are contiguous (`CubeRecords.RightFilesIffContiguous`), as the order that the request asks of the
  database makes them (`interface/database/pg/pg_containers.go:316-319`, `CubeRecords.SortedIsContiguous`).
* A retry that is not forced has no effect on a deletion whose last step failed, although it restarts every other
  failed step (`JobWays.DeletionFailureIsRetried`, `JobWays.RetryStartsAgain`).
* A consolidation that succeeded on its last try is reported as failed if that report could not be published
  (`Worker.SuccessCanBeLost`): a message reports a success exactly when one of its deliveries consolidated successfully
  and could publish it (`Worker.SuccessReportedIff`).
* The PostgreSQL queue delivers every message with the try count -1, and drops it once its list of waits is used up
  (three waits by default, so after four deliveries). The retry limit of the worker is then never reached: a
  consolidation that always fails temporarily is never reported, exactly when the try count is below the limit
  (`Worker.NeverReportedIff`), and its task stays active (`Worker.DroppedTaskStaysActive`).
* With a quota of MaxInt64 megabytes, the product by 2^20 wraps to a negative number and nothing is downloaded
  (`Quota.UnlimitedDownloadsNothing`; `Quota.QuotaFits` gives the exact interval).
* The set of task events determines `ActiveTasks` (`Delivery.OnlyTheSetMatters`), but `FailedTasks` exactly when no
  active task is reported both failed and cancelled or ignored, without a success (`Delivery.FailedTasksIff`).
* A dataset without bands can be added again and again to a container (`Containers.WithoutBandsTwice`); adding a stored
  dataset again changes nothing exactly when it is ACTIVE and has bands (`Containers.AddAgain`).
* The fused scaling equals the two casts exactly when one of the mappings is linear or the value is not below the
  source minimum (`Cast.ScaleIsTwoStepsIff`): below it, and for any other exponent, the two casts give NaN or start
  from the absolute value (`Cast.SameExponentIff`).
* No window leaves out a pixel of its extent exactly when the transform of the container has a1 * a4 <= 0 and a2 * a5
  <= 0 (`Extent.NeverMissesIff`). The grids of the service only build translations of `Scale(r, -r)`
  (`internal/utils/grid/regulargrid.go:121`, `internal/utils/grid/singlecellgrid.go:97`), which satisfy it
  (`Extent.GridsAreStraight`), and the service always asks for whole containers (`OptimizeExtent: false`,
  `internal/geocube/consolidation_event.go:186`): only a consolidation event written by hand asks for a window at all,
  or names another transform.
* A window has pixels only if the extent meets the container exactly when the container is a whole number of blocks
  (`Extent.PixelsOnlyIfMeetsIff`).
* A minimum overview size below -1 makes the overview loop run for ever (`Overviews.EndsUnlessNegative`, an
  equivalence).

## Model

| member | source | states |
|---|---|---|
| JobRuns.NeverPanics | internal/geocube/job.go:352-637 | From NEW, whatever the events and the execution level, a consolidation or deletion job never meets a state without a dispatch entry: the "Unknown state" panics are unreachable. |
| JobRuns.AtNext | internal/geocube/job.go:352-388 | The view reached after i + 1 events is the one that the step for event i leads to from the view after i events, so `At` describes a run step by step. |
| JobRuns.StaysIn | internal/geocube/job.go:390-637 | A set of states that no event leaves, once entered, is never left, at any later point of any run. |
| JobRuns.PointOfNoReturn | internal/geocube/job.go:443-475 | Once DatasetsSwapped was accepted, the job is at every later point in CONSOLIDATIONEFFECTIVE, DONEBUTUNTIDY or DONE: it can neither be aborted nor fail. |
| JobRuns.SwappedAtMostOnce | internal/geocube/job.go:443-475 | DatasetsSwapped is accepted at most once in a run. |
| JobRuns.AbortedNeverEffective | internal/geocube/job.go:390-637 | After ABORTED a job of either type is only ever ABORTED, ROLLBACKFAILED or FAILED. |
| JobRuns.FinalStatesAbsorb | internal/geocube/job.go:390-637 | DONE and FAILED are kept whatever comes. |
| JobRuns.LastEntry | internal/geocube/job.go:352-388 | A run that is in a set of states where it did not start entered it at some accepted event, for the last time, by a transition of the table. |
| JobRuns.WasCreated | internal/geocube/job.go:390-425 | A consolidation job that is neither NEW nor given up accepted JobCreated earlier. |
| JobRuns.EnteredByMilestone | internal/geocube/job.go:390-475 | DONE, CONSOLIDATIONINDEXED, CONSOLIDATIONDONE and CONSOLIDATIONINPROGRESS were each entered by their own event, from the expected state, and nothing moved the job since. |
| JobRuns.EnteredBySwap | internal/geocube/job.go:443-475 | An effective job accepted DatasetsSwapped when it was CONSOLIDATIONINDEXED. |
| JobRuns.DoneHistory | internal/geocube/job.go:390-533 | A DONE consolidation accepted JobCreated, OrdersPrepared, ConsolidationDone, ConsolidationIndexed, DatasetsSwapped and DeletionStarted in that order, and nothing else moved it between its last orders and the swap. |
| JobRuns.RetryIsRedone | internal/geocube/job.go:390-533 | In a job that ends DONE, every retry that moved it before the swap is followed by fresh orders, a fresh consolidation and a fresh indexing before the swap. |
| JobRuns.LevelOnlyPauses | internal/geocube/job.go:57-83 | Two jobs of the same type fed with the same events, none of them CancelledByUser, are in the same state at every point, whatever their execution levels. |
| JobRuns.LowerLevelWaitsLess | internal/geocube/job.go:643-648 | As long as the states of two such jobs agree, cancellations included, the one of lower level waits only where the other waits. |
| JobRuns.PartOnlyByCancelling | internal/geocube/job.go:352-388 | Their states can only part at a CancelledByUser received while the job of higher level waits and the other does not: the first is aborted, the second ignores it. |
| JobRuns.AsynchronousNeverWaits | internal/geocube/job.go:57-83 | A job whose level is at most ExecutionAsynchronous never waits. |
| JobRuns.WayOut | internal/geocube/job.go:390-637 | A list of events out of each state, as long as its distance from the end, which is at most three. |
| JobRuns.AfterConcat | internal/geocube/job.go:352-388 | Running two lists of events one after the other is running their concatenation. |
| JobRuns.CanAlwaysEnd | internal/geocube/job.go:390-637 | From every reachable state, whatever the level and whether or not the job waits, at most three events lead to DONE or FAILED. |
| JobRuns.UnhandledChangesNothing | internal/geocube/job.go:352-388 | An event that is not accepted changes neither the state nor the pause. |
| JobWays.NextInRun | internal/geocube/job.go:352-388 | Each step of a run is the step that the lemmas below describe. |
| JobWays.WaysForward | internal/geocube/job.go:391-528 | A consolidation enters CREATED exactly by JobCreated from NEW or by a retry of a failed initialisation, and CONSOLIDATIONINPROGRESS exactly by OrdersPrepared once created or while retrying; it never comes back to NEW. |
| JobWays.WaysToTheEnd | internal/geocube/job.go:411-473 | The only ways into CONSOLIDATIONDONE, CONSOLIDATIONINDEXED, CONSOLIDATIONEFFECTIVE and DONE, each of them always open. |
| JobWays.WaysToFail | internal/geocube/job.go:402-528 | A step that fails leads to its failed state, and nothing else does. |
| JobWays.WaysToRetry | internal/geocube/job.go:411-507 | The only ways into the two retrying states: a retry, forced or not, of a consolidation in progress, and any retry of a failed one. |
| JobWays.WaysToCancel | internal/geocube/job.go:411-495 | A consolidation is being cancelled exactly after the user cancelled it in progress, or retried a failed cancellation. |
| JobWays.WaysToAbort | internal/geocube/job.go:392-521 | A consolidation is aborted exactly by the user (unforced, between two steps, only if the job waits), by the end of a cancellation, or by the retry of a failed rollback. |
| JobWays.WaysBack | internal/geocube/job.go:503-518 | The only ways into ROLLBACKFAILED and FAILED. |
| JobWays.NoWayToDelete | internal/geocube/job.go:390-533 | A consolidation is never in a state of a deletion. |
| JobWays.DeletionWaysForward | internal/geocube/job.go:535-637 | The only ways of a deletion into CREATED, DELETIONINPROGRESS, DELETIONEFFECTIVE and DONE, each of them always open. |
| JobWays.DeletionWaysToFail | internal/geocube/job.go:535-637 | A step of a deletion that fails leads to its failed state, and nothing else does. |
| JobWays.DeletionWaysBack | internal/geocube/job.go:535-637 | The only ways of a deletion into ABORTED, ROLLBACKFAILED and FAILED; it is never in a state of a consolidation. |
| JobWays.AcceptedIff | internal/geocube/job.go:352-388 | Over any run an event is accepted exactly when it moves the job, or ends a pause, or is a forced retry in one of the states that restart in place. |
| JobWays.CancelledByTheUser | internal/geocube/job.go:390-637 | A job of either type that is being cancelled, aborted, rolled back or failed accepted a cancellation by the user, and was in those states since. |
| JobWays.NotCancelledUnlessAsked | internal/geocube/job.go:390-637 | Without a cancellation among its events, no job is ever in one of those states, whatever fails. |
| JobWays.FailureIsAccepted | internal/geocube/job.go:390-533 | Along any run of a consolidation, the failure event of each step is accepted during that step and leads to its failed state. |
| JobWays.RetryStartsAgain | internal/geocube/job.go:468-518 | In each failed state a retry, forced or not, is accepted and moves the job: back to the step, or to the retry of the consolidation. |
| JobWays.DeletionFailureIsRetried | internal/geocube/job.go:535-637 | Likewise for a deletion, whose last step is only retried by force. |
| JobWays.FailedWaitsForTheUser | internal/geocube/job.go:390-637 | A failed job of either type stays in its failed state until the user retries or cancels it. |
| JobWays.WaitsIff | internal/geocube/job.go:57-83 | At which states a job of each level waits when it enters them; after that it waits until it moves or is told to continue. |
| Tasks.CensusUpdate | internal/geocube/job.go:772-799 | Replacing one task state moves both censuses by exactly what it leaves and what it becomes. |
| Delivery.ReportMeans | internal/geocube/job.go:676-731 | What one event does to the task that it names, for each state and each status, in a job that listens. |
| Delivery.EndsAtHighestReport | internal/geocube/job.go:676-731 | After any list of events a task is in its initial state or in one that was reported, and no report is higher in NEW < PENDING < FAILED, CANCELLED < DONE: duplicates and order cannot lower it. |
| Delivery.DoneIffSuccess | internal/geocube/job.go:692-731 | A task ends DONE exactly when it was DONE or a success was delivered, and stays active exactly when it was and only TaskSent was delivered. |
| Delivery.OnlyTheSetMatters | internal/geocube/job.go:692-731 | Two lists with the same set of events lead to the same DONE tasks and the same number of active tasks. |
| Delivery.FirstFinalStands | internal/geocube/job.go:714-718 | A task that failed or was cancelled keeps that state as long as no success is delivered. |
| Delivery.FailedIff | internal/geocube/job.go:692-731 | Any other task ends failed exactly when no success is reported and it had failed, or was active and a failure is reported. |
| Delivery.FailedTasksDependOnOrder | internal/geocube/job.go:710-731 | As soon as some active task is reported both failed and cancelled (or ignored), without a success, two permutations of the events give different numbers of failed tasks. |
| Delivery.FailedTasksIff | internal/geocube/job.go:692-731 | The set of events determines the number of failed tasks exactly when no active task hears a failure together with a cancellation or an ignore and no success. |
| Delivery.InactiveForGood | internal/geocube/job.go:692-731 | A task that became inactive after some prefix of the events stays so: it leaves the active tasks at most once. |
| Jobs.Task.SetState | internal/geocube/task.go:81-88 | Sets the state, tells whether it was different, and marks the task dirty only then. |
| Jobs.Job.Init | internal/geocube/job.go:179-236 | A new job is valid, has no task, and is where its empty history leads. |
| Jobs.Job.NewConsolidationJob | internal/geocube/job.go:179-211 | Fails exactly for the synchronous level; otherwise the new job replays its empty history. |
| Jobs.Job.ChangeState | internal/geocube/job.go:643-648 | Enters a state, pauses exactly if the level of the job reaches the level of the state, and marks the job dirty. |
| Jobs.Job.Trigger | internal/geocube/job.go:352-388 | Implements the transition table: forced retries, Continue, dispatch, errors and persistence; a job that is where its whole history leads stays so, and does not panic. |
| Jobs.Job.NextInPipeline | internal/geocube/job.go:392-464 | From the creation to the deletion, the cases of the switch agree with the event-by-event table. |
| Jobs.Job.NextAfterFailure | internal/geocube/job.go:468-528 | In the five states that can be retried after a failure, the cases of the switch agree with the event-by-event table. |
| Jobs.Job.NextAside | internal/geocube/job.go:465-531 | While the job is retried, cancelled or rolled back, and once it is over, the cases of the switch agree with the event-by-event table. |
| Jobs.Job.NextConsolidation | internal/geocube/job.go:390-533 | The state-by-state dispatch of a consolidation agrees with the event-by-event table, and knows exactly the dispatched states. |
| Jobs.Job.TriggerConsolidation | internal/geocube/job.go:390-533 | Panics exactly in the states without entry; otherwise enters the target of the table or changes nothing. |
| Jobs.Job.NextDeletion | internal/geocube/job.go:535-637 | The state-by-state dispatch of a deletion agrees with the event-by-event table, and knows exactly the dispatched states. |
| Jobs.Job.TriggerDeletion | internal/geocube/job.go:535-637 | Panics exactly in the states without entry; otherwise enters the target of the table or changes nothing. |
| Jobs.Job.CreateTask | internal/geocube/job.go:654-674 | Appends one NEW task, counted, or changes nothing when the payload cannot be marshalled; the counters stay ahead of the census by the same number of unloaded tasks. |
| Jobs.Job.UpdateTaskCounters | internal/geocube/job.go:772-789 | Moves only the counter of the state, and never below zero: the panics are the negation of its precondition, which every caller meets. |
| Jobs.Job.SetTaskState | internal/geocube/job.go:791-799 | Changes one task state and keeps both counters minus census. |
| Jobs.Job.FindTask | internal/geocube/job.go:801-809 | Returns the first task with the id, or none. |
| Jobs.Job.UpdateFound | internal/geocube/job.go:699-731 | A task that was found is raised to the reported state, or left, and the job answers or panics, for the three states in which it listens and for the others; counters minus census are kept. |
| Jobs.Job.UpdateTask | internal/geocube/job.go:690-731 | The task states and the answer are those of `Delivery`, for a job that listens in CONSOLIDATIONINPROGRESS, CONSOLIDATIONCANCELLING and DELETIONEFFECTIVE, and only there. In any other state no task changes; an event is refused exactly when it reports another state than the task's and the task is DONE or the job does not listen; the refusal panics for the two statuses that cannot be printed. The counters minus the census are kept; nothing is dirty if no task changed. |
| TaskReports.ReportOne | internal/geocube/job.go:690-731 | Reporting the end of an active task is accepted and ends it, in those three states; in any other state it is refused and changes nothing. |
| TaskReports.ReportAll | internal/svc/operations.go:69-118 | When the end of every active task is reported, to a job that is in progress, being cancelled or deleting, every report is accepted, and the tasks that are not loaded are the only ones still counted as active. |
| Jobs.Job.ResetTasks | internal/geocube/job.go:742-749 | Exactly the listed tasks (all of them without a list) end NEW; `activeTasks` grows by those that were not active, and `failedTasks` shrinks by those that had failed. |
| Jobs.ResetCensus | internal/geocube/job.go:742-749 | A reset moves the two censuses by the numbers of listed tasks that were not active and that had failed. |
| Jobs.Job.CancelTask | internal/geocube/job.go:751-754 | Cancels one task, no other, and keeps counters minus census. |
| Jobs.Job.DeleteTask | internal/geocube/job.go:756-763 | Cancels the task only if it is not yet on its way out, marks it to be deleted, and keeps counters minus census. |
| Jobs.Job.DeleteAllTasks | internal/geocube/job.go:765-770 | All tasks end marked; if none was on its way out, the counters end at the number of unloaded tasks. |
| Worker.Consolidater.Notify | cmd/consolidater/main.go:219-231 | Publishes the status, or returns a temporary error and publishes nothing. |
| Worker.Consolidater.Process | cmd/consolidater/main.go:117-164 | One delivery publishes at most one event, consolidates only a readable message with a try left, returns the error that decides its rescheduling, and always clears the start of the job. |
| Worker.PublishedIff | cmd/consolidater/main.go:117-164 | Which event one delivery publishes: a failure exactly for too many tries or a failed consolidation that is not left for later, a cancellation and an ignored task exactly for the two named errors, a success exactly for a success; and what it returns. |
| Worker.OneEventPerMessage | cmd/consolidater/main.go:117-170 | Over the deliveries of a message that is rescheduled only after temporary errors, whatever their try counts, only the last one publishes, and it publishes one event exactly when the message is acknowledged and readable. |
| Worker.AcknowledgedInSilence | cmd/consolidater/main.go:124-128 | The messages that are acknowledged without any event are exactly the unreadable ones, at their first delivery. |
| Worker.BoundedConsolidations | cmd/consolidater/main.go:131-147 | A message is consolidated at most RetryCount - firstTry + 1 times. |
| Worker.BoundedDeliveries | interface/messaging/messaging.go:29-31 | A message is delivered at most once, plus once per try left, plus once per failure to publish: once publishing succeeds the retries end. |
| Worker.QueuedDeliveries | vendor/github.com/btubbs/pgq/worker.go:209-256 | In the PostgreSQL queue a message is delivered at most once plus once per wait of its list, always with the same try count, and it is still in the queue exactly as long as these are not used up and every delivery returned a temporary error. |
| Worker.DroppedInSilence | vendor/github.com/btubbs/pgq/worker.go:239-256 | A readable message leaves that queue without any event exactly when all the deliveries that its waits allow were made and each failed to publish or, below the retry limit, failed temporarily; otherwise it gives one event. |
| Worker.NeverReportedIff | interface/messaging/pgqueue/pgqueue.go:172-191 | While publishing works, a consolidation that always fails temporarily is never reported exactly when the constant try count is below the retry limit; otherwise its first delivery reports a failure. |
| Worker.SuccessIsReported | cmd/consolidater/main.go:149-167 | A success is published exactly when the delivery that acknowledged the message consolidated it successfully. |
| Worker.PublishedSuccessIsKept | cmd/consolidater/main.go:149-167 | A success whose event is published ends the life of its message, with that event alone. |
| Worker.SuccessReportedIff | cmd/consolidater/main.go:131-167 | With either queue, a message reports a success exactly when some delivery of it consolidated successfully and could publish its event. |
| Worker.ReportedIff | cmd/consolidater/main.go:149-167 | The same over the whole life of a message, with either queue: its last delivery alone decides, and a published failure means a failed consolidation or too many tries. |
| Worker.SuccessCanBeLost | cmd/consolidater/main.go:131-138 | For every retry limit, some acknowledged life contains a successful consolidation and reports a failure. |
| Worker.DoneIffConsolidated | internal/geocube/job.go:692-731 | With either queue, whatever the duplicates and the order in which the events of the messages reach a job that accepts them, the task ends DONE exactly when it was, or one of its messages was acknowledged by a successful consolidation. |
| Worker.DroppedTaskStaysActive | internal/geocube/job.go:692-731 | A task whose messages were all dropped in silence stays active, whatever else the job receives. |
| WorkerPool.InvStep | internal/svc/catalog.go:509-625 | Every step of the pool, cancellation included, keeps: jobs are taken in queue order, each unfinished job is in the hands of its own worker, and what was streamed is what was kept below the collector. |
| WorkerPool.InFlight | internal/svc/catalog.go:348-381 | Without cancellation the started jobs are a prefix of the queue, the delivered ones are those that the collector read, and there is at most one job per worker between the two. |
| WorkerPool.NeverBlocks | internal/svc/catalog.go:509-625 | With at least one worker, or nothing to do, some step other than a cancellation is possible until everything has stopped, even if the consumer stops reading after a cancellation. |
| WorkerPool.NoWorkerNeverEnds | internal/svc/catalog.go:369-381 | Without a worker and without cancellation, no run of a cube that has jobs ends or streams anything: the hypothesis is necessary. |
| WorkerPool.EveryStepDecreases | internal/svc/catalog.go:509-625 | Every step strictly decreases the work that is left, which is never negative. |
| WorkerPool.RunsAreFinite | internal/svc/catalog.go:509-625 | No run, cancelled or not, is longer than the work there was. |
| WorkerPool.CancelledStartsNothing | internal/svc/catalog.go:564-570 | Once the cube is cancelled, no worker starts to merge a slice any more. |
| WorkerPool.StreamsInOrder | internal/svc/catalog.go:509-529 | A run that ended without cancellation streamed, in order and each one once, exactly the results that hold an image or an error. |
| WorkerPool.StreamsAPrefix | internal/svc/catalog.go:509-529 | At every point of every run the streamed jobs are strictly increasing, and without cancellation a prefix of the full stream. |
| WorkerPool.EnoughWorkers | internal/svc/service.go:51-53 | A cube that has jobs always gets a worker, whatever the configured number, and never more workers than jobs. |
| WorkerPool.AsManyAsAllowed | internal/svc/catalog.go:321-381 | A cube gets as many workers as it may: no more than jobs, than configured, than ten, and no more than one unless their images fit together in the memory. |
| Predownload.ReferencesAndUsers | internal/svc/predownload.go:93-104 | A file has at least as many references as slices that need it, and exactly as many exactly when no slice lists it twice. |
| Predownload.PredownloadRemoteDatasets | internal/svc/predownload.go:89-126 | There is one job per remote file, in order of appearance, with the number of its occurrences as reference count, and each slice is linked to exactly the jobs of its remote files. |
| Predownload.RedirectOne | internal/svc/predownload.go:132-136 | Replaces every occurrence of one uri, in place, and nothing else. |
| Predownload.WaitForAvailability | internal/svc/predownload.go:128-141 | Whatever the order in which the files arrive, a dataset ends with the local copy of its file if it was downloaded and keeps its uri otherwise. Each downloaded file gives one acknowledgement, no acknowledged uri is left, and the slice reads exactly the local copies of what it acknowledges. |
| Predownload.SameUsers | internal/svc/predownload.go:109-118 | The slices that wait for a job are those that list its file. |
| Predownload.SetsUpDownloads | internal/svc/predownload.go:89-126 | The result is a well-formed exchange for `Downloads`, in which a file has as many references as users exactly when no slice lists it twice. |
| Downloads.PresentUntilAcked | internal/svc/predownload.go:60-87 | In every reachable state, a slice that received a downloaded file and has not acknowledged it still finds it. |
| Downloads.ResultKept | internal/svc/predownload.go:60-64 | A slice that waits for a file never waits for a result that another slice took: once the channel is closed a result is left for it. |
| Downloads.InvStep | internal/svc/predownload.go:38-141 | Every step of the download worker, the removers and the slices keeps: counter = references - acknowledgements + those in flight, and a file is removed exactly when its counter is zero. |
| Downloads.FileLifetime | internal/svc/predownload.go:68-87 | In every run, a file is removed only after every slice that needs it acknowledged it, and is there (unless its download failed) from its reception to its acknowledgement. |
| Downloads.WorkerNeverBlocks | internal/svc/predownload.go:60-64 | The download worker always has a step until its queue is empty: it never blocks on a result channel. |
| Downloads.SliceNeverStuck | internal/svc/catalog.go:575-592 | Until it is finished, a slice can go on or waits for a step that the download worker or a remover can take, never for another slice. |
| Downloads.EveryStepDecreases | internal/svc/predownload.go:38-141 | Every step decreases the work that is left. |
| Downloads.RunsAreFinite | internal/svc/predownload.go:38-141 | No run is longer than the work there was. |
| Downloads.RemovedIffListedOnce | internal/svc/predownload.go:68-87 | When no step is left every slice is finished, and a downloaded file is removed exactly when its references are as many as its users. |
| CubeStream.InvStep | internal/svc/catalog.go:564-625 | Every step of the pool or of the predownload keeps both invariants, and a slice that was taken is finished with its files or still held by its worker. |
| CubeStream.NeverBlocks | internal/svc/catalog.go:342-381 | With any number of workers from one on, although each holds its slice while the files are downloaded in another order, some step is possible until everything has stopped. |
| CubeStream.RunsAreFinite | internal/svc/catalog.go:342-381 | No run of a cube with predownload is longer than the work there was. |
| CubeStream.CompleteRun | internal/svc/catalog.go:342-381 | Every run that can go no further has streamed exactly the results of the slices in order, has finished every slice, and has removed a downloaded file exactly when its references are as many as its users. |
| TempFiles.ReleaseCounts | internal/image/handler_consolidation.go:170-182 | Releasing a record takes the number of its references off each counter, and removes a file exactly when its counter passes from positive to zero or less. |
| TempFiles.TempFileTable.ReleaseRecord | internal/image/handler_consolidation.go:170-182 | The loop over the datasets of a record, on the shared tables, is that release. |
| TempFiles.InvStep | internal/image/handler_consolidation.go:103-187 | Every step of every worker keeps: counter = initial counter - references of the released records. |
| TempFiles.RemovedAfterUse | internal/image/handler_consolidation.go:103-187 | With covered counters, in every schedule of the workers over the queue of records, a file is removed only after every record that uses it was merged and released; the file of a reused COG is never removed. |
| TempFiles.RemovedTooEarly | internal/image/handler_consolidation.go:92-198 | Otherwise some schedule that respects the queue and the number of workers removes a file while a record that uses it is queued, is being merged, or was reused. |
| TempFiles.NeverLosesIff | internal/image/handler_consolidation.go:92-198 | For any number of workers, no schedule loses a file that is still needed exactly when, for each use by a record, the references that can be released before it do not exhaust the counter: those of the records before it in the queue with one worker (those of all the others if a COG may be reused), those of all the others with more. |
| TempFiles.OneWorkerNeverLosesIff | internal/image/handler_consolidation.go:92-198 | The condition for one worker, written on the references. |
| TempFiles.ManyWorkersNeverLoseIff | internal/image/handler_consolidation.go:92-198 | The condition for two workers or more, written on the references. |
| TempFiles.LeftOver | internal/image/handler_consolidation.go:103-187 | With an exact counter, in any run, a file is removed exactly if every record that uses it was released. |
| TempFiles.NeverRemoved | internal/image/handler_consolidation.go:170-182 | A file whose counter is above its uses is never removed by the workers. |
| TempFiles.CollectDatasets | internal/image/handler_consolidation.go:242-275 | The counter of a downloadable file is the number of its references in all the records, whatever their spelling, and an id keeps the datasets of the last record that has it. |
| TempFiles.CoveredIffRecords | internal/image/handler_consolidation.go:242-341 | The counters and the datasets that are collected and redirected satisfy the condition exactly when the references of the records, before any redirection, do. |
| TempFiles.RecordsNeverLoseIff | internal/image/handler_consolidation.go:92-341 | For any records, workers and downloads, no schedule loses a file exactly when the references counted over all the records are not exhausted by the records that can be released before a use. |
| TempFiles.AgreeingRecordsCover | internal/image/handler_consolidation.go:242-275 | Records of distinct ids, or of repeated ids with the same datasets, satisfy this condition, whatever the spellings and the downloads. |
| TempFiles.DistinctIdsCover | internal/image/handler_consolidation.go:242-341 | With distinct record ids no schedule loses a file that is still needed, whatever was downloaded. |
| TempFiles.DistinctIdsExact | internal/image/handler_consolidation.go:247-341 | With distinct record ids, or repeated ones that agree, the counter of a downloaded file is at least the number of references that the workers see, and equal to it exactly when every reference is spelled as its parsed uri. |
| TempFiles.SpelledOtherwiseStays | internal/image/handler_consolidation.go:325-338 | The local copy of a downloaded file that some reference spells otherwise is removed in no schedule. |
| TempFiles.RepeatedIdRemovesTooEarly | internal/image/handler_consolidation.go:274 | As soon as a downloaded file is referenced once, by the last of several records of the same id, some schedule of any positive number of workers removes its local copy while it is still to be merged. |
| Quota.GrantedIsAPrefix | internal/image/handler_consolidation.go:277-317 | The files granted are a prefix, in the order of the atomic decrements, that fits the quota and whose next file does not. |
| Quota.GrantedIsLongest | internal/image/handler_consolidation.go:277-317 | No longer prefix would fit. |
| Quota.WithinQuota | internal/image/handler_consolidation.go:304-311 | For any number of workers and any order, the sizes granted never exceed the quota. |
| Quota.DownloadQuota.Reserve | internal/image/handler_consolidation.go:304-306 | One atomic decrement grants the file exactly as the specification does for the decrements so far, and the total granted stays within the quota. |
| Quota.QuotaFits | internal/image/handler_consolidation.go:278 | The quota in bytes is the intended one exactly for a number of megabytes in [-2^43, 2^43). |
| Quota.UnlimitedDownloadsNothing | cmd/consolidater/main.go:111-113 | The value that stands for "no limit" gives a negative quota, for which no file is ever granted. |
| Grouping.RunsPartition | internal/svc/catalog.go:296-314 | The runs put end to end are the datasets, each run is of one record, and no two neighbours can be merged. |
| Grouping.DistinctIffContiguous | internal/svc/catalog.go:296-318 | The runs are of distinct records exactly when the datasets of each record are contiguous. |
| Grouping.AlignedIffContiguous | interface/database/db.go:49-52 | The groups and the records that `ReadRecords` returns, without duplicates, are as many, and then aligned one to one, exactly when the datasets of each record are contiguous. |
| Grouping.TakeRun | internal/svc/catalog.go:304-311 | The inner loop stops at the first dataset of another record. |
| Grouping.GroupDatasetsByRecord | internal/svc/catalog.go:295-318 | The two nested loops that share one index compute the runs, their files and their records. |
| Grouping.AppendGroup | internal/svc/catalog.go:282-287 | Appends the known records of a group and their datasets to one row of each table, in place, and leaves the other rows. |
| Grouping.GroupDatasetsByRecordsGroup | internal/svc/catalog.go:277-294 | The in-place compaction keeps, in order, exactly the groups that have a known record, each with its records and all their datasets. |
| Grouping.KeptInOrder | internal/svc/catalog.go:277-294 | Put end to end, the two compacted tables are the known records of all the groups, in order, and their datasets: nothing is lost, moved or added. |
| Grouping.KeptOnce | internal/svc/catalog.go:172-178 | If no id is asked twice, the compacted table holds each known record that is asked exactly once, and no other. |
| CubeRecords.OfRecordInRuns | internal/svc/catalog.go:296-314 | The datasets of a record are its runs put end to end, and it has a run exactly when it has a dataset. |
| CubeRecords.FileOfGroupIff | internal/svc/catalog.go:277-294 | A file is asked in a row exactly when some dataset of one of the records of its group has that file. |
| CubeRecords.RecordOfGroupIff | internal/svc/catalog.go:277-294 | A record is asked in a row exactly when its group has it and some dataset is of it. |
| CubeRecords.BuiltRows | internal/svc/catalog.go:277-318 | The two groupings keep exactly the groups that have a dataset, each with its records that have one, in order; if the datasets of each record are contiguous, each row holds exactly the datasets whose record is in its group. |
| CubeRecords.RightFilesIffContiguous | internal/svc/catalog.go:164-178 | For all groups, the rows hold exactly the datasets of their groups, if and only if the datasets of each record are contiguous: otherwise a record that comes back loses its later datasets. |
| CubeRecords.IndexRecords | internal/svc/catalog.go:173-176 | The loop fills the index of each record, the last one winning. |
| CubeRecords.GroupDatasets | internal/svc/catalog.go:164-178 | Grouping by record, reading the records, indexing them and grouping by group of records give the rows above; for contiguous datasets a file is in a row exactly when some dataset of a record of its group has it. |
| Palette.Validate | internal/geocube/palette.go:55-71 | Comparing neighbours decides whether all the points are strictly increasing from 0 to 1, with at least two of them. |
| Palette.OneSegment | internal/geocube/palette.go:41-43 | Every value of [0, 1] is in one and only one segment of a valid palette. |
| Palette.PaletteN | internal/geocube/palette.go:37-52 | The moving cursor stays in bounds, and every entry has the colour of its value, interpolated in the segment that an independent search would find; of a single entry, whose value is 0 / 0, only its presence is promised. |
| Palette.OnTheLine | internal/geocube/palette.go:44-49 | Every channel of an entry is the integer part of the point, at its value, of the straight line through the two points of its segment. |
| Palette.Blend | internal/geocube/palette.go:45-48 | A truncated weighted sum lies between its two bytes, so it never overflows a byte. |
| Palette.BetweenEndpoints | internal/geocube/palette.go:44-49 | Every channel of an entry lies between those of the two points around its value. |
| Palette.PointsAreExact | internal/geocube/palette.go:37-52 | An entry that falls on a point has exactly the colour of the point, the first and the last entries in particular. |
| Palette.StaysNondecreasing | internal/geocube/palette.go:37-52 | A channel that never decreases over the points never decreases over the palette, across segments too. |
| Containers.AppendIff | internal/geocube/container.go:136-166 | A dataset is appended exactly when all those stored are ACTIVE and none of the same subdirectory has one of its bands. |
| Containers.AlreadyThereIff | internal/geocube/container.go:136-146 | It is accepted without being stored exactly when an identical ACTIVE dataset with bands comes before any that is not active or that overlaps it. |
| Containers.AddKeepsOwners | internal/geocube/container.go:126-169 | One addition keeps one owner per band of a subdirectory, and only ACTIVE datasets before the last. |
| Containers.OwnersOfRun | internal/geocube/container.go:126-169 | So over every run of additions to an empty container, which stores nothing else than what was added. |
| Containers.AddAgain | internal/geocube/container.go:123-125 | Adding a stored dataset again succeeds and changes nothing exactly when it is ACTIVE and has bands. |
| Containers.WithoutBandsTwice | internal/geocube/container.go:112-121 | A dataset without bands is stored once more each time. |
| Containers.BandsIntersect | internal/geocube/container.go:112-121 | The nested loops decide whether the two lists have a band in common. |
| Containers.Container.AddDataset | internal/geocube/container.go:123-169 | The new list and the three kinds of answer are those of the specification; a dataset that is not new is refused. |
| Containers.Container.NumActiveDatasets | internal/geocube/container.go:184-194 | Returns the number of the datasets that are not on their way out. |
| Containers.Container.RemoveDataset | internal/geocube/container.go:171-182 | Marks exactly the first dataset with the id, which keeps its bands, and tells whether every dataset is on its way out; EntityNotFound exactly if there is none. |
| Containers.Container.Delete | internal/geocube/container.go:91-101 | Deletes exactly a container that is not managed and whose datasets are all on their way out. |
| Cast.CastOfPosition | internal/image/image.go:137-140 | A cast sends the value at position u of its first range to position u^exponent of its second. |
| Cast.CastOfEnds | internal/image/image.go:137-140 | So it sends the ends of the first range to those of the second. |
| Cast.CastIff | internal/image/image.go:166-218 | Between valid mappings there is no cast to perform exactly if they are equal, and a scaling exactly if they differ and one is linear, or both have the same exponent and external minimum; any other cast is refused. |
| Cast.LineKeepsPositions | internal/image/image.go:137-140 | A linear cast sends the value at some position of a range to the same position of the image of the range. |
| Cast.SourceRangeValid | internal/image/image.go:166-216 | Every scaling that is chosen starts from a non-empty range, so it never divides by zero. |
| Cast.FusedIntoLinear | internal/image/image.go:174-195 | With a linear destination, the fused scaling is the two casts, for every value. |
| Cast.FusedFromLinear | internal/image/image.go:196-202 | With a linear source, the fused scaling is the two casts, for every value. |
| Cast.FusedSameExponent | internal/image/image.go:204-216 | With equal exponents and external minima the powers cancel, for every value from the source minimum on. |
| Cast.SameExponentIff | internal/image/image.go:204-216 | For every exponent other than 1, with a power that is NaN where it is not defined, they cancel exactly from the source minimum on. |
| Cast.ScaleIsTwoSteps | internal/image/image.go:164-219 | Between different mappings of which one is linear, or that share exponent and external minimum, there is a scaling, and it equals the composition internal -> external -> internal; only equal exponents need the value not to be below the source range. |
| Cast.ScaleIsTwoStepsIff | internal/image/image.go:164-219 | For the same mappings, with a power that may be NaN, the scaling and the composition give the same number or are both NaN, exactly when one of the mappings is linear or the value is not below the source range. |
| Cast.NoCastIsIdentityIff | internal/image/image.go:167-169 | When no cast is to be performed, the composition gives the value back exactly when the mapping is linear or the value is not below its range. |
| Cast.NoCastIsIdentity | internal/image/image.go:167-169 | When no cast is to be performed, the composition is the identity. |
| Overviews.LevelHalved | internal/image/handler_consolidation.go:494-498 | Halving a side once more, rounding down, is dividing it once by the next power of two. |
| Overviews.ComputeNbOverviews | internal/image/handler_consolidation.go:486-500 | Zero when no overview is asked; otherwise, whatever the minimum size and the number of rounds for which the loop is watched, it stops at the least level at which both sides fit, or no level so far fits. |
| Overviews.FitsUpwards | internal/image/handler_consolidation.go:494-498 | An image that fits at a level fits at all further ones, so the least level is the only threshold. |
| Overviews.FitsIff | internal/image/handler_consolidation.go:494-498 | A side fits at level k exactly when it is below (minSize + 1) * 2^k. |
| Overviews.BothFitIff | internal/image/handler_consolidation.go:494-498 | The image fits at level k exactly when both sides are below (minSize + 1) * 2^k. |
| Overviews.SomeLevelFits | internal/image/handler_consolidation.go:494-498 | A level fits, so the loop ends, exactly when the minimum size is not negative, and then within width + height rounds. |
| Overviews.EndsUnlessNegative | internal/image/handler_consolidation.go:97-99 | Once the default is filled in, the loop ends exactly for the sizes from -1 on; the default is 256. |
| Extent.MultiplyComposes | internal/utils/affine/affine.go:63-78 | The product of two transforms applies one after the other. |
| Extent.InverseInverts | internal/utils/affine/affine.go:40-46 | The inverse of an invertible transform leads every point back. |
| Extent.WindowIsTightest | internal/image/handler_consolidation.go:519-523 | Along an axis the window starts on the last block boundary that does not cut the part of the extent in the container, covers that part, stays in the container and has as few whole pixels as possible. |
| Extent.TightestIsUnique | internal/image/handler_consolidation.go:519-523 | There is only one such window. |
| Extent.OptimizeTransform | internal/image/handler_consolidation.go:502-526 | Whichever corner comes first on each axis, both windows are the tightest ones, and the new transform is the old one moved to their start. |
| Extent.WindowIs | internal/image/handler_consolidation.go:502-526 | The new transform starts at a pixel of the container that is on a block boundary along each axis, at most one block before the part of the extent in the container; the window stays in the container and ends less than one pixel after that part. |
| Extent.NotEmptyIff | internal/image/handler_consolidation.go:519-523 | The window of an extent that is not flat has pixels exactly when the container is not empty, the extent ends after its start, and starts before block * ceil(size / block). |
| Extent.OutsideButNotEmpty | internal/image/handler_consolidation.go:519-523 | In any container that is not a whole number of blocks, an extent that starts after its end gets pixels. |
| Extent.PixelsOnlyIfMeetsIff | internal/image/handler_consolidation.go:519-523 | Only extents that meet the container get pixels, exactly when its size is a multiple of the block. |
| Extent.TwoCornersIff | internal/image/handler_consolidation.go:508-517 | A row of a transform keeps every box between the images of two opposite corners exactly when its coefficients do not have opposite signs. |
| Extent.StraightIff | internal/image/handler_consolidation.go:508-517 | The two corners of an extent bound its pixels, for every extent, exactly for the transforms with a1 * a4 <= 0 and a2 * a5 <= 0. |
| Extent.CoveredIff | internal/utils/affine/affine.go:63-78 | A pixel of the container lies where some pixel of a window lies exactly when it is in the window. |
| Extent.WindowCoversExtent | internal/image/handler_consolidation.go:502-526 | In a container whose transform satisfies the condition of `Extent.StraightIff`, every pixel that lies in the extent is covered by the window, through the new transform. |
| Extent.RotatedMisses | internal/image/handler_consolidation.go:508-517 | In any other invertible container that is not empty, some extent has a pixel that no window of it covers, for any blocks. |
| Extent.NeverMissesIff | internal/image/handler_consolidation.go:502-526 | For every container that is not empty and all block sizes, no window misses a pixel of its extent exactly when a1 * a4 <= 0 and a2 * a5 <= 0. |
| Extent.GridPixel | internal/utils/grid/regulargrid.go:95-141 | Pixel (i, j) of a regular grid lies i pixels east and j pixels south of its origin. |
| Extent.GridsAreStraight | internal/utils/grid/regulargrid.go:95-141 | The transforms of the cells of a regular grid satisfy that condition and are invertible. |

## Left out

- Jobs.Job.Trigger: the execution level is an unbounded integer and the logs, dates and database identifiers are not
  modelled; of the logs only their effect on the persistence state is kept.
- Jobs.Job.UpdateTask: `handleTaskEvt` (`internal/svc/operations.go:69`) filters and follows up the events; only the
  method of the job is modelled. An entity that is already deleted makes the program panic: here it is a precondition.
- Jobs.Job.UpdateTaskCounters: the negative-counter panics are its precondition. It is met by every caller, so they are
  unreachable for a job whose counters cover its loaded tasks.
- Delivery.OnlyTheSetMatters: says nothing of `FailedTasks`; `Delivery.FailedTasksIff` does.
- Worker.Consolidater.Process: an unreadable message is taken to be a final error, as its decoding returns no temporary
  one. `Consolidate` and `Publish` are outcomes given from outside.
- Worker.QueuedDeliveries: the lengths of the waits, and a panic in the callback, which the queue treats as an error,
  are left out. The list of waits is the one of the publisher, which is not empty in the service.
- WorkerPool.EnoughWorkers: a cube of zero bytes makes the program divide by zero; the size is positive here.
- WorkerPool.NeverBlocks: the merge of a slice is one step that ends; a consumer that stops reading without cancelling
  blocks the pool, as in the program.
- Downloads.FileLifetime: nothing is cancelled. With a cancellation, a slice can pass its check and then send to a
  closed channel.
- Downloads.SliceNeverStuck: a download ends, in success or in failure, and every slice has a worker;
  `CubeStream.NeverBlocks` is about any number of workers.
- CubeStream.NeverBlocks: nothing is cancelled, and the consumer reads.
- Predownload.WaitForAvailability: the local copies have names that no dataset uses, as the program draws them at
  random.
- TempFiles.CollectDatasets: a parsed uri is represented by its spelling, which parses to itself, and its local name,
  drawn at random by the program, is an injective function of it. Whether a file is downloadable is a given predicate,
  and the error for a uri that cannot be parsed is left out.
- TempFiles.RemovedAfterUse: a record without any dataset, on which `isAlreadyUsableCOG` reads out of bounds, fails
  here like any other error. A worker that fails stops for good: here it only keeps its record, so that it counts among
  the busy workers. The end of the channel and the cancellation of the event are left out.
- Quota.DownloadQuota.Reserve: file sizes are not negative; a failed download stops its worker, which only leaves files
  out.
- Palette.PaletteN: the colour of a palette of a single entry, the conversion of a number that is not one, is not
  specified; values are reals, not 32-bit floats. The sorting of the points and the name of the palette are not part of
  this model.
- Containers.Container.AddDataset: the text of the reason of a refusal, and the approximate shapes, are left out.
- Cast.ScaleIsTwoSteps: states the ranges and the exponent given to the scaling tool. The tool itself, the clamping to
  the data type, and the scale option that is not written when both ranges are equal are left out. `math.Pow` is any
  function with the laws of powers on nonnegative numbers, and x^1 = x.
- Cast.ScaleIsTwoStepsIff: of a negative number, a power other than 1 is NaN, or that of the absolute value, or
  negative, and in the last case the inverse power of a negative number is NaN. The infinities are left out.
- CubeRecords.GroupDatasets: a dataset is its record and its file, a record is its id, and every id that is read is
  found; the database is not part of this model.
- Overviews.ComputeNbOverviews: a loop that may not end is watched for a given number of rounds;
  `Overviews.EndsUnlessNegative` says when it ends.
- Extent.OptimizeTransform: the extent of the datasets is given, with ordered corners, and the block sizes are
  positive.
- Floating point: rounding is not modelled anywhere.
- Ingestion jobs: their trigger only panics.
- `Job.ToDelete`, the locks on datasets and the persistence of logs: plain bookkeeping on the same fields.
- GDAL, COG and MUCOG creation, uploads and downloads: steps that succeed or fail.
- `mergeTags`, PNG rendering, option strings, enumerations, protobuf, gRPC, SQL and HTTP.
