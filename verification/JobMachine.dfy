/** The state machine of a job: states, events, pauses, and the transition table of each job type.

    The table is given event by event ("which state does this event lead to"), whereas the
    program is written state by state; `Job.Trigger` is proved to implement it. */
module JobMachine {

  datatype JobType = CONSOLIDATION | INGESTION | DELETION

  datatype JobState =
    | NEW | CREATED
    | CONSOLIDATIONINPROGRESS | CONSOLIDATIONDONE | CONSOLIDATIONINDEXED | CONSOLIDATIONEFFECTIVE
    | CONSOLIDATIONFAILED | CONSOLIDATIONRETRYING | CONSOLIDATIONFORCERETRYING | CONSOLIDATIONCANCELLING
    | DELETIONINPROGRESS | DELETIONEFFECTIVE | DELETIONFAILED
    | DONE | FAILED
    | INITIALISATIONFAILED | CANCELLATIONFAILED | ABORTED | ROLLBACKFAILED | DONEBUTUNTIDY

  datatype JobStatus =
    | JobCreated | OrdersPrepared | PrepareOrdersFailed | SendOrdersFailed
    | ConsolidationDone | ConsolidationFailed | ConsolidationRetryFailed
    | ConsolidationIndexed | ConsolidationIndexingFailed
    | DatasetsSwapped | SwapDatasetsFailed | DeletionStarted | StartDeletionFailed
    | DeletionReady | DeletionNotReady | RemovalDone | DeletionDone | RemovalFailed | DeletionFailed
    | CancelledByUser | CancelledByUserForced | CancellationFailed | CancellationDone
    | RollbackFailed | RollbackDone
    | Retried | RetryForced
    | Continue

  // Execution levels are plain integers: the program compares them but never checks their range.
  const EXECUTION_SYNCHRONOUS: int := 0
  const EXECUTION_ASYNCHRONOUS: int := 1
  const STEP_BY_STEP_CRITICAL: int := 2
  const STEP_BY_STEP_MAJOR: int := 3
  const STEP_BY_STEP_ALL: int := 4
  const STEP_BY_STEP_NEVER: int := 5

  /** The least execution level at which a job pauses on entering `s`. */
  function PauseLevel(s: JobState): int {
    match s
    case DONE | FAILED | DONEBUTUNTIDY => STEP_BY_STEP_NEVER
    case CONSOLIDATIONINPROGRESS | CONSOLIDATIONEFFECTIVE | DELETIONINPROGRESS => STEP_BY_STEP_CRITICAL
    case NEW | CONSOLIDATIONINDEXED | CONSOLIDATIONFAILED | DELETIONFAILED | INITIALISATIONFAILED
      | CANCELLATIONFAILED | ROLLBACKFAILED => STEP_BY_STEP_ALL
    case _ => STEP_BY_STEP_MAJOR
  }

  /** A forced retry in one of these states is accepted and restarts the state itself. */
  predicate RetriesInPlace(s: JobState) {
    match s
    case CONSOLIDATIONINPROGRESS | CONSOLIDATIONFAILED | DELETIONFAILED | DONE | FAILED | INITIALISATIONFAILED
      | CANCELLATIONFAILED | ROLLBACKFAILED | DONEBUTUNTIDY => false
    case _ => true
  }

  /** The states for which a job of type `t` has a dispatch entry; any other one is a panic. */
  predicate Dispatched(t: JobType, s: JobState) {
    match t
    case CONSOLIDATION => !s.DELETIONINPROGRESS? && !s.DELETIONEFFECTIVE? && !s.DELETIONFAILED?
    case DELETION =>
      (match s
       case NEW | CREATED | DELETIONINPROGRESS | DELETIONEFFECTIVE | DELETIONFAILED | DONE | DONEBUTUNTIDY
         | ABORTED | ROLLBACKFAILED | INITIALISATIONFAILED | FAILED => true
       case _ => false)
    case INGESTION => false
  }

  datatype Target = Stay | Goto(state: JobState)

  predicate Retrying(s: JobState) {
    s.CONSOLIDATIONRETRYING? || s.CONSOLIDATIONFORCERETRYING?
  }

  /** A consolidation that is between two of its steps can be cancelled, unforced, only while it is paused. */
  predicate BetweenSteps(s: JobState) {
    s.NEW? || s.CREATED? || s.CONSOLIDATIONDONE? || s.CONSOLIDATIONINDEXED?
  }

  /** Likewise for a deletion whose removal is not over. */
  predicate BeforeDeletion(s: JobState) {
    s.NEW? || s.CREATED? || s.DELETIONINPROGRESS?
  }

  /** Where a consolidation job goes when `e` is dispatched in state `s`. */
  function ConsolidationTarget(s: JobState, waiting: bool, e: JobStatus): Target {
    match e
    case JobCreated => if s.NEW? then Goto(CREATED) else Stay
    case OrdersPrepared =>
      if s.CREATED? || Retrying(s) then Goto(CONSOLIDATIONINPROGRESS) else Stay
    case PrepareOrdersFailed => if s.CREATED? then Goto(INITIALISATIONFAILED) else Stay
    case SendOrdersFailed | ConsolidationFailed =>
      if s.CONSOLIDATIONINPROGRESS? then Goto(CONSOLIDATIONFAILED) else Stay
    case ConsolidationDone => if s.CONSOLIDATIONINPROGRESS? then Goto(CONSOLIDATIONDONE) else Stay
    case ConsolidationRetryFailed =>
      if Retrying(s) then Goto(CONSOLIDATIONFAILED) else Stay
    case ConsolidationIndexed => if s.CONSOLIDATIONDONE? then Goto(CONSOLIDATIONINDEXED) else Stay
    case ConsolidationIndexingFailed => if s.CONSOLIDATIONDONE? then Goto(CONSOLIDATIONFAILED) else Stay
    case DatasetsSwapped => if s.CONSOLIDATIONINDEXED? then Goto(CONSOLIDATIONEFFECTIVE) else Stay
    case SwapDatasetsFailed => if s.CONSOLIDATIONINDEXED? then Goto(CONSOLIDATIONFAILED) else Stay
    case DeletionStarted => if s.CONSOLIDATIONEFFECTIVE? then Goto(DONE) else Stay
    case StartDeletionFailed => if s.CONSOLIDATIONEFFECTIVE? then Goto(DONEBUTUNTIDY) else Stay
    case CancellationFailed => if s.CONSOLIDATIONCANCELLING? then Goto(CANCELLATIONFAILED) else Stay
    case CancellationDone => if s.CONSOLIDATIONCANCELLING? then Goto(ABORTED) else Stay
    case RollbackFailed => if s.ABORTED? then Goto(ROLLBACKFAILED) else Stay
    case RollbackDone => if s.ABORTED? then Goto(FAILED) else Stay
    case CancelledByUser =>
      if s.CONSOLIDATIONINPROGRESS? then Goto(CONSOLIDATIONCANCELLING)
      else if BetweenSteps(s) then if waiting then Goto(ABORTED) else Stay
      else if s.INITIALISATIONFAILED? || s.CONSOLIDATIONFAILED? then Goto(ABORTED) else Stay
    case CancelledByUserForced =>
      if s.CONSOLIDATIONINPROGRESS? then Goto(CONSOLIDATIONCANCELLING)
      else if s.ROLLBACKFAILED? then Goto(FAILED)
      else if BetweenSteps(s) || s.INITIALISATIONFAILED? || s.CONSOLIDATIONFAILED? then Goto(ABORTED) else Stay
    case Retried | RetryForced => ConsolidationRetryTarget(s, e)
    case _ => Stay
  }

  function ConsolidationRetryTarget(s: JobState, e: JobStatus): Target {
    match s
    case CONSOLIDATIONINPROGRESS => Goto(if e.Retried? then CONSOLIDATIONRETRYING else CONSOLIDATIONFORCERETRYING)
    case CONSOLIDATIONFAILED => Goto(CONSOLIDATIONRETRYING)
    case DONEBUTUNTIDY => Goto(CONSOLIDATIONEFFECTIVE)
    case CANCELLATIONFAILED => Goto(CONSOLIDATIONCANCELLING)
    case INITIALISATIONFAILED => Goto(CREATED)
    case ROLLBACKFAILED => Goto(ABORTED)
    case _ => Stay
  }

  /** Where a deletion job goes when `e` is dispatched in state `s`. */
  function DeletionTarget(s: JobState, waiting: bool, e: JobStatus): Target {
    match e
    case JobCreated => if s.NEW? then Goto(CREATED) else Stay
    case DeletionNotReady => if s.CREATED? then Goto(INITIALISATIONFAILED) else Stay
    case DeletionReady => if s.CREATED? then Goto(DELETIONINPROGRESS) else Stay
    case RemovalFailed => if s.DELETIONINPROGRESS? then Goto(DELETIONFAILED) else Stay
    case RemovalDone => if s.DELETIONINPROGRESS? then Goto(DELETIONEFFECTIVE) else Stay
    case DeletionFailed => if s.DELETIONEFFECTIVE? then Goto(DONEBUTUNTIDY) else Stay
    case DeletionDone => if s.DELETIONEFFECTIVE? then Goto(DONE) else Stay
    case RollbackFailed => if s.ABORTED? then Goto(ROLLBACKFAILED) else Stay
    case RollbackDone => if s.ABORTED? then Goto(FAILED) else Stay
    case CancelledByUser =>
      if BeforeDeletion(s) then if waiting then Goto(ABORTED) else Stay
      else if s.DELETIONFAILED? then Goto(ABORTED) else Stay
    case CancelledByUserForced =>
      if s.ROLLBACKFAILED? || s.INITIALISATIONFAILED? then Goto(FAILED)
      else if BeforeDeletion(s) || s.DELETIONEFFECTIVE? || s.DELETIONFAILED? then Goto(ABORTED) else Stay
    case Retried | RetryForced => DeletionRetryTarget(s, e)
    case _ => Stay
  }

  function DeletionRetryTarget(s: JobState, e: JobStatus): Target {
    match s
    case DONEBUTUNTIDY => if e.RetryForced? then Goto(DELETIONEFFECTIVE) else Stay
    case DELETIONFAILED => Goto(DELETIONINPROGRESS)
    case ROLLBACKFAILED => Goto(ABORTED)
    case INITIALISATIONFAILED => Goto(CREATED)
    case _ => Stay
  }

  function DispatchTarget(t: JobType, s: JobState, waiting: bool, e: JobStatus): Target {
    match t
    case CONSOLIDATION => ConsolidationTarget(s, waiting, e)
    case DELETION => DeletionTarget(s, waiting, e)
    case INGESTION => Stay
  }

  /** The part of a job that events change. */
  datatype View = View(state: JobState, waiting: bool)

  /** Entering `s` pauses the job iff its execution level asks for it. */
  function Enter(level: int, s: JobState): View {
    View(s, level >= PauseLevel(s))
  }

  datatype Outcome = Handled(view: View) | Unhandled | Panicked

  /** What a job of type `t` and execution level `level` does with the event `e`. */
  function Step(t: JobType, level: int, v: View, e: JobStatus): Outcome {
    if e.Continue? then
      if v.waiting then Handled(v.(waiting := false)) else Unhandled
    else if e.RetryForced? && RetriesInPlace(v.state) then Handled(v)
    else if !Dispatched(t, v.state) then Panicked
    else match DispatchTarget(t, v.state, v.waiting, e)
      case Goto(s) => Handled(Enter(level, s))
      case Stay => Unhandled
  }

  /** A process that panicked stops; otherwise it goes on from a view. */
  datatype Run = Running(view: View) | Crashed

  const INITIAL := View(NEW, false)

  /** The job after the events `es`, from its creation. */
  function After(t: JobType, level: int, es: seq<JobStatus>): Run {
    if es == [] then Running(INITIAL)
    else match After(t, level, es[..|es| - 1])
      case Crashed => Crashed
      case Running(v) => Resume(v, Step(t, level, v, es[|es| - 1]))
  }

  function Resume(v: View, o: Outcome): Run {
    match o
    case Handled(v') => Running(v')
    case Unhandled => Running(v)
    case Panicked => Crashed
  }
}
