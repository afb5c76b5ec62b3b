/** The states of a task, what an event does to them, and the two censuses that the counters of a job follow. */
module Tasks {

  datatype TaskState = FAILED | CANCELLED | DONE | PENDING | NEW

  datatype TaskStatus = TaskSuccessful | TaskFailed | TaskIgnored | TaskCancelled | TaskSent

  /** The statuses that can be printed; printing one of the two others is a panic. */
  predicate Printable(status: TaskStatus) {
    status in {TaskSuccessful, TaskFailed, TaskCancelled}
  }

  /** The state that a status reports. */
  function StateOf(status: TaskStatus): TaskState {
    match status
    case TaskSent => PENDING
    case TaskFailed => FAILED
    case TaskIgnored | TaskCancelled => CANCELLED
    case TaskSuccessful => DONE
  }

  /** NEW < PENDING < {FAILED, CANCELLED} < DONE. */
  function Rank(s: TaskState): nat {
    match s
    case NEW => 0
    case PENDING => 1
    case FAILED | CANCELLED => 2
    case DONE => 3
  }

  /** A report only ever raises a task; of two reports of the same rank the first one stands. */
  function Raise(s: TaskState, reported: TaskState): TaskState {
    if Rank(reported) > Rank(s) then reported else s
  }

  predicate Active(s: TaskState) {
    s == NEW || s == PENDING
  }

  // ----- Census ------------------------------------------------------------

  function ActiveCensus(ss: seq<TaskState>): nat {
    if ss == [] then 0 else ActiveCensus(ss[..|ss| - 1]) + if Active(ss[|ss| - 1]) then 1 else 0
  }

  function FailedCensus(ss: seq<TaskState>): nat {
    if ss == [] then 0 else FailedCensus(ss[..|ss| - 1]) + if ss[|ss| - 1] == FAILED then 1 else 0
  }

  /** Changing the state of one task moves the censuses by what it leaves and what it becomes. */
  lemma {:induction false} CensusUpdate(ss: seq<TaskState>, k: nat, s: TaskState)
    requires k < |ss|
    ensures ActiveCensus(ss[k := s])
         == ActiveCensus(ss) - (if Active(ss[k]) then 1 else 0) + (if Active(s) then 1 else 0)
    ensures FailedCensus(ss[k := s])
         == FailedCensus(ss) - (if ss[k] == FAILED then 1 else 0) + (if s == FAILED then 1 else 0)
  {
    var n := |ss| - 1;
    if k == n {
      assert ss[k := s][..n] == ss[..n];
    } else {
      CensusUpdate(ss[..n], k, s);
      assert ss[k := s][..n] == ss[..n][k := s];
    }
  }

  lemma {:induction false} CensusAppend(ss: seq<TaskState>, s: TaskState)
    ensures ActiveCensus(ss + [s]) == ActiveCensus(ss) + if Active(s) then 1 else 0
    ensures FailedCensus(ss + [s]) == FailedCensus(ss) + if s == FAILED then 1 else 0
  {
  }

  /** Two lists with active tasks at the same places have the same active census. */
  lemma {:induction false} SameActiveCensus(ss: seq<TaskState>, ss': seq<TaskState>)
    requires |ss| == |ss'|
    requires forall k | 0 <= k < |ss| :: Active(ss[k]) == Active(ss'[k])
    ensures ActiveCensus(ss) == ActiveCensus(ss')
  {
    if ss != [] {
      SameActiveCensus(ss[..|ss| - 1], ss'[..|ss| - 1]);
    }
  }

  // ----- One event ---------------------------------------------------------

  /** What `Job.UpdateTask` returns: nil, one of two errors, or a panic. */
  datatype UpdateResult = Ok | EntityNotFound | UnhandledEvent | Panicked

  /** The result of reporting `status` for a task in state `s`, to a job that accepts task events or not. */
  function ReportResult(accepts: bool, s: TaskState, status: TaskStatus): UpdateResult {
    if StateOf(status) == s || (accepts && s != DONE) then Ok
    else if Printable(status) then UnhandledEvent
    else Panicked
  }

  /** The state of that task afterwards. */
  function Reported(accepts: bool, s: TaskState, status: TaskStatus): TaskState {
    if accepts then Raise(s, StateOf(status)) else s
  }
}
