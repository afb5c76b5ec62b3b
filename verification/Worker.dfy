/** The consolidation worker: what one delivery of a message does, what the queue does with the answer, and what a
    whole life of the message amounts to, up to the state of its task in the job. */
module Worker {
  import opened Basics
  import opened Tasks
  import opened Delivery

  /** How a consolidation ends: the two named errors are compared by identity, any other may be temporary. */
  datatype Consolidation = Success | Cancelled | NotImplemented | Failure(temporary: bool)

  /** One delivery of a message: its try count and what the environment answers. */
  datatype Attempt = Attempt(tryCount: int, readable: bool, consolidation: Consolidation, publishes: bool)

  /** What the callback returns. A temporary error gets the message rescheduled, anything else acknowledges it. */
  datatype CallbackError = NoError | Temporary | Fatal

  function StatusFor(c: Consolidation): TaskStatus {
    match c
    case Success => TaskSuccessful
    case Cancelled => TaskCancelled
    case NotImplemented => TaskIgnored
    case Failure(_) => TaskFailed
  }

  /** The worker consolidates a readable message unless it has been tried too often. */
  predicate Consolidates(retryCount: int, a: Attempt) {
    a.readable && a.tryCount <= retryCount
  }

  /** A temporary failure that leaves a try is not reported. */
  predicate LeavesForLater(retryCount: int, a: Attempt) {
    Consolidates(retryCount, a) && a.consolidation == Failure(true) && a.tryCount < retryCount
  }

  /** The events that reach the queue during this delivery: at most one. */
  function Published(retryCount: int, a: Attempt): seq<TaskStatus> {
    if !a.readable || LeavesForLater(retryCount, a) || !a.publishes then []
    else [if Consolidates(retryCount, a) then StatusFor(a.consolidation) else TaskFailed]
  }

  function Returned(retryCount: int, a: Attempt): CallbackError {
    if !a.readable then Fatal
    else if LeavesForLater(retryCount, a) || !a.publishes then Temporary
    else NoError
  }

  /** Which event one delivery publishes, case by case. */
  lemma PublishedIff(retryCount: int, a: Attempt)
    ensures |Published(retryCount, a)| <= 1 && TaskSent !in Published(retryCount, a)
    ensures TaskSuccessful in Published(retryCount, a) <==>
              a.readable && a.publishes && a.tryCount <= retryCount && a.consolidation.Success?
    ensures TaskCancelled in Published(retryCount, a) <==>
              a.readable && a.publishes && a.tryCount <= retryCount && a.consolidation.Cancelled?
    ensures TaskIgnored in Published(retryCount, a) <==>
              a.readable && a.publishes && a.tryCount <= retryCount && a.consolidation.NotImplemented?
    ensures TaskFailed in Published(retryCount, a) <==>
              && a.readable && a.publishes
              && (a.tryCount > retryCount ||
                  (a.consolidation.Failure? && !(a.consolidation.temporary && a.tryCount < retryCount)))
    ensures Returned(retryCount, a) == Fatal <==> !a.readable
    ensures Returned(retryCount, a) == Temporary <==>
              a.readable && (!a.publishes || (a.tryCount < retryCount && a.consolidation == Failure(true)))
    ensures Consolidates(retryCount, a) <==> a.readable && a.tryCount <= retryCount
  {
  }

  class Consolidater {
    const retryCount: int
    var jobStarted: bool
    /** Every event that reached the queue. */
    var published: seq<TaskStatus>
    /** How many times a consolidation was run. */
    var consolidations: nat

    constructor (retryCount: int)
      ensures this.retryCount == retryCount && published == [] && consolidations == 0 && !jobStarted
    {
      this.retryCount := retryCount;
      jobStarted, published, consolidations := false, [], 0;
    }

    method Notify(status: TaskStatus, publishes: bool) returns (err: CallbackError)
      modifies this`published
      ensures err == if publishes then NoError else Temporary
      ensures published == if publishes then old(published) + [status] else old(published)
    {
      if !publishes {
        return Temporary;
      }
      published := published + [status];
      return NoError;
    }

    method Consolidate(c: Consolidation) returns (r: Consolidation)
      modifies this`consolidations
      ensures r == c && consolidations == old(consolidations) + 1
    {
      consolidations := consolidations + 1;
      return c;
    }

    method Process(a: Attempt) returns (err: CallbackError)
      modifies this
      ensures err == Returned(retryCount, a)
      ensures published == old(published) + Published(retryCount, a)
      ensures consolidations == old(consolidations) + if Consolidates(retryCount, a) then 1 else 0
      ensures !jobStarted
    {
      jobStarted := true;
      err := ProcessStarted(a);
      jobStarted := false;
    }

    method ProcessStarted(a: Attempt) returns (err: CallbackError)
      modifies this`published, this`consolidations
      ensures err == Returned(retryCount, a)
      ensures published == old(published) + Published(retryCount, a)
      ensures consolidations == old(consolidations) + if Consolidates(retryCount, a) then 1 else 0
    {
      if !a.readable {
        return Fatal;
      }
      if a.tryCount > retryCount {
        err := Notify(TaskFailed, a.publishes);
        return;
      }
      var taskErr := Consolidate(a.consolidation);
      if taskErr.Failure? && taskErr.temporary && a.tryCount < retryCount {
        return Temporary;
      }
      var taskStatus;
      match taskErr {
        case Success => taskStatus := TaskSuccessful;
        case Cancelled => taskStatus := TaskCancelled;
        case NotImplemented => taskStatus := TaskIgnored;
        case _ => taskStatus := TaskFailed;
      }
      err := Notify(taskStatus, a.publishes);
    }
  }

  // ----- The life of a message ---------------------------------------------

  /** Successive deliveries of one message: they carry the same data, and a delivery that is not the last one returned a
      temporary error. */
  ghost predicate Rescheduled(retryCount: int, h: seq<Attempt>) {
    && h != []
    && (forall i | 0 <= i < |h| - 1 :: Returned(retryCount, h[i]) == Temporary)
    && (forall i, j | 0 <= i < |h| && 0 <= j < |h| :: h[i].readable == h[j].readable)
  }

  /** The contract of a queue: each delivery has a greater try count than the one before. */
  ghost predicate IsLife(retryCount: int, h: seq<Attempt>) {
    Rescheduled(retryCount, h) && forall i | 0 <= i < |h| - 1 :: h[i].tryCount < h[i + 1].tryCount
  }

  ghost predicate Acknowledged(retryCount: int, h: seq<Attempt>)
    requires h != []
  {
    Returned(retryCount, h[|h| - 1]) != Temporary
  }

  /** All the events published during the life of the message. */
  function AllPublished(retryCount: int, h: seq<Attempt>): seq<TaskStatus> {
    if h == [] then [] else Published(retryCount, h[0]) + AllPublished(retryCount, h[1..])
  }

  function Consolidations(retryCount: int, h: seq<Attempt>): nat {
    if h == [] then 0 else (if Consolidates(retryCount, h[0]) then 1 else 0) + Consolidations(retryCount, h[1..])
  }

  function PublishFailures(h: seq<Attempt>): nat {
    if h == [] then 0 else (if h[0].publishes then 0 else 1) + PublishFailures(h[1..])
  }

  lemma {:induction false} LifeTail(retryCount: int, h: seq<Attempt>)
    requires Rescheduled(retryCount, h) && |h| > 1
    ensures Rescheduled(retryCount, h[1..])
    ensures IsLife(retryCount, h) ==> IsLife(retryCount, h[1..])
    ensures h[1..][|h| - 2] == h[|h| - 1]
  {
    assert forall i | 0 <= i < |h| - 1 :: h[1..][i] == h[i + 1];
  }

  /** Nothing is published before the last delivery, which publishes one event iff the message is acknowledged and
      could be read. So a readable message is acknowledged by the delivery that published its only event. The try counts
      do not matter. */
  lemma {:induction false} OneEventPerMessage(retryCount: int, h: seq<Attempt>)
    requires Rescheduled(retryCount, h)
    ensures AllPublished(retryCount, h) == Published(retryCount, h[|h| - 1])
    ensures |AllPublished(retryCount, h)| == if Acknowledged(retryCount, h) && h[0].readable then 1 else 0
    decreases h
  {
    if |h| > 1 {
      LifeTail(retryCount, h);
      OneEventPerMessage(retryCount, h[1..]);
      assert h[0].readable == h[1].readable;
    } else {
      assert AllPublished(retryCount, h[1..]) == [];
    }
  }

  /** The only messages acknowledged without any event are the unreadable ones, at their first delivery. */
  lemma {:induction false} AcknowledgedInSilence(retryCount: int, h: seq<Attempt>)
    requires Rescheduled(retryCount, h)
    ensures (Acknowledged(retryCount, h) && AllPublished(retryCount, h) == []) <==> !h[0].readable
    ensures !h[0].readable ==> |h| == 1
  {
    OneEventPerMessage(retryCount, h);
    assert h[0].readable == h[|h| - 1].readable;
  }

  /** A message is consolidated at most RetryCount - firstTry + 1 times. */
  lemma {:induction false} BoundedConsolidations(retryCount: int, h: seq<Attempt>)
    requires IsLife(retryCount, h)
    ensures Consolidations(retryCount, h) <= Max(0, retryCount - h[0].tryCount + 1)
    decreases h
  {
    if |h| > 1 {
      LifeTail(retryCount, h);
      BoundedConsolidations(retryCount, h[1..]);
      assert h[0].tryCount < h[1].tryCount;
    } else {
      assert Consolidations(retryCount, h[1..]) == 0;
    }
  }

  /** Whether or not it is over, a message has been delivered once, plus once per retry it had left, plus once per
      failure to publish: if publishing succeeds, the retries end. */
  lemma {:induction false} BoundedDeliveries(retryCount: int, h: seq<Attempt>)
    requires IsLife(retryCount, h)
    ensures |h| <= 1 + Max(0, retryCount - h[0].tryCount) + PublishFailures(h[..|h| - 1])
    decreases h
  {
    if |h| > 1 {
      LifeTail(retryCount, h);
      BoundedDeliveries(retryCount, h[1..]);
      assert h[..|h| - 1][1..] == h[1..][..|h| - 2];
      assert Returned(retryCount, h[0]) == Temporary && h[0].tryCount < h[1].tryCount;
    }
  }

  // ----- The PostgreSQL queue ----------------------------------------------

  /** The queue holds at most one entry for the message: the waits before the retries that it has left. */
  type Entry = Option<seq<nat>>

  /** What the queue does with an entry that was delivered: it deletes it, and on a temporary error enqueues it again
      with one wait less, if it has one. */
  function Performed(waits: seq<nat>, err: CallbackError): Entry {
    if err == Temporary && waits != [] then Some(waits[1..]) else None
  }

  /** The entry after the deliveries `h`. A message that left the queue is not delivered any more. */
  function EntryAfter(retryCount: int, entry: Entry, h: seq<Attempt>): Entry
    decreases h
  {
    if h == [] || entry.None? then entry
    else EntryAfter(retryCount, Performed(entry.value, Returned(retryCount, h[0])), h[1..])
  }

  /** `h` are deliveries of a message by this queue: all with the same try count, and none after it left. */
  ghost predicate IsQueued(retryCount: int, tryCount: int, entry: Entry, h: seq<Attempt>)
    decreases h
  {
    h == [] || (entry.Some? && h[0].tryCount == tryCount &&
                IsQueued(retryCount, tryCount, Performed(entry.value, Returned(retryCount, h[0])), h[1..]))
  }

  /** There are never more such deliveries than waits, plus one, and the message is still in the queue exactly as long
      as they are fewer and all returned a temporary error. */
  lemma {:induction false} QueuedDeliveries(retryCount: int, tryCount: int, waits: seq<nat>, h: seq<Attempt>)
    requires IsQueued(retryCount, tryCount, Some(waits), h)
    ensures |h| <= 1 + |waits|
    ensures forall i | 0 <= i < |h| :: h[i].tryCount == tryCount
    ensures forall i | 0 <= i < |h| - 1 :: Returned(retryCount, h[i]) == Temporary
    ensures EntryAfter(retryCount, Some(waits), h).Some? <==>
              |h| <= |waits| && forall i | 0 <= i < |h| :: Returned(retryCount, h[i]) == Temporary
    decreases h
  {
    if h != [] {
      var entry := Performed(waits, Returned(retryCount, h[0]));
      assert forall i | 0 < i < |h| :: h[i] == h[1..][i - 1];
      if entry.Some? {
        QueuedDeliveries(retryCount, tryCount, entry.value, h[1..]);
      } else {
        assert h[1..] == [];
      }
    }
  }

  /** The life of a message in this queue, until it left: same data, same try count. */
  ghost predicate IsQueueLife(retryCount: int, tryCount: int, waits: seq<nat>, h: seq<Attempt>) {
    && IsQueued(retryCount, tryCount, Some(waits), h)
    && EntryAfter(retryCount, Some(waits), h).None?
    && (forall i, j | 0 <= i < |h| && 0 <= j < |h| :: h[i].readable == h[j].readable)
  }

  /** A delivery with this try count that ends in a temporary error, and so publishes nothing. */
  predicate FailsForNow(retryCount: int, tryCount: int, a: Attempt) {
    !a.publishes || (tryCount < retryCount && a.consolidation == Failure(true))
  }

  /** A readable message leaves this queue without any event exactly when every delivery that its waits allow fails for
      now: it cannot be published, or, below the retry limit, the consolidation fails temporarily. */
  lemma {:induction false} DroppedInSilence(retryCount: int, tryCount: int, waits: seq<nat>, h: seq<Attempt>)
    requires IsQueueLife(retryCount, tryCount, waits, h) && h[0].readable
    ensures |AllPublished(retryCount, h)| <= 1
    ensures AllPublished(retryCount, h) == [] <==>
              |h| == 1 + |waits| && forall i | 0 <= i < |h| :: FailsForNow(retryCount, tryCount, h[i])
  {
    QueuedDeliveries(retryCount, tryCount, waits, h);
    OneEventPerMessage(retryCount, h);
    assert forall i | 0 <= i < |h| ::
        Returned(retryCount, h[i]) == Temporary <==> FailsForNow(retryCount, tryCount, h[i]);
  }

  /** So, while publishing works, a consolidation that always fails temporarily is never reported exactly when the try
      count of the queue is below the retry limit. The count of this queue is -1: no limit is ever reached. */
  lemma {:induction false} NeverReportedIff(retryCount: int, tryCount: int, waits: seq<nat>, h: seq<Attempt>)
    requires IsQueueLife(retryCount, tryCount, waits, h)
    requires forall i | 0 <= i < |h| :: h[i].readable && h[i].publishes && h[i].consolidation == Failure(true)
    ensures AllPublished(retryCount, h) == [] <==> tryCount < retryCount
    ensures tryCount >= retryCount ==> AllPublished(retryCount, h) == [TaskFailed] && |h| == 1
    ensures tryCount < retryCount ==> |h| == 1 + |waits|
  {
    assert h != [];
    QueuedDeliveries(retryCount, tryCount, waits, h);
    OneEventPerMessage(retryCount, h);
    DroppedInSilence(retryCount, tryCount, waits, h);
  }

  // ----- Up to the job -----------------------------------------------------

  /** Whether the delivery that acknowledged the message consolidated it successfully. */
  ghost predicate EndsInSuccess(retryCount: int, h: seq<Attempt>) {
    && h != []
    && Acknowledged(retryCount, h)
    && Consolidates(retryCount, h[|h| - 1])
    && h[|h| - 1].consolidation == Success
  }

  lemma {:induction false} SuccessIsReported(retryCount: int, h: seq<Attempt>)
    requires Rescheduled(retryCount, h)
    ensures TaskSuccessful in AllPublished(retryCount, h) <==> EndsInSuccess(retryCount, h)
  {
    OneEventPerMessage(retryCount, h);
  }

  /** A success is lost only if its own event could not be published: otherwise it ends the life of the message. */
  lemma {:induction false} PublishedSuccessIsKept(retryCount: int, h: seq<Attempt>, i: nat)
    requires Rescheduled(retryCount, h) && i < |h|
    requires Consolidates(retryCount, h[i]) && h[i].consolidation == Success && h[i].publishes
    ensures i == |h| - 1 && AllPublished(retryCount, h) == [TaskSuccessful]
  {
    assert Returned(retryCount, h[i]) == NoError;
    OneEventPerMessage(retryCount, h);
  }

  /** A success is reported iff some delivery consolidated successfully and could publish its event. */
  lemma {:induction false} SuccessReportedIff(retryCount: int, h: seq<Attempt>)
    requires Rescheduled(retryCount, h)
    ensures TaskSuccessful in AllPublished(retryCount, h) <==>
              exists i | 0 <= i < |h| ::
                Consolidates(retryCount, h[i]) && h[i].consolidation == Success && h[i].publishes
  {
    SuccessIsReported(retryCount, h);
    if i :| 0 <= i < |h| && Consolidates(retryCount, h[i]) && h[i].consolidation == Success && h[i].publishes {
      PublishedSuccessIsKept(retryCount, h, i);
    }
  }

  /** Which event the whole life of a message reports: a failure only if its last delivery could publish it and either
      came after too many tries, or failed to consolidate, for good or on the last try; a cancellation or an ignored
      task only for the two named errors. */
  lemma {:induction false} ReportedIff(retryCount: int, h: seq<Attempt>)
    requires Rescheduled(retryCount, h)
    ensures var a, reported := h[|h| - 1], AllPublished(retryCount, h);
            && |reported| <= 1
            && (TaskFailed in reported <==>
                  && a.readable && a.publishes
                  && (a.tryCount > retryCount ||
                      (a.consolidation.Failure? && !(a.consolidation.temporary && a.tryCount < retryCount))))
            && (TaskCancelled in reported <==>
                  a.readable && a.publishes && a.tryCount <= retryCount && a.consolidation == Cancelled)
            && (TaskIgnored in reported <==>
                  a.readable && a.publishes && a.tryCount <= retryCount && a.consolidation == NotImplemented)
            && TaskSent !in reported
  {
    OneEventPerMessage(retryCount, h);
    PublishedIff(retryCount, h[|h| - 1]);
  }

  /** A consolidation that succeeds but whose event cannot be published on the last try is reported as failed. */
  lemma {:induction false} SuccessCanBeLost(retryCount: int) returns (h: seq<Attempt>)
    ensures IsLife(retryCount, h) && Acknowledged(retryCount, h)
    ensures h[0].consolidation == Success && Consolidates(retryCount, h[0])
    ensures AllPublished(retryCount, h) == [TaskFailed]
  {
    h := [Attempt(retryCount, true, Success, false), Attempt(retryCount + 1, true, Success, true)];
    OneEventPerMessage(retryCount, h);
  }

  /** The events of task `k` that reach the job come from the messages of that task, but for the TaskSent of the service
      itself, and no success is lost. */
  ghost predicate Delivers(retryCount: int, hs: seq<seq<Attempt>>, ids: seq<string>, es: seq<TaskEvent>, k: nat) {
    && (forall status :: Hears(ids, es, k, status) ==>
          status == TaskSent || exists m | 0 <= m < |hs| :: status in AllPublished(retryCount, hs[m]))
    && (forall m | 0 <= m < |hs| ::
          TaskSuccessful in AllPublished(retryCount, hs[m]) ==> Hears(ids, es, k, TaskSuccessful))
  }

  /** Whatever the duplicates, the interleaving and the order of delivery, a task of a job that accepts task events ends
      DONE iff it was, or one of its messages was acknowledged by a successful consolidation. */
  lemma {:induction false} DoneIffConsolidated(retryCount: int, hs: seq<seq<Attempt>>, ids: seq<string>,
                                               ss: seq<TaskState>, es: seq<TaskEvent>, k: nat)
    requires |ids| == |ss| && k < |ss|
    requires forall m | 0 <= m < |hs| :: Rescheduled(retryCount, hs[m])
    requires Delivers(retryCount, hs, ids, es, k)
    ensures Deliver(ids, ss, es)[k] == DONE <==>
              ss[k] == DONE || exists m | 0 <= m < |hs| :: EndsInSuccess(retryCount, hs[m])
  {
    DoneIffSuccess(ids, ss, es, k);
    forall m | 0 <= m < |hs|
      ensures TaskSuccessful in AllPublished(retryCount, hs[m]) <==> EndsInSuccess(retryCount, hs[m])
    {
      SuccessIsReported(retryCount, hs[m]);
    }
  }

  /** A task whose messages all left the PostgreSQL queue in silence waits for ever: no event that the job receives ends
      it. */
  lemma {:induction false} DroppedTaskStaysActive(retryCount: int, tryCount: int, waits: seq<nat>,
                                                  hs: seq<seq<Attempt>>, ids: seq<string>, ss: seq<TaskState>,
                                                  es: seq<TaskEvent>, k: nat)
    requires |ids| == |ss| && k < |ss| && Active(ss[k]) && Delivers(retryCount, hs, ids, es, k)
    requires forall m | 0 <= m < |hs| :: IsQueueLife(retryCount, tryCount, waits, hs[m]) && |hs[m]| == 1 + |waits|
    requires forall m, i | 0 <= m < |hs| && 0 <= i < |hs[m]| ::
               hs[m][i].readable && FailsForNow(retryCount, tryCount, hs[m][i])
    ensures Active(Deliver(ids, ss, es)[k])
  {
    forall m | 0 <= m < |hs| ensures AllPublished(retryCount, hs[m]) == [] {
      DroppedInSilence(retryCount, tryCount, waits, hs[m]);
    }
    DoneIffSuccess(ids, ss, es, k);
  }
}
