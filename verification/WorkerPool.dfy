/** The pool that merges the slices of a cube and streams them in order, as interleaved steps.

    The jobs go through a FIFO queue to the workers; each job has its own unbuffered result channel; the collector
    reads these channels in the order of the jobs and forwards what is worth forwarding. */
module WorkerPool {
  import opened Basics

  /** What a worker sends for a job. */
  datatype Slice = Slice(image: Option<string>, error: Option<string>)

  /** The collector drops the slices that carry neither an image nor an error. */
  predicate Kept(s: Slice) {
    s.image.Some? || s.error.Some?
  }

  datatype Worker = Idle | Starting(job: nat) | Merging(job: nat) | Sending(job: nat) | Closing(job: nat) | Exited

  /** A worker that has not sent the result of its job. */
  predicate Busy(w: Worker) {
    w.Starting? || w.Merging? || w.Sending?
  }

  predicate HasJob(w: Worker) {
    Busy(w) || w.Closing?
  }

  datatype Collector = Reading | Emitting(job: nat) | Stopped

  /** `pushed` jobs are in the queue, `next` were taken (job `j` by the worker `takers[j]`), and the collector has read
      the channels below `pos`. `takers` only records the past: no step depends on it. */
  datatype State = State(
    pushed: nat, queueClosed: bool, next: nat, takers: seq<nat>,
    workers: seq<Worker>, closed: set<nat>,
    collector: Collector, pos: nat, stream: seq<nat>,
    cancelled: bool)

  datatype Step =
    | Push | CloseQueue
    | Take(w: nat) | Check(w: nat) | Merge(w: nat) | Send(w: nat) | Abandon(w: nat) | Close(w: nat) | Exit(w: nat)
    | ReadClosed | Emit | Finish | StopCollector
    | Cancel

  /** The steps of a worker. */
  predicate OfWorker(t: Step) {
    t.Take? || t.Check? || t.Merge? || t.Send? || t.Abandon? || t.Close? || t.Exit?
  }

  function Init(nbWorkers: nat): State {
    State(0, false, 0, [], seq(nbWorkers, i => Idle), {}, Reading, 0, [], false)
  }

  predicate Enabled(rs: seq<Slice>, s: State, t: Step) {
    match t
    case Push => s.pushed < |rs| && !s.queueClosed
    case CloseQueue => s.pushed == |rs| && !s.queueClosed
    case Take(w) => w < |s.workers| && s.workers[w].Idle? && s.next < s.pushed
    case Check(w) => w < |s.workers| && s.workers[w].Starting?
    case Merge(w) => w < |s.workers| && s.workers[w].Merging?
    case Send(w) => w < |s.workers| && s.workers[w].Sending? && s.collector.Reading? && s.pos == s.workers[w].job < |rs|
    case Abandon(w) => w < |s.workers| && s.workers[w].Sending? && s.cancelled
    case Close(w) => w < |s.workers| && s.workers[w].Closing?
    case Exit(w) => w < |s.workers| && s.workers[w].Idle? && s.queueClosed && s.next == s.pushed
    case ReadClosed => s.collector.Reading? && s.pos < |rs| && s.pos in s.closed
    case Emit => s.collector.Emitting?
    case Finish => s.collector.Reading? && s.pos >= |rs|
    case StopCollector => s.cancelled && (s.collector.Emitting? || (s.collector.Reading? && s.pos < |rs|))
    case Cancel => !s.cancelled
  }

  function Apply(rs: seq<Slice>, s: State, t: Step): State
    requires Enabled(rs, s, t)
  {
    match t
    case Push => s.(pushed := s.pushed + 1)
    case CloseQueue => s.(queueClosed := true)
    case Take(w) => 
      s.(next := s.next + 1, takers := s.takers + [w], workers := s.workers[w := Starting(s.next)])
    case Check(w) =>
      var j := s.workers[w].job;
      s.(workers := s.workers[w := if s.cancelled then Closing(j) else Merging(j)])
    case Merge(w) => s.(workers := s.workers[w := Sending(s.workers[w].job)])
    case Send(w) =>
      var j := s.workers[w].job;
      s.(workers := s.workers[w := Closing(j)], pos := s.pos + 1,
         collector := if Kept(rs[j]) then Emitting(j) else Reading)
    case Abandon(w) => s.(workers := s.workers[w := Closing(s.workers[w].job)])
    case Close(w) => s.(workers := s.workers[w := Idle], closed := s.closed + {s.workers[w].job})
    case Exit(w) => s.(workers := s.workers[w := Exited])
    case ReadClosed => s.(pos := s.pos + 1)
    case Emit => s.(stream := s.stream + [s.collector.job], collector := Reading)
    case Finish | StopCollector => s.(collector := Stopped)
    case Cancel => s.(cancelled := true)
  }

  /** `ts` is a possible run from `s`. */
  predicate IsRun(rs: seq<Slice>, s: State, ts: seq<Step>)
    decreases ts
  {
    ts == [] || (Enabled(rs, s, ts[0]) && IsRun(rs, Apply(rs, s, ts[0]), ts[1..]))
  }

  function Final(rs: seq<Slice>, s: State, ts: seq<Step>): State
    requires IsRun(rs, s, ts)
    decreases ts
  {
    if ts == [] then s else Final(rs, Apply(rs, s, ts[0]), ts[1..])
  }

  /** The pool is over: nothing is left running. */
  predicate Over(s: State) {
    s.queueClosed && s.collector.Stopped? && forall w | 0 <= w < |s.workers| :: s.workers[w].Exited?
  }

  // ----- Specification: the sequential map ---------------------------------

  /** The jobs below `k` whose result is kept, in order. */
  function KeptBelow(rs: seq<Slice>, k: nat): seq<nat>
    requires k <= |rs|
  {
    if k == 0 then [] else KeptBelow(rs, k - 1) + if Kept(rs[k - 1]) then [k - 1] else []
  }

  function Filtered(rs: seq<Slice>): seq<Slice> {
    if rs == [] then [] else Filtered(rs[..|rs| - 1]) + if Kept(rs[|rs| - 1]) then [rs[|rs| - 1]] else []
  }

  /** The slices that the consumer receives. */
  function Streamed(rs: seq<Slice>, stream: seq<nat>): seq<Slice>
    requires forall i | 0 <= i < |stream| :: stream[i] < |rs|
  {
    seq(|stream|, i requires 0 <= i < |stream| => rs[stream[i]])
  }

  // ----- Invariant ---------------------------------------------------------

  ghost predicate WorkerInv(s: State, w: nat)
    requires w < |s.workers|
  {
    var x := s.workers[w];
    && (HasJob(x) ==> x.job < s.next && x.job < |s.takers| && s.takers[x.job] == w && x.job !in s.closed)
    && (Busy(x) ==> s.pos <= x.job)
    && (x.Closing? ==> s.cancelled || x.job < s.pos)
    && (x.Exited? ==> s.queueClosed && s.next == s.pushed)
  }

  ghost predicate JobInv(s: State, j: nat)
    requires j < |s.takers|
  {
    && s.takers[j] < |s.workers|
    && (j in s.closed ==> s.cancelled || j < s.pos)
    && (s.pos <= j && j !in s.closed ==> HasJob(s.workers[s.takers[j]]) && s.workers[s.takers[j]].job == j)
  }

  ghost predicate WorkersInv(s: State) {
    && |s.takers| == s.next
    && (forall w | 0 <= w < |s.workers| :: WorkerInv(s, w))
    && (forall j | 0 <= j < |s.takers| :: JobInv(s, j))
    && (forall j | j in s.closed :: j < s.next)
  }

  predicate Increasing(ks: seq<nat>) {
    forall i, i' | 0 <= i < i' < |ks| :: ks[i] < ks[i']
  }

  ghost predicate StreamInv(rs: seq<Slice>, s: State) {
    && s.pos <= |rs|
    && Increasing(s.stream)
    && (forall i | 0 <= i < |s.stream| ::
          s.stream[i] < (if s.collector.Emitting? then s.collector.job else s.pos) && s.stream[i] < |rs|)
    && (s.collector.Emitting? ==> s.collector.job < s.pos)
    && (!s.cancelled ==> s.stream + (if s.collector.Emitting? then [s.collector.job] else []) == KeptBelow(rs, s.pos))
    && (!s.cancelled && s.collector.Stopped? ==> s.pos == |rs|)
  }

  ghost predicate Inv(rs: seq<Slice>, s: State) {
    && s.pos <= s.next <= s.pushed <= |rs|
    && (s.queueClosed ==> s.pushed == |rs|)
    && WorkersInv(s)
    && StreamInv(rs, s)
  }

  lemma InvInit(rs: seq<Slice>, nbWorkers: nat)
    ensures Inv(rs, Init(nbWorkers))
  {
  }

  /** A step of the feeder, of the collector or of the context: no worker moves. */
  lemma {:induction false} OthersInvStep(rs: seq<Slice>, s: State, t: Step)
    requires Inv(rs, s) && Enabled(rs, s, t) && !OfWorker(t)
    ensures WorkersInv(Apply(rs, s, t))
  {
    var s' := Apply(rs, s, t);
    forall w | 0 <= w < |s'.workers| ensures WorkerInv(s', w) {
      assert WorkerInv(s, w);
      if t.ReadClosed? {
        assert JobInv(s, s.pos);
      }
    }
    forall j | 0 <= j < |s'.takers| ensures JobInv(s', j) {
      assert JobInv(s, j);
    }
  }

  lemma {:induction false} TakeInvStep(rs: seq<Slice>, s: State, t: Step)
    requires Inv(rs, s) && Enabled(rs, s, t) && t.Take?
    ensures WorkersInv(Apply(rs, s, t))
  {
    var s' := Apply(rs, s, t);
    forall w | 0 <= w < |s'.workers| ensures WorkerInv(s', w) {
      assert WorkerInv(s, w);
    }
    forall j | 0 <= j < |s'.takers| ensures JobInv(s', j) {
      if j < s.next {
        assert JobInv(s, j);
      }
    }
  }

  /** A worker that moves on with its job, or stops: the other workers and their jobs are as before. */
  lemma {:induction false} MoveInvStep(rs: seq<Slice>, s: State, t: Step)
    requires Inv(rs, s) && Enabled(rs, s, t) && OfWorker(t) && !t.Take?
    ensures WorkersInv(Apply(rs, s, t))
  {
    var s' := Apply(rs, s, t);
    assert WorkerInv(s, t.w);
    forall w | 0 <= w < |s'.workers| ensures WorkerInv(s', w) {
      assert WorkerInv(s, w);
    }
    forall j | 0 <= j < |s'.takers| ensures JobInv(s', j) {
      MovedJobInv(rs, s, t, j);
    }
  }

  lemma {:induction false} MovedJobInv(rs: seq<Slice>, s: State, t: Step, j: nat)
    requires Inv(rs, s) && Enabled(rs, s, t) && OfWorker(t) && !t.Take? && j < |s.takers|
    ensures JobInv(Apply(rs, s, t), j)
  {
    assert JobInv(s, j);
    assert WorkerInv(s, t.w);
    hide StreamInv;
  }

  lemma {:induction false} WorkersInvStep(rs: seq<Slice>, s: State, t: Step)
    requires Inv(rs, s) && Enabled(rs, s, t)
    ensures WorkersInv(Apply(rs, s, t))
  {
    if t.Take? {
      TakeInvStep(rs, s, t);
    } else if OfWorker(t) {
      MoveInvStep(rs, s, t);
    } else {
      OthersInvStep(rs, s, t);
    }
  }

  /** The worker hands the next result to the collector. */
  lemma {:induction false} SendStreamInv(rs: seq<Slice>, s: State, t: Step)
    requires Inv(rs, s) && Enabled(rs, s, t) && t.Send?
    ensures StreamInv(rs, Apply(rs, s, t))
  {
    hide WorkersInv;
  }

  lemma {:induction false} ReadStreamInv(rs: seq<Slice>, s: State, t: Step)
    requires Inv(rs, s) && Enabled(rs, s, t) && t.ReadClosed?
    ensures StreamInv(rs, Apply(rs, s, t))
  {
    assert JobInv(s, s.pos);
  }

  lemma {:induction false} EmitStreamInv(rs: seq<Slice>, s: State, t: Step)
    requires Inv(rs, s) && Enabled(rs, s, t) && t.Emit?
    ensures StreamInv(rs, Apply(rs, s, t))
  {
    hide WorkersInv;
    assert Increasing(s.stream + [s.collector.job]);
  }

  lemma {:induction false} StreamInvStep(rs: seq<Slice>, s: State, t: Step)
    requires Inv(rs, s) && Enabled(rs, s, t)
    ensures StreamInv(rs, Apply(rs, s, t))
  {
    hide WorkersInv;
    if t.Send? {
      SendStreamInv(rs, s, t);
    } else if t.ReadClosed? {
      ReadStreamInv(rs, s, t);
    } else if t.Emit? {
      EmitStreamInv(rs, s, t);
    }
  }

  lemma {:induction false} InvStep(rs: seq<Slice>, s: State, t: Step)
    requires Inv(rs, s) && Enabled(rs, s, t)
    ensures Inv(rs, Apply(rs, s, t))
  {
    assert t.Send? ==> WorkerInv(s, t.w);
    WorkersInvStep(rs, s, t);
    StreamInvStep(rs, s, t);
  }

  lemma {:induction false} InvRun(rs: seq<Slice>, s: State, ts: seq<Step>)
    requires Inv(rs, s) && IsRun(rs, s, ts)
    ensures Inv(rs, Final(rs, s, ts)) && |Final(rs, s, ts).workers| == |s.workers|
    decreases ts
  {
    if ts != [] {
      InvStep(rs, s, ts[0]);
      InvRun(rs, Apply(rs, s, ts[0]), ts[1..]);
    }
  }

  // ----- At most one job in flight per worker ------------------------------

  function HeldJobs(ws: seq<Worker>): (held: set<nat>)
    ensures |held| <= |ws|
    ensures forall w | 0 <= w < |ws| && HasJob(ws[w]) :: ws[w].job in held
  {
    if ws == [] then {}
    else
      var last := ws[|ws| - 1];
      HeldJobs(ws[..|ws| - 1]) + if HasJob(last) then {last.job} else {}
  }

  function Between(lo: nat, hi: nat): (js: set<nat>)
    requires lo <= hi
    ensures |js| == hi - lo
    ensures forall j :: j in js <==> lo <= j < hi
    decreases hi - lo
  {
    if lo == hi then {} else Between(lo, hi - 1) + {hi - 1}
  }

  /** Without cancellation the started jobs are a prefix of the queue, the delivered ones are those that the
      collector has read, each job between the two is in the hands of its own worker, and so there is at most one
      per worker. */
  lemma {:induction false} InFlight(rs: seq<Slice>, s: State)
    requires Inv(rs, s) && !s.cancelled
    ensures s.next - s.pos <= |s.workers|
    ensures forall j | s.pos <= j < s.next ::
              s.takers[j] < |s.workers| && Busy(s.workers[s.takers[j]]) && s.workers[s.takers[j]].job == j
    ensures forall w | 0 <= w < |s.workers| && Busy(s.workers[w]) :: s.pos <= s.workers[w].job < s.next
  {
    forall w | 0 <= w < |s.workers| && Busy(s.workers[w]) ensures s.pos <= s.workers[w].job < s.next {
      assert WorkerInv(s, w);
    }
    forall j | s.pos <= j < s.next
      ensures s.takers[j] < |s.workers| && Busy(s.workers[s.takers[j]]) && s.workers[s.takers[j]].job == j
      ensures j in HeldJobs(s.workers)
    {
      assert JobInv(s, j);
      assert WorkerInv(s, s.takers[j]);
    }
    SubsetSize(Between(s.pos, s.next), HeldJobs(s.workers));
  }

  // ----- Progress ----------------------------------------------------------

  /** With at least one worker (or nothing to do) the pool never blocks: as long as it is not over, some step other
      than a cancellation is possible. The consumer only has to read until the cube is cancelled. */
  lemma {:induction false} NeverBlocks(rs: seq<Slice>, s: State, consumerReads: bool) returns (t: Step)
    requires Inv(rs, s) && !Over(s)
    requires |s.workers| >= 1 || rs == []
    requires consumerReads || s.cancelled
    ensures Enabled(rs, s, t) && !t.Cancel?
    ensures t.Emit? ==> consumerReads
  {
    if !s.queueClosed {
      return if s.pushed < |rs| then Push else CloseQueue;
    }
    if w :| 0 <= w < |s.workers| && s.workers[w].Starting? {
      return Check(w);
    }
    if w :| 0 <= w < |s.workers| && s.workers[w].Merging? {
      return Merge(w);
    }
    if w :| 0 <= w < |s.workers| && s.workers[w].Closing? {
      return Close(w);
    }
    if w :| 0 <= w < |s.workers| && s.workers[w].Idle? {
      return if s.next < s.pushed then Take(w) else Exit(w);
    }
    if s.cancelled && s.collector.Reading? && s.pos < |rs| {
      return StopCollector;
    }
    if s.collector.Emitting? {
      return if consumerReads then Emit else StopCollector;
    }
    if s.collector.Reading? && s.pos == |rs| {
      return Finish;
    }
    if w :| 0 <= w < |s.workers| && s.workers[w].Sending? && s.cancelled {
      return Abandon(w);
    }
    CollectorReads(rs, s);
    t := SendNext(rs, s);
  }

  /** Everybody waits, so the collector waits too... */
  lemma {:induction false} CollectorReads(rs: seq<Slice>, s: State)
    requires Inv(rs, s) && !Over(s) && s.queueClosed
    requires forall w | 0 <= w < |s.workers| :: s.workers[w].Sending? || s.workers[w].Exited?
    requires s.cancelled ==> forall w | 0 <= w < |s.workers| :: s.workers[w].Exited?
    ensures !s.collector.Stopped?
  {
    if s.collector.Stopped? {
      forall w | 0 <= w < |s.workers| ensures s.workers[w].Exited? {
        assert WorkerInv(s, w);
      }
      assert false;
    }
  }

  /** ...for the very job that some worker is sending. */
  lemma {:induction false} SendNext(rs: seq<Slice>, s: State) returns (t: Step)
    requires Inv(rs, s) && s.queueClosed && |s.workers| >= 1
    requires forall w | 0 <= w < |s.workers| :: s.workers[w].Sending? || s.workers[w].Exited?
    requires s.collector.Reading? && s.pos < |rs| && !s.cancelled
    ensures t.Send? && Enabled(rs, s, t)
  {
    assert WorkerInv(s, 0);
    assert s.pos < s.next;
    assert JobInv(s, s.pos);
    t := Send(s.takers[s.pos]);
  }

  /** Without a worker, no run of a non-empty cube ends: the hypothesis of `NeverBlocks` is necessary. */
  lemma {:induction false} NoWorkerNeverEnds(rs: seq<Slice>, ts: seq<Step>)
    requires rs != [] && IsRun(rs, Init(0), ts) && !Final(rs, Init(0), ts).cancelled
    ensures !Over(Final(rs, Init(0), ts)) && Final(rs, Init(0), ts).stream == []
  {
    InvInit(rs, 0);
    InvRun(rs, Init(0), ts);
    var s := Final(rs, Init(0), ts);
    assert |s.takers| > 0 ==> JobInv(s, 0);
    assert s.pos == 0;
  }

  // ----- Termination -------------------------------------------------------

  function WorkerWork(w: Worker): nat {
    match w
    case Exited => 0
    case Idle => 1
    case Closing(_) => 2
    case Sending(_) => 3
    case Merging(_) => 4
    case Starting(_) => 5
  }

  function Work(ws: seq<Worker>): nat {
    if ws == [] then 0 else Work(ws[..|ws| - 1]) + WorkerWork(ws[|ws| - 1])
  }

  lemma {:induction false} WorkUpdate(ws: seq<Worker>, w: nat, x: Worker)
    requires w < |ws|
    ensures Work(ws[w := x]) == Work(ws) - WorkerWork(ws[w]) + WorkerWork(x)
  {
    var n := |ws| - 1;
    if w == n {
      assert ws[w := x][..n] == ws[..n];
    } else {
      WorkUpdate(ws[..n], w, x);
      assert ws[w := x][..n] == ws[..n][w := x];
    }
  }

  /** What is left to do. */
  ghost function Measure(rs: seq<Slice>, s: State): int {
    (|rs| - s.pushed) + (if s.queueClosed then 0 else 1) + 6 * (|rs| - s.next) + Work(s.workers)
    + 2 * (|rs| - s.pos) + (match s.collector case Emitting(_) => 2 case Reading => 1 case Stopped => 0)
    + if s.cancelled then 0 else 1
  }

  lemma {:induction false} EveryStepDecreases(rs: seq<Slice>, s: State, t: Step)
    requires Inv(rs, s) && Enabled(rs, s, t)
    ensures 0 <= Measure(rs, Apply(rs, s, t)) < Measure(rs, s)
  {
    InvStep(rs, s, t);
    hide WorkersInv;
    hide StreamInv;
    var s' := Apply(rs, s, t);
    if OfWorker(t) {
      WorkUpdate(s.workers, t.w, s'.workers[t.w]);
      assert s'.workers == s.workers[t.w := s'.workers[t.w]];
    }
  }

  /** No run is longer than the work there was, cancelled or not. */
  lemma {:induction false} RunsAreFinite(rs: seq<Slice>, s: State, ts: seq<Step>)
    requires Inv(rs, s) && IsRun(rs, s, ts)
    ensures |ts| <= Measure(rs, s)
    decreases ts
  {
    if ts == [] {
    } else {
      EveryStepDecreases(rs, s, ts[0]);
      InvStep(rs, s, ts[0]);
      RunsAreFinite(rs, Apply(rs, s, ts[0]), ts[1..]);
    }
  }

  // ----- Cancellation ------------------------------------------------------

  /** Once the context is cancelled, it stays so, and no worker starts to merge a slice any more. */
  lemma {:induction false} CancelledStartsNothing(rs: seq<Slice>, s: State, ts: seq<Step>)
    requires s.cancelled && IsRun(rs, s, ts)
    ensures var s' := Final(rs, s, ts);
            && s'.cancelled && |s'.workers| == |s.workers|
            && forall w | 0 <= w < |s.workers| && s'.workers[w].Merging? :: s'.workers[w] == s.workers[w]
    decreases ts
  {
    if ts != [] {
      CancelledStartsNothing(rs, Apply(rs, s, ts[0]), ts[1..]);
    }
  }

  // ----- What the consumer receives ----------------------------------------

  lemma {:induction false} KeptIsFiltered(rs: seq<Slice>, k: nat)
    requires k <= |rs|
    ensures forall i | 0 <= i < |KeptBelow(rs, k)| :: KeptBelow(rs, k)[i] < k
    ensures Streamed(rs, KeptBelow(rs, k)) == Filtered(rs[..k])
  {
    if k > 0 {
      KeptIsFiltered(rs, k - 1);
      assert rs[..k][..k - 1] == rs[..k - 1];
      assert Streamed(rs, KeptBelow(rs, k))
          == Streamed(rs, KeptBelow(rs, k - 1)) + if Kept(rs[k - 1]) then [rs[k - 1]] else [];
    }
  }

  lemma {:induction false} KeptIff(rs: seq<Slice>, k: nat)
    requires k <= |rs|
    ensures forall j: nat :: j in KeptBelow(rs, k) <==> j < k && (rs[j].image.Some? || rs[j].error.Some?)
  {
    if k > 0 {
      KeptIff(rs, k - 1);
    }
  }

  lemma {:induction false} NothingDropped(rs: seq<Slice>)
    requires forall i | 0 <= i < |rs| :: Kept(rs[i])
    ensures Filtered(rs) == rs
  {
    if rs != [] {
      NothingDropped(rs[..|rs| - 1]);
      assert rs == rs[..|rs| - 1] + [rs[|rs| - 1]];
    }
  }

  /** The results of the jobs, in order: exactly those that carry an image or an error, each one once. */
  ghost predicate InOrder(rs: seq<Slice>, stream: seq<nat>) {
    && (forall i | 0 <= i < |stream| :: stream[i] < |rs|)
    && Streamed(rs, stream) == Filtered(rs)
    && Increasing(stream)
    && (forall j: nat | j < |rs| :: j in stream <==> rs[j].image.Some? || rs[j].error.Some?)
    && ((forall i | 0 <= i < |rs| :: Kept(rs[i])) ==> Streamed(rs, stream) == rs)
  }

  lemma {:induction false} OverInOrder(rs: seq<Slice>, s: State)
    requires Inv(rs, s) && Over(s) && !s.cancelled
    ensures InOrder(rs, s.stream)
  {
    assert s.stream == KeptBelow(rs, |rs|);
    KeptIsFiltered(rs, |rs|);
    assert rs[..|rs|] == rs;
    KeptIff(rs, |rs|);
    if forall i | 0 <= i < |rs| :: Kept(rs[i]) {
      NothingDropped(rs);
    }
  }

  /** A run without cancellation that leaves nothing to do has streamed exactly the results of the jobs, in order. */
  lemma {:induction false} StreamsInOrder(rs: seq<Slice>, nbWorkers: nat, ts: seq<Step>)
    requires IsRun(rs, Init(nbWorkers), ts)
    requires Over(Final(rs, Init(nbWorkers), ts)) && !Final(rs, Init(nbWorkers), ts).cancelled
    ensures InOrder(rs, Final(rs, Init(nbWorkers), ts).stream)
  {
    InvInit(rs, nbWorkers);
    InvRun(rs, Init(nbWorkers), ts);
    OverInOrder(rs, Final(rs, Init(nbWorkers), ts));
  }

  /** At any point of any run, cancelled or not, the consumer has received the results of distinct jobs, in order,
      and without cancellation a prefix of the full stream. */
  lemma {:induction false} StreamsAPrefix(rs: seq<Slice>, nbWorkers: nat, ts: seq<Step>)
    requires IsRun(rs, Init(nbWorkers), ts)
    ensures var s := Final(rs, Init(nbWorkers), ts);
            && Increasing(s.stream)
            && (forall i | 0 <= i < |s.stream| :: s.stream[i] < s.next <= |rs|)
            && (!s.cancelled ==> s.stream <= KeptBelow(rs, |rs|))
  {
    InvInit(rs, nbWorkers);
    InvRun(rs, Init(nbWorkers), ts);
    var s := Final(rs, Init(nbWorkers), ts);
    KeptPrefix(rs, s.pos, |rs|);
  }

  lemma {:induction false} KeptPrefix(rs: seq<Slice>, k: nat, n: nat)
    requires k <= n <= |rs|
    ensures KeptBelow(rs, k) <= KeptBelow(rs, n)
    decreases n
  {
    if k < n {
      KeptPrefix(rs, k, n - 1);
    }
  }

  // ----- How many workers --------------------------------------------------

  /** The number of workers started for `nbJobs` jobs, each using `bytes` bytes. */
  function NumberOfWorkers(nbJobs: nat, cubeWorkers: int, ramSize: nat, bytes: nat): int
    requires bytes > 0
  {
    Min(nbJobs, Min(cubeWorkers, Min(10, Max(1, ramSize / bytes))))
  }

  /** The number of cube workers that the service keeps, for the number that is asked. */
  function CubeWorkers(asked: int): int {
    if asked <= 0 then 1 else asked
  }

  /** So the service never starts a pool that blocks: whatever is asked and however large the images are, a cube that
      has jobs gets a worker, and no cube gets more workers than it has jobs. */
  lemma EnoughWorkers(nbJobs: nat, asked: int, ramSize: nat, bytes: nat)
    requires bytes > 0
    ensures var n := NumberOfWorkers(nbJobs, CubeWorkers(asked), ramSize, bytes);
            0 <= n <= nbJobs && (n == 0 <==> nbJobs == 0)
  {
  }

  /** And it starts as many as it may: not more than jobs, nor than asked, nor than ten, and not more than one unless
      their images fit together in the memory. */
  lemma {:induction false} AsManyAsAllowed(nbJobs: nat, asked: int, ramSize: nat, bytes: nat, n: nat)
    requires bytes > 0
    ensures n <= NumberOfWorkers(nbJobs, CubeWorkers(asked), ramSize, bytes) <==>
              n <= nbJobs && n <= 10 && (n <= 1 || (n <= asked && n * bytes <= ramSize))
  {
    var q := ramSize / bytes;
    assert q * bytes <= ramSize < q * bytes + bytes;
    if n <= q {
      Ordered(n, q, bytes);
    } else {
      Ordered(q + 1, n, bytes);
    }
  }

  lemma {:induction false} Ordered(a: nat, b: nat, c: nat)
    requires a <= b
    ensures a * c <= b * c
  {
  }
}
