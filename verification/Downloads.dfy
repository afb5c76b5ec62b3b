/** The life of predownloaded files, as interleaved steps: the download worker fills the result channels, each slice
    receives its files, merges them and acknowledges them, and one remover per file waits for the acknowledgements.
    Nothing is cancelled. */
module Downloads {
  import opened Basics

  // ----- Configuration -----------------------------------------------------

  /** Job `j` has `refCounts[j]` references; slice `s` waits for the jobs `orders[s]`, in that order. */
  datatype Config = Config(refCounts: seq<nat>, orders: seq<seq<nat>>)

  function Users(c: Config, j: nat): set<nat> {
    set s: nat | s < |c.orders| && j in c.orders[s]
  }

  /** A slice waits once for each of its files; a file has at least one reference per slice that needs it. */
  ghost predicate WellFormed(c: Config) {
    && (forall s, i, i' | 0 <= s < |c.orders| && 0 <= i < i' < |c.orders[s]| :: c.orders[s][i] != c.orders[s][i'])
    && (forall s, i | 0 <= s < |c.orders| && 0 <= i < |c.orders[s]| :: c.orders[s][i] < |c.refCounts|)
    && (forall j | 0 <= j < |c.refCounts| :: |Users(c, j)| <= c.refCounts[j] && c.refCounts[j] > 0)
  }

  // ----- State -------------------------------------------------------------

  datatype File = NotYet | Present | Failed | Removed

  /** A download job: `pushed` results were put on its channel, `received` by the slices of that set; `acked` are the
      slices that acknowledged the file, `inFlight` of these acknowledgements are still on the channel of the remover,
      which waits for `count` more. */
  datatype Job = Job(file: File, pushed: nat, chanClosed: bool, received: set<nat>,
                     acked: set<nat>, inFlight: nat, count: int)

  datatype Slice = Waiting(i: nat) | Merging | Acking(i: nat) | Finished

  datatype State = State(current: nat, jobs: seq<Job>, slices: seq<Slice>)

  datatype Step =
    | Download(ok: bool) | PushResult | CloseChannel
    | Receive(s: nat) | StartMerge(s: nat) | EndMerge(s: nat)
    | Ack(s: nat) | SkipAck(s: nat) | Finish(s: nat)
    | TakeAck(j: nat)

  function Init(c: Config): State {
    State(0, seq(|c.refCounts|, j requires 0 <= j < |c.refCounts| => Job(NotYet, 0, false, {}, {}, 0, c.refCounts[j])),
          seq(|c.orders|, s => Waiting(0)))
  }

  predicate Shape(c: Config, st: State) {
    && |st.jobs| == |c.refCounts| && |st.slices| == |c.orders|
    && (forall s | 0 <= s < |st.slices| :: st.slices[s].Waiting? ==> st.slices[s].i <= |c.orders[s]|)
    && (forall s | 0 <= s < |st.slices| :: st.slices[s].Acking? ==> st.slices[s].i <= |c.orders[s]|)
    && (forall s, i | 0 <= s < |c.orders| && 0 <= i < |c.orders[s]| :: c.orders[s][i] < |c.refCounts|)
  }

  /** The slice `s` is at the file number `i` of its list. */
  predicate AtFile(c: Config, st: State, s: nat)
    requires Shape(c, st)
  {
    && s < |st.slices|
    && (st.slices[s].Waiting? || st.slices[s].Acking?)
    && st.slices[s].i < |c.orders[s]|
  }

  /** The job of the file that the slice `s` waits for or acknowledges. */
  function FileOf(c: Config, st: State, s: nat): (j: nat)
    requires Shape(c, st) && AtFile(c, st, s)
    ensures j < |st.jobs|
  {
    c.orders[s][st.slices[s].i]
  }

  predicate AtEnd(c: Config, st: State, s: nat)
    requires Shape(c, st)
  {
    && s < |st.slices|
    && (st.slices[s].Waiting? || st.slices[s].Acking?)
    && st.slices[s].i == |c.orders[s]|
  }

  /** The file was downloaded, so a result carries an acknowledgement channel. */
  predicate Acknowledgeable(x: Job) {
    x.file.Present? || x.file.Removed?
  }

  predicate Enabled(c: Config, st: State, t: Step)
    requires Shape(c, st)
  {
    match t
    case Download(ok) => st.current < |st.jobs| && st.jobs[st.current].file.NotYet?
    case PushResult =>
      // The channel has room for `refCount` results; pushing to a full channel blocks.
      && st.current < |st.jobs| && !st.jobs[st.current].file.NotYet?
      && st.jobs[st.current].pushed < c.refCounts[st.current]
      && st.jobs[st.current].pushed - |st.jobs[st.current].received| < c.refCounts[st.current]
    case CloseChannel =>
      && st.current < |st.jobs| && !st.jobs[st.current].file.NotYet?
      && st.jobs[st.current].pushed == c.refCounts[st.current]
    case Receive(s) =>
      && AtFile(c, st, s) && st.slices[s].Waiting?
      && st.jobs[FileOf(c, st, s)].pushed > |st.jobs[FileOf(c, st, s)].received|
    case StartMerge(s) => AtEnd(c, st, s) && st.slices[s].Waiting?
    case EndMerge(s) => s < |st.slices| && st.slices[s].Merging?
    case Ack(s) =>
      // The acknowledgement channel has one place; a send to a closed channel is a panic.
      && AtFile(c, st, s) && st.slices[s].Acking?
      && Acknowledgeable(st.jobs[FileOf(c, st, s)]) && st.jobs[FileOf(c, st, s)].inFlight == 0
    case SkipAck(s) => AtFile(c, st, s) && st.slices[s].Acking? && !Acknowledgeable(st.jobs[FileOf(c, st, s)])
    case Finish(s) => AtEnd(c, st, s) && st.slices[s].Acking?
    case TakeAck(j) => j < |st.jobs| && st.jobs[j].file.Present? && st.jobs[j].inFlight > 0
  }

  function Apply(c: Config, st: State, t: Step): State
    requires Shape(c, st) && Enabled(c, st, t)
  {
    match t
    case Download(ok) =>
      var x := st.jobs[st.current];
      st.(jobs := st.jobs[st.current := x.(file := if ok then Present else Failed)])
    case PushResult =>
      var x := st.jobs[st.current];
      st.(jobs := st.jobs[st.current := x.(pushed := x.pushed + 1)])
    case CloseChannel =>
      st.(jobs := st.jobs[st.current := st.jobs[st.current].(chanClosed := true)], current := st.current + 1)
    case Receive(s) =>
      var j := FileOf(c, st, s);
      var x := st.jobs[j];
      st.(jobs := st.jobs[j := x.(received := x.received + {s})], slices := st.slices[s := Waiting(st.slices[s].i + 1)])
    case StartMerge(s) => st.(slices := st.slices[s := Merging])
    case EndMerge(s) => st.(slices := st.slices[s := Acking(0)])
    case Ack(s) =>
      var j := FileOf(c, st, s);
      var x := st.jobs[j];
      st.(jobs := st.jobs[j := x.(acked := x.acked + {s}, inFlight := 1)],
          slices := st.slices[s := Acking(st.slices[s].i + 1)])
    case SkipAck(s) => st.(slices := st.slices[s := Acking(st.slices[s].i + 1)])
    case Finish(s) => st.(slices := st.slices[s := Finished])
    case TakeAck(j) =>
      var x := st.jobs[j];
      var file := if x.count == 1 then Removed else Present;
      st.(jobs := st.jobs[j := x.(inFlight := 0, count := x.count - 1, file := file)])
  }

  // ----- Invariant ---------------------------------------------------------

  /** The slice has received the file of the job `j`. */
  predicate HasReceived(order: seq<nat>, x: Slice, j: nat) {
    match x
    case Waiting(i) => i <= |order| && j in order[..i]
    case _ => j in order
  }

  /** The slice is done with the file of the job `j`. */
  predicate IsDoneWith(order: seq<nat>, x: Slice, j: nat) {
    match x
    case Waiting(_) | Merging => false
    case Acking(i) => i <= |order| && j in order[..i]
    case Finished => j in order
  }

  ghost predicate JobInv(c: Config, st: State, j: nat)
    requires Shape(c, st) && j < |st.jobs|
  {
    var x := st.jobs[j];
    && (j < st.current ==> x.chanClosed && x.pushed == c.refCounts[j] && !x.file.NotYet?)
    && (j >= st.current ==> !x.chanClosed)
    && (j > st.current ==> x.file.NotYet?)
    && (x.file.NotYet? ==> x.pushed == 0)
    && |x.received| <= x.pushed <= c.refCounts[j]
    && (forall s: nat | s < |st.slices| :: s in x.received <==> HasReceived(c.orders[s], st.slices[s], j))
    && (forall s: nat | s < |st.slices| ::
          s in x.acked <==> Acknowledgeable(x) && IsDoneWith(c.orders[s], st.slices[s], j))
    && x.received <= Users(c, j) && x.acked <= x.received
    && x.inFlight <= 1 && x.count == c.refCounts[j] - |x.acked| + x.inFlight
    && (x.file.Removed? <==> x.count == 0)
    && (x.inFlight > 0 ==> x.file.Present?)
  }

  ghost predicate Inv(c: Config, st: State) {
    && Shape(c, st)
    && st.current <= |st.jobs|
    && forall j | 0 <= j < |st.jobs| :: JobInv(c, st, j)
  }

  /** Before a slice acknowledges a downloaded file, the file is there and its channel is open. */
  lemma {:induction false} PresentUntilAcked(c: Config, st: State, s: nat, j: nat)
    requires WellFormed(c) && Inv(c, st) && s < |st.slices| && j < |st.jobs|
    requires HasReceived(c.orders[s], st.slices[s], j) && !IsDoneWith(c.orders[s], st.slices[s], j)
    ensures st.jobs[j].file in {Present, Failed}
  {
    var x := st.jobs[j];
    assert JobInv(c, st, j);
    assert s in x.received;
    if x.file.NotYet? {
      SubsetSize({s}, x.received);
    } else if x.file.Removed? {
      assert s in Users(c, j) && s !in x.acked;
      SubsetSize(x.acked, Users(c, j));
    }
  }

  /** A slice that waits for a file does not read a channel that is closed and empty: a result is kept for it. */
  lemma {:induction false} ResultKept(c: Config, st: State, s: nat)
    requires WellFormed(c) && Inv(c, st) && AtFile(c, st, s) && st.slices[s].Waiting?
    ensures var x := st.jobs[FileOf(c, st, s)];
            && |x.received| < c.refCounts[FileOf(c, st, s)]
            && (x.chanClosed ==> Enabled(c, st, Receive(s)))
  {
    var j := FileOf(c, st, s);
    assert JobInv(c, st, j);
    NotBefore(c, s, st.slices[s].i);
    assert s in Users(c, j) && s !in st.jobs[j].received;
    SubsetSize(st.jobs[j].received, Users(c, j));
  }

  lemma {:induction false} NotBefore(c: Config, s: nat, i: nat)
    requires WellFormed(c) && s < |c.orders| && i < |c.orders[s]|
    ensures c.orders[s][i] !in c.orders[s][..i]
    ensures forall j :: j in c.orders[s][..i + 1] <==> j in c.orders[s][..i] || j == c.orders[s][i]
  {
  }

  lemma InvInit(c: Config)
    requires WellFormed(c)
    ensures Inv(c, Init(c))
  {
  }

  /** The steps of the download worker and of the removers. */
  predicate OfSystem(t: Step) {
    t.Download? || t.PushResult? || t.CloseChannel? || t.TakeAck?
  }

  lemma {:induction false} DownloadInv(c: Config, st: State, t: Step)
    requires WellFormed(c) && Inv(c, st) && Enabled(c, st, t) && t.Download?
    ensures Inv(c, Apply(c, st, t))
  {
    var st' := Apply(c, st, t);
    forall j | 0 <= j < |st'.jobs| ensures JobInv(c, st', j) {
      assert JobInv(c, st, j);
      if j == st.current {
        assert st.jobs[j].received == {};
        assert forall s: nat | s < |st.slices| ::
            s in st.jobs[j].received <==> HasReceived(c.orders[s], st.slices[s], j);
        assert forall s: nat | s < |st.slices| && IsDoneWith(c.orders[s], st.slices[s], j) ::
            HasReceived(c.orders[s], st.slices[s], j);
      }
    }
  }

  lemma {:induction false} SystemStepInv(c: Config, st: State, t: Step)
    requires WellFormed(c) && Inv(c, st) && Enabled(c, st, t) && OfSystem(t)
    ensures Inv(c, Apply(c, st, t))
  {
    if t.Download? {
      DownloadInv(c, st, t);
    } else {
      var st' := Apply(c, st, t);
      hide HasReceived;
      hide IsDoneWith;
      forall j | 0 <= j < |st'.jobs| ensures JobInv(c, st', j) {
        assert JobInv(c, st, j);
      }
    }
  }

  /** A slice that moves along keeps the invariant of a job that it neither receives nor acknowledges. */
  lemma Untouched(c: Config, st: State, st': State, s: nat, j: nat)
    requires Shape(c, st) && Shape(c, st') && s < |st.slices| && j < |st.jobs| && JobInv(c, st, j)
    requires st'.jobs[j] == st.jobs[j] && st'.current == st.current
    requires forall k | 0 <= k < |st.slices| && k != s :: st'.slices[k] == st.slices[k]
    requires HasReceived(c.orders[s], st'.slices[s], j) == HasReceived(c.orders[s], st.slices[s], j)
    requires Acknowledgeable(st.jobs[j]) ==>
               IsDoneWith(c.orders[s], st'.slices[s], j) == IsDoneWith(c.orders[s], st.slices[s], j)
    ensures JobInv(c, st', j)
  {
  }

  /** The step moves its slice along without touching any job. */
  lemma {:induction false} MoveInv(c: Config, st: State, t: Step)
    requires WellFormed(c) && Inv(c, st) && Enabled(c, st, t)
    requires t.StartMerge? || t.EndMerge? || t.SkipAck? || t.Finish?
    ensures Inv(c, Apply(c, st, t))
  {
    var st' := Apply(c, st, t);
    var order := c.orders[t.s];
    assert order[..|order|] == order;
    if t.SkipAck? {
      NotBefore(c, t.s, st.slices[t.s].i);
    }
    forall j | 0 <= j < |st'.jobs| ensures JobInv(c, st', j) {
      Untouched(c, st, st', t.s, j);
    }
  }

  lemma {:induction false} ReceiveInv(c: Config, st: State, t: Step)
    requires WellFormed(c) && Inv(c, st) && Enabled(c, st, t) && t.Receive?
    ensures Inv(c, Apply(c, st, t))
  {
    var st' := Apply(c, st, t);
    NotBefore(c, t.s, st.slices[t.s].i);
    ReceivedInv(c, st, t);
    var received := FileOf(c, st, t.s);
    forall j | 0 <= j < |st'.jobs| ensures JobInv(c, st', j) {
      if j != received {
        Untouched(c, st, st', t.s, j);
      }
    }
  }

  lemma {:induction false} ReceivedInv(c: Config, st: State, t: Step)
    requires WellFormed(c) && Inv(c, st) && Enabled(c, st, t) && t.Receive?
    ensures Shape(c, Apply(c, st, t)) && JobInv(c, Apply(c, st, t), FileOf(c, st, t.s))
  {
    var j := FileOf(c, st, t.s);
    assert JobInv(c, st, j);
    NotBefore(c, t.s, st.slices[t.s].i);
    var x := st.jobs[j];
    assert t.s !in x.received && |x.received + {t.s}| == |x.received| + 1;
  }

  lemma {:induction false} AckInv(c: Config, st: State, t: Step)
    requires WellFormed(c) && Inv(c, st) && Enabled(c, st, t) && t.Ack?
    ensures Inv(c, Apply(c, st, t))
  {
    var st' := Apply(c, st, t);
    NotBefore(c, t.s, st.slices[t.s].i);
    var acked := FileOf(c, st, t.s);
    PresentUntilAcked(c, st, t.s, acked);
    AckedInv(c, st, t);
    forall j | 0 <= j < |st'.jobs| ensures JobInv(c, st', j) {
      assert JobInv(c, st, j);
      if j != acked {
        Untouched(c, st, st', t.s, j);
      }
    }
  }

  lemma {:induction false} AckedInv(c: Config, st: State, t: Step)
    requires WellFormed(c) && Inv(c, st) && Enabled(c, st, t) && t.Ack?
    requires st.jobs[FileOf(c, st, t.s)].file.Present?
    ensures Shape(c, Apply(c, st, t)) && JobInv(c, Apply(c, st, t), FileOf(c, st, t.s))
  {
    var j := FileOf(c, st, t.s);
    assert JobInv(c, st, j);
    NotBefore(c, t.s, st.slices[t.s].i);
    var x := st.jobs[j];
    assert t.s !in x.acked && |x.acked + {t.s}| == |x.acked| + 1;
  }

  lemma {:induction false} InvStep(c: Config, st: State, t: Step)
    requires WellFormed(c) && Inv(c, st) && Enabled(c, st, t)
    ensures Inv(c, Apply(c, st, t))
  {
    if OfSystem(t) {
      SystemStepInv(c, st, t);
    } else if t.Receive? {
      ReceiveInv(c, st, t);
    } else if t.Ack? {
      AckInv(c, st, t);
    } else {
      MoveInv(c, st, t);
    }
  }

  // ----- Runs --------------------------------------------------------------

  predicate IsRun(c: Config, st: State, ts: seq<Step>)
    decreases ts
  {
    ts == [] || (Shape(c, st) && Enabled(c, st, ts[0]) && IsRun(c, Apply(c, st, ts[0]), ts[1..]))
  }

  function Final(c: Config, st: State, ts: seq<Step>): State
    requires IsRun(c, st, ts)
    decreases ts
  {
    if ts == [] then st else Final(c, Apply(c, st, ts[0]), ts[1..])
  }

  lemma {:induction false} InvRun(c: Config, st: State, ts: seq<Step>)
    requires WellFormed(c) && Inv(c, st) && IsRun(c, st, ts)
    ensures Inv(c, Final(c, st, ts))
    decreases ts
  {
    if ts != [] {
      InvStep(c, st, ts[0]);
      InvRun(c, Apply(c, st, ts[0]), ts[1..]);
    }
  }

  /** In every run: a slice that received a downloaded file finds it until it has acknowledged it, so it never
      acknowledges on a closed channel, and a file is removed only after every slice that needs it acknowledged it. */
  lemma {:induction false} FileLifetime(c: Config, ts: seq<Step>, s: nat, j: nat)
    requires WellFormed(c) && IsRun(c, Init(c), ts)
    requires s < |c.orders| && j in c.orders[s] && j < |c.refCounts|
    ensures var st := Final(c, Init(c), ts);
            && |st.jobs| == |c.refCounts| && |st.slices| == |c.orders|
            && (HasReceived(c.orders[s], st.slices[s], j) && !IsDoneWith(c.orders[s], st.slices[s], j)
                ==> st.jobs[j].file in {Present, Failed})
            && (st.jobs[j].file.Removed? ==> IsDoneWith(c.orders[s], st.slices[s], j) && s in st.jobs[j].acked)
  {
    InvInit(c);
    InvRun(c, Init(c), ts);
    var st := Final(c, Init(c), ts);
    assert JobInv(c, st, j);
    if HasReceived(c.orders[s], st.slices[s], j) && !IsDoneWith(c.orders[s], st.slices[s], j) {
      PresentUntilAcked(c, st, s, j);
    }
    if st.jobs[j].file.Removed? {
      SubsetSize(st.jobs[j].acked, Users(c, j));
      assert s in Users(c, j);
    }
  }

  // ----- Progress ----------------------------------------------------------

  /** The download worker never blocks on a result channel: it always has a step until its queue is empty. */
  lemma {:induction false} WorkerNeverBlocks(c: Config, st: State) returns (t: Step)
    requires WellFormed(c) && Inv(c, st) && st.current < |st.jobs|
    ensures Enabled(c, st, t) && (t.Download? || t.PushResult? || t.CloseChannel?)
  {
    assert JobInv(c, st, st.current);
    if st.jobs[st.current].file.NotYet? {
      return Download(true);
    }
    t := if st.jobs[st.current].pushed < c.refCounts[st.current] then PushResult else CloseChannel;
    NoMoreReceivedThanPushed(c, st);
  }

  lemma {:induction false} NoMoreReceivedThanPushed(c: Config, st: State)
    requires Inv(c, st) && st.current < |st.jobs|
    ensures st.jobs[st.current].pushed < c.refCounts[st.current] ==>
              st.jobs[st.current].pushed - |st.jobs[st.current].received| < c.refCounts[st.current]
  {
  }

  ghost predicate OfSlice(t: Step, s: nat) {
    (t.Receive? || t.StartMerge? || t.EndMerge? || t.Ack? || t.SkipAck? || t.Finish?) && t.s == s
  }

  /** No slice waits for ever: until it is finished, either it can go on, or the download worker or a remover can, and
      never because of another slice. */
  lemma {:induction false} SliceNeverStuck(c: Config, st: State, s: nat) returns (t: Step)
    requires WellFormed(c) && Inv(c, st) && s < |st.slices| && !st.slices[s].Finished?
    ensures Enabled(c, st, t) && (OfSlice(t, s) || OfSystem(t))
  {
    if st.slices[s].Merging? {
      return EndMerge(s);
    }
    if st.slices[s].i == |c.orders[s]| {
      return if st.slices[s].Waiting? then StartMerge(s) else Finish(s);
    }
    var j := FileOf(c, st, s);
    assert JobInv(c, st, j);
    if st.slices[s].Acking? {
      return if !Acknowledgeable(st.jobs[j]) then SkipAck(s)
             else if st.jobs[j].inFlight == 0 then Ack(s) else TakeAck(j);
    }
    if st.jobs[j].pushed > |st.jobs[j].received| {
      return Receive(s);
    }
    ResultKept(c, st, s);
    t := WorkerNeverBlocks(c, st);
  }

  // ----- Termination -------------------------------------------------------

  function JobWork(refCount: nat, x: Job): int {
    (if x.file.NotYet? then 1 else 0) + (refCount - x.pushed) + (if x.chanClosed then 0 else 1) + x.inFlight
  }

  function SliceWork(n: nat, x: Slice): int {
    match x
    case Waiting(i) => (n - i) + 2 * n + 3
    case Merging => 2 * n + 2
    case Acking(i) => 2 * (n - i) + 1
    case Finished => 0
  }

  function JobsWork(refCounts: seq<nat>, xs: seq<Job>): int
    requires |refCounts| == |xs|
  {
    if xs == [] then 0
    else JobsWork(refCounts[..|xs| - 1], xs[..|xs| - 1]) + JobWork(refCounts[|xs| - 1], xs[|xs| - 1])
  }

  function SlicesWork(orders: seq<seq<nat>>, xs: seq<Slice>): int
    requires |orders| == |xs|
  {
    if xs == [] then 0
    else SlicesWork(orders[..|xs| - 1], xs[..|xs| - 1]) + SliceWork(|orders[|xs| - 1]|, xs[|xs| - 1])
  }

  lemma {:induction false} JobsWorkUpdate(refCounts: seq<nat>, xs: seq<Job>, j: nat, x: Job)
    requires |refCounts| == |xs| && j < |xs|
    ensures JobsWork(refCounts, xs[j := x]) ==
              JobsWork(refCounts, xs) - JobWork(refCounts[j], xs[j]) + JobWork(refCounts[j], x)
  {
    var n := |xs| - 1;
    if j == n {
      assert xs[j := x][..n] == xs[..n];
    } else {
      JobsWorkUpdate(refCounts[..n], xs[..n], j, x);
      assert xs[j := x][..n] == xs[..n][j := x];
    }
  }

  lemma {:induction false} SlicesWorkUpdate(orders: seq<seq<nat>>, xs: seq<Slice>, s: nat, x: Slice)
    requires |orders| == |xs| && s < |xs|
    ensures SlicesWork(orders, xs[s := x]) ==
              SlicesWork(orders, xs) - SliceWork(|orders[s]|, xs[s]) + SliceWork(|orders[s]|, x)
  {
    var n := |xs| - 1;
    if s == n {
      assert xs[s := x][..n] == xs[..n];
    } else {
      SlicesWorkUpdate(orders[..n], xs[..n], s, x);
      assert xs[s := x][..n] == xs[..n][s := x];
    }
  }

  lemma {:induction false} JobsWorkPositive(refCounts: seq<nat>, xs: seq<Job>)
    requires |refCounts| == |xs| && forall j | 0 <= j < |xs| :: xs[j].pushed <= refCounts[j]
    ensures JobsWork(refCounts, xs) >= 0
  {
    if xs != [] {
      JobsWorkPositive(refCounts[..|xs| - 1], xs[..|xs| - 1]);
    }
  }

  lemma {:induction false} SlicesWorkPositive(orders: seq<seq<nat>>, xs: seq<Slice>)
    requires |orders| == |xs|
    requires forall s | 0 <= s < |xs| :: xs[s].Waiting? || xs[s].Acking? ==> xs[s].i <= |orders[s]|
    ensures SlicesWork(orders, xs) >= 0
  {
    if xs != [] {
      SlicesWorkPositive(orders[..|xs| - 1], xs[..|xs| - 1]);
    }
  }

  function Measure(c: Config, st: State): int
    requires Shape(c, st)
  {
    JobsWork(c.refCounts, st.jobs) + SlicesWork(c.orders, st.slices)
  }

  lemma {:induction false} EveryStepDecreases(c: Config, st: State, t: Step)
    requires WellFormed(c) && Inv(c, st) && Enabled(c, st, t)
    ensures Shape(c, Apply(c, st, t)) && Measure(c, Apply(c, st, t)) < Measure(c, st)
  {
    InvStep(c, st, t);
    hide HasReceived;
    hide IsDoneWith;
    var st' := Apply(c, st, t);
    match t {
      case Download(_) | PushResult | CloseChannel =>
        assert JobInv(c, st, st.current);
        JobsWorkUpdate(c.refCounts, st.jobs, st.current, st'.jobs[st.current]);
      case TakeAck(j) =>
        assert JobInv(c, st, j);
        JobsWorkUpdate(c.refCounts, st.jobs, j, st'.jobs[j]);
      case Receive(s) =>
        JobsWorkUpdate(c.refCounts, st.jobs, FileOf(c, st, s), st'.jobs[FileOf(c, st, s)]);
        SlicesWorkUpdate(c.orders, st.slices, s, st'.slices[s]);
      case Ack(s) =>
        JobsWorkUpdate(c.refCounts, st.jobs, FileOf(c, st, s), st'.jobs[FileOf(c, st, s)]);
        SlicesWorkUpdate(c.orders, st.slices, s, st'.slices[s]);
      case _ =>
        SlicesWorkUpdate(c.orders, st.slices, t.s, st'.slices[t.s]);
    }
  }

  lemma {:induction false} WorkPositive(c: Config, st: State)
    requires WellFormed(c) && Inv(c, st)
    ensures Measure(c, st) >= 0
  {
    forall j | 0 <= j < |st.jobs| ensures st.jobs[j].pushed <= c.refCounts[j] {
      assert JobInv(c, st, j);
    }
    JobsWorkPositive(c.refCounts, st.jobs);
    SlicesWorkPositive(c.orders, st.slices);
  }

  /** No run is longer than the work there was. */
  lemma {:induction false} RunsAreFinite(c: Config, st: State, ts: seq<Step>)
    requires WellFormed(c) && Inv(c, st) && IsRun(c, st, ts)
    ensures |ts| <= Measure(c, st)
    decreases ts
  {
    if ts == [] {
      WorkPositive(c, st);
    } else {
      EveryStepDecreases(c, st, ts[0]);
      InvStep(c, st, ts[0]);
      RunsAreFinite(c, Apply(c, st, ts[0]), ts[1..]);
    }
  }

  // ----- The end -----------------------------------------------------------

  /** When no step is left, every slice is finished, and a downloaded file is removed iff it has no more references than
      slices that need it: a file that a slice lists twice is never removed. */
  lemma {:induction false} RemovedIffListedOnce(c: Config, st: State, j: nat)
    requires WellFormed(c) && Inv(c, st) && j < |st.jobs|
    requires forall t :: !Enabled(c, st, t)
    ensures forall s | 0 <= s < |st.slices| :: st.slices[s].Finished?
    ensures !st.jobs[j].file.NotYet?
    ensures Acknowledgeable(st.jobs[j]) ==> (st.jobs[j].file.Removed? <==> c.refCounts[j] == |Users(c, j)|)
  {
    forall s: nat | s < |st.slices| ensures st.slices[s].Finished? {
      if !st.slices[s].Finished? {
        var t := SliceNeverStuck(c, st, s);
      }
    }
    if st.current < |st.jobs| {
      var t := WorkerNeverBlocks(c, st);
    }
    assert JobInv(c, st, j);
    assert !Enabled(c, st, TakeAck(j));
    if Acknowledgeable(st.jobs[j]) {
      assert st.jobs[j].acked == Users(c, j);
    }
  }
}
