/** A cube with predownloaded files: the pool of `WorkerPool` whose workers wait for the files of `Downloads`. A slice
    that waits for its files holds a worker, and a place in the ordered stream. Nothing is cancelled. */
module CubeStream {
  import Pool = WorkerPool
  import Files = Downloads

  datatype State = State(pool: Pool.State, files: Files.State)

  datatype Step = OfPool(p: Pool.Step) | OfFiles(f: Files.Step)

  function Init(c: Files.Config, nbWorkers: nat): State {
    State(Pool.Init(nbWorkers), Files.Init(c))
  }

  /** There is one slice per job, and the exchange of the files is well formed. */
  ghost predicate IsCube(rs: seq<Pool.Slice>, c: Files.Config) {
    |c.orders| == |rs| && Files.WellFormed(c)
  }

  /** Some worker is merging the slice `s`. */
  predicate HasWorker(pool: Pool.State, s: nat) {
    exists w | 0 <= w < |pool.workers| :: pool.workers[w] == Pool.Merging(s)
  }

  /** The slices only move in the hands of a worker, which keeps a slice until it acknowledged its files. */
  predicate Enabled(rs: seq<Pool.Slice>, c: Files.Config, s: State, t: Step)
    requires Files.Shape(c, s.files)
  {
    match t
    case OfPool(p) =>
      && Pool.Enabled(rs, s.pool, p) && !p.Cancel?
      && (p.Merge? ==> s.pool.workers[p.w].job < |s.files.slices| &&
                       s.files.slices[s.pool.workers[p.w].job].Finished?)
    case OfFiles(f) => Files.Enabled(c, s.files, f) && (Files.OfSystem(f) || HasWorker(s.pool, f.s))
  }

  function Apply(rs: seq<Pool.Slice>, c: Files.Config, s: State, t: Step): State
    requires Files.Shape(c, s.files) && Enabled(rs, c, s, t)
  {
    match t
    case OfPool(p) => s.(pool := Pool.Apply(rs, s.pool, p))
    case OfFiles(f) => s.(files := Files.Apply(c, s.files, f))
  }

  ghost predicate IsRun(rs: seq<Pool.Slice>, c: Files.Config, s: State, ts: seq<Step>)
    decreases ts
  {
    ts == [] ||
    (Files.Shape(c, s.files) && Enabled(rs, c, s, ts[0]) && IsRun(rs, c, Apply(rs, c, s, ts[0]), ts[1..]))
  }

  ghost function Final(rs: seq<Pool.Slice>, c: Files.Config, s: State, ts: seq<Step>): State
    requires IsRun(rs, c, s, ts)
    decreases ts
  {
    if ts == [] then s else Final(rs, c, Apply(rs, c, s, ts[0]), ts[1..])
  }

  /** Nothing is left running, and no acknowledgement is on its way. */
  ghost predicate Over(s: State) {
    && Pool.Over(s.pool)
    && s.files.current == |s.files.jobs|
    && forall j | 0 <= j < |s.files.jobs| :: s.files.jobs[j].inFlight == 0
  }

  // ----- Invariant ---------------------------------------------------------

  /** The slice of a job that was taken is finished, or its worker has it. */
  ghost predicate SliceInv(s: State, j: nat)
    requires j < |s.pool.takers| && j < |s.files.slices|
  {
    s.files.slices[j].Finished? ||
    (s.pool.takers[j] < |s.pool.workers| &&
     s.pool.workers[s.pool.takers[j]] in {Pool.Starting(j), Pool.Merging(j)})
  }

  ghost predicate Inv(rs: seq<Pool.Slice>, c: Files.Config, s: State) {
    && Pool.Inv(rs, s.pool) && !s.pool.cancelled
    && Files.Inv(c, s.files)
    && |s.pool.takers| <= |s.files.slices|
    && forall j | 0 <= j < |s.pool.takers| :: SliceInv(s, j)
  }

  lemma {:induction false} InvInit(rs: seq<Pool.Slice>, c: Files.Config, nbWorkers: nat)
    requires IsCube(rs, c)
    ensures Inv(rs, c, Init(c, nbWorkers))
  {
    Pool.InvInit(rs, nbWorkers);
    Files.InvInit(c);
  }

  lemma {:induction false} InvStep(rs: seq<Pool.Slice>, c: Files.Config, s: State, t: Step)
    requires IsCube(rs, c) && Inv(rs, c, s) && Enabled(rs, c, s, t)
    ensures Inv(rs, c, Apply(rs, c, s, t))
  {
    var s' := Apply(rs, c, s, t);
    match t {
      case OfPool(p) =>
        Pool.InvStep(rs, s.pool, p);
        forall j | 0 <= j < |s'.pool.takers| ensures SliceInv(s', j) {
          if j < |s.pool.takers| {
            assert SliceInv(s, j);
          }
        }
      case OfFiles(f) =>
        Files.InvStep(c, s.files, f);
        forall j | 0 <= j < |s'.pool.takers| ensures SliceInv(s', j) {
          assert SliceInv(s, j);
        }
    }
  }

  lemma {:induction false} InvRun(rs: seq<Pool.Slice>, c: Files.Config, s: State, ts: seq<Step>)
    requires IsCube(rs, c) && Inv(rs, c, s) && IsRun(rs, c, s, ts)
    ensures Inv(rs, c, Final(rs, c, s, ts)) && |Final(rs, c, s, ts).pool.workers| == |s.pool.workers|
    decreases ts
  {
    if ts != [] {
      InvStep(rs, c, s, ts[0]);
      InvRun(rs, c, Apply(rs, c, s, ts[0]), ts[1..]);
    }
  }

  // ----- Progress ----------------------------------------------------------

  /** With any number of workers from one on, a cube never blocks: as long as something is left to do, some step is
      possible, although each worker holds its slice while the files are downloaded one by one and the collector waits
      for one given slice. */
  lemma {:induction false} NeverBlocks(rs: seq<Pool.Slice>, c: Files.Config, s: State) returns (t: Step)
    requires IsCube(rs, c) && Inv(rs, c, s) && !Over(s)
    requires |s.pool.workers| >= 1 || rs == []
    ensures Enabled(rs, c, s, t)
  {
    if !Pool.Over(s.pool) {
      var p := Pool.NeverBlocks(rs, s.pool, true);
      if !p.Merge? {
        return OfPool(p);
      }
      t := MergeOrWait(rs, c, s, p);
    } else if s.files.current < |s.files.jobs| {
      var f := Files.WorkerNeverBlocks(c, s.files);
      t := OfFiles(f);
    } else {
      var j :| 0 <= j < |s.files.jobs| && s.files.jobs[j].inFlight != 0;
      assert Files.JobInv(c, s.files, j);
      t := OfFiles(Files.TakeAck(j));
    }
  }

  /** A worker that merges a slice ends, or the slice or what it waits for goes on. */
  lemma {:induction false} MergeOrWait(rs: seq<Pool.Slice>, c: Files.Config, s: State, p: Pool.Step) returns (t: Step)
    requires IsCube(rs, c) && Inv(rs, c, s) && p.Merge? && Pool.Enabled(rs, s.pool, p)
    ensures Enabled(rs, c, s, t)
  {
    var j := s.pool.workers[p.w].job;
    assert Pool.WorkerInv(s.pool, p.w);
    assert HasWorker(s.pool, j);
    if s.files.slices[j].Finished? {
      t := OfPool(p);
    } else {
      var f := Files.SliceNeverStuck(c, s.files, j);
      t := OfFiles(f);
    }
  }

  ghost function Measure(rs: seq<Pool.Slice>, c: Files.Config, s: State): int
    requires Files.Shape(c, s.files)
  {
    Pool.Measure(rs, s.pool) + Files.Measure(c, s.files)
  }

  lemma {:induction false} EveryStepDecreases(rs: seq<Pool.Slice>, c: Files.Config, s: State, t: Step)
    requires IsCube(rs, c) && Inv(rs, c, s) && Enabled(rs, c, s, t)
    ensures Files.Shape(c, Apply(rs, c, s, t).files)
    ensures Measure(rs, c, Apply(rs, c, s, t)) < Measure(rs, c, s)
  {
    match t {
      case OfPool(p) => Pool.EveryStepDecreases(rs, s.pool, p);
      case OfFiles(f) => Files.EveryStepDecreases(c, s.files, f);
    }
  }

  /** No run of a cube is longer than the work there was. */
  lemma {:induction false} RunsAreFinite(rs: seq<Pool.Slice>, c: Files.Config, s: State, ts: seq<Step>)
    requires IsCube(rs, c) && Inv(rs, c, s) && IsRun(rs, c, s, ts)
    ensures |ts| <= Measure(rs, c, s)
    decreases ts
  {
    if ts == [] {
      Files.WorkPositive(c, s.files);
    } else {
      EveryStepDecreases(rs, c, s, ts[0]);
      InvStep(rs, c, s, ts[0]);
      RunsAreFinite(rs, c, Apply(rs, c, s, ts[0]), ts[1..]);
    }
  }

  // ----- The end -----------------------------------------------------------

  lemma {:induction false} OverIsFinished(rs: seq<Pool.Slice>, c: Files.Config, s: State)
    requires IsCube(rs, c) && Inv(rs, c, s) && Over(s)
    ensures forall j | 0 <= j < |s.files.slices| :: s.files.slices[j].Finished?
    ensures forall f :: !Files.Enabled(c, s.files, f)
  {
    forall j | 0 <= j < |s.files.slices| ensures s.files.slices[j].Finished? {
      assert SliceInv(s, j);
      assert Pool.JobInv(s.pool, j);
    }
  }

  /** Every run that can go no further, for any number of workers from one on, has streamed exactly the results of the
      slices in order, has finished every slice, and has removed a downloaded file exactly if its references are as many
      as its users. */
  lemma {:induction false} CompleteRun(rs: seq<Pool.Slice>, c: Files.Config, nbWorkers: nat, ts: seq<Step>)
    requires IsCube(rs, c) && (nbWorkers >= 1 || rs == [])
    requires IsRun(rs, c, Init(c, nbWorkers), ts)
    requires var s := Final(rs, c, Init(c, nbWorkers), ts);
             forall t :: !(Files.Shape(c, s.files) && Enabled(rs, c, s, t))
    ensures var s := Final(rs, c, Init(c, nbWorkers), ts);
            && Pool.InOrder(rs, s.pool.stream)
            && |s.files.slices| == |rs| && |s.files.jobs| == |c.refCounts|
            && (forall j | 0 <= j < |rs| :: s.files.slices[j].Finished?)
            && (forall j | 0 <= j < |s.files.jobs| && Files.Acknowledgeable(s.files.jobs[j]) ::
                  s.files.jobs[j].file.Removed? <==> c.refCounts[j] == |Files.Users(c, j)|)
  {
    InvInit(rs, c, nbWorkers);
    InvRun(rs, c, Init(c, nbWorkers), ts);
    var s := Final(rs, c, Init(c, nbWorkers), ts);
    if !Over(s) {
      var t := NeverBlocks(rs, c, s);
      assert false;
    }
    OverIsFinished(rs, c, s);
    Pool.OverInOrder(rs, s.pool);
    forall j | 0 <= j < |s.files.jobs| && Files.Acknowledgeable(s.files.jobs[j])
      ensures s.files.jobs[j].file.Removed? <==> c.refCounts[j] == |Files.Users(c, j)|
    {
      Files.RemovedIffListedOnce(c, s.files, j);
    }
  }
}
