/** The temporary files of a consolidation: a counter per downloaded file, decremented by the workers as they finish
    the records, and the removal of a file when its counter reaches zero. */
module TempFiles {
  import opened Basics
  import opened Sequences

  // ----- Releasing the files of a record -----------------------------------

  datatype Files = Files(counter: map<string, int>, removed: set<string>)

  /** One reference to `u` less. A file that is not a temporary one is left alone. */
  function ReleaseOne(f: Files, u: string): Files {
    if u !in f.counter then f
    else Files(f.counter[u := f.counter[u] - 1], if f.counter[u] == 1 then f.removed + {u} else f.removed)
  }

  function Release(f: Files, datasets: seq<string>): Files {
    if datasets == [] then f else ReleaseOne(Release(f, datasets[..|datasets| - 1]), datasets[|datasets| - 1])
  }

  /** A release takes its references off the counters; a file goes when its counter passes from positive to zero. */
  lemma {:induction false} ReleaseCounts(f: Files, datasets: seq<string>, u: string)
    ensures Release(f, datasets).counter.Keys == f.counter.Keys
    ensures u in f.counter ==> Release(f, datasets).counter[u] == f.counter[u] - Count(datasets, u)
    ensures u in Release(f, datasets).removed <==>
              u in f.removed || (u in f.counter && 0 < f.counter[u] <= Count(datasets, u))
  {
    if datasets != [] {
      ReleaseCounts(f, datasets[..|datasets| - 1], u);
    }
  }

  class TempFileTable {
    var counter: map<string, int>
    /** The files handed to the asynchronous removal. */
    var removed: set<string>

    constructor (counter: map<string, int>)
      ensures this.counter == counter && removed == {}
    {
      this.counter, removed := counter, {};
    }

    /** Under the lock, after a record was merged. */
    method ReleaseRecord(datasets: seq<string>)
      modifies this
      ensures Files(counter, removed) == Release(old(Files(counter, removed)), datasets)
    {
      for d := 0 to |datasets|
        invariant Files(counter, removed) == Release(old(Files(counter, removed)), datasets[..d])
      {
        var u := datasets[d];
        if u in counter {
          counter := counter[u := counter[u] - 1];
          if counter[u] == 0 {
            removed := removed + {u};
          }
        }
        assert datasets[..d + 1][..d] == datasets[..d];
      }
      assert datasets[..|datasets|] == datasets;
    }
  }

  // ----- The COG workers, as interleaved steps -----------------------------

  /** Item `i` of the queue merges the files `lists[i]`; the counters start at `counter`. */
  datatype Config = Config(workers: nat, lists: seq<seq<string>>, counter: map<string, int>)

  datatype Item = Queued | Taken | Merged | Released | Reused | Failed

  datatype State = State(items: seq<Item>, files: Files)

  /** A worker takes the next item, then either reuses its only file as a finished COG, or merges its files and, in one
      critical section, releases them. It may fail instead, and stop. */
  datatype Step = Take(i: nat) | Reuse(i: nat) | Merge(i: nat) | ReleaseFiles(i: nat) | Fail(i: nat)

  /** The items that keep a worker busy: a worker that failed takes no other item. */
  function Busy(items: seq<Item>): set<nat> {
    set i: nat | i < |items| && (items[i].Taken? || items[i].Merged? || items[i].Failed?)
  }

  function Init(c: Config): State {
    State(seq(|c.lists|, i => Queued), Files(c.counter, {}))
  }

  predicate Enabled(c: Config, s: State, t: Step) {
    && t.i < |s.items| && |s.items| == |c.lists|
    && match t
       case Take(i) =>
         // The queue is first in, first out, and only a free worker takes an item.
         s.items[i].Queued? && (forall m | 0 <= m < i :: !s.items[m].Queued?) && |Busy(s.items)| < c.workers
       case Reuse(i) => s.items[i].Taken? && |c.lists[i]| == 1
       case Merge(i) => s.items[i].Taken?
       case ReleaseFiles(i) => s.items[i].Merged?
       case Fail(i) => s.items[i].Taken?
  }

  function Apply(c: Config, s: State, t: Step): State
    requires Enabled(c, s, t)
  {
    match t
    case Take(i) => s.(items := s.items[i := Taken])
    case Reuse(i) => s.(items := s.items[i := Reused])
    case Merge(i) => s.(items := s.items[i := Merged])
    case ReleaseFiles(i) => State(s.items[i := Released], Release(s.files, c.lists[i]))
    case Fail(i) => s.(items := s.items[i := Failed])
  }

  predicate IsRun(c: Config, s: State, ts: seq<Step>)
    decreases ts
  {
    ts == [] || (Enabled(c, s, ts[0]) && IsRun(c, Apply(c, s, ts[0]), ts[1..]))
  }

  function Final(c: Config, s: State, ts: seq<Step>): State
    requires IsRun(c, s, ts)
    decreases ts
  {
    if ts == [] then s else Final(c, Apply(c, s, ts[0]), ts[1..])
  }

  lemma {:induction false} RunConcat(c: Config, s: State, ts: seq<Step>, ts': seq<Step>)
    requires IsRun(c, s, ts) && IsRun(c, Final(c, s, ts), ts')
    ensures IsRun(c, s, ts + ts') && Final(c, s, ts + ts') == Final(c, Final(c, s, ts), ts')
    decreases ts
  {
    if ts == [] {
      assert ts + ts' == ts';
    } else {
      RunConcat(c, Apply(c, s, ts[0]), ts[1..], ts');
      assert (ts + ts')[1..] == ts[1..] + ts';
    }
  }

  // ----- References --------------------------------------------------------

  /** The references to `u` of the released items. */
  function Consumed(lists: seq<seq<string>>, items: seq<Item>, u: string): nat
    requires |lists| == |items|
  {
    if lists == [] then 0
    else
      var n := |lists| - 1;
      Consumed(lists[..n], items[..n], u) + if items[n].Released? then Count(lists[n], u) else 0
  }

  /** All the references to `u` of the items. */
  function Uses(lists: seq<seq<string>>, u: string): nat {
    Count(Flatten(lists), u)
  }

  lemma {:induction false} ConsumedUpdate(lists: seq<seq<string>>, items: seq<Item>, u: string, i: nat, x: Item)
    requires |lists| == |items| && i < |items| && !items[i].Released?
    ensures Consumed(lists, items[i := x], u) ==
              Consumed(lists, items, u) + if x.Released? then Count(lists[i], u) else 0
  {
    var n := |lists| - 1;
    if i == n {
      assert items[i := x][..n] == items[..n];
    } else {
      ConsumedUpdate(lists[..n], items[..n], u, i, x);
      assert items[i := x][..n] == items[..n][i := x];
    }
  }

  /** What an unreleased item still holds has not been consumed. */
  lemma {:induction false} ConsumedBound(lists: seq<seq<string>>, items: seq<Item>, u: string, i: nat)
    requires |lists| == |items| && i < |items| && !items[i].Released?
    ensures Consumed(lists, items, u) + Count(lists[i], u) <= Uses(lists, u)
  {
    var n := |lists| - 1;
    CountConcat(Flatten(lists[..n]), lists[n], u);
    if i == n {
      ConsumedAtMost(lists[..n], items[..n], u);
    } else {
      ConsumedBound(lists[..n], items[..n], u, i);
    }
  }

  lemma {:induction false} ConsumedAtMost(lists: seq<seq<string>>, items: seq<Item>, u: string)
    requires |lists| == |items|
    ensures Consumed(lists, items, u) <= Uses(lists, u)
  {
    if lists != [] {
      var n := |lists| - 1;
      ConsumedAtMost(lists[..n], items[..n], u);
      CountConcat(Flatten(lists[..n]), lists[n], u);
    }
  }

  /** When everything that is not released does not use `u`, all its references are consumed. */
  lemma {:induction false} ConsumedAll(lists: seq<seq<string>>, items: seq<Item>, u: string)
    requires |lists| == |items|
    requires forall i | 0 <= i < |items| && !items[i].Released? :: u !in lists[i]
    ensures Consumed(lists, items, u) == Uses(lists, u)
  {
    if lists != [] {
      var n := |lists| - 1;
      ConsumedAll(lists[..n], items[..n], u);
      CountConcat(Flatten(lists[..n]), lists[n], u);
      CountZero(lists[n], u);
    }
  }

  // ----- Invariant ---------------------------------------------------------

  /** A counter is its initial value minus the references of the released items, and a temporary file is removed as soon
      as these exhaust it. */
  ghost predicate Inv(c: Config, s: State) {
    && |s.items| == |c.lists|
    && s.files.counter.Keys == c.counter.Keys
    && (forall u | u in c.counter :: s.files.counter[u] == c.counter[u] - Consumed(c.lists, s.items, u))
    && (forall u :: u in s.files.removed <==> u in c.counter && 0 < c.counter[u] <= Consumed(c.lists, s.items, u))
  }

  lemma {:induction false} ConsumedInit(lists: seq<seq<string>>, items: seq<Item>, u: string)
    requires |lists| == |items| && forall i | 0 <= i < |items| :: !items[i].Released?
    ensures Consumed(lists, items, u) == 0
  {
    if lists != [] {
      ConsumedInit(lists[..|lists| - 1], items[..|lists| - 1], u);
    }
  }

  lemma {:induction false} InvInit(c: Config)
    ensures Inv(c, Init(c))
  {
    forall u ensures Consumed(c.lists, Init(c).items, u) == 0 {
      ConsumedInit(c.lists, Init(c).items, u);
    }
  }

  lemma {:induction false} InvStep(c: Config, s: State, t: Step)
    requires Inv(c, s) && Enabled(c, s, t)
    ensures Inv(c, Apply(c, s, t))
  {
    var s' := Apply(c, s, t);
    forall u
      ensures Consumed(c.lists, s'.items, u) ==
                Consumed(c.lists, s.items, u) + if t.ReleaseFiles? then Count(c.lists[t.i], u) else 0
    {
      ConsumedUpdate(c.lists, s.items, u, t.i, s'.items[t.i]);
    }
    if t.ReleaseFiles? {
      forall u
        ensures s'.files.counter.Keys == s.files.counter.Keys
        ensures u in s.files.counter ==> s'.files.counter[u] == s.files.counter[u] - Count(c.lists[t.i], u)
        ensures u in s'.files.removed <==>
                  u in s.files.removed || (u in s.files.counter && 0 < s.files.counter[u] <= Count(c.lists[t.i], u))
      {
        ReleaseCounts(s.files, c.lists[t.i], u);
      }
    }
  }

  lemma {:induction false} InvRun(c: Config, s: State, ts: seq<Step>)
    requires Inv(c, s) && IsRun(c, s, ts)
    ensures Inv(c, Final(c, s, ts))
    decreases ts
  {
    if ts != [] {
      InvStep(c, s, ts[0]);
      InvRun(c, Apply(c, s, ts[0]), ts[1..]);
    }
  }

  // ----- When is it safe? --------------------------------------------------

  /** A file is removed only when every item that uses it is released. */
  ghost predicate Safe(c: Config, s: State) {
    |s.items| == |c.lists| &&
    forall i, u | 0 <= i < |s.items| && u in c.lists[i] && u in s.files.removed :: s.items[i].Released?
  }

  /** An item that still has to be merged, or whose file is a finished COG, has lost one of its files. */
  ghost predicate Lost(c: Config, s: State) {
    |s.items| == |c.lists| &&
    exists i, u :: 0 <= i < |s.items| && u in c.lists[i] && u in s.files.removed &&
                   (s.items[i].Queued? || s.items[i].Taken? || s.items[i].Reused?)
  }

  /** The other items cannot exhaust the counter of `u` while item `i` still needs it. A single worker processes the
      items one after the other: unless the item is reused, only those before it matter. */
  ghost predicate Keeps(workers: nat, lists: seq<seq<string>>, i: nat, u: string, counter: int)
    requires i < |lists|
  {
    if workers == 0 then true
    else if workers == 1 && |lists[i]| != 1 then Uses(lists[..i], u) < counter
    else Uses(lists, u) - Count(lists[i], u) < counter
  }

  ghost predicate Covered(c: Config) {
    forall i, u | 0 <= i < |c.lists| && u in c.lists[i] && u in c.counter && c.counter[u] > 0 ::
      Keeps(c.workers, c.lists, i, u, c.counter[u])
  }

  // ----- Covered counters are safe -----------------------------------------

  /** Only an item with a single file is reused; without a worker nothing is taken; and a single worker takes an item
      when it is done with those before. */
  ghost predicate QueueInv(c: Config, s: State) {
    && |s.items| == |c.lists|
    && (forall i | 0 <= i < |s.items| && s.items[i].Reused? :: |c.lists[i]| == 1)
    && (c.workers == 0 ==> forall i | 0 <= i < |s.items| :: s.items[i].Queued?)
    && (c.workers == 1 ==> forall i, j | 0 <= i < j < |s.items| && !s.items[j].Queued? ::
          s.items[i].Released? || s.items[i].Reused?)
  }

  lemma {:induction false} QueueInvStep(c: Config, s: State, t: Step)
    requires QueueInv(c, s) && Enabled(c, s, t)
    ensures QueueInv(c, Apply(c, s, t))
  {
    if t.Take? && c.workers == 1 {
      assert Busy(s.items) == {};
      forall i | 0 <= i < t.i ensures s.items[i].Released? || s.items[i].Reused? {
        assert i !in Busy(s.items);
      }
    }
  }

  lemma {:induction false} QueueInvRun(c: Config, s: State, ts: seq<Step>)
    requires QueueInv(c, s) && IsRun(c, s, ts)
    ensures QueueInv(c, Final(c, s, ts))
    decreases ts
  {
    if ts != [] {
      QueueInvStep(c, s, ts[0]);
      QueueInvRun(c, Apply(c, s, ts[0]), ts[1..]);
    }
  }

  /** If no item from `i` on is released, only the references before it are consumed. */
  lemma {:induction false} ConsumedBefore(lists: seq<seq<string>>, items: seq<Item>, u: string, i: nat)
    requires |lists| == |items| && i <= |items| && forall m | i <= m < |items| :: !items[m].Released?
    ensures Consumed(lists, items, u) <= Uses(lists[..i], u)
  {
    if i == |items| {
      assert lists[..i] == lists;
      ConsumedAtMost(lists, items, u);
    } else {
      var n := |lists| - 1;
      ConsumedBefore(lists[..n], items[..n], u, i);
      assert lists[..n][..i] == lists[..i];
    }
  }

  /** With covered counters, for every interleaving of the workers, a file is removed only when every item that uses it
      was merged and released. In particular the file of a reused COG is never removed. */
  lemma {:induction false} RemovedAfterUse(c: Config, ts: seq<Step>)
    requires Covered(c) && IsRun(c, Init(c), ts)
    ensures Safe(c, Final(c, Init(c), ts))
  {
    InvInit(c);
    InvRun(c, Init(c), ts);
    QueueInvRun(c, Init(c), ts);
    var s := Final(c, Init(c), ts);
    forall i, u | 0 <= i < |s.items| && u in c.lists[i] && u in s.files.removed ensures s.items[i].Released? {
      if !s.items[i].Released? {
        StillKept(c, s, i, u);
      }
    }
  }

  lemma {:induction false} StillKept(c: Config, s: State, i: nat, u: string)
    requires Covered(c) && Inv(c, s) && QueueInv(c, s)
    requires i < |s.items| && u in c.lists[i] && !s.items[i].Released?
    ensures u !in s.files.removed
  {
    ConsumedBound(c.lists, s.items, u, i);
    if c.workers == 0 {
      ConsumedInit(c.lists, s.items, u);
    } else if c.workers == 1 && |c.lists[i]| != 1 {
      assert forall m | i < m < |s.items| :: s.items[m].Queued?;
      ConsumedBefore(c.lists, s.items, u, i);
    }
    assert u in c.counter && c.counter[u] > 0 ==> Keeps(c.workers, c.lists, i, u, c.counter[u]);
  }

  // ----- The others are not ------------------------------------------------

  /** What becomes of item `i` in such a run: it is left queued, or reused, or a worker keeps it. */
  predicate SetAside(c: Config, i: nat, aside: Item)
    requires i < |c.lists|
  {
    match aside
    case Taken => c.workers >= 2
    case Reused => c.workers >= 1 && |c.lists[i]| == 1
    case _ => false
  }

  /** The items once those below `k` are processed, and item `i` is set aside. */
  function ItemsBelow(n: nat, i: nat, k: nat, aside: Item): seq<Item> {
    seq(n, m => if m >= k then Queued else if m == i then aside else Released)
  }

  lemma {:induction false} WorkerFree(items: seq<Item>, i: nat)
    requires forall m | 0 <= m < |items| && m != i :: items[m].Queued? || items[m].Released?
    ensures |Busy(items)| <= 1
    ensures i < |items| && !items[i].Taken? && !items[i].Merged? && !items[i].Failed? ==> Busy(items) == {}
    ensures i >= |items| ==> Busy(items) == {}
  {
    SubsetSize(Busy(items), {i});
  }

  /** One item, from the queue to its release. */
  lemma {:induction false} ProcessOne(c: Config, s: State, m: nat) returns (more: seq<Step>)
    requires Enabled(c, s, Take(m))
    ensures IsRun(c, s, more) && Final(c, s, more).items == s.items[m := Released]
  {
    var s1 := Apply(c, s, Take(m));
    var s2 := Apply(c, s1, Merge(m));
    more := [Take(m), Merge(m), ReleaseFiles(m)];
    assert more[1..] == [Merge(m), ReleaseFiles(m)] && more[1..][1..] == [ReleaseFiles(m)];
    assert [ReleaseFiles(m)][1..] == [];
    assert IsRun(c, s2, [ReleaseFiles(m)]);
    assert IsRun(c, s1, more[1..]);
    assert Final(c, s2, [ReleaseFiles(m)]) == Apply(c, s2, ReleaseFiles(m));
    assert Final(c, s1, more[1..]) == Final(c, s2, [ReleaseFiles(m)]);
  }

  /** One item, from the queue to the hands of a worker that keeps it, or to its reuse. */
  lemma {:induction false} PutAside(c: Config, s: State, i: nat, aside: Item) returns (more: seq<Step>)
    requires Enabled(c, s, Take(i)) && SetAside(c, i, aside)
    ensures IsRun(c, s, more) && Final(c, s, more).items == s.items[i := aside]
  {
    var s1 := Apply(c, s, Take(i));
    if aside.Taken? {
      more := [Take(i)];
      assert more[1..] == [];
      assert IsRun(c, s1, more[1..]);
    } else {
      more := [Take(i), Reuse(i)];
      assert more[1..] == [Reuse(i)] && [Reuse(i)][1..] == [];
      assert IsRun(c, s1, more[1..]);
      assert Final(c, s1, more[1..]) == Apply(c, s1, Reuse(i));
    }
  }

  /** The run that processes the items below `k` in the order of the queue, and sets item `i` aside. */
  lemma {:induction false} ProcessOthers(c: Config, i: nat, k: nat, aside: Item) returns (ts: seq<Step>)
    requires i < |c.lists| && k <= |c.lists| && c.workers >= 1
    requires k > i ==> SetAside(c, i, aside)
    ensures IsRun(c, Init(c), ts)
    ensures Final(c, Init(c), ts).items == ItemsBelow(|c.lists|, i, k, aside)
  {
    if k == 0 {
      ts := [];
      assert Init(c).items == ItemsBelow(|c.lists|, i, 0, aside);
    } else {
      var m := k - 1;
      ts := ProcessOthers(c, i, m, aside);
      var s := Final(c, Init(c), ts);
      WorkerFree(s.items, i);
      assert Enabled(c, s, Take(m));
      var more;
      if m == i {
        more := PutAside(c, s, m, aside);
      } else {
        more := ProcessOne(c, s, m);
      }
      RunConcat(c, Init(c), ts, more);
      ts := ts + more;
      assert Final(c, Init(c), ts).items == ItemsBelow(|c.lists|, i, k, aside);
    }
  }

  lemma {:induction false} ConsumedButOne(lists: seq<seq<string>>, items: seq<Item>, u: string, i: nat)
    requires |lists| == |items| && i < |items| && !items[i].Released?
    requires forall m | 0 <= m < |items| && m != i :: items[m].Released?
    ensures Consumed(lists, items, u) == Uses(lists, u) - Count(lists[i], u)
  {
    var n := |lists| - 1;
    CountConcat(Flatten(lists[..n]), lists[n], u);
    if i == n {
      ConsumedAll(lists[..n], items[..n], u);
    } else {
      ConsumedButOne(lists[..n], items[..n], u, i);
    }
  }

  /** When exactly the items before `i` are released, so are the references before it. */
  lemma {:induction false} ConsumedFirst(lists: seq<seq<string>>, items: seq<Item>, u: string, i: nat)
    requires |lists| == |items| && i <= |items| && forall m | 0 <= m < |items| :: items[m].Released? <==> m < i
    ensures Consumed(lists, items, u) == Uses(lists[..i], u)
  {
    if i == |items| {
      assert lists[..i] == lists;
      ConsumedAll(lists, items, u);
    } else {
      var n := |lists| - 1;
      ConsumedFirst(lists[..n], items[..n], u, i);
      assert lists[..n][..i] == lists[..i];
    }
  }

  /** Otherwise some run of the workers removes a file that an item still needs, because it is queued, or taken and not
      yet merged, or reused. */
  lemma {:induction false} RemovedTooEarly(c: Config) returns (ts: seq<Step>)
    requires !Covered(c)
    ensures IsRun(c, Init(c), ts) && Lost(c, Final(c, Init(c), ts))
  {
    var i: nat, u: string :| i < |c.lists| && u in c.lists[i] && u in c.counter && c.counter[u] > 0 &&
      !Keeps(c.workers, c.lists, i, u, c.counter[u]);
    InvInit(c);
    if c.workers == 1 && |c.lists[i]| != 1 {
      ts := ProcessOthers(c, i, i, Taken);
      InvRun(c, Init(c), ts);
      ConsumedFirst(c.lists, Final(c, Init(c), ts).items, u, i);
    } else {
      ts := ProcessOthers(c, i, |c.lists|, if c.workers == 1 then Reused else Taken);
      InvRun(c, Init(c), ts);
      ConsumedButOne(c.lists, Final(c, Init(c), ts).items, u, i);
    }
    assert u in Final(c, Init(c), ts).files.removed;
  }

  ghost predicate NeverLoses(c: Config) {
    forall ts | IsRun(c, Init(c), ts) :: !Lost(c, Final(c, Init(c), ts))
  }

  /** For any number of workers, no run loses a file that is still needed exactly when the counters are covered. */
  lemma {:induction false} NeverLosesIff(c: Config)
    ensures NeverLoses(c) <==> Covered(c)
  {
    if Covered(c) {
      forall ts | IsRun(c, Init(c), ts) ensures !Lost(c, Final(c, Init(c), ts)) {
        RemovedAfterUse(c, ts);
      }
    } else {
      var ts := RemovedTooEarly(c);
    }
  }

  /** With one worker, that is when no use of a file comes after its counter was exhausted: by the records ahead in the
      queue, or, for a record of a single file, which may be reused and is then needed until the end, by all others. */
  lemma {:induction false} OneWorkerNeverLosesIff(c: Config)
    requires c.workers == 1
    ensures NeverLoses(c) <==>
              forall i, u | 0 <= i < |c.lists| && u in c.lists[i] && u in c.counter && c.counter[u] > 0 ::
                (if |c.lists[i]| == 1 then Count(Flatten(c.lists), u) - Count(c.lists[i], u)
                 else Count(Flatten(c.lists[..i]), u)) < c.counter[u]
  {
    NeverLosesIff(c);
    CoveredByOneWorker(c);
  }

  lemma CoveredByOneWorker(c: Config)
    requires c.workers == 1
    ensures Covered(c) <==>
              forall i, u | 0 <= i < |c.lists| && u in c.lists[i] && u in c.counter && c.counter[u] > 0 ::
                (if |c.lists[i]| == 1 then Count(Flatten(c.lists), u) - Count(c.lists[i], u)
                 else Count(Flatten(c.lists[..i]), u)) < c.counter[u]
  {
  }

  /** With more workers, that is when the references of the other records do not exhaust the counter. */
  lemma {:induction false} ManyWorkersNeverLoseIff(c: Config)
    requires c.workers >= 2
    ensures NeverLoses(c) <==>
              forall i, u | 0 <= i < |c.lists| && u in c.lists[i] && u in c.counter && c.counter[u] > 0 ::
                Count(Flatten(c.lists), u) - Count(c.lists[i], u) < c.counter[u]
  {
    NeverLosesIff(c);
  }

  /** At the end, when the counters are exact, the temporary files left are those of the items that were not
      released. */
  lemma {:induction false} LeftOver(c: Config, ts: seq<Step>, u: string)
    requires IsRun(c, Init(c), ts)
    requires u in c.counter && c.counter[u] == Uses(c.lists, u) > 0
    ensures var s := Final(c, Init(c), ts);
            |s.items| == |c.lists| &&
            (u in s.files.removed <==> forall i | 0 <= i < |s.items| && u in c.lists[i] :: s.items[i].Released?)
  {
    InvInit(c);
    InvRun(c, Init(c), ts);
    var s := Final(c, Init(c), ts);
    if forall i | 0 <= i < |s.items| && u in c.lists[i] :: s.items[i].Released? {
      ConsumedAll(c.lists, s.items, u);
    } else {
      var i :| 0 <= i < |s.items| && u in c.lists[i] && !s.items[i].Released?;
      ConsumedBound(c.lists, s.items, u, i);
      CountZero(c.lists[i], u);
    }
  }

  /** A counter that is above the number of references never reaches zero. */
  lemma {:induction false} NeverRemoved(c: Config, ts: seq<Step>, u: string)
    requires IsRun(c, Init(c), ts) && u in c.counter && c.counter[u] > Uses(c.lists, u)
    ensures u !in Final(c, Init(c), ts).files.removed
  {
    InvInit(c);
    InvRun(c, Init(c), ts);
    ConsumedAtMost(c.lists, Final(c, Init(c), ts).items, u);
  }

  // ----- Where the counters come from --------------------------------------

  datatype Record = Record(id: string, datasets: seq<string>)

  function Lists(records: seq<Record>): seq<seq<string>> {
    seq(|records|, r requires 0 <= r < |records| => records[r].datasets)
  }

  /** The canonical spellings of some uris: a file may be spelled in several ways, and has one canonical spelling. */
  function Spelled(us: seq<string>, canonical: string -> string): seq<string> {
    seq(|us|, d requires 0 <= d < |us| => canonical(us[d]))
  }

  function SpelledLists(records: seq<Record>, canonical: string -> string): seq<seq<string>> {
    seq(|records|, r requires 0 <= r < |records| => Spelled(records[r].datasets, canonical))
  }

  /** All the references to files, by their canonical spellings. */
  function References(records: seq<Record>, canonical: string -> string): seq<string> {
    Flatten(SpelledLists(records, canonical))
  }

  /** The files that may be downloaded: all the references to them are counted, under their local name. */
  ghost predicate CountersFor(counter: map<string, int>, files: seq<string>, downloadable: string -> bool,
                              local: string -> string) {
    && (forall f | f in files && downloadable(f) :: local(f) in counter && counter[local(f)] == Count(files, f))
    && (forall x | x in counter :: exists f :: f in files && downloadable(f) && x == local(f))
  }

  method CountReference(counter: map<string, int>, ghost files: seq<string>, f: string, downloadable: string -> bool,
                        local: string -> string)
      returns (counter': map<string, int>)
    requires forall v, w :: local(v) == local(w) ==> v == w
    requires CountersFor(counter, files, downloadable, local)
    ensures CountersFor(counter', files + [f], downloadable, local)
  {
    ghost var files' := files + [f];
    assert files'[..|files|] == files;
    CountZero(files, f);
    counter' := counter;
    if downloadable(f) {
      if local(f) in counter {
        ghost var v :| v in files && downloadable(v) && local(f) == local(v);
        counter' := counter[local(f) := counter[local(f)] + 1];
      } else {
        counter' := counter[local(f) := 1];
      }
    }
    forall x | x in counter' ensures exists v :: v in files' && downloadable(v) && x == local(v) {
      if x in counter {
        var v :| v in files && downloadable(v) && x == local(v);
        assert v in files';
      } else {
        assert f in files' && x == local(f);
      }
    }
  }

  method CountRecord(counter: map<string, int>, ghost files: seq<string>, datasets: seq<string>,
                     downloadable: string -> bool, canonical: string -> string, local: string -> string)
      returns (counter': map<string, int>)
    requires forall v, w :: local(v) == local(w) ==> v == w
    requires CountersFor(counter, files, downloadable, local)
    ensures CountersFor(counter', files + Spelled(datasets, canonical), downloadable, local)
  {
    hide CountersFor;
    counter' := counter;
    ghost var seen := files;
    assert files + Spelled(datasets[..0], canonical) == files;
    for d := 0 to |datasets|
      invariant seen == files + Spelled(datasets[..d], canonical)
      invariant CountersFor(counter', seen, downloadable, local)
    {
      counter' := CountReference(counter', seen, canonical(datasets[d]), downloadable, local);
      seen := seen + [canonical(datasets[d])];
      assert Spelled(datasets[..d + 1], canonical) == Spelled(datasets[..d], canonical) + [canonical(datasets[d])];
    }
    assert datasets[..|datasets|] == datasets;
  }

  /** The datasets of the last record with this id. */
  function LastWith(records: seq<Record>, id: string): seq<string> {
    if records == [] then []
    else if records[|records| - 1].id == id then records[|records| - 1].datasets
    else LastWith(records[..|records| - 1], id)
  }

  lemma {:induction false} LastWithIsLast(records: seq<Record>, r: nat)
    requires r < |records| && forall k | r < k < |records| :: records[k].id != records[r].id
    ensures LastWith(records, records[r].id) == records[r].datasets
  {
    var n := |records| - 1;
    if r < n {
      LastWithIsLast(records[..n], r);
    }
  }

  /** Counts the references of every downloadable file, whatever their spelling, and keeps the datasets of each record
      id (those of the last record with this id, if there are several). Each file has its own local name. */
  method CollectDatasets(records: seq<Record>, downloadable: string -> bool, canonical: string -> string,
                         local: string -> string)
      returns (byRecord: map<string, seq<string>>, counter: map<string, int>)
    requires forall v, w :: local(v) == local(w) ==> v == w
    ensures CountersFor(counter, References(records, canonical), downloadable, local)
    ensures byRecord.Keys == set r | 0 <= r < |records| :: records[r].id
    ensures forall r | 0 <= r < |records| :: byRecord[records[r].id] == LastWith(records, records[r].id)
    ensures forall r | 0 <= r < |records| && (forall k | r < k < |records| :: records[k].id != records[r].id) ::
              byRecord[records[r].id] == records[r].datasets
  {
    byRecord, counter := map[], map[];
    ghost var lists := SpelledLists(records, canonical);
    for r := 0 to |records|
      invariant CountersFor(counter, Flatten(lists[..r]), downloadable, local)
      invariant forall id :: id in byRecord <==> exists k :: 0 <= k < r && records[k].id == id
      invariant forall id | id in byRecord :: byRecord[id] == LastWith(records[..r], id)
    {
      var datasets := records[r].datasets;
      counter := CountRecord(counter, Flatten(lists[..r]), datasets, downloadable, canonical, local);
      byRecord := byRecord[records[r].id := datasets];
      assert lists[..r + 1][..r] == lists[..r];
      assert records[..r + 1][..r] == records[..r];
    }
    assert lists[..|records|] == lists && records[..|records|] == records;
    hide LastWith;
    forall r: nat | r < |records| && (forall k | r < k < |records| :: records[k].id != records[r].id)
      ensures LastWith(records, records[r].id) == records[r].datasets
    {
      LastWithIsLast(records, r);
    }
  }

  /** The datasets once the downloaded files replace their sources: only those in canonical spelling are replaced. */
  function Localised(datasets: seq<string>, downloaded: set<string>, local: string -> string): seq<string> {
    seq(|datasets|, d requires 0 <= d < |datasets| =>
      if datasets[d] in downloaded then local(datasets[d]) else datasets[d])
  }

  /** The configuration of the workers: the item of a record finds its datasets by the id of the record. */
  function ConfigOf(workers: nat, records: seq<Record>, byRecord: map<string, seq<string>>, counter: map<string, int>,
                    downloaded: set<string>, local: string -> string): Config
    requires forall r | 0 <= r < |records| :: records[r].id in byRecord
  {
    Config(workers, seq(|records|, r requires 0 <= r < |records| =>
      Localised(byRecord[records[r].id], downloaded, local)), counter)
  }

  /** What `CollectDatasets` computes, with fresh local names. The canonical spelling of a file is canonical. */
  ghost predicate Collected(records: seq<Record>, byRecord: map<string, seq<string>>, counter: map<string, int>,
                            downloadable: string -> bool, canonical: string -> string, local: string -> string) {
    && (forall v, w :: local(v) == local(w) ==> v == w)
    && (forall v, r | 0 <= r < |records| :: local(v) !in records[r].datasets)
    && (forall v :: canonical(canonical(v)) == canonical(v))
    && CountersFor(counter, References(records, canonical), downloadable, local)
    && (forall r | 0 <= r < |records| :: records[r].id in byRecord)
    && (forall r | 0 <= r < |records| :: byRecord[records[r].id] == LastWith(records, records[r].id))
  }

  /** The files that were downloaded are some of the downloadable ones. */
  ghost predicate DownloadedFrom(downloaded: set<string>, records: seq<Record>, downloadable: string -> bool,
                                 canonical: string -> string) {
    forall f | f in downloaded :: f in References(records, canonical) && downloadable(f)
  }

  // ----- The condition on the records --------------------------------------

  /** The datasets that the item of each record merges. */
  function SeenLists(records: seq<Record>): seq<seq<string>> {
    seq(|records|, r requires 0 <= r < |records| => LastWith(records, records[r].id))
  }

  /** The other items cannot exhaust the references that were counted for a downloaded file. */
  ghost predicate RecordsCovered(workers: nat, records: seq<Record>, downloaded: set<string>,
                                 canonical: string -> string) {
    forall r, f | 0 <= r < |records| && f in SeenLists(records)[r] && f in downloaded ::
      Keeps(workers, SeenLists(records), r, f, Count(References(records, canonical), f))
  }

  lemma {:induction false} LastIsSome(records: seq<Record>, id: string) returns (r: nat)
    requires exists k :: 0 <= k < |records| && records[k].id == id
    ensures r < |records| && records[r].id == id && LastWith(records, id) == records[r].datasets
  {
    var n := |records| - 1;
    if records[n].id == id {
      r := n;
    } else {
      r := LastIsSome(records[..n], id);
    }
  }

  lemma {:induction false} LocalisedCount(datasets: seq<string>, downloaded: set<string>, local: string -> string,
                                          f: string)
    requires forall v, w :: local(v) == local(w) ==> v == w
    requires forall v :: local(v) !in datasets
    ensures Count(Localised(datasets, downloaded, local), local(f)) == if f in downloaded then Count(datasets, f) else 0
  {
    if datasets != [] {
      var n := |datasets| - 1;
      LocalisedCount(datasets[..n], downloaded, local, f);
      assert Localised(datasets, downloaded, local)[..n] == Localised(datasets[..n], downloaded, local);
      assert datasets[n] in datasets;
    }
  }

  lemma {:induction false} LocalisedUses(lists: seq<seq<string>>, localised: seq<seq<string>>, downloaded: set<string>,
                                         local: string -> string, f: string)
    requires |localised| == |lists|
    requires forall i | 0 <= i < |lists| :: localised[i] == Localised(lists[i], downloaded, local)
    requires forall v, w :: local(v) == local(w) ==> v == w
    requires forall v, i | 0 <= i < |lists| :: local(v) !in lists[i]
    ensures Uses(localised, local(f)) == if f in downloaded then Uses(lists, f) else 0
  {
    if lists != [] {
      var n := |lists| - 1;
      LocalisedUses(lists[..n], localised[..n], downloaded, local, f);
      LocalisedCount(lists[n], downloaded, local, f);
      CountConcat(Flatten(lists[..n]), lists[n], f);
      CountConcat(Flatten(localised[..n]), localised[n], local(f));
    }
  }

  /** The items use the local copy of a file as often as they see its canonical spelling. */
  lemma {:induction false} UsesOfLocal(c: Config, records: seq<Record>, byRecord: map<string, seq<string>>,
                                       downloadable: string -> bool, downloaded: set<string>,
                                       canonical: string -> string, local: string -> string, f: string, r: nat)
    requires Collected(records, byRecord, c.counter, downloadable, canonical, local)
    requires c == ConfigOf(c.workers, records, byRecord, c.counter, downloaded, local)
    requires r < |records|
    ensures Uses(c.lists, local(f)) == if f in downloaded then Uses(SeenLists(records), f) else 0
    ensures Uses(c.lists[..r], local(f)) == if f in downloaded then Uses(SeenLists(records)[..r], f) else 0
    ensures Count(c.lists[r], local(f)) == if f in downloaded then Count(SeenLists(records)[r], f) else 0
  {
    var seen := SeenLists(records);
    forall v, i | 0 <= i < |seen| ensures local(v) !in seen[i] {
      var k := LastIsSome(records, records[i].id);
    }
    LocalisedUses(seen, c.lists, downloaded, local, f);
    LocalisedUses(seen[..r], c.lists[..r], downloaded, local, f);
    LocalisedCount(seen[r], downloaded, local, f);
  }

  lemma {:induction false} SameKeeps(c: Config, records: seq<Record>, byRecord: map<string, seq<string>>,
                                     downloadable: string -> bool, downloaded: set<string>,
                                     canonical: string -> string, local: string -> string, f: string, r: nat)
    requires Collected(records, byRecord, c.counter, downloadable, canonical, local)
    requires c == ConfigOf(c.workers, records, byRecord, c.counter, downloaded, local)
    requires DownloadedFrom(downloaded, records, downloadable, canonical)
    requires r < |records| && f in downloaded
    ensures local(f) in c.counter && c.counter[local(f)] == Count(References(records, canonical), f) > 0
    ensures local(f) in c.lists[r] <==> f in SeenLists(records)[r]
    ensures Keeps(c.workers, c.lists, r, local(f), c.counter[local(f)]) <==>
              Keeps(c.workers, SeenLists(records), r, f, Count(References(records, canonical), f))
  {
    UsesOfLocal(c, records, byRecord, downloadable, downloaded, canonical, local, f, r);
    CountZero(References(records, canonical), f);
    CountZero(c.lists[r], local(f));
    CountZero(SeenLists(records)[r], f);
  }

  /** The counters cover the workers exactly when the references of the records cover their items. */
  lemma {:induction false} CoveredIffRecords(c: Config, records: seq<Record>, byRecord: map<string, seq<string>>,
                                             downloadable: string -> bool, downloaded: set<string>,
                                             canonical: string -> string, local: string -> string)
    requires Collected(records, byRecord, c.counter, downloadable, canonical, local)
    requires c == ConfigOf(c.workers, records, byRecord, c.counter, downloaded, local)
    requires DownloadedFrom(downloaded, records, downloadable, canonical)
    ensures Covered(c) <==> RecordsCovered(c.workers, records, downloaded, canonical)
  {
    if Covered(c) {
      forall r, f | 0 <= r < |records| && f in SeenLists(records)[r] && f in downloaded
        ensures Keeps(c.workers, SeenLists(records), r, f, Count(References(records, canonical), f))
      {
        SameKeeps(c, records, byRecord, downloadable, downloaded, canonical, local, f, r);
      }
    }
    if RecordsCovered(c.workers, records, downloaded, canonical) {
      forall r, x | 0 <= r < |c.lists| && x in c.lists[r] && x in c.counter && c.counter[x] > 0
        ensures Keeps(c.workers, c.lists, r, x, c.counter[x])
      {
        var f :| f in References(records, canonical) && downloadable(f) && x == local(f);
        UsesOfLocal(c, records, byRecord, downloadable, downloaded, canonical, local, f, r);
        CountZero(c.lists[r], x);
        SameKeeps(c, records, byRecord, downloadable, downloaded, canonical, local, f, r);
      }
    }
  }

  /** For any records, any number of workers and whatever was downloaded, no run loses a file that is still needed
      exactly when the references of the records cover their items. */
  lemma {:induction false} RecordsNeverLoseIff(c: Config, records: seq<Record>, byRecord: map<string, seq<string>>,
                                               downloadable: string -> bool, downloaded: set<string>,
                                               canonical: string -> string, local: string -> string)
    requires Collected(records, byRecord, c.counter, downloadable, canonical, local)
    requires c == ConfigOf(c.workers, records, byRecord, c.counter, downloaded, local)
    requires DownloadedFrom(downloaded, records, downloadable, canonical)
    ensures NeverLoses(c) <==> RecordsCovered(c.workers, records, downloaded, canonical)
  {
    CoveredIffRecords(c, records, byRecord, downloadable, downloaded, canonical, local);
    NeverLosesIff(c);
  }

  // ----- Which records meet it ---------------------------------------------

  ghost predicate DistinctIds(records: seq<Record>) {
    forall r, r' | 0 <= r < r' < |records| :: records[r].id != records[r'].id
  }

  /** Records of the same id have the same datasets: each item merges those of its own record. */
  ghost predicate RepeatsAgree(records: seq<Record>) {
    forall r, r' | 0 <= r < r' < |records| && records[r].id == records[r'].id ::
      records[r].datasets == records[r'].datasets
  }

  lemma {:induction false} SeenAreOwn(records: seq<Record>)
    requires RepeatsAgree(records)
    ensures SeenLists(records) == Lists(records)
  {
    forall r | 0 <= r < |records| ensures LastWith(records, records[r].id) == records[r].datasets {
      var k := LastIsSome(records, records[r].id);
    }
  }

  /** References in canonical spelling are some of the references, and all of them if no other spelling is used. */
  lemma {:induction false} CanonicalCount(us: seq<string>, canonical: string -> string, f: string)
    requires canonical(f) == f
    ensures Count(us, f) <= Count(Spelled(us, canonical), f)
    ensures Count(us, f) == Count(Spelled(us, canonical), f) <==> forall u | u in us && canonical(u) == f :: u == f
  {
    if us != [] {
      var front, u := us[..|us| - 1], us[|us| - 1];
      CanonicalCount(front, canonical, f);
      assert Spelled(us, canonical)[..|us| - 1] == Spelled(front, canonical);
      assert us == front + [u];
    }
  }

  lemma {:induction false} SpelledFlatten(records: seq<Record>, canonical: string -> string)
    ensures References(records, canonical) == Spelled(Flatten(Lists(records)), canonical)
  {
    if records != [] {
      var n := |records| - 1;
      SpelledFlatten(records[..n], canonical);
      assert Lists(records)[..n] == Lists(records[..n]);
      assert SpelledLists(records, canonical)[..n] == SpelledLists(records[..n], canonical);
      assert forall us: seq<string>, vs: seq<string> ::
          Spelled(us + vs, canonical) == Spelled(us, canonical) + Spelled(vs, canonical);
    }
  }

  lemma {:induction false} PrefixUses(lists: seq<seq<string>>, i: nat, u: string)
    requires i < |lists|
    ensures Uses(lists[..i], u) + Count(lists[i], u) <= Uses(lists, u)
  {
    var n := |lists| - 1;
    CountConcat(Flatten(lists[..n]), lists[n], u);
    if i < n {
      PrefixUses(lists[..n], i, u);
      assert lists[..n][..i] == lists[..i];
    }
  }

  /** Records whose ids are distinct, or repeated with the same datasets, meet the condition, whatever the spelling of
      their files and whatever was downloaded. */
  lemma {:induction false} AgreeingRecordsCover(workers: nat, records: seq<Record>, downloaded: set<string>,
                                                canonical: string -> string)
    requires RepeatsAgree(records) && forall f | f in downloaded :: canonical(f) == f
    ensures RecordsCovered(workers, records, downloaded, canonical)
  {
    SeenAreOwn(records);
    SpelledFlatten(records, canonical);
    forall r, f | 0 <= r < |records| && f in SeenLists(records)[r] && f in downloaded
      ensures Keeps(workers, SeenLists(records), r, f, Count(References(records, canonical), f))
    {
      CanonicalCount(Flatten(Lists(records)), canonical, f);
      CountZero(Lists(records)[r], f);
      PrefixUses(Lists(records), r, f);
    }
  }

  /** The references are canonical, so the files that were downloaded are. */
  lemma {:induction false} DownloadedCanonical(downloaded: set<string>, records: seq<Record>,
                                               downloadable: string -> bool, canonical: string -> string)
    requires DownloadedFrom(downloaded, records, downloadable, canonical)
    requires forall v :: canonical(canonical(v)) == canonical(v)
    ensures forall f | f in downloaded :: canonical(f) == f
  {
    forall f | f in downloaded ensures canonical(f) == f {
      SpelledFlatten(records, canonical);
      assert f in Spelled(Flatten(Lists(records)), canonical);
    }
  }

  /** With distinct record ids no run of the workers loses a file that is still needed. */
  lemma {:induction false} DistinctIdsCover(c: Config, records: seq<Record>, byRecord: map<string, seq<string>>,
                                            downloadable: string -> bool, downloaded: set<string>,
                                            canonical: string -> string, local: string -> string)
    requires Collected(records, byRecord, c.counter, downloadable, canonical, local)
    requires c == ConfigOf(c.workers, records, byRecord, c.counter, downloaded, local)
    requires DownloadedFrom(downloaded, records, downloadable, canonical)
    requires DistinctIds(records)
    ensures Covered(c) && NeverLoses(c)
  {
    DownloadedCanonical(downloaded, records, downloadable, canonical);
    AgreeingRecordsCover(c.workers, records, downloaded, canonical);
    CoveredIffRecords(c, records, byRecord, downloadable, downloaded, canonical, local);
    NeverLosesIff(c);
  }

  /** And the counter of a downloaded file is exactly the number of its uses when every reference to it has the
      canonical spelling. A reference with another spelling is counted and not localised: the counter is too large. */
  lemma {:induction false} DistinctIdsExact(c: Config, records: seq<Record>, byRecord: map<string, seq<string>>,
                                            downloadable: string -> bool, downloaded: set<string>,
                                            canonical: string -> string, local: string -> string, f: string)
    requires Collected(records, byRecord, c.counter, downloadable, canonical, local)
    requires c == ConfigOf(c.workers, records, byRecord, c.counter, downloaded, local)
    requires DownloadedFrom(downloaded, records, downloadable, canonical)
    requires RepeatsAgree(records) && f in downloaded
    ensures local(f) in c.counter && c.counter[local(f)] >= Uses(c.lists, local(f))
    ensures c.counter[local(f)] == Uses(c.lists, local(f)) <==>
              forall u | u in Flatten(Lists(records)) && canonical(u) == f :: u == f
  {
    DownloadedCanonical(downloaded, records, downloadable, canonical);
    SeenAreOwn(records);
    SpelledFlatten(records, canonical);
    CanonicalCount(Flatten(Lists(records)), canonical, f);
    assert records != [];
    UsesOfLocal(c, records, byRecord, downloadable, downloaded, canonical, local, f, 0);
  }

  /** So the workers never remove the local copy of a file that some reference spells otherwise. */
  lemma {:induction false} SpelledOtherwiseStays(c: Config, records: seq<Record>, byRecord: map<string, seq<string>>,
                                                 downloadable: string -> bool, downloaded: set<string>,
                                                 canonical: string -> string, local: string -> string, u: string,
                                                 ts: seq<Step>)
    requires Collected(records, byRecord, c.counter, downloadable, canonical, local)
    requires c == ConfigOf(c.workers, records, byRecord, c.counter, downloaded, local)
    requires DownloadedFrom(downloaded, records, downloadable, canonical)
    requires RepeatsAgree(records) && IsRun(c, Init(c), ts)
    requires u in Flatten(Lists(records)) && canonical(u) in downloaded && canonical(u) != u
    ensures local(canonical(u)) !in Final(c, Init(c), ts).files.removed
  {
    DistinctIdsExact(c, records, byRecord, downloadable, downloaded, canonical, local, canonical(u));
    NeverRemoved(c, ts, local(canonical(u)));
  }

  lemma {:induction false} TwoUses(lists: seq<seq<string>>, r: nat, r': nat, f: string)
    requires r < r' < |lists| && f in lists[r] && f in lists[r']
    ensures Uses(lists[..r'], f) >= 1
    ensures Uses(lists, f) - Count(lists[r'], f) >= 1
  {
    InFlatten(lists[..r'], r, f);
    CountZero(Flatten(lists[..r']), f);
    PrefixUses(lists, r', f);
  }

  /** A downloaded file that is referenced once, by the last of several records of the same id, is lost in some run: the
      other records of that id merge it too. */
  lemma {:induction false} RepeatedIdRemovesTooEarly(c: Config, records: seq<Record>,
                                                     byRecord: map<string, seq<string>>,
                                                     downloadable: string -> bool, downloaded: set<string>,
                                                     canonical: string -> string, local: string -> string,
                                                     r: nat, r': nat, f: string)
      returns (ts: seq<Step>)
    requires Collected(records, byRecord, c.counter, downloadable, canonical, local)
    requires c == ConfigOf(c.workers, records, byRecord, c.counter, downloaded, local) && c.workers >= 1
    requires DownloadedFrom(downloaded, records, downloadable, canonical)
    requires r < r' < |records| && records[r].id == records[r'].id
    requires f in LastWith(records, records[r].id) && f in downloaded && Count(References(records, canonical), f) == 1
    ensures IsRun(c, Init(c), ts) && Lost(c, Final(c, Init(c), ts))
  {
    TwoUses(SeenLists(records), r, r', f);
    assert f in SeenLists(records)[r'];
    assert !Keeps(c.workers, SeenLists(records), r', f, Count(References(records, canonical), f));
    CoveredIffRecords(c, records, byRecord, downloadable, downloaded, canonical, local);
    ts := RemovedTooEarly(c);
  }
}
