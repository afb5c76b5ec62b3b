/** Containers: which dataset owns which band of which subdirectory of a file. */
module Containers {
  import Cast
  import opened Persistence

  datatype DatasetStatus = ACTIVE | TODELETE | INACTIVE

  /** What two identical datasets have in common: everything but the id, the persistence state and the approximate
      shapes. */
  datatype Description = Description(recordID: string, instanceID: string, uri: string, subdir: string, bands: seq<int>,
                                     mapping: Cast.DataMapping, status: DatasetStatus, shape: seq<real>,
                                     overviews: bool)

  datatype Error = NoError | ValidationError | EntityAlreadyExists | EntityNotFound | DependencyStillExists

  // ----- Which dataset may be added ----------------------------------------

  ghost predicate Intersect(a: seq<int>, b: seq<int>) {
    exists e :: e in a && e in b
  }

  /** Both describe a same band of a same file. */
  ghost predicate Overlap(a: Description, b: Description) {
    a.subdir == b.subdir && Intersect(a.bands, b.bands)
  }

  datatype Verdict = Append | AlreadyThere | Refuse

  /** What the stored datasets, taken in order, decide about a new one. */
  ghost function VerdictOf(stored: seq<Description>, d: Description): Verdict {
    if stored == [] then Append
    else if !stored[0].status.ACTIVE? then Refuse
    else if Overlap(stored[0], d) then if stored[0] == d then AlreadyThere else Refuse
    else VerdictOf(stored[1..], d)
  }

  ghost function AfterAdd(stored: seq<Description>, d: Description): seq<Description> {
    if VerdictOf(stored, d).Append? then stored + [d] else stored
  }

  /** No two datasets describe a same band of a same file. */
  ghost predicate Owned(stored: seq<Description>) {
    forall i, j | 0 <= i < j < |stored| :: !Overlap(stored[i], stored[j])
  }

  /** Only the last dataset may not be active. */
  ghost predicate ActiveButLast(stored: seq<Description>) {
    forall i | 0 <= i < |stored| - 1 :: stored[i].status.ACTIVE?
  }

  lemma {:induction false} AppendIff(stored: seq<Description>, d: Description)
    ensures VerdictOf(stored, d).Append? <==>
              forall i | 0 <= i < |stored| :: stored[i].status.ACTIVE? && !Overlap(stored[i], d)
    ensures VerdictOf(stored, d).Append? <==>
              forall i | 0 <= i < |stored| ::
                && stored[i].status.ACTIVE?
                && (stored[i].subdir == d.subdir ==> forall e | e in d.bands :: e !in stored[i].bands)
  {
    if stored != [] {
      AppendIff(stored[1..], d);
      assert forall i | 0 < i < |stored| :: stored[i] == stored[1..][i - 1];
    }
  }

  /** A dataset is already there when an identical one is met before any that is not active or that overlaps it. */
  lemma {:induction false} AlreadyThereIff(stored: seq<Description>, d: Description)
    ensures VerdictOf(stored, d).AlreadyThere? <==>
              exists i | 0 <= i < |stored| ::
                && stored[i] == d && d.status.ACTIVE? && Overlap(d, d)
                && forall j | 0 <= j < i :: stored[j].status.ACTIVE? && !Overlap(stored[j], d)
  {
    if stored != [] {
      var rest := stored[1..];
      AlreadyThereIff(rest, d);
      assert forall i | 0 < i < |stored| :: stored[i] == rest[i - 1];
      if VerdictOf(stored, d).AlreadyThere? && !Overlap(stored[0], d) {
        var i :| 0 <= i < |rest| && rest[i] == d && d.status.ACTIVE? && Overlap(d, d) &&
                 forall j | 0 <= j < i :: rest[j].status.ACTIVE? && !Overlap(rest[j], d);
        assert stored[i + 1] == d;
      }
    }
  }

  /** Every addition keeps one owner per band, and leaves only active datasets before the last. */
  lemma {:induction false} AddKeepsOwners(stored: seq<Description>, d: Description)
    requires Owned(stored) && ActiveButLast(stored)
    ensures Owned(AfterAdd(stored, d)) && ActiveButLast(AfterAdd(stored, d))
  {
    AppendIff(stored, d);
  }

  ghost function AfterAdds(ds: seq<Description>): seq<Description> {
    if ds == [] then [] else AfterAdd(AfterAdds(ds[..|ds| - 1]), ds[|ds| - 1])
  }

  /** Over every run of additions to an empty container: one owner per band of a subdirectory, only active datasets
      before the last, and every dataset of the container was added. */
  lemma {:induction false} OwnersOfRun(ds: seq<Description>)
    ensures Owned(AfterAdds(ds)) && ActiveButLast(AfterAdds(ds))
    ensures forall d | d in AfterAdds(ds) :: d in ds
  {
    if ds != [] {
      var front, d := ds[..|ds| - 1], ds[|ds| - 1];
      OwnersOfRun(front);
      AddKeepsOwners(AfterAdds(front), d);
      assert ds == front + [d];
    }
  }

  /** Adding again a dataset that is stored is a success that changes nothing exactly when the dataset is active and has
      bands. */
  lemma {:induction false} AddAgain(stored: seq<Description>, d: Description)
    requires Owned(stored) && ActiveButLast(stored) && d in stored
    ensures VerdictOf(stored, d).AlreadyThere? <==> d.status.ACTIVE? && d.bands != []
  {
    AlreadyThereIff(stored, d);
    var k :| 0 <= k < |stored| && stored[k] == d;
    if d.bands != [] {
      var e := d.bands[0];
      assert e in d.bands;
      assert Intersect(d.bands, d.bands);
    }
    assert forall j | 0 <= j < k :: stored[j].status.ACTIVE? && !Overlap(stored[j], stored[k]);
  }

  /** Without bands it is stored once more each time, as long as all the datasets are active. */
  lemma {:induction false} WithoutBandsTwice(stored: seq<Description>, d: Description)
    requires d.bands == [] && forall i | 0 <= i < |stored| :: stored[i].status.ACTIVE?
    ensures AfterAdd(stored, d) == stored + [d]
  {
    AppendIff(stored, d);
  }

  // ----- The container object ----------------------------------------------

  class Dataset {
    const id: string
    const description: Description
    var persistence: PersistenceState

    constructor (id: string, description: Description)
      ensures this.id == id && this.description == description && persistence == NEW
    {
      this.id := id;
      this.description := description;
      persistence := NEW;
    }
  }

  method BandsIntersect(a: seq<int>, b: seq<int>) returns (r: bool)
    ensures r <==> Intersect(a, b)
  {
    for i := 0 to |a|
      invariant forall e | e in a[..i] :: e !in b
    {
      for j := 0 to |b|
        invariant a[i] !in b[..j]
      {
        if a[i] == b[j] {
          assert a[i] in a && a[i] in b;
          return true;
        }
        assert b[..j + 1] == b[..j] + [b[j]];
      }
      assert b[..|b|] == b;
      assert a[..i + 1] == a[..i] + [a[i]];
    }
    assert a[..|a|] == a;
    return false;
  }

  ghost function Active(datasets: seq<Dataset>): seq<Dataset>
    reads datasets
  {
    if datasets == [] then []
    else
      var d := datasets[|datasets| - 1];
      Active(datasets[..|datasets| - 1]) + if d.persistence.IsActive() then [d] else []
  }

  lemma {:induction false} ActiveAreCounted(datasets: seq<Dataset>)
    ensures |Active(datasets)| == |set i: nat | i < |datasets| && datasets[i].persistence.IsActive()|
  {
    if datasets != [] {
      var n: nat := |datasets| - 1;
      var front := datasets[..n];
      ActiveAreCounted(front);
      var before := set i: nat | i < n && front[i].persistence.IsActive();
      var last := if datasets[n].persistence.IsActive() then {n} else {};
      assert forall i | 0 <= i < n :: front[i] == datasets[i];
      assert n !in before;
      assert (set i: nat | i < |datasets| && datasets[i].persistence.IsActive()) == before + last;
    }
  }

  lemma {:induction false} NoneActiveIff(datasets: seq<Dataset>)
    ensures Active(datasets) == [] <==> forall i | 0 <= i < |datasets| :: !datasets[i].persistence.IsActive()
  {
    if datasets != [] {
      var front := datasets[..|datasets| - 1];
      NoneActiveIff(front);
      assert forall i | 0 <= i < |front| :: front[i] == datasets[i];
    }
  }

  class Container {
    const uri: string
    const managed: bool
    var persistence: PersistenceState
    var datasets: seq<Dataset>

    constructor (uri: string, managed: bool)
      ensures this.uri == uri && this.managed == managed && persistence == NEW && datasets == []
    {
      this.uri := uri;
      this.managed := managed;
      persistence := NEW;
      datasets := [];
    }

    ghost function Contents(): seq<Description>
      reads this
    {
      seq(|datasets|, i requires 0 <= i < |datasets| reads this => datasets[i].description)
    }

    /** Adds a new dataset, accepts one that is identical to its owner, and refuses any other. */
    method AddDataset(d: Dataset) returns (err: Error)
      modifies this`datasets
      ensures err == if old(d.persistence) != NEW then ValidationError
                     else if VerdictOf(old(Contents()), d.description).Refuse? then EntityAlreadyExists
                     else NoError
      ensures datasets == if old(d.persistence) == NEW && VerdictOf(old(Contents()), d.description).Append?
                          then old(datasets) + [d] else old(datasets)
      ensures Contents() == if old(d.persistence) == NEW then AfterAdd(old(Contents()), d.description)
                            else old(Contents())
    {
      if d.persistence != NEW {
        return ValidationError;
      }
      ghost var stored := Contents();
      for i := 0 to |datasets|
        invariant datasets == old(datasets)
        invariant VerdictOf(stored, d.description) == VerdictOf(stored[i..], d.description)
      {
        var dataset := datasets[i];
        assert stored[i] == dataset.description && stored[i..][1..] == stored[i + 1..];
        if !dataset.description.status.ACTIVE? {
          return EntityAlreadyExists;
        }
        if dataset.description.subdir == d.description.subdir {
          var intersect := BandsIntersect(dataset.description.bands, d.description.bands);
          if intersect {
            if dataset.description == d.description {
              return NoError;
            }
            return EntityAlreadyExists;
          }
        }
      }
      datasets := datasets + [d];
      return NoError;
    }

    /** How many datasets are not on their way out. */
    method NumActiveDatasets() returns (n: nat)
      ensures n == |Active(datasets)|
      ensures n == |set i: nat | i < |datasets| && datasets[i].persistence.IsActive()|
    {
      n := 0;
      for i := 0 to |datasets|
        invariant n == |Active(datasets[..i])|
      {
        assert datasets[..i + 1][..i] == datasets[..i];
        if datasets[i].persistence.IsActive() {
          n := n + 1;
        }
      }
      assert datasets[..|datasets|] == datasets;
      ActiveAreCounted(datasets);
    }

    /** Marks the first dataset with the id, which keeps its bands. `empty` tells that no dataset is left but those on
        their way out. The program panics on a dataset that is already deleted. */
    method RemoveDataset(datasetID: string) returns (empty: bool, err: Error)
      requires forall d | d in datasets && IsFirst(d, datasetID) :: !d.persistence.DELETED?
      modifies datasets
      ensures err == EntityNotFound <==> forall i | 0 <= i < |datasets| :: datasets[i].id != datasetID
      ensures err == NoError || (err == EntityNotFound && !empty)
      ensures forall d | d in datasets ::
                d.persistence == if err == NoError && IsFirst(d, datasetID) then PersistenceState.TODELETE
                                 else old(d.persistence)
      ensures err == NoError ==> (empty <==> forall d | d in datasets :: !d.persistence.IsActive())
      ensures Contents() == old(Contents())
    {
      for i := 0 to |datasets|
        invariant forall k | 0 <= k < i :: datasets[k].id != datasetID
        invariant forall d | d in datasets :: d.persistence == old(d.persistence)
      {
        if datasets[i].id == datasetID {
          OnlyFirst(i, datasetID);
          hide IsFirst;
          hide Active;
          datasets[i].persistence := PersistenceState.TODELETE;
          var n := NumActiveDatasets();
          NoneActiveIff(datasets);
          return n == 0, NoError;
        }
      }
      return false, EntityNotFound;
    }

    /** The dataset that a search for the id finds. */
    ghost predicate IsFirst(d: Dataset, datasetID: string)
      reads this
    {
      exists i | 0 <= i < |datasets| :: datasets[i] == d && d.id == datasetID &&
                                        forall k | 0 <= k < i :: datasets[k].id != datasetID
    }

    lemma OnlyFirst(i: nat, datasetID: string)
      requires i < |datasets| && datasets[i].id == datasetID && forall k | 0 <= k < i :: datasets[k].id != datasetID
      ensures forall d :: IsFirst(d, datasetID) <==> d == datasets[i]
    {
    }

    /** Only a container that is not managed, and whose datasets are all on their way out, is deleted. */
    method Delete() returns (err: Error)
      requires persistence.DELETED? ==> managed || exists d :: d in datasets && d.persistence.IsActive()
      modifies this`persistence
      ensures err == if !managed && forall d | d in datasets :: !d.persistence.IsActive() then NoError
                     else DependencyStillExists
      ensures persistence == if err == NoError then PersistenceState.TODELETE else old(persistence)
    {
      if managed {
        return DependencyStillExists;
      }
      var n := NumActiveDatasets();
      NoneActiveIff(datasets);
      if n != 0 {
        return DependencyStillExists;
      }
      persistence := PersistenceState.TODELETE;
      return NoError;
    }
  }
}
