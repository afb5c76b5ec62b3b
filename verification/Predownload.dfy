/** Predownloading the remote files of a cube: how many references each file gets, and how the datasets of a slice are
    redirected to the local copies. */
module Predownload {
  import opened Sequences
  import Downloads

  datatype DownloadJob = DownloadJob(uri: string, refCount: nat)

  // ----- Specification -----------------------------------------------------

  /** The slices that need the file `u`. */
  function Users(slices: seq<seq<string>>, u: string): set<nat> {
    set s: nat | s < |slices| && u in slices[s]
  }

  /** No slice lists `u` twice. */
  ghost predicate ListedOnce(slices: seq<seq<string>>, u: string) {
    forall s | 0 <= s < |slices| :: Count(slices[s], u) <= 1
  }

  lemma {:induction false} UsersSnoc(slices: seq<seq<string>>, u: string)
    requires slices != []
    ensures |Users(slices, u)| == |Users(slices[..|slices| - 1], u)| + if u in slices[|slices| - 1] then 1 else 0
  {
    var n: nat := |slices| - 1;
    var before := Users(slices[..n], u);
    assert n !in before;
    if u in slices[n] {
      assert Users(slices, u) == before + {n};
    } else {
      assert Users(slices, u) == before;
    }
  }

  /** A file has at least as many references as slices that need it, and exactly as many iff no slice lists it twice. */
  lemma {:induction false} ReferencesAndUsers(slices: seq<seq<string>>, u: string)
    ensures |Users(slices, u)| <= Count(Flatten(slices), u)
    ensures |Users(slices, u)| == Count(Flatten(slices), u) <==> ListedOnce(slices, u)
  {
    if slices != [] {
      var n := |slices| - 1;
      ReferencesAndUsers(slices[..n], u);
      CountConcat(Flatten(slices[..n]), slices[n], u);
      CountZero(slices[n], u);
      UsersSnoc(slices, u);
      assert forall s | 0 <= s < n :: slices[..n][s] == slices[s];
      assert ListedOnce(slices[..n], u) <==> forall s | 0 <= s < n :: Count(slices[s], u) <= 1;
    }
  }

  // ----- Program -----------------------------------------------------------

  /** The jobs list each remote uri once, in order of appearance, with all its occurrences counted. */
  ghost predicate JobsFor(jobs: seq<DownloadJob>, index: map<string, nat>, us: seq<string>, remote: string -> bool) {
    && |jobs| == |Distinct(us, remote)|
    && (forall j | 0 <= j < |jobs| ::
          jobs[j].uri == Distinct(us, remote)[j] && jobs[j].refCount == Count(us, jobs[j].uri))
    && (forall u :: u in index <==> u in Distinct(us, remote))
    && (forall u | u in index :: index[u] < |jobs| && jobs[index[u]].uri == u)
    && |index| == |jobs|
  }

  lemma {:induction false} OneMore(us: seq<string>, u: string, remote: string -> bool)
    ensures forall v :: Count(us + [u], v) == Count(us, v) + if u == v then 1 else 0
    ensures Distinct(us + [u], remote) ==
              Distinct(us, remote) + if remote(u) && u !in Distinct(us, remote) then [u] else []
    ensures u in Distinct(us, remote) <==> u in us && remote(u)
    ensures u !in us ==> Count(us, u) == 0
    ensures forall i, j | 0 <= i < j < |Distinct(us, remote)| :: Distinct(us, remote)[i] != Distinct(us, remote)[j]
  {
    assert (us + [u])[..|us|] == us;
    DistinctIsASet(us, remote);
    CountZero(us, u);
  }

  /** A reference that starts no job: the file is local, or it has a job, which counts it. */
  lemma {:induction false} CountedReference(jobs: seq<DownloadJob>, index: map<string, nat>, us: seq<string>, u: string,
                                            remote: string -> bool)
    requires JobsFor(jobs, index, us, remote) && (!remote(u) || u in index)
    ensures !remote(u) ==> JobsFor(jobs, index, us + [u], remote)
    ensures remote(u) ==> var j := index[u];
              JobsFor(jobs[j := jobs[j].(refCount := jobs[j].refCount + 1)], index, us + [u], remote)
  {
    OneMore(us, u, remote);
    hide Distinct;
    hide Count;
  }

  /** The first reference of a remote file starts its job. */
  lemma {:induction false} FirstReference(jobs: seq<DownloadJob>, index: map<string, nat>, us: seq<string>, u: string,
                                          remote: string -> bool)
    requires JobsFor(jobs, index, us, remote) && remote(u) && u !in index
    ensures JobsFor(jobs + [DownloadJob(u, 1)], index[u := |index|], us + [u], remote)
  {
    OneMore(us, u, remote);
    hide Distinct;
    hide Count;
  }

  method AddReference(jobs: seq<DownloadJob>, index: map<string, nat>, ghost us: seq<string>, u: string,
                      remote: string -> bool)
      returns (jobs': seq<DownloadJob>, index': map<string, nat>)
    requires JobsFor(jobs, index, us, remote)
    ensures JobsFor(jobs', index', us + [u], remote)
  {
    jobs', index' := jobs, index;
    if remote(u) {
      if u in index {
        CountedReference(jobs, index, us, u, remote);
        var idx := index[u];
        jobs' := jobs[idx := jobs[idx].(refCount := jobs[idx].refCount + 1)];
      } else {
        FirstReference(jobs, index, us, u, remote);
        index' := index[u := |index|];
        jobs' := jobs + [DownloadJob(u, 1)];
      }
    } else {
      CountedReference(jobs, index, us, u, remote);
    }
  }

  method CollectSlice(jobs: seq<DownloadJob>, index: map<string, nat>, ghost us: seq<string>, slice: seq<string>,
                      remote: string -> bool)
      returns (jobs': seq<DownloadJob>, index': map<string, nat>)
    requires JobsFor(jobs, index, us, remote)
    ensures JobsFor(jobs', index', us + slice, remote)
  {
    hide JobsFor;
    jobs', index' := jobs, index;
    ghost var seen := us;
    assert us + slice[..0] == us;
    for d := 0 to |slice|
      invariant seen == us + slice[..d]
      invariant JobsFor(jobs', index', seen, remote)
    {
      jobs', index' := AddReference(jobs', index', seen, slice[d], remote);
      seen := seen + [slice[d]];
      assert slice[..d + 1] == slice[..d] + [slice[d]];
    }
    assert slice[..|slice|] == slice;
  }

  method CollectJobs(slices: seq<seq<string>>, remote: string -> bool)
      returns (jobs: seq<DownloadJob>, index: map<string, nat>)
    ensures JobsFor(jobs, index, Flatten(slices), remote)
  {
    jobs, index := [], map[];
    for s := 0 to |slices|
      invariant JobsFor(jobs, index, Flatten(slices[..s]), remote)
    {
      jobs, index := CollectSlice(jobs, index, Flatten(slices[..s]), slices[s], remote);
      assert slices[..s + 1][..s] == slices[..s];
    }
    assert slices[..|slices|] == slices;
  }

  method LinkSlice(slice: seq<string>, index: map<string, nat>) returns (links: map<string, nat>)
    ensures forall u :: u in links <==> u in slice && u in index
    ensures forall u | u in links :: links[u] == index[u]
  {
    links := map[];
    for d := 0 to |slice|
      invariant forall u :: u in links <==> u in slice[..d] && u in index
      invariant forall u | u in links :: links[u] == index[u]
    {
      var u := slice[d];
      assert slice[..d + 1] == slice[..d] + [u];
      if u in index {
        links := links[u := index[u]];
      }
    }
    assert slice[..|slice|] == slice;
  }

  /** The availability of a slice links each remote file that it needs to the job of that file. */
  ghost predicate Linked(links: map<string, nat>, slice: seq<string>, jobs: seq<DownloadJob>, remote: string -> bool) {
    && (forall u :: u in links <==> u in slice && remote(u))
    && (forall u | u in links :: links[u] < |jobs| && jobs[links[u]].uri == u)
  }

  /** Counts the references of each remote file and links each slice to the jobs of the files it needs. */
  method PredownloadRemoteDatasets(slices: seq<seq<string>>, remote: string -> bool)
      returns (jobs: seq<DownloadJob>, availability: seq<map<string, nat>>)
    ensures Planned(slices, remote, jobs, availability)
  {
    var index;
    jobs, index := CollectJobs(slices, remote);
    DistinctIsASet(Flatten(slices), remote);
    availability := [];
    for s := 0 to |slices|
      invariant |availability| == s
      invariant forall i | 0 <= i < s :: Linked(availability[i], slices[i], jobs, remote)
    {
      var links := LinkSlice(slices[s], index);
      forall u ensures u in links <==> u in slices[s] && remote(u) {
        if u in slices[s] {
          InFlatten(slices, s, u);
        }
      }
      availability := availability + [links];
    }
  }

  /** What the channel of a file delivers: the local copy, or the remote uri itself when the download failed. */
  datatype Download = Downloaded(local: string) | NotDownloaded

  /** Redirects in place the datasets that use `u`. */
  method RedirectOne(uris: array<string>, u: string, local: string)
    modifies uris
    ensures forall i | 0 <= i < uris.Length :: uris[i] == if old(uris[i]) == u then local else old(uris[i])
  {
    for i := 0 to uris.Length
      invariant forall k | 0 <= k < uris.Length ::
                  uris[k] == if k < i && old(uris[k]) == u then local else old(uris[k])
    {
      if uris[i] == u {
        uris[i] := local;
      }
    }
  }

  /** Receives the files of a slice in the order `order`, redirects its datasets in place and returns the files to
      acknowledge. The local copies have fresh names. Whatever the order, a dataset ends with the local copy of its file
      if it was downloaded, and with its own uri otherwise. So the slice reads exactly the local copies of the files
      that it acknowledges, and no acknowledged uri is left. */
  method WaitForAvailability(uris: array<string>, order: seq<string>, downloads: map<string, Download>)
      returns (acks: seq<string>)
    requires forall u :: u in order <==> u in downloads
    requires forall i, j | 0 <= i < j < |order| :: order[i] != order[j]
    requires forall u | u in downloads && downloads[u].Downloaded? :: downloads[u].local !in downloads
    modifies uris
    ensures forall i | 0 <= i < uris.Length ::
              uris[i] == if old(uris[i]) in downloads && downloads[old(uris[i])].Downloaded?
                         then downloads[old(uris[i])].local else old(uris[i])
    ensures forall u :: u in acks <==> u in downloads && downloads[u].Downloaded?
    ensures forall i, j | 0 <= i < j < |acks| :: acks[i] != acks[j]
    ensures forall u | u in acks :: u !in uris[..]
    ensures forall x :: x in uris[..] <==>
              || (x in old(uris[..]) && x !in acks)
              || (exists u :: u in acks && u in old(uris[..]) && x == downloads[u].local)
  {
    acks := [];
    ghost var before := uris[..];
    for o := 0 to |order|
      invariant forall i | 0 <= i < uris.Length ::
                  uris[i] == if before[i] in order[..o] && downloads[before[i]].Downloaded?
                             then downloads[before[i]].local else before[i]
      invariant forall u :: u in acks <==> u in order[..o] && downloads[u].Downloaded?
      invariant forall i, j | 0 <= i < j < |acks| :: acks[i] != acks[j]
    {
      var u := order[o];
      assert order[..o + 1] == order[..o] + [u];
      assert u in downloads && u !in order[..o];
      if downloads[u].Downloaded? && u != downloads[u].local {
        RedirectOne(uris, u, downloads[u].local);
        acks := acks + [u];
      }
    }
    assert order[..|order|] == order;
    ReadsWhatItAcknowledges(before, uris[..], downloads, acks);
  }

  lemma {:induction false} ReadsWhatItAcknowledges(before: seq<string>, after: seq<string>,
                                                   downloads: map<string, Download>, acks: seq<string>)
    requires |after| == |before|
    requires forall u | u in downloads && downloads[u].Downloaded? :: downloads[u].local !in downloads
    requires forall u :: u in acks <==> u in downloads && downloads[u].Downloaded?
    requires forall i | 0 <= i < |before| ::
               after[i] == if before[i] in downloads && downloads[before[i]].Downloaded?
                           then downloads[before[i]].local else before[i]
    ensures forall u | u in acks :: u !in after
    ensures forall x :: x in after <==>
              || (x in before && x !in acks)
              || (exists u :: u in acks && u in before && x == downloads[u].local)
  {
    forall x | x in before && x !in acks ensures x in after {
      var i :| 0 <= i < |before| && before[i] == x;
      assert after[i] == x;
    }
    forall u | u in acks && u in before ensures downloads[u].local in after {
      var i :| 0 <= i < |before| && before[i] == u;
      assert after[i] == downloads[u].local;
    }
  }

  // ----- Link with the life of the files -----------------------------------

  /** The order in which a slice receives its files: each link once (the program iterates over a map). */
  ghost predicate Enumerates(order: seq<nat>, links: map<string, nat>) {
    && (forall i, i' | 0 <= i < i' < |order| :: order[i] != order[i'])
    && (forall j :: j in order ==> exists u :: u in links && links[u] == j)
    && (forall u | u in links :: links[u] in order)
  }

  /** The jobs and the availability that `PredownloadRemoteDatasets` computes. */
  ghost predicate Planned(slices: seq<seq<string>>, remote: string -> bool, jobs: seq<DownloadJob>,
                          availability: seq<map<string, nat>>) {
    && |jobs| == |Distinct(Flatten(slices), remote)|
    && (forall j | 0 <= j < |jobs| :: jobs[j].uri == Distinct(Flatten(slices), remote)[j])
    && (forall j | 0 <= j < |jobs| :: jobs[j].refCount == Count(Flatten(slices), jobs[j].uri))
    && |availability| == |slices|
    && (forall s | 0 <= s < |slices| :: Linked(availability[s], slices[s], jobs, remote))
  }

  function ConfigOf(jobs: seq<DownloadJob>, orders: seq<seq<nat>>): Downloads.Config {
    Downloads.Config(seq(|jobs|, j requires 0 <= j < |jobs| => jobs[j].refCount), orders)
  }

  lemma {:induction false} SameUsers(slices: seq<seq<string>>, remote: string -> bool, jobs: seq<DownloadJob>,
                  availability: seq<map<string, nat>>, orders: seq<seq<nat>>, j: nat)
    requires Planned(slices, remote, jobs, availability) && j < |jobs|
    requires |orders| == |slices| && forall s | 0 <= s < |slices| :: Enumerates(orders[s], availability[s])
    ensures Downloads.Users(ConfigOf(jobs, orders), j) == Users(slices, jobs[j].uri)
  {
    DistinctIsASet(Flatten(slices), remote);
    forall s: nat | s < |slices| ensures j in orders[s] <==> jobs[j].uri in slices[s] {
      assert Linked(availability[s], slices[s], jobs, remote) && Enumerates(orders[s], availability[s]);
      if j in orders[s] {
        var u :| u in availability[s] && availability[s][u] == j;
        assert jobs[j].uri == u;
      }
      if jobs[j].uri in slices[s] {
        assert jobs[j].uri in availability[s];
        assert availability[s][jobs[j].uri] == j;
      }
    }
  }

  /** The predownload sets up a well-formed exchange, in which a file has exactly one reference per slice that needs it
      iff no slice lists it twice. */
  lemma {:induction false} SetsUpDownloads(slices: seq<seq<string>>, remote: string -> bool, jobs: seq<DownloadJob>,
                        availability: seq<map<string, nat>>, orders: seq<seq<nat>>)
    requires Planned(slices, remote, jobs, availability)
    requires |orders| == |slices| && forall s | 0 <= s < |slices| :: Enumerates(orders[s], availability[s])
    ensures Downloads.WellFormed(ConfigOf(jobs, orders))
    ensures forall j | 0 <= j < |jobs| ::
              jobs[j].refCount == |Downloads.Users(ConfigOf(jobs, orders), j)| <==> ListedOnce(slices, jobs[j].uri)
  {
    var c := ConfigOf(jobs, orders);
    DistinctIsASet(Flatten(slices), remote);
    forall j: nat | j < |jobs|
      ensures |Downloads.Users(c, j)| <= c.refCounts[j] && c.refCounts[j] > 0
      ensures jobs[j].refCount == |Downloads.Users(c, j)| <==> ListedOnce(slices, jobs[j].uri)
    {
      SameUsers(slices, remote, jobs, availability, orders, j);
      ReferencesAndUsers(slices, jobs[j].uri);
      CountZero(Flatten(slices), jobs[j].uri);
    }
    forall s, i | 0 <= s < |orders| && 0 <= i < |orders[s]| ensures orders[s][i] < |c.refCounts| {
      assert Enumerates(orders[s], availability[s]) && Linked(availability[s], slices[s], jobs, remote);
      assert orders[s][i] in orders[s];
    }
    forall s, i, i' | 0 <= s < |orders| && 0 <= i < i' < |orders[s]| ensures orders[s][i] != orders[s][i'] {
      assert Enumerates(orders[s], availability[s]);
    }
  }
}
