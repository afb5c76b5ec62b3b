/** The cube of groups of records: the datasets grouped by record, then by group of records. */
module CubeRecords {
  import opened Sequences
  import opened Grouping

  // ----- What is asked for -------------------------------------------------

  /** The datasets of a record, wherever they are. */
  function OfRecord(ds: seq<Dataset>, id: string): seq<Dataset> {
    if ds == [] then []
    else OfRecord(ds[..|ds| - 1], id) + if ds[|ds| - 1].recordID == id then [ds[|ds| - 1]] else []
  }

  /** The files of a group of records, in the order of the group. */
  function FilesOf(ds: seq<Dataset>, group: seq<string>): seq<string> {
    if group == [] then []
    else FilesOf(ds, group[..|group| - 1]) + Uris(OfRecord(ds, group[|group| - 1]))
  }

  /** The records of a group that have a dataset. */
  function KnownOf(ds: seq<Dataset>, group: seq<string>): seq<string> {
    if group == [] then []
    else
      var id := group[|group| - 1];
      KnownOf(ds, group[..|group| - 1]) + if OfRecord(ds, id) != [] then [id] else []
  }

  /** The groups that have a dataset. */
  function Asked(ds: seq<Dataset>, groups: seq<seq<string>>): seq<seq<string>> {
    if groups == [] then []
    else
      var g := groups[|groups| - 1];
      Asked(ds, groups[..|groups| - 1]) + if KnownOf(ds, g) != [] then [g] else []
  }

  /** Each row holds the files of the datasets whose record is in its group, and no other. */
  ghost predicate RightFiles(ds: seq<Dataset>, groups: seq<seq<string>>, files: seq<seq<string>>) {
    && |files| == |Asked(ds, groups)|
    && forall k | 0 <= k < |files| :: files[k] == FilesOf(ds, Asked(ds, groups)[k])
  }

  ghost predicate RightRecords(ds: seq<Dataset>, groups: seq<seq<string>>, records: seq<seq<string>>) {
    && |records| == |Asked(ds, groups)|
    && forall k | 0 <= k < |records| :: records[k] == KnownOf(ds, Asked(ds, groups)[k])
  }

  /** A file is in the row of a group exactly when some dataset of one of its records has that file. */
  lemma {:induction false} FileOfGroupIff(ds: seq<Dataset>, group: seq<string>, file: string)
    ensures file in FilesOf(ds, group) <==> exists i | 0 <= i < |ds| :: ds[i].uri == file && ds[i].recordID in group
  {
    if group != [] {
      var n := |group| - 1;
      FileOfGroupIff(ds, group[..n], file);
      FileOfRecordIff(ds, group[n], file);
      assert group == group[..n] + [group[n]];
    }
  }

  lemma {:induction false} FileOfRecordIff(ds: seq<Dataset>, id: string, file: string)
    ensures file in Uris(OfRecord(ds, id)) <==> exists i | 0 <= i < |ds| :: ds[i].uri == file && ds[i].recordID == id
  {
    if ds != [] {
      var n := |ds| - 1;
      FileOfRecordIff(ds[..n], id, file);
      var before, last := OfRecord(ds[..n], id), if ds[n].recordID == id then [ds[n]] else [];
      assert Uris(before + last) == Uris(before) + Uris(last);
      assert file in Uris(last) <==> ds[n].recordID == id && Uris([ds[n]])[0] == file;
      assert forall i | 0 <= i < n :: ds[..n][i] == ds[i];
    }
  }

  /** Likewise a record is in the row of a group exactly when the group has it and some dataset is of it. */
  lemma {:induction false} RecordOfGroupIff(ds: seq<Dataset>, group: seq<string>, id: string)
    ensures id in KnownOf(ds, group) <==> id in group && exists i | 0 <= i < |ds| :: ds[i].recordID == id
  {
    if group != [] {
      var n := |group| - 1;
      RecordOfGroupIff(ds, group[..n], id);
      OfRecordEmptyIff(ds, group[n]);
      assert group == group[..n] + [group[n]];
    }
  }

  lemma {:induction false} OfRecordEmptyIff(ds: seq<Dataset>, id: string)
    ensures OfRecord(ds, id) != [] <==> exists i | 0 <= i < |ds| :: ds[i].recordID == id
  {
    if ds != [] {
      OfRecordEmptyIff(ds[..|ds| - 1], id);
    }
  }

  // ----- The datasets of a record and its runs -----------------------------

  lemma {:induction false} OfRecordConcat(ds: seq<Dataset>, ds': seq<Dataset>, id: string)
    ensures OfRecord(ds + ds', id) == OfRecord(ds, id) + OfRecord(ds', id)
  {
    if ds' == [] {
      assert ds + ds' == ds;
    } else {
      OfRecordConcat(ds, ds'[..|ds'| - 1], id);
      assert (ds + ds')[..|ds| + |ds'| - 1] == ds + ds'[..|ds'| - 1];
    }
  }

  lemma {:induction false} OfRecordOfRun(ds: seq<Dataset>, recordID: string, id: string)
    requires forall i | 0 <= i < |ds| :: ds[i].recordID == recordID
    ensures OfRecord(ds, id) == if recordID == id then ds else []
  {
    if ds != [] {
      OfRecordOfRun(ds[..|ds| - 1], recordID, id);
    }
  }

  /** The runs of a record, end to end. */
  function Together(runs: seq<Run>, id: string): seq<Dataset> {
    if runs == [] then []
    else
      var run := runs[|runs| - 1];
      Together(runs[..|runs| - 1], id) + if run.recordID == id then run.datasets else []
  }

  lemma {:induction false} OfRecordOfRuns(runs: seq<Run>, id: string)
    requires forall k | 0 <= k < |runs| :: IsRun(runs[k])
    ensures OfRecord(Flatten(Parts(runs)), id) == Together(runs, id)
  {
    if runs != [] {
      var front, run := runs[..|runs| - 1], runs[|runs| - 1];
      OfRecordOfRuns(front, id);
      assert IsRun(run);
      assert Parts(runs)[..|runs| - 1] == Parts(front);
      OfRecordConcat(Flatten(Parts(front)), run.datasets, id);
      OfRecordOfRun(run.datasets, run.recordID, id);
    }
  }

  lemma {:induction false} TogetherNone(runs: seq<Run>, id: string)
    requires forall k | 0 <= k < |runs| :: IsRun(runs[k])
    ensures Together(runs, id) == [] <==> id !in Ids(runs)
  {
    if runs != [] {
      var n := |runs| - 1;
      TogetherNone(runs[..n], id);
      assert IsRun(runs[n]);
      assert Ids(runs) == Ids(runs[..n]) + [runs[n].recordID];
    }
  }

  /** The datasets of a record are one of its runs exactly when it has no other. */
  lemma {:induction false} TogetherOne(runs: seq<Run>, k: nat)
    requires k < |runs| && forall i | 0 <= i < |runs| :: IsRun(runs[i])
    ensures |Together(runs, runs[k].recordID)| >= |runs[k].datasets|
    ensures Together(runs, runs[k].recordID) == runs[k].datasets <==>
              forall i | 0 <= i < |runs| && i != k :: runs[i].recordID != runs[k].recordID
    ensures |Together(runs, runs[k].recordID)| == |runs[k].datasets| ==>
              forall i | 0 <= i < |runs| && i != k :: runs[i].recordID != runs[k].recordID
  {
    var n, id := |runs| - 1, runs[k].recordID;
    var front := runs[..n];
    assert forall i | 0 <= i < n :: front[i] == runs[i];
    assert IsRun(runs[n]);
    if k < n {
      TogetherOne(front, k);
    } else {
      TogetherNone(front, id);
      assert id in Ids(front) <==> exists i | 0 <= i < n :: Ids(front)[i] == id;
      assert forall i | 0 <= i < n :: Ids(front)[i] == runs[i].recordID;
    }
  }

  lemma {:induction false} OfRecordInRuns(ds: seq<Dataset>, id: string)
    ensures OfRecord(ds, id) == Together(Runs(ds), id)
    ensures OfRecord(ds, id) != [] <==> id in Ids(Runs(ds))
    ensures forall k | 0 <= k < |Runs(ds)| :: IsRun(Runs(ds)[k])
  {
    RunsPartition(ds);
    OfRecordOfRuns(Runs(ds), id);
    TogetherNone(Runs(ds), id);
  }

  // ----- The tables --------------------------------------------------------

  function Slices(ds: seq<Dataset>): seq<seq<string>> {
    var runs := Runs(ds);
    seq(|runs|, k requires 0 <= k < |runs| => Uris(runs[k].datasets))
  }

  /** What `ReadRecords` returns for the ids of the runs. */
  function Records(ds: seq<Dataset>): seq<string> {
    Distinct(Ids(Runs(ds)), id => true)
  }

  /** The index of each record, filled in order. */
  function RecordIdx(records: seq<string>): map<string, nat> {
    if records == [] then map[]
    else RecordIdx(records[..|records| - 1])[records[|records| - 1] := |records| - 1]
  }

  lemma {:induction false} RecordIdxIsIndex(records: seq<string>)
    requires NoDuplicate(records)
    ensures forall id :: id in RecordIdx(records) <==> id in records
    ensures forall k | 0 <= k < |records| :: records[k] in RecordIdx(records) && RecordIdx(records)[records[k]] == k
    ensures forall idx | idx in RecordIdx(records).Values :: idx < |records|
  {
    if records != [] {
      var n := |records| - 1;
      RecordIdxIsIndex(records[..n]);
      assert records == records[..n] + [records[n]];
    }
  }

  lemma {:induction false} RecordsKnown(ds: seq<Dataset>)
    ensures NoDuplicate(Records(ds)) && |Records(ds)| <= |Slices(ds)|
    ensures forall id :: id in Records(ds) <==> id in RecordIdx(Records(ds))
    ensures forall id :: id in RecordIdx(Records(ds)) <==> OfRecord(ds, id) != []
    ensures forall k | 0 <= k < |Records(ds)| :: RecordIdx(Records(ds))[Records(ds)[k]] == k
    ensures forall idx | idx in RecordIdx(Records(ds)).Values :: idx < |Records(ds)| && idx < |Slices(ds)|
  {
    DistinctOfDistinct(Ids(Runs(ds)));
    DistinctIsASet(Ids(Runs(ds)), id => true);
    RecordIdxIsIndex(Records(ds));
    forall id ensures id in RecordIdx(Records(ds)) <==> OfRecord(ds, id) != [] {
      OfRecordInRuns(ds, id);
    }
  }

  lemma {:induction false} FoundAreKnown(ds: seq<Dataset>, group: seq<string>)
    ensures forall idx | idx in RecordIdx(Records(ds)).Values :: idx < |Records(ds)| && idx < |Slices(ds)|
    ensures RecordsOf(Records(ds), RecordIdx(Records(ds)), group) == KnownOf(ds, group)
  {
    RecordsKnown(ds);
    var records, idx := Records(ds), RecordIdx(Records(ds));
    hide Records;
    hide Slices;
    hide RecordIdx;
    if group != [] {
      var n := |group| - 1;
      FoundAreKnown(ds, group[..n]);
      RecordsOfNext(records, idx, group, n);
      assert group[..n + 1] == group;
      assert group[n] in idx ==> group[n] in records;
    }
  }

  lemma {:induction false} NonemptyIsAsked(ds: seq<Dataset>, groups: seq<seq<string>>)
    ensures Nonempty(RecordIdx(Records(ds)), groups) == Asked(ds, groups)
  {
    if groups != [] {
      NonemptyIsAsked(ds, groups[..|groups| - 1]);
      FoundAreKnown(ds, groups[|groups| - 1]);
    }
  }

  lemma {:induction false} SliceOfRecord(ds: seq<Dataset>, id: string)
    requires Contiguous(ds) && id in RecordIdx(Records(ds))
    ensures RecordIdx(Records(ds))[id] < |Slices(ds)|
    ensures Slices(ds)[RecordIdx(Records(ds))[id]] == Uris(OfRecord(ds, id))
  {
    RecordsKnown(ds);
    AlignedIffContiguous(ds);
    DistinctIffContiguous(ds);
    OfRecordInRuns(ds, id);
    var runs := Runs(ds);
    var k :| 0 <= k < |Records(ds)| && Records(ds)[k] == id;
    assert Ids(runs)[k] == runs[k].recordID == id;
    forall i | 0 <= i < |runs| && i != k ensures runs[i].recordID != id {
      assert Ids(runs)[i] == runs[i].recordID;
    }
    TogetherOne(runs, k);
  }

  lemma {:induction false} FilesOfGroup(ds: seq<Dataset>, group: seq<string>)
    requires Contiguous(ds)
    ensures forall idx | idx in RecordIdx(Records(ds)).Values :: idx < |Records(ds)| && idx < |Slices(ds)|
    ensures DatasetsOf(Slices(ds), RecordIdx(Records(ds)), group) == FilesOf(ds, group)
  {
    RecordsKnown(ds);
    var slices, idx := Slices(ds), RecordIdx(Records(ds));
    if group != [] {
      var n := |group| - 1;
      FilesOfGroup(ds, group[..n]);
      if group[n] in idx {
        SliceOfRecord(ds, group[n]);
      }
      hide Records;
      hide Slices;
      hide RecordIdx;
      DatasetsOfNext(slices, idx, group, n);
      assert group[..n + 1] == group;
    }
  }

  /** The rows that the program builds are those of the specification of the two groupings. */
  ghost predicate Built(ds: seq<Dataset>, groups: seq<seq<string>>, files: seq<seq<string>>,
                        records: seq<seq<string>>) {
    var idx := RecordIdx(Records(ds));
    && (forall i | i in idx.Values :: i < |Records(ds)| && i < |Slices(ds)|)
    && RowsOf(Slices(ds), Records(ds), idx, Nonempty(idx, groups), files, records)
  }

  /** The records are the asked ones that have a dataset, whatever the order of the datasets; each row holds the
      datasets of its group when those of each record are contiguous. */
  lemma {:induction false} BuiltRows(ds: seq<Dataset>, groups: seq<seq<string>>, files: seq<seq<string>>,
                                     records: seq<seq<string>>)
    requires Built(ds, groups, files, records)
    ensures RightRecords(ds, groups, records)
    ensures Contiguous(ds) ==> RightFiles(ds, groups, files)
  {
    NonemptyIsAsked(ds, groups);
    var asked := Asked(ds, groups);
    forall k | 0 <= k < |asked|
      ensures records[k] == KnownOf(ds, asked[k])
      ensures Contiguous(ds) ==> files[k] == FilesOf(ds, asked[k])
    {
      FoundAreKnown(ds, asked[k]);
      if Contiguous(ds) {
        FilesOfGroup(ds, asked[k]);
      }
    }
  }

  // ----- Datasets that are not contiguous ----------------------------------

  lemma {:induction false} FirstRepeat(ids: seq<string>) returns (i: nat, j: nat)
    requires !NoDuplicate(ids)
    ensures i < j < |ids| && ids[i] == ids[j] && NoDuplicate(ids[..j])
  {
    var n := |ids| - 1;
    if NoDuplicate(ids[..n]) {
      assert ids == ids[..n] + [ids[n]];
      NoDuplicateSnoc(ids[..n], ids[n]);
      j := n;
      i :| 0 <= i < n && ids[..n][i] == ids[n];
    } else {
      i, j := FirstRepeat(ids[..n]);
      assert ids[..n][..j] == ids[..j];
    }
  }

  lemma {:induction false} DistinctStarts(ids: seq<string>, j: nat)
    requires j <= |ids| && NoDuplicate(ids[..j])
    ensures ids[..j] <= Distinct(ids, id => true)
  {
    if j == |ids| {
      assert ids[..j] == ids;
      DistinctOfDistinct(ids);
    } else {
      assert ids[..|ids| - 1][..j] == ids[..j];
      DistinctStarts(ids[..|ids| - 1], j);
    }
  }

  /** A record that comes back: its slice is its first run only. */
  lemma {:induction false} SliceTooShort(ds: seq<Dataset>) returns (id: string)
    requires !Contiguous(ds)
    ensures id in RecordIdx(Records(ds)) && RecordIdx(Records(ds))[id] < |Slices(ds)|
    ensures |Slices(ds)[RecordIdx(Records(ds))[id]]| < |OfRecord(ds, id)|
  {
    var runs := Runs(ds);
    DistinctIffContiguous(ds);
    var i, j := FirstRepeat(Ids(runs));
    id := Ids(runs)[i];
    DistinctStarts(Ids(runs), j);
    assert Records(ds)[i] == Ids(runs)[..j][i] == id;
    RecordsKnown(ds);
    OfRecordInRuns(ds, id);
    assert runs[i].recordID == id && runs[j].recordID == id;
    TogetherOne(runs, i);
  }

  /** The rows hold exactly the datasets of their groups, for all groups, exactly when the datasets of each record are
      contiguous. */
  lemma {:induction false} RightFilesIffContiguous(ds: seq<Dataset>)
    ensures Contiguous(ds) <==>
              forall groups, files, records | Built(ds, groups, files, records) :: RightFiles(ds, groups, files)
  {
    if Contiguous(ds) {
      forall groups, files, records | Built(ds, groups, files, records) ensures RightFiles(ds, groups, files) {
        BuiltRows(ds, groups, files, records);
      }
    } else {
      var id := SliceTooShort(ds);
      var files, records := BuiltAlone(ds, id);
      assert FilesOf(ds, [id]) == Uris(OfRecord(ds, id));
      assert Asked(ds, [[id]]) == [[id]];
      assert !RightFiles(ds, [[id]], files);
    }
  }

  lemma {:induction false} AskedAlone(ds: seq<Dataset>, id: string)
    requires OfRecord(ds, id) != []
    ensures Asked(ds, [[id]]) == [[id]]
  {
    assert [id][..0] == [] && [[id]][..0] == [];
    assert KnownOf(ds, [id]) == KnownOf(ds, []) + [id];
    assert Asked(ds, [[id]]) == Asked(ds, []) + [[id]];
  }

  lemma {:induction false} RowAlone<D>(slices: seq<seq<D>>, idx: map<string, nat>, id: string)
    requires id in idx && forall i | i in idx.Values :: i < |slices|
    ensures idx[id] in idx.Values && DatasetsOf(slices, idx, [id]) == slices[idx[id]]
  {
    DatasetsOfNext(slices, idx, [id], 0);
    assert [id][..1] == [id] && [id][..0] == [];
  }

  /** The row of a record that is asked alone. */
  lemma {:induction false} BuiltAlone(ds: seq<Dataset>, id: string)
      returns (files: seq<seq<string>>, records: seq<seq<string>>)
    requires id in RecordIdx(Records(ds))
    ensures RecordIdx(Records(ds))[id] < |Slices(ds)| && Asked(ds, [[id]]) == [[id]]
    ensures Built(ds, [[id]], files, records) && files == [Slices(ds)[RecordIdx(Records(ds))[id]]]
  {
    RecordsKnown(ds);
    NonemptyIsAsked(ds, [[id]]);
    AskedAlone(ds, id);
    hide Records;
    hide Slices;
    hide RecordIdx;
    hide Nonempty;
    var slices, idx := Slices(ds), RecordIdx(Records(ds));
    RowAlone(slices, idx, id);
    files := [DatasetsOf(slices, idx, [id])];
    records := [RecordsOf(Records(ds), idx, [id])];
  }

  /** The datasets come in the order of their records (by date, then by id), so they are contiguous. */
  lemma SortedIsContiguous(ds: seq<Dataset>, notAfter: (string, string) -> bool)
    requires forall x, y | notAfter(x, y) && notAfter(y, x) :: x == y
    requires forall i, j | 0 <= i < j < |ds| :: notAfter(ds[i].recordID, ds[j].recordID)
    ensures Contiguous(ds)
  {
  }

  // ----- The whole request -------------------------------------------------

  method IndexRecords(records: seq<string>) returns (recordIdx: map<string, nat>)
    ensures recordIdx == RecordIdx(records)
  {
    recordIdx := map[];
    for i := 0 to |records|
      invariant recordIdx == RecordIdx(records[..i])
    {
      assert records[..i + 1][..i] == records[..i];
      recordIdx := recordIdx[records[i] := i];
    }
    assert records[..|records|] == records;
  }

  /** Groups the datasets that were found by record, then by group of records. */
  method GroupDatasets(datasets: seq<Dataset>, groups: seq<seq<string>>)
      returns (files: seq<seq<string>>, records: seq<seq<string>>)
    ensures Built(datasets, groups, files, records)
    ensures RightRecords(datasets, groups, records)
    ensures Contiguous(datasets) ==> RightFiles(datasets, groups, files)
    ensures Contiguous(datasets) ==> |files| == |Asked(datasets, groups)| && forall k, file | 0 <= k < |files| ::
              file in files[k] <==> exists i | 0 <= i < |datasets| ::
                                      datasets[i].uri == file && datasets[i].recordID in Asked(datasets, groups)[k]
  {
    var slices, ids := GroupDatasetsByRecord(datasets);
    assert slices == Slices(datasets);
    var known := Distinct(ids, id => true);
    assert known == Records(datasets);
    RecordsKnown(datasets);
    var recordIdx := IndexRecords(known);
    files, records := GroupDatasetsByRecordsGroup(slices, known, recordIdx, groups);
    BuiltRows(datasets, groups, files, records);
    if Contiguous(datasets) {
      forall k, file | 0 <= k < |files|
        ensures file in files[k] <==> exists i | 0 <= i < |datasets| ::
                  datasets[i].uri == file && datasets[i].recordID in Asked(datasets, groups)[k]
      {
        FileOfGroupIff(datasets, Asked(datasets, groups)[k], file);
      }
    }
  }
}
