/** Grouping the datasets of a cube by record, then by group of records. */
module Grouping {
  import opened Sequences

  datatype Dataset = Dataset(recordID: string, uri: string)

  predicate NoDuplicate<T(==)>(xs: seq<T>) {
    forall i, j | 0 <= i < j < |xs| :: xs[i] != xs[j]
  }

  // ----- Runs of a record --------------------------------------------------

  /** Consecutive datasets of one record. */
  datatype Run = Run(recordID: string, datasets: seq<Dataset>)

  /** One dataset more: it extends the last run or starts a new one. */
  function Extended(runs: seq<Run>, d: Dataset): seq<Run> {
    var n := |runs|;
    if n > 0 && runs[n - 1].recordID == d.recordID
    then runs[..n - 1] + [Run(d.recordID, runs[n - 1].datasets + [d])]
    else runs + [Run(d.recordID, [d])]
  }

  /** The maximal runs of datasets of the same record. */
  function Runs(ds: seq<Dataset>): seq<Run> {
    if ds == [] then [] else Extended(Runs(ds[..|ds| - 1]), ds[|ds| - 1])
  }

  function Parts(runs: seq<Run>): seq<seq<Dataset>> {
    seq(|runs|, k requires 0 <= k < |runs| => runs[k].datasets)
  }

  /** The record of each run. */
  function Ids(runs: seq<Run>): seq<string> {
    seq(|runs|, k requires 0 <= k < |runs| => runs[k].recordID)
  }

  function Uris(ds: seq<Dataset>): seq<string> {
    seq(|ds|, i requires 0 <= i < |ds| => ds[i].uri)
  }

  ghost predicate IsRun(run: Run) {
    run.datasets != [] && forall i | 0 <= i < |run.datasets| :: run.datasets[i].recordID == run.recordID
  }

  lemma {:induction false} FlattenExtended(runs: seq<Run>, d: Dataset)
    ensures Flatten(Parts(Extended(runs, d))) == Flatten(Parts(runs)) + [d]
  {
    var n := |runs|;
    var parts, parts' := Parts(runs), Parts(Extended(runs, d));
    if n > 0 && runs[n - 1].recordID == d.recordID {
      assert parts'[..n - 1] == parts[..n - 1];
    } else {
      assert parts'[..n] == parts;
    }
  }

  /** Groups of one record each, that cannot be merged. */
  ghost predicate Maximal(runs: seq<Run>) {
    && (forall k | 0 <= k < |runs| :: IsRun(runs[k]))
    && (forall k | 0 < k < |runs| :: runs[k - 1].recordID != runs[k].recordID)
  }

  lemma {:induction false} ExtendedMaximal(runs: seq<Run>, d: Dataset)
    requires Maximal(runs)
    ensures Maximal(Extended(runs, d))
    ensures Extended(runs, d) != [] && Extended(runs, d)[|Extended(runs, d)| - 1].recordID == d.recordID
  {
    var n, runs' := |runs|, Extended(runs, d);
    forall k | 0 <= k < |runs'| ensures IsRun(runs'[k]) {
      if k < n {
        assert IsRun(runs[k]);
      }
    }
  }

  /** The runs partition the datasets, in order, into maximal groups of one record each. */
  lemma {:induction false} RunsPartition(ds: seq<Dataset>)
    ensures Flatten(Parts(Runs(ds))) == ds
    ensures Maximal(Runs(ds))
    ensures ds != [] ==> Runs(ds) != [] && Runs(ds)[|Runs(ds)| - 1].recordID == ds[|ds| - 1].recordID
  {
    if ds == [] {
    } else {
      RunsPartition(ds[..|ds| - 1]);
      FlattenExtended(Runs(ds[..|ds| - 1]), ds[|ds| - 1]);
      ExtendedMaximal(Runs(ds[..|ds| - 1]), ds[|ds| - 1]);
      assert ds[..|ds| - 1] + [ds[|ds| - 1]] == ds;
    }
  }

  /** Between two datasets of a record there is no dataset of another one. */
  ghost predicate Contiguous(ds: seq<Dataset>) {
    forall i, j, k | 0 <= i < j < k < |ds| && ds[i].recordID == ds[k].recordID :: ds[j].recordID == ds[i].recordID
  }

  /** The record of the last dataset comes back in `front`. */
  ghost predicate ComesBack(front: seq<Dataset>, d: Dataset) {
    && front != [] && front[|front| - 1].recordID != d.recordID
    && exists i | 0 <= i < |front| :: front[i].recordID == d.recordID
  }

  lemma {:induction false} ContiguousSnoc(ds: seq<Dataset>)
    requires ds != []
    ensures Contiguous(ds) <==> Contiguous(ds[..|ds| - 1]) && !ComesBack(ds[..|ds| - 1], ds[|ds| - 1])
  {
  }

  lemma {:induction false} IdInRuns(ds: seq<Dataset>, id: string)
    ensures id in Ids(Runs(ds)) <==> exists i | 0 <= i < |ds| :: ds[i].recordID == id
  {
    RunsPartition(ds);
    var runs := Runs(ds);
    if id in Ids(runs) {
      var k: nat :| k < |runs| && runs[k].recordID == id;
      assert IsRun(runs[k]);
      var d := runs[k].datasets[0];
      InFlatten(Parts(runs), k, d);
      var i :| 0 <= i < |ds| && ds[i] == d;
    }
    if i :| 0 <= i < |ds| && ds[i].recordID == id {
      var k := FromFlatten(Parts(runs), ds[i]);
      assert IsRun(runs[k]);
      assert Ids(runs)[k] == id;
    }
  }

  /** The runs are those of distinct records exactly when the datasets of each record are contiguous. */
  lemma {:induction false} DistinctIffContiguous(ds: seq<Dataset>)
    ensures NoDuplicate(Ids(Runs(ds))) <==> Contiguous(ds)
  {
    if ds != [] {
      var front, d := ds[..|ds| - 1], ds[|ds| - 1];
      DistinctIffContiguous(front);
      ContiguousSnoc(ds);
      IdInRuns(front, d.recordID);
      RunsPartition(front);
      ExtendedIds(Runs(front), d);
      NoDuplicateSnoc(Ids(Runs(front)), d.recordID);
    }
  }

  lemma ExtendedIds(runs: seq<Run>, d: Dataset)
    ensures Ids(Extended(runs, d)) ==
              if |runs| > 0 && runs[|runs| - 1].recordID == d.recordID then Ids(runs) else Ids(runs) + [d.recordID]
  {
  }

  lemma {:induction false} NoDuplicateSnoc<T>(xs: seq<T>, x: T)
    ensures NoDuplicate(xs + [x]) <==> NoDuplicate(xs) && x !in xs
  {
    var ys := xs + [x];
    assert forall i | 0 <= i < |xs| :: ys[i] == xs[i];
    if NoDuplicate(ys) {
      assert forall i | 0 <= i < |xs| :: ys[i] != ys[|xs|];
    }
  }

  lemma {:induction false} DistinctOfDistinct(ids: seq<string>)
    ensures |Distinct(ids, id => true)| <= |ids|
    ensures NoDuplicate(ids) <==> |Distinct(ids, id => true)| == |ids|
    ensures NoDuplicate(ids) ==> Distinct(ids, id => true) == ids
  {
    if ids != [] {
      var front := ids[..|ids| - 1];
      DistinctOfDistinct(front);
      DistinctIsASet(front, id => true);
      assert front + [ids[|ids| - 1]] == ids;
      NoDuplicateSnoc(front, ids[|ids| - 1]);
    }
  }

  /** `ReadRecords` returns the records of the ids without the duplicates: they align one to one with the groups exactly
      when the datasets of each record are contiguous. */
  lemma {:induction false} AlignedIffContiguous(ds: seq<Dataset>)
    ensures |Distinct(Ids(Runs(ds)), id => true)| == |Runs(ds)| <==> Contiguous(ds)
    ensures Contiguous(ds) ==> Distinct(Ids(Runs(ds)), id => true) == Ids(Runs(ds))
  {
    DistinctIffContiguous(ds);
    DistinctOfDistinct(Ids(Runs(ds)));
  }

  lemma {:induction false} RunsSnoc(ds: seq<Dataset>, d: Dataset)
    ensures Runs(ds + [d]) == Extended(Runs(ds), d)
  {
  }

  lemma {:induction false} ExtendLast(runs: seq<Run>, run: seq<Dataset>, d: Dataset)
    ensures Extended(runs + [Run(d.recordID, run)], d) == runs + [Run(d.recordID, run + [d])]
  {
  }

  /** Datasets of a new record make one run more. */
  lemma {:induction false} RunsOfRun(before: seq<Dataset>, run: seq<Dataset>, recordID: string)
    requires run != [] && forall k | 0 <= k < |run| :: run[k].recordID == recordID
    requires before != [] ==> before[|before| - 1].recordID != recordID
    ensures Runs(before + run) == Runs(before) + [Run(recordID, run)]
  {
    hide Runs;
    hide Extended;
    var n := |run| - 1;
    var front, d := run[..n], run[n];
    assert before + run == (before + front) + [d];
    RunsSnoc(before + front, d);
    if n == 0 {
      assert before + front == before && run == [d];
      NewRun(before, d);
    } else {
      RunsOfRun(before, front, recordID);
      assert front + [d] == run;
      ExtendLast(Runs(before), front, d);
    }
  }

  lemma {:induction false} NewRun(before: seq<Dataset>, d: Dataset)
    requires before != [] ==> before[|before| - 1].recordID != d.recordID
    ensures Extended(Runs(before), d) == Runs(before) + [Run(d.recordID, [d])]
  {
  }

  /** The datasets that follow `start` and have the same record, and where they end. */
  method TakeRun(datasets: seq<Dataset>, start: nat) returns (ds: seq<string>, i: nat)
    requires start < |datasets|
    ensures start < i <= |datasets| && ds == Uris(datasets[start..i])
    ensures |ds| == i - start && forall k | 0 <= k < |ds| :: ds[k] == datasets[start + k].uri
    ensures forall k | start <= k < i :: datasets[k].recordID == datasets[start].recordID
    ensures i < |datasets| ==> datasets[i].recordID != datasets[start].recordID
  {
    ds, i := [], start;
    while i < |datasets| && datasets[i].recordID == datasets[start].recordID
      invariant start <= i <= |datasets|
      invariant forall k | start <= k < i :: datasets[k].recordID == datasets[start].recordID
      invariant ds == Uris(datasets[start..i])
    {
      assert datasets[start..i + 1] == datasets[start..i] + [datasets[i]];
      ds := ds + [datasets[i].uri];
      i := i + 1;
    }
  }

  lemma {:induction false} RunTaken(datasets: seq<Dataset>, start: nat, i: nat)
    requires start < i <= |datasets|
    requires forall k | start <= k < i :: datasets[k].recordID == datasets[start].recordID
    requires start > 0 ==> datasets[start - 1].recordID != datasets[start].recordID
    ensures Runs(datasets[..i]) == Runs(datasets[..start]) + [Run(datasets[start].recordID, datasets[start..i])]
  {
    RunsOfRun(datasets[..start], datasets[start..i], datasets[start].recordID);
    assert datasets[..start] + datasets[start..i] == datasets[..i];
  }

  /** The slice of each run of datasets, and the record of each. */
  method GroupDatasetsByRecord(datasets: seq<Dataset>) returns (slices: seq<seq<string>>, recordsID: seq<string>)
    ensures |slices| == |Runs(datasets)|
    ensures forall k | 0 <= k < |slices| :: slices[k] == Uris(Runs(datasets)[k].datasets)
    ensures recordsID == Ids(Runs(datasets))
  {
    slices, recordsID := [], [];
    var i := 0;
    ghost var runs: seq<Run> := [];
    assert Runs(datasets[..0]) == [];
    hide Runs;
    while i < |datasets|
      invariant 0 <= i <= |datasets|
      invariant runs == Runs(datasets[..i])
      invariant 0 < i < |datasets| ==> datasets[i - 1].recordID != datasets[i].recordID
      invariant |slices| == |runs| && forall k | 0 <= k < |runs| :: slices[k] == Uris(runs[k].datasets)
      invariant recordsID == Ids(runs)
    {
      ghost var start := i;
      var recordID := datasets[i].recordID;
      var ds;
      ds, i := TakeRun(datasets, i);
      RunTaken(datasets, start, i);
      runs := runs + [Run(recordID, datasets[start..i])];
      slices := slices + [ds];
      recordsID := recordsID + [recordID];
    }
    assert datasets[..|datasets|] == datasets;
  }

  // ----- Groups of records -------------------------------------------------

  /** The indices of the known ids of a group, in order. */
  function Found(recordIdx: map<string, nat>, group: seq<string>): (found: seq<nat>)
    ensures forall i | 0 <= i < |found| :: found[i] in recordIdx.Values
  {
    if group == [] then []
    else
      var id := group[|group| - 1];
      Found(recordIdx, group[..|group| - 1]) + if id in recordIdx then [recordIdx[id]] else []
  }

  function Pick<T>(xs: seq<T>, found: seq<nat>): seq<T>
    requires forall i | 0 <= i < |found| :: found[i] < |xs|
  {
    seq(|found|, i requires 0 <= i < |found| => xs[found[i]])
  }

  /** The groups that have at least one known id. */
  function Nonempty(recordIdx: map<string, nat>, groups: seq<seq<string>>): seq<seq<string>> {
    if groups == [] then []
    else
      var g := groups[|groups| - 1];
      Nonempty(recordIdx, groups[..|groups| - 1]) + if Found(recordIdx, g) != [] then [g] else []
  }

  /** The known records of a group. */
  function RecordsOf<R>(records: seq<R>, recordIdx: map<string, nat>, group: seq<string>): (rs: seq<R>)
    requires forall idx | idx in recordIdx.Values :: idx < |records|
    ensures |rs| == |Found(recordIdx, group)|
  {
    Pick(records, Found(recordIdx, group))
  }

  /** Their datasets, end to end. */
  function DatasetsOf<D>(datasetsByRecord: seq<seq<D>>, recordIdx: map<string, nat>, group: seq<string>): (ds: seq<D>)
    requires forall idx | idx in recordIdx.Values :: idx < |datasetsByRecord|
    ensures Found(recordIdx, group) == [] ==> ds == []
  {
    Flatten(Pick(datasetsByRecord, Found(recordIdx, group)))
  }

  lemma {:induction false} RecordsOfNext<R>(records: seq<R>, recordIdx: map<string, nat>, group: seq<string>, m: nat)
    requires m < |group| && forall idx | idx in recordIdx.Values :: idx < |records|
    ensures group[m] in recordIdx ==> recordIdx[group[m]] in recordIdx.Values
    ensures RecordsOf(records, recordIdx, group[..m + 1]) ==
              RecordsOf(records, recordIdx, group[..m]) +
              if group[m] in recordIdx then [records[recordIdx[group[m]]]] else []
  {
    assert group[..m + 1][..m] == group[..m];
  }

  lemma {:induction false} DatasetsOfNext<D>(datasetsByRecord: seq<seq<D>>, recordIdx: map<string, nat>,
                                             group: seq<string>, m: nat)
    requires m < |group| && forall idx | idx in recordIdx.Values :: idx < |datasetsByRecord|
    ensures group[m] in recordIdx ==> recordIdx[group[m]] in recordIdx.Values
    ensures DatasetsOf(datasetsByRecord, recordIdx, group[..m + 1]) ==
              DatasetsOf(datasetsByRecord, recordIdx, group[..m]) +
              if group[m] in recordIdx then datasetsByRecord[recordIdx[group[m]]] else []
  {
    assert group[..m + 1][..m] == group[..m];
    if group[m] in recordIdx {
      assert recordIdx[group[m]] in recordIdx.Values;
      var found := Found(recordIdx, group[..m]);
      var picked := Pick(datasetsByRecord, found + [recordIdx[group[m]]]);
      assert Found(recordIdx, group[..m + 1]) == found + [recordIdx[group[m]]];
      assert picked[..|found|] == Pick(datasetsByRecord, found);
      assert picked[|found|] == datasetsByRecord[recordIdx[group[m]]];
    } else {
      assert Found(recordIdx, group[..m + 1]) == Found(recordIdx, group[..m]);
    }
  }

  /** Appends the known records of a group, and their datasets, to row `i` of two tables. */
  method AppendGroup<D, R>(rows: array<seq<R>>, ds: array<seq<D>>, i: nat, group: seq<string>,
                           datasetsByRecord: seq<seq<D>>, records: seq<R>, recordIdx: map<string, nat>)
    requires (rows as object) != ds && i < rows.Length == ds.Length
    requires forall idx | idx in recordIdx.Values :: idx < |records| && idx < |datasetsByRecord|
    modifies rows, ds
    ensures rows[..] == old(rows[..])[i := old(rows[i]) + RecordsOf(records, recordIdx, group)]
    ensures ds[..] == old(ds[..])[i := old(ds[i]) + DatasetsOf(datasetsByRecord, recordIdx, group)]
  {
    ghost var row, dss := rows[i], ds[i];
    assert row + RecordsOf(records, recordIdx, group[..0]) == row;
    assert dss + DatasetsOf(datasetsByRecord, recordIdx, group[..0]) == dss;
    hide RecordsOf;
    hide DatasetsOf;
    hide Found;
    for m := 0 to |group|
      invariant rows[..] == old(rows[..])[i := row + RecordsOf(records, recordIdx, group[..m])]
      invariant ds[..] == old(ds[..])[i := dss + DatasetsOf(datasetsByRecord, recordIdx, group[..m])]
    {
      RecordsOfNext(records, recordIdx, group, m);
      DatasetsOfNext(datasetsByRecord, recordIdx, group, m);
      if group[m] in recordIdx {
        var idx := recordIdx[group[m]];
        assert rows[..][i] == rows[i] && ds[..][i] == ds[i];
        rows[i] := rows[i] + [records[idx]];
        ds[i] := ds[i] + datasetsByRecord[idx];
      }
      assert rows[i] == row + RecordsOf(records, recordIdx, group[..m + 1]);
      assert ds[i] == dss + DatasetsOf(datasetsByRecord, recordIdx, group[..m + 1]);
    }
    assert group[..|group|] == group;
  }

  lemma {:induction false} NonemptyNext(recordIdx: map<string, nat>, groups: seq<seq<string>>, g: nat)
    requires g < |groups|
    ensures Nonempty(recordIdx, groups[..g + 1]) ==
              Nonempty(recordIdx, groups[..g]) + if Found(recordIdx, groups[g]) != [] then [groups[g]] else []
  {
    assert groups[..g + 1][..g] == groups[..g];
  }

  /** Row `k` holds the known records and the datasets of group `k`. */
  ghost predicate RowsOf<D, R>(datasetsByRecord: seq<seq<D>>, records: seq<R>, recordIdx: map<string, nat>,
                               groups: seq<seq<string>>, newDatasets: seq<seq<D>>, grecords: seq<seq<R>>)
    requires forall idx | idx in recordIdx.Values :: idx < |records| && idx < |datasetsByRecord|
  {
    && |grecords| == |newDatasets| == |groups|
    && (forall k | 0 <= k < |groups| :: grecords[k] == RecordsOf(records, recordIdx, groups[k]))
    && (forall k | 0 <= k < |groups| :: newDatasets[k] == DatasetsOf(datasetsByRecord, recordIdx, groups[k]))
  }

  lemma {:induction false} RowsOfSnoc<D, R>(datasetsByRecord: seq<seq<D>>, records: seq<R>, recordIdx: map<string, nat>,
                                            groups: seq<seq<string>>, newDatasets: seq<seq<D>>, grecords: seq<seq<R>>,
                                            group: seq<string>)
    requires forall idx | idx in recordIdx.Values :: idx < |records| && idx < |datasetsByRecord|
    requires RowsOf(datasetsByRecord, records, recordIdx, groups, newDatasets, grecords)
    ensures RowsOf(datasetsByRecord, records, recordIdx, groups + [group],
                   newDatasets + [DatasetsOf(datasetsByRecord, recordIdx, group)],
                   grecords + [RecordsOf(records, recordIdx, group)])
  {
  }

  /** A table whose first rows are done and whose other rows are still empty. */
  ghost predicate Compacted<T>(table: seq<seq<T>>, done: seq<seq<T>>) {
    && |done| <= |table| && table[..|done|] == done
    && forall k | |done| <= k < |table| :: table[k] == []
  }

  lemma {:induction false} CompactedNext<T>(table: seq<seq<T>>, done: seq<seq<T>>, row: seq<T>)
    requires Compacted(table, done) && |done| < |table|
    ensures var table' := table[|done| := table[|done|] + row];
            && table'[|done|] == row && Compacted(table', done + [row])
            && (row == [] ==> Compacted(table', done))
  {
  }

  lemma CompactedPrefix<T>(table: seq<seq<T>>, done: seq<seq<T>>)
    requires Compacted(table, done)
    ensures |done| <= |table| && table[..|done|] == done
  {
  }

  /** Maps each group to its known records and datasets in the order of the group, and drops the empty groups, by
      compacting in place two tables that have one row per group. */
  method GroupDatasetsByRecordsGroup<D, R>(datasetsByRecord: seq<seq<D>>, records: seq<R>, recordIdx: map<string, nat>,
                                           recordGroups: seq<seq<string>>)
      returns (newDatasets: seq<seq<D>>, grecords: seq<seq<R>>)
    requires forall idx | idx in recordIdx.Values :: idx < |records| && idx < |datasetsByRecord|
    ensures RowsOf(datasetsByRecord, records, recordIdx, Nonempty(recordIdx, recordGroups), newDatasets, grecords)
  {
    var rows := new seq<R>[|recordGroups|](_ => []);
    var ds := new seq<D>[|recordGroups|](_ => []);
    var i := 0;
    ghost var kept: seq<seq<string>>, doneRows: seq<seq<R>>, doneDs: seq<seq<D>> := [], [], [];
    assert Nonempty(recordIdx, recordGroups[..0]) == [];
    hide RecordsOf;
    hide DatasetsOf;
    hide Found;
    hide Nonempty;
    assert RowsOf(datasetsByRecord, records, recordIdx, kept, doneDs, doneRows);
    hide RowsOf;
    hide Compacted;
    for g := 0 to |recordGroups|
      invariant i == |kept| == |doneRows| == |doneDs| <= g
      invariant kept == Nonempty(recordIdx, recordGroups[..g])
      invariant RowsOf(datasetsByRecord, records, recordIdx, kept, doneDs, doneRows)
      invariant Compacted(rows[..], doneRows) && Compacted(ds[..], doneDs)
    {
      ghost var row := RecordsOf(records, recordIdx, recordGroups[g]);
      ghost var dss := DatasetsOf(datasetsByRecord, recordIdx, recordGroups[g]);
      CompactedNext(rows[..], doneRows, row);
      CompactedNext(ds[..], doneDs, dss);
      NonemptyNext(recordIdx, recordGroups, g);
      AppendGroup(rows, ds, i, recordGroups[g], datasetsByRecord, records, recordIdx);
      if |rows[i]| > 0 {
        RowsOfSnoc(datasetsByRecord, records, recordIdx, kept, doneDs, doneRows, recordGroups[g]);
        kept, doneRows, doneDs := kept + [recordGroups[g]], doneRows + [row], doneDs + [dss];
        i := i + 1;
      }
    }
    assert recordGroups[..|recordGroups|] == recordGroups;
    CompactedPrefix(rows[..], doneRows);
    CompactedPrefix(ds[..], doneDs);
    newDatasets, grecords := ds[..i], rows[..i];
  }

  lemma {:induction false} FoundConcat(recordIdx: map<string, nat>, g: seq<string>, g': seq<string>)
    ensures Found(recordIdx, g + g') == Found(recordIdx, g) + Found(recordIdx, g')
  {
    if g' == [] {
      assert g + g' == g;
    } else {
      FoundConcat(recordIdx, g, g'[..|g'| - 1]);
      assert (g + g')[..|g| + |g'| - 1] == g + g'[..|g'| - 1];
    }
  }

  /** Dropping the groups without a known id loses no known id. */
  lemma {:induction false} NonemptyFindsAll(recordIdx: map<string, nat>, groups: seq<seq<string>>)
    ensures Found(recordIdx, Flatten(Nonempty(recordIdx, groups))) == Found(recordIdx, Flatten(groups))
  {
    if groups != [] {
      var n := |groups| - 1;
      NonemptyFindsAll(recordIdx, groups[..n]);
      FoundConcat(recordIdx, Flatten(groups[..n]), groups[n]);
      var before := Nonempty(recordIdx, groups[..n]);
      if Found(recordIdx, groups[n]) != [] {
        FoundConcat(recordIdx, Flatten(before), groups[n]);
        assert (before + [groups[n]])[..|before|] == before;
        assert Nonempty(recordIdx, groups) == before + [groups[n]];
      } else {
        assert Nonempty(recordIdx, groups) == before;
      }
    }
  }

  lemma {:induction false} RowOfConcat<D, R>(datasetsByRecord: seq<seq<D>>, records: seq<R>,
                                             recordIdx: map<string, nat>,
                                             g: seq<string>, g': seq<string>)
    requires forall idx | idx in recordIdx.Values :: idx < |records| && idx < |datasetsByRecord|
    ensures RecordsOf(records, recordIdx, g + g') ==
              RecordsOf(records, recordIdx, g) + RecordsOf(records, recordIdx, g')
    ensures DatasetsOf(datasetsByRecord, recordIdx, g + g') ==
              DatasetsOf(datasetsByRecord, recordIdx, g) + DatasetsOf(datasetsByRecord, recordIdx, g')
  {
    FoundConcat(recordIdx, g, g');
    var f, f' := Found(recordIdx, g), Found(recordIdx, g');
    assert Pick(datasetsByRecord, f + f') == Pick(datasetsByRecord, f) + Pick(datasetsByRecord, f');
    FlattenConcat(Pick(datasetsByRecord, f), Pick(datasetsByRecord, f'));
  }

  /** Rows put end to end are the row of their groups put end to end. */
  lemma {:induction false} RowsFlatten<D, R>(datasetsByRecord: seq<seq<D>>, records: seq<R>,
                                             recordIdx: map<string, nat>,
                                             groups: seq<seq<string>>, newDatasets: seq<seq<D>>, grecords: seq<seq<R>>)
    requires forall idx | idx in recordIdx.Values :: idx < |records| && idx < |datasetsByRecord|
    requires RowsOf(datasetsByRecord, records, recordIdx, groups, newDatasets, grecords)
    ensures Flatten(grecords) == RecordsOf(records, recordIdx, Flatten(groups))
    ensures Flatten(newDatasets) == DatasetsOf(datasetsByRecord, recordIdx, Flatten(groups))
  {
    if groups != [] {
      var n := |groups| - 1;
      RowOfConcat(datasetsByRecord, records, recordIdx, Flatten(groups[..n]), groups[n]);
      hide RecordsOf;
      hide DatasetsOf;
      RowsFlatten(datasetsByRecord, records, recordIdx, groups[..n], newDatasets[..n], grecords[..n]);
    }
  }

  /** Nothing is lost and nothing moves: put end to end, the two compacted tables hold the known records of all the
      groups and their datasets, in order. */
  lemma {:induction false} KeptInOrder<D, R>(datasetsByRecord: seq<seq<D>>, records: seq<R>,
                                             recordIdx: map<string, nat>,
                                             groups: seq<seq<string>>, newDatasets: seq<seq<D>>, grecords: seq<seq<R>>)
    requires forall idx | idx in recordIdx.Values :: idx < |records| && idx < |datasetsByRecord|
    requires RowsOf(datasetsByRecord, records, recordIdx, Nonempty(recordIdx, groups), newDatasets, grecords)
    ensures var found := Found(recordIdx, Flatten(groups));
            Flatten(grecords) == Pick(records, found) && Flatten(newDatasets) == Flatten(Pick(datasetsByRecord, found))
  {
    RowsFlatten(datasetsByRecord, records, recordIdx, Nonempty(recordIdx, groups), newDatasets, grecords);
    NonemptyFindsAll(recordIdx, groups);
  }

  lemma {:induction false} FoundOnce(recordIdx: map<string, nat>, ids: seq<string>)
    requires NoDuplicate(ids)
    requires forall id, id' | id in recordIdx && id' in recordIdx && recordIdx[id] == recordIdx[id'] :: id == id'
    ensures NoDuplicate(Found(recordIdx, ids))
    ensures forall id | id in recordIdx :: recordIdx[id] in Found(recordIdx, ids) <==> id in ids
  {
    if ids != [] {
      var front, id := ids[..|ids| - 1], ids[|ids| - 1];
      FoundOnce(recordIdx, front);
      assert front + [id] == ids;
      NoDuplicateSnoc(front, id);
      if id in recordIdx {
        NoDuplicateSnoc(Found(recordIdx, front), recordIdx[id]);
      }
    }
  }

  /** If no id is asked twice, the compacted table holds each record that is asked exactly once, and no other. */
  lemma {:induction false} KeptOnce<D, R>(datasetsByRecord: seq<seq<D>>, records: seq<R>, recordIdx: map<string, nat>,
                                          groups: seq<seq<string>>, newDatasets: seq<seq<D>>, grecords: seq<seq<R>>)
    requires forall idx | idx in recordIdx.Values :: idx < |records| && idx < |datasetsByRecord|
    requires RowsOf(datasetsByRecord, records, recordIdx, Nonempty(recordIdx, groups), newDatasets, grecords)
    requires forall id, id' | id in recordIdx && id' in recordIdx && recordIdx[id] == recordIdx[id'] :: id == id'
    requires NoDuplicate(records) && NoDuplicate(Flatten(groups))
    ensures NoDuplicate(Flatten(grecords))
    ensures forall id | id in recordIdx && recordIdx[id] < |records| ::
              records[recordIdx[id]] in Flatten(grecords) <==> id in Flatten(groups)
  {
    KeptInOrder(datasetsByRecord, records, recordIdx, groups, newDatasets, grecords);
    FoundOnce(recordIdx, Flatten(groups));
    var ids := Flatten(groups);
    PickedOnce(records, Found(recordIdx, ids));
    hide *;
    forall id | id in recordIdx && recordIdx[id] < |records|
      ensures records[recordIdx[id]] in Flatten(grecords) <==> id in ids
    {
      assert records[recordIdx[id]] in Pick(records, Found(recordIdx, ids)) <==> recordIdx[id] in Found(recordIdx, ids);
    }
  }

  lemma {:induction false} PickedOnce<T>(xs: seq<T>, found: seq<nat>)
    requires NoDuplicate(xs) && NoDuplicate(found) && forall i | 0 <= i < |found| :: found[i] < |xs|
    ensures NoDuplicate(Pick(xs, found))
    ensures forall k: nat | k < |xs| :: xs[k] in Pick(xs, found) <==> k in found
  {
    var picked := Pick(xs, found);
    forall k: nat | k < |xs| ensures xs[k] in picked <==> k in found {
      if xs[k] in picked {
        var i :| 0 <= i < |picked| && picked[i] == xs[k];
        assert found[i] == k;
      }
      if k in found {
        var i :| 0 <= i < |found| && found[i] == k;
        assert picked[i] == xs[k];
      }
    }
  }
}
