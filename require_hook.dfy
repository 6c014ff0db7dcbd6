/**
 * `combineCoverageDataForGeneratedFiles` and the table rewrite done by the
 * `writeCoverageFile` wrapper: the records of the files extracted from the
 * document are merged into one record filed under the document's path, with
 * every line number moved from the generated file into the document.
 *
 * The global table, the manifest (with each entry's resolved path) and the
 * document's resolved path are parameters; the rewritten table is the result.
 */
module RequireHook {
  import opened JsObjects
  import opened Coverage
  import opened KeyCombiner
  import opened LineShift
  import Sums

  // ----- The six categories `combine` is asked for -----

  function SelS(r: FileCoverage): Obj<int> { r.s }
  function SelB(r: FileCoverage): Obj<seq<int>> { r.b }
  function SelF(r: FileCoverage): Obj<int> { r.f }
  function SelStatementMap(r: FileCoverage): Obj<Range> { r.statementMap }
  function SelFnMap(r: FileCoverage): Obj<FnMeta> { r.fnMap }
  function SelBranchMap(r: FileCoverage): Obj<BranchMeta> { r.branchMap }

  // ----- Shifting -----

  /** `keyBy(mappingData, file => file.path)` */
  function ManifestIndex(mapping: seq<Artifact>): Obj<Artifact> {
    KeyBy(mapping, ArtifactPath)
  }

  /**
   * `shiftFactory(filePath)`: the adder of the manifest entry filed under
   * `filePath`. A path missing from the index would make the lookup throw;
   * `combine` only ever asks for the files picked from the manifest, so the
   * no-shift fallback is never taken (see `PickedFilesIndexed`).
   */
  function ShiftFor(index: Obj<Artifact>, filePath: string): int -> int {
    if filePath in index.vals then Adder(index.vals[filePath].sourceLine) else Adder(1)
  }

  /** `withAdder(addLoc)` */
  function StatementFixer(index: Obj<Artifact>): (Range, string) -> Range {
    (loc: Range, fileName: string) => AddLoc(loc, ShiftFor(index, fileName))
  }

  /** `withAdder(add => ({line: add, loc: addLoc(add)}))` */
  function FnFixer(index: Obj<Artifact>): (FnMeta, string) -> FnMeta {
    (fn: FnMeta, fileName: string) => AddFnLines(fn, ShiftFor(index, fileName))
  }

  /** `withAdder(add => ({line: add, locations: u.map(addLoc(add))}))` */
  function BranchFixer(index: Obj<Artifact>): (BranchMeta, string) -> BranchMeta {
    (br: BranchMeta, fileName: string) => AddBranchLines(br, ShiftFor(index, fileName))
  }

  /** Every file of a manifest is in its index. */
  lemma ManifestIndexed(mapping: seq<Artifact>, k: string)
    requires k in GeneratedPaths(mapping)
    ensures k in ManifestIndex(mapping).vals
  {
    var i :| 0 <= i < |mapping| && GeneratedPaths(mapping)[i] == k;
    assert ArtifactPath(mapping[i]) == k;
    KeyByDomain(mapping, ArtifactPath, k);
  }

  /**
   * The shift applied to a generated file is the one of the last manifest
   * entry with its path: generated line `x` goes to `x + sourceLine - 1`.
   */
  lemma ShiftOfEntry(mapping: seq<Artifact>, i: nat, x: int)
    requires i < |mapping|
    requires forall j :: i < j < |mapping| ==> mapping[j].path != mapping[i].path
    ensures ShiftFor(ManifestIndex(mapping), mapping[i].path)(x) == x + mapping[i].sourceLine - 1
  {
    KeyByLast(mapping, ArtifactPath, i);
  }

  // ----- The merged record -----

  /** Every record of a well-formed table holds its six categories. */
  lemma TableSelects(data: Table)
    requires TableValid(data)
    ensures Selects(data, SelS) && Selects(data, SelB) && Selects(data, SelF)
    ensures Selects(data, SelStatementMap) && Selects(data, SelFnMap) && Selects(data, SelBranchMap)
  {
  }

  /** The record `combineCoverageDataForGeneratedFiles` files under `resultPath`. */
  function MergedRecord(data: Table, resultPath: string, mapping: seq<Artifact>): FileCoverage
    requires TableValid(data)
  {
    var index := ManifestIndex(mapping);
    FileCoverage(
      resultPath,
      Combined(data, SelS, Keep),
      Combined(data, SelB, Keep),
      Combined(data, SelF, Keep),
      Combined(data, SelStatementMap, StatementFixer(index)),
      Combined(data, SelFnMap, FnFixer(index)),
      Combined(data, SelBranchMap, BranchFixer(index)))
  }

  /** The object `{[resultPath]: {...}}`: one key, the merged record, filed under its own path. */
  function MergedTable(data: Table, resultPath: string, mapping: seq<Artifact>): (r: Table)
    requires TableValid(data)
    ensures r.Valid() && r.keys == [resultPath]
    ensures resultPath in r.vals && r.vals[resultPath].path == resultPath
  {
    Obj([resultPath], map[resultPath := MergedRecord(data, resultPath, mapping)])
  }

  /** `combineCoverageDataForGeneratedFiles(data, resultPath, mappingData)` */
  method CombineCoverageDataForGeneratedFiles(data: Table, resultPath: string, mapping: seq<Artifact>)
    returns (result: Table)
    requires TableValid(data)
    ensures result == MergedTable(data, resultPath, mapping)
  {
    TableSelects(data);
    var prefixes := CreatePrefixMap(data);
    var index := ManifestIndex(mapping);
    var s := Combine(data, prefixes, SelS, Keep);
    var b := Combine(data, prefixes, SelB, Keep);
    var f := Combine(data, prefixes, SelF, Keep);
    var statementMap := Combine(data, prefixes, SelStatementMap, StatementFixer(index));
    var fnMap := Combine(data, prefixes, SelFnMap, FnFixer(index));
    var branchMap := Combine(data, prefixes, SelBranchMap, BranchFixer(index));
    result := Obj([resultPath], map[resultPath := FileCoverage(resultPath, s, b, f, statementMap, fnMap, branchMap)]);
  }

  /**
   * Each category of the merged record holds exactly as many entries as the
   * files have together: nothing is overwritten.
   */
  lemma MergedSizes(data: Table, resultPath: string, mapping: seq<Artifact>)
    requires TableValid(data)
    ensures MergedRecord(data, resultPath, mapping).Valid()
    ensures |MergedRecord(data, resultPath, mapping).s.keys| == EntryCount(data, SelS, |data.keys|)
    ensures |MergedRecord(data, resultPath, mapping).b.keys| == EntryCount(data, SelB, |data.keys|)
    ensures |MergedRecord(data, resultPath, mapping).f.keys| == EntryCount(data, SelF, |data.keys|)
    ensures |MergedRecord(data, resultPath, mapping).statementMap.keys| == EntryCount(data, SelStatementMap, |data.keys|)
    ensures |MergedRecord(data, resultPath, mapping).fnMap.keys| == EntryCount(data, SelFnMap, |data.keys|)
    ensures |MergedRecord(data, resultPath, mapping).branchMap.keys| == EntryCount(data, SelBranchMap, |data.keys|)
  {
    TableSelects(data);
    var index := ManifestIndex(mapping);
    CombinedShape(data, SelS, Keep);
    CombinedShape(data, SelB, Keep);
    CombinedShape(data, SelF, Keep);
    CombinedShape(data, SelStatementMap, StatementFixer(index));
    CombinedShape(data, SelFnMap, FnFixer(index));
    CombinedShape(data, SelBranchMap, BranchFixer(index));
  }

  /**
   * The counters come through unchanged: `s["<i>.<id>"]` of the merged record
   * is counter `id` of file `i`, and likewise for `f` and `b`.
   */
  lemma MergedCounters(data: Table, resultPath: string, mapping: seq<Artifact>, i: nat, id: string)
    requires TableValid(data) && i < |data.keys|
    ensures data.keys[i] in data.vals
    ensures var r, m := data.vals[data.keys[i]], MergedRecord(data, resultPath, mapping);
            && (id in r.s.vals ==> EntryKey(i, id) in m.s.vals && m.s.vals[EntryKey(i, id)] == r.s.vals[id])
            && (id in r.f.vals ==> EntryKey(i, id) in m.f.vals && m.f.vals[EntryKey(i, id)] == r.f.vals[id])
            && (id in r.b.vals ==> EntryKey(i, id) in m.b.vals && m.b.vals[EntryKey(i, id)] == r.b.vals[id])
  {
    KeyAt(data, i);
    TableSelects(data);
    var r := data.vals[data.keys[i]];
    if id in r.s.vals {
      CombinedUpToEntry(data, SelS, Keep, |data.keys|, i, id);
    }
    if id in r.f.vals {
      CombinedUpToEntry(data, SelF, Keep, |data.keys|, i, id);
    }
    if id in r.b.vals {
      CombinedUpToEntry(data, SelB, Keep, |data.keys|, i, id);
    }
  }

  /** The merged `s`, `f` and `b` enumerate the counters of all files, file after file. */
  lemma MergedCounterOrder(data: Table, resultPath: string, mapping: seq<Artifact>)
    requires TableValid(data)
    ensures MergedRecord(data, resultPath, mapping).Valid()
    ensures Values(MergedRecord(data, resultPath, mapping).s) == AllValues(data, SelS, |data.keys|)
    ensures Values(MergedRecord(data, resultPath, mapping).f) == AllValues(data, SelF, |data.keys|)
    ensures Values(MergedRecord(data, resultPath, mapping).b) == AllValues(data, SelB, |data.keys|)
  {
    TableSelects(data);
    MergedSizes(data, resultPath, mapping);
    CombinedUpToValues(data, SelS, Keep, |data.keys|);
    CombinedUpToValues(data, SelF, Keep, |data.keys|);
    CombinedUpToValues(data, SelB, Keep, |data.keys|);
    KeepValues(data, SelS, |data.keys|);
    KeepValues(data, SelF, |data.keys|);
    KeepValues(data, SelB, |data.keys|);
  }

  /**
   * The location maps are shifted: entry `id` of file `i` is found under
   * `"<i>.<id>"`, moved by the shift of file `i`.
   */
  lemma MergedLocations(data: Table, resultPath: string, mapping: seq<Artifact>, i: nat, id: string)
    requires TableValid(data) && i < |data.keys|
    ensures data.keys[i] in data.vals
    ensures var r, m, shift := data.vals[data.keys[i]], MergedRecord(data, resultPath, mapping),
                               ShiftFor(ManifestIndex(mapping), data.keys[i]);
            && (id in r.statementMap.vals ==>
                  EntryKey(i, id) in m.statementMap.vals
                  && m.statementMap.vals[EntryKey(i, id)] == AddLoc(r.statementMap.vals[id], shift))
            && (id in r.fnMap.vals ==>
                  EntryKey(i, id) in m.fnMap.vals && m.fnMap.vals[EntryKey(i, id)] == AddFnLines(r.fnMap.vals[id], shift))
            && (id in r.branchMap.vals ==>
                  EntryKey(i, id) in m.branchMap.vals
                  && m.branchMap.vals[EntryKey(i, id)] == AddBranchLines(r.branchMap.vals[id], shift))
  {
    KeyAt(data, i);
    TableSelects(data);
    var r := data.vals[data.keys[i]];
    var index := ManifestIndex(mapping);
    if id in r.statementMap.vals {
      CombinedUpToEntry(data, SelStatementMap, StatementFixer(index), |data.keys|, i, id);
    }
    if id in r.fnMap.vals {
      CombinedUpToEntry(data, SelFnMap, FnFixer(index), |data.keys|, i, id);
    }
    if id in r.branchMap.vals {
      CombinedUpToEntry(data, SelBranchMap, BranchFixer(index), |data.keys|, i, id);
    }
  }

  /**
   * The merged record holds no other key: every key of each category is
   * `"<i>.<id>"` for an entry `id` of that category in file `i`.
   */
  lemma MergedKeysOrigin(data: Table, resultPath: string, mapping: seq<Artifact>)
    requires TableValid(data)
    ensures var m := MergedRecord(data, resultPath, mapping);
            forall k :: k in m.s.vals ==>
              && 0 <= KeyPrefix(k) < |data.keys| && data.keys[KeyPrefix(k)] in data.vals
              && KeyId(k) in data.vals[data.keys[KeyPrefix(k)]].s.vals
              && k == EntryKey(KeyPrefix(k), KeyId(k))
    ensures var m := MergedRecord(data, resultPath, mapping);
            forall k :: k in m.f.vals ==>
              && 0 <= KeyPrefix(k) < |data.keys| && data.keys[KeyPrefix(k)] in data.vals
              && KeyId(k) in data.vals[data.keys[KeyPrefix(k)]].f.vals
              && k == EntryKey(KeyPrefix(k), KeyId(k))
    ensures var m := MergedRecord(data, resultPath, mapping);
            forall k :: k in m.b.vals ==>
              && 0 <= KeyPrefix(k) < |data.keys| && data.keys[KeyPrefix(k)] in data.vals
              && KeyId(k) in data.vals[data.keys[KeyPrefix(k)]].b.vals
              && k == EntryKey(KeyPrefix(k), KeyId(k))
    ensures var m := MergedRecord(data, resultPath, mapping);
            forall k :: k in m.statementMap.vals ==>
              && 0 <= KeyPrefix(k) < |data.keys| && data.keys[KeyPrefix(k)] in data.vals
              && KeyId(k) in data.vals[data.keys[KeyPrefix(k)]].statementMap.vals
              && k == EntryKey(KeyPrefix(k), KeyId(k))
    ensures var m := MergedRecord(data, resultPath, mapping);
            forall k :: k in m.fnMap.vals ==>
              && 0 <= KeyPrefix(k) < |data.keys| && data.keys[KeyPrefix(k)] in data.vals
              && KeyId(k) in data.vals[data.keys[KeyPrefix(k)]].fnMap.vals
              && k == EntryKey(KeyPrefix(k), KeyId(k))
    ensures var m := MergedRecord(data, resultPath, mapping);
            forall k :: k in m.branchMap.vals ==>
              && 0 <= KeyPrefix(k) < |data.keys| && data.keys[KeyPrefix(k)] in data.vals
              && KeyId(k) in data.vals[data.keys[KeyPrefix(k)]].branchMap.vals
              && k == EntryKey(KeyPrefix(k), KeyId(k))
  {
    TableSelects(data);
    var index := ManifestIndex(mapping);
    CombinedShape(data, SelS, Keep);
    CombinedShape(data, SelF, Keep);
    CombinedShape(data, SelB, Keep);
    CombinedShape(data, SelStatementMap, StatementFixer(index));
    CombinedShape(data, SelFnMap, FnFixer(index));
    CombinedShape(data, SelBranchMap, BranchFixer(index));
  }

  /** The hits the counters of the first `n` files hold, category by category. */
  ghost function CounterHits(data: Table, n: nat): int
    requires TableValid(data) && n <= |data.keys|
  {
    Sums.SumBy(AllValues(data, SelS, n), Count) + Sums.SumBy(AllValues(data, SelF, n), Count)
    + Sums.SumBy(AllValues(data, SelB, n), BranchHits)
  }

  /** File `n - 1` adds its own hits to the counters. */
  lemma CounterHitsStep(data: Table, n: nat)
    requires TableValid(data) && 0 < n <= |data.keys|
    ensures data.keys[n - 1] in data.vals
    ensures CounterHits(data, n) == CounterHits(data, n - 1) + Hits(data.vals[data.keys[n - 1]])
  {
    KeyAt(data, n - 1);
    var r := data.vals[data.keys[n - 1]];
    Sums.SumByConcat(AllValues(data, SelS, n - 1), Values(r.s), Count);
    Sums.SumByConcat(AllValues(data, SelF, n - 1), Values(r.f), Count);
    Sums.SumByConcat(AllValues(data, SelB, n - 1), Values(r.b), BranchHits);
  }

  /** ... and to the hits of the records listed so far. */
  lemma ListedHitsStep(data: Table, n: nat)
    requires TableValid(data) && 0 < n <= |data.keys|
    ensures data.keys[n - 1] in data.vals
    ensures HitsOver(data.keys[..n], data.vals) == HitsOver(data.keys[..n - 1], data.vals) + Hits(data.vals[data.keys[n - 1]])
  {
    KeyAt(data, n - 1);
    assert data.keys[..n][..n - 1] == data.keys[..n - 1];
  }

  /** The hits of the first `n` files, category by category. */
  lemma {:induction false} HitsUpTo(data: Table, n: nat)
    requires TableValid(data) && n <= |data.keys|
    ensures CounterHits(data, n) == HitsOver(data.keys[..n], data.vals)
    decreases n
  {
    if n > 0 {
      HitsUpTo(data, n - 1);
      CounterHitsStep(data, n);
      ListedHitsStep(data, n);
    }
  }

  /** The merged record holds every hit of the files it merges, and no other. */
  lemma MergedHits(data: Table, resultPath: string, mapping: seq<Artifact>)
    requires TableValid(data)
    ensures MergedRecord(data, resultPath, mapping).Valid()
    ensures Hits(MergedRecord(data, resultPath, mapping)) == TableHits(data)
  {
    MergedCounterOrder(data, resultPath, mapping);
    HitsUpTo(data, |data.keys|);
    assert data.keys[..|data.keys|] == data.keys;
  }

  // ----- The table rewrite of the `writeCoverageFile` wrapper -----

  /**
   * When a coverage table exists, its records of generated files are picked
   * out, the rest kept, and the merged record of the picked ones assigned on
   * top under the document's path. Without a table nothing happens.
   */
  function RewriteCoverage(coverage: Option<Table>, mapping: seq<Artifact>, readmePath: string): (r: Option<Table>)
    requires coverage.Some? ==> TableValid(coverage.value)
    ensures r.None? <==> coverage.None?
  {
    match coverage
    case None => None
    case Some(data) =>
      var paths := GeneratedPaths(mapping);
      Some(Assign(Omit(data, paths), MergedTable(Pick(data, paths), readmePath, mapping)))
  }

  /** The picked sub-table is a table, and every file of it has a shift. */
  lemma PickedFilesIndexed(data: Table, mapping: seq<Artifact>)
    requires TableValid(data)
    ensures TableValid(Pick(data, GeneratedPaths(mapping)))
    ensures forall k :: k in Pick(data, GeneratedPaths(mapping)).vals ==> k in ManifestIndex(mapping).vals
  {
    forall k | k in Pick(data, GeneratedPaths(mapping)).vals ensures k in ManifestIndex(mapping).vals {
      ManifestIndexed(mapping, k);
    }
  }

  /**
   * The generated files are numbered in the order the manifest lists them,
   * whatever the order of the global table: one file's prefix is smaller than
   * another's exactly when its path comes first in the manifest.
   */
  lemma PickedPrefixOrder(data: Table, mapping: seq<Artifact>, p: string, q: string)
    requires TableValid(data)
    requires p in Pick(data, GeneratedPaths(mapping)).vals && q in Pick(data, GeneratedPaths(mapping)).vals
    ensures p in GeneratedPaths(mapping) && q in GeneratedPaths(mapping)
    ensures var prefixes := PrefixMap(Pick(data, GeneratedPaths(mapping)));
            && p in prefixes.vals && q in prefixes.vals
            && (prefixes.vals[p] < prefixes.vals[q] <==> FirstIndex(GeneratedPaths(mapping), p) < FirstIndex(GeneratedPaths(mapping), q))
  {
    var paths := GeneratedPaths(mapping);
    var picked := Pick(data, paths);
    PrefixOfKey(picked, p);
    PrefixOfKey(picked, q);
    PickPositions(data, paths, PrefixMap(picked).vals[p], PrefixMap(picked).vals[q]);
  }

  /**
   * The new table keeps every record of a file that is neither generated nor
   * the document, drops every generated file, and files the merged record
   * under the document's path, after the kept records.
   */
  lemma RewriteEntries(data: Table, mapping: seq<Artifact>, readmePath: string)
    requires TableValid(data)
    ensures RewriteCoverage(Some(data), mapping, readmePath).Some?
    ensures var r := RewriteCoverage(Some(data), mapping, readmePath).value;
            && r.Valid()
            && (forall k :: k in r.vals <==> k == readmePath || (k in data.vals && k !in GeneratedPaths(mapping)))
            && (forall k :: k in data.vals && k !in GeneratedPaths(mapping) && k != readmePath ==> r.vals[k] == data.vals[k])
            && r.vals[readmePath] == MergedRecord(Pick(data, GeneratedPaths(mapping)), readmePath, mapping)
  {
    PickedFilesIndexed(data, mapping);
  }

  /**
   * When the document has no record of its own, the rewrite appends it after
   * the kept records.
   */
  lemma RewriteOrder(data: Table, mapping: seq<Artifact>, readmePath: string)
    requires TableValid(data)
    requires readmePath !in data.vals || readmePath in GeneratedPaths(mapping)
    ensures RewriteCoverage(Some(data), mapping, readmePath).Some?
    ensures RewriteCoverage(Some(data), mapping, readmePath).value.keys
            == Omit(data, GeneratedPaths(mapping)).keys + [readmePath]
    ensures readmePath in RewriteCoverage(Some(data), mapping, readmePath).value.vals
    ensures RewriteCoverage(Some(data), mapping, readmePath).value.vals[readmePath]
            == MergedRecord(Pick(data, GeneratedPaths(mapping)), readmePath, mapping)
  {
    PickedFilesIndexed(data, mapping);
    var paths := GeneratedPaths(mapping);
    var merged := MergedTable(Pick(data, paths), readmePath, mapping);
    assert merged.keys[..0] == [];
    assert Assign(Omit(data, paths), merged)
           == Put(AssignKeys(Omit(data, paths), merged, []), readmePath, merged.vals[readmePath]);
  }

  /** The picked and the kept records together count every hit of the table. */
  lemma PartitionHits(data: Table, paths: seq<string>)
    requires TableValid(data)
    ensures HitsOver(Omit(data, paths).keys, data.vals) + HitsOver(Pick(data, paths).keys, data.vals) == TableHits(data)
  {
    PickOmitPermutation(data, paths);
    Sums.SumByConcat(Omit(data, paths).keys, Pick(data, paths).keys, HitsIn(data.vals));
    Sums.SumByPermutation(Omit(data, paths).keys + Pick(data, paths).keys, data.keys, HitsIn(data.vals));
  }

  /** The merged record counts what the picked records counted in the table. */
  lemma PickedHits(data: Table, mapping: seq<Artifact>, readmePath: string)
    requires TableValid(data)
    ensures TableValid(Pick(data, GeneratedPaths(mapping)))
    ensures MergedRecord(Pick(data, GeneratedPaths(mapping)), readmePath, mapping).Valid()
    ensures Hits(MergedRecord(Pick(data, GeneratedPaths(mapping)), readmePath, mapping))
            == HitsOver(Pick(data, GeneratedPaths(mapping)).keys, data.vals)
  {
    var picked := Pick(data, GeneratedPaths(mapping));
    PickedFilesIndexed(data, mapping);
    MergedHits(picked, readmePath, mapping);
    SubTableHits(picked, data);
  }

  /** A record of a file that is neither generated nor the document is kept as it was. */
  lemma RewriteKeeps(data: Table, mapping: seq<Artifact>, readmePath: string, k: string)
    requires TableValid(data)
    requires k in data.vals && k !in GeneratedPaths(mapping) && k != readmePath
    ensures RewriteCoverage(Some(data), mapping, readmePath).Some?
    ensures k in RewriteCoverage(Some(data), mapping, readmePath).value.vals
    ensures RewriteCoverage(Some(data), mapping, readmePath).value.vals[k] == data.vals[k]
  {
    PickedFilesIndexed(data, mapping);
  }

  /** The kept records count in the new table what they counted in the old one. */
  lemma KeptHits(data: Table, mapping: seq<Artifact>, readmePath: string)
    requires TableValid(data)
    requires readmePath !in data.vals || readmePath in GeneratedPaths(mapping)
    ensures RewriteCoverage(Some(data), mapping, readmePath).Some?
    ensures HitsOver(Omit(data, GeneratedPaths(mapping)).keys, RewriteCoverage(Some(data), mapping, readmePath).value.vals)
            == HitsOver(Omit(data, GeneratedPaths(mapping)).keys, data.vals)
  {
    var paths := GeneratedPaths(mapping);
    var kept := Omit(data, paths);
    var r := RewriteCoverage(Some(data), mapping, readmePath).value;
    forall i | 0 <= i < |kept.keys| ensures kept.keys[i] in r.vals && kept.keys[i] in data.vals && r.vals[kept.keys[i]] == data.vals[kept.keys[i]] {
      KeyAt(kept, i);
      RewriteKeeps(data, mapping, readmePath, kept.keys[i]);
    }
    HitsOverAgree(kept.keys, r.vals, data.vals);
  }

  /**
   * No hit is lost or counted twice: unless the document had a record of its
   * own that the merged one replaces, the new table holds exactly the hits of
   * the old one.
   */
  lemma RewritePreservesHits(data: Table, mapping: seq<Artifact>, readmePath: string)
    requires TableValid(data)
    requires readmePath !in data.vals || readmePath in GeneratedPaths(mapping)
    ensures RewriteCoverage(Some(data), mapping, readmePath).Some?
    ensures TableHits(RewriteCoverage(Some(data), mapping, readmePath).value) == TableHits(data)
  {
    var paths := GeneratedPaths(mapping);
    var merged := MergedRecord(Pick(data, paths), readmePath, mapping);
    var kept := Omit(data, paths);
    var r := RewriteCoverage(Some(data), mapping, readmePath).value;
    RewriteOrder(data, mapping, readmePath);
    KeptHits(data, mapping, readmePath);
    PickedHits(data, mapping, readmePath);
    PartitionHits(data, paths);
    HitsOverAppend(kept.keys, readmePath, r.vals);
    calc {
      TableHits(r);
      HitsOver(kept.keys, r.vals) + HitsIn(r.vals)(readmePath);
      HitsOver(kept.keys, data.vals) + Hits(merged);
      HitsOver(kept.keys, data.vals) + HitsOver(Pick(data, paths).keys, data.vals);
      TableHits(data);
    }
  }

  /** A record with nothing in it. */
  function EmptyRecord(path: string): FileCoverage {
    FileCoverage(path, Empty(), Empty(), Empty(), Empty(), Empty(), Empty())
  }

  /**
   * With no generated file covered the document's record is still filed,
   * with six empty maps.
   */
  lemma RewriteWithoutGeneratedCoverage(data: Table, mapping: seq<Artifact>, readmePath: string)
    requires TableValid(data)
    requires forall i :: 0 <= i < |mapping| ==> mapping[i].path !in data.vals
    ensures RewriteCoverage(Some(data), mapping, readmePath).Some?
    ensures var r := RewriteCoverage(Some(data), mapping, readmePath).value;
            readmePath in r.vals && r.vals[readmePath] == EmptyRecord(readmePath)
  {
    var paths := GeneratedPaths(mapping);
    var picked := Pick(data, paths);
    PickedFilesIndexed(data, mapping);
    RewriteEntries(data, mapping, readmePath);
    assert picked.vals == map[];
  }
}
