/**
 * The coverage records the instrumenter keeps per file (Istanbul's format),
 * and the manifest entries written when the code blocks were extracted.
 */
module Coverage {
  import opened JsObjects
  import Sums

  /** A `{line, column}` position; only `line` is ever rewritten. */
  datatype Position = Position(line: int, column: int)

  /** A `{start, end}` location. */
  datatype Range = Range(start: Position, end: Position)

  /** An `fnMap` entry: `{name, line, loc}`, and `decl` where the instrumenter records it. */
  datatype FnMeta = FnMeta(name: string, line: int, loc: Range, decl: Option<Range>)

  /**
   * A `branchMap` entry: `{line, type, locations}`, and `loc` where the
   * instrumenter records it (`type` is a reserved word here, hence `kind`).
   */
  datatype BranchMeta = BranchMeta(line: int, kind: string, locations: seq<Range>, loc: Option<Range>)

  /** The coverage record of one file: hit counters and the locations they refer to. */
  datatype FileCoverage = FileCoverage(
    path: string,
    s: Obj<int>,
    b: Obj<seq<int>>,
    f: Obj<int>,
    statementMap: Obj<Range>,
    fnMap: Obj<FnMeta>,
    branchMap: Obj<BranchMeta>)
  {
    ghost predicate Valid() {
      s.Valid() && b.Valid() && f.Valid() && statementMap.Valid() && fnMap.Valid() && branchMap.Valid()
    }
  }

  /** The global coverage table: file path to the file's record. */
  type Table = Obj<FileCoverage>

  ghost predicate TableValid(t: Table) {
    t.Valid() && forall k :: k in t.vals ==> t.vals[k].Valid()
  }

  /**
   * A manifest entry with its resolved path: the block's file name, the
   * document line where the block's code starts, and the real path of the
   * file written from it.
   */
  datatype Artifact = Artifact(name: string, sourceLine: int, path: string)

  function ArtifactPath(a: Artifact): string {
    a.path
  }

  /** `mappingData.map(file => file.path)` */
  function GeneratedPaths(mapping: seq<Artifact>): (r: seq<string>)
    ensures |r| == |mapping| && forall i :: 0 <= i < |mapping| ==> r[i] == mapping[i].path
  {
    seq(|mapping|, i requires 0 <= i < |mapping| => mapping[i].path)
  }

  function Count(n: int): int {
    n
  }

  function BranchHits(counts: seq<int>): int {
    Sums.SumBy(counts, Count)
  }

  /** Every hit a record holds: statement, function and branch counters. */
  ghost function Hits(r: FileCoverage): int
    requires r.Valid()
  {
    Sums.SumBy(Values(r.s), Count) + Sums.SumBy(Values(r.f), Count) + Sums.SumBy(Values(r.b), BranchHits)
  }

  ghost function HitsIn(m: map<string, FileCoverage>): string -> int {
    k => if k in m && m[k].Valid() then Hits(m[k]) else 0
  }

  /** The hits of the records filed under `keys`. */
  ghost function HitsOver(keys: seq<string>, m: map<string, FileCoverage>): int {
    Sums.SumBy(keys, HitsIn(m))
  }

  ghost function TableHits(t: Table): int {
    HitsOver(t.keys, t.vals)
  }

  /** Records that agree on every key listed count the same hits. */
  lemma HitsOverAgree(keys: seq<string>, m1: map<string, FileCoverage>, m2: map<string, FileCoverage>)
    requires forall i :: 0 <= i < |keys| ==> keys[i] in m1 && keys[i] in m2 && m1[keys[i]] == m2[keys[i]]
    ensures HitsOver(keys, m1) == HitsOver(keys, m2)
  {
    Sums.SumByCongruent(keys, HitsIn(m1), HitsIn(m2));
  }

  /** A sub-table counts in the table what it counts on its own. */
  lemma SubTableHits(sub: Table, t: Table)
    requires sub.Valid()
    requires forall k :: k in sub.vals ==> k in t.vals && sub.vals[k] == t.vals[k]
    ensures TableHits(sub) == HitsOver(sub.keys, t.vals)
  {
    assert forall i :: 0 <= i < |sub.keys| ==> sub.keys[i] in sub.vals;
    HitsOverAgree(sub.keys, sub.vals, t.vals);
  }

  /** A record filed last adds its hits. */
  lemma HitsOverAppend(keys: seq<string>, k: string, m: map<string, FileCoverage>)
    ensures HitsOver(keys + [k], m) == HitsOver(keys, m) + HitsIn(m)(k)
  {
    Sums.SumByConcat(keys, [k], HitsIn(m));
    assert [k][..0] == [];
  }
}
