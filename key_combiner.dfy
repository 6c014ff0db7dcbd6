/**
 * `createPrefixMap` and the `combine` function built by `combineFactory`:
 * one coverage category of several files merged into one object whose keys
 * are `"<prefix>.<id>"`, the prefix being the file's ordinal.
 */
module KeyCombiner {
  import opened JsObjects
  import opened Decimal

  // ----- Keys -----

  /** The template literal `${prefix}.${id}`. */
  function EntryKey(prefix: nat, id: string): string {
    NatToString(prefix) + "." + id
  }

  /** The index of the first `.` in `s`, or `|s|` when there is none. */
  function FirstDot(s: string): (r: nat)
    ensures r <= |s|
    ensures forall i :: 0 <= i < r ==> s[i] != '.'
    ensures r < |s| ==> s[r] == '.'
    decreases |s|
  {
    if s == [] then 0 else if s[0] == '.' then 0 else 1 + FirstDot(s[1..])
  }

  /** The number before the first `.` of a combined key. */
  function KeyPrefix(key: string): int {
    ParseDecimal(key[..FirstDot(key)])
  }

  /** The original id after the first `.` of a combined key. */
  function KeyId(key: string): string {
    var d := FirstDot(key);
    if d < |key| then key[d + 1..] else ""
  }

  /**
   * A decimal prefix holds no `.`, so a combined key splits back into the
   * prefix and the id it was made of, whatever the id contains.
   */
  lemma SplitEntryKey(prefix: nat, id: string)
    ensures KeyPrefix(EntryKey(prefix, id)) == prefix
    ensures KeyId(EntryKey(prefix, id)) == id
  {
    var p := NatToString(prefix);
    var key := EntryKey(prefix, id);
    assert FirstDot(key) == |p| by {
      assert key[|p|] == '.';
      forall i | 0 <= i < |p| ensures key[i] != '.' {
        assert key[i] == p[i] && IsDigit(p[i]);
      }
    }
    assert key[..|p|] == p;
    assert key[|p| + 1..] == id;
    ParseNatToString(prefix);
  }

  /** Two (file, id) pairs never produce the same combined key. */
  lemma EntryKeyInjective(p1: nat, id1: string, p2: nat, id2: string)
    requires EntryKey(p1, id1) == EntryKey(p2, id2)
    ensures p1 == p2 && id1 == id2
  {
    SplitEntryKey(p1, id1);
    SplitEntryKey(p2, id2);
  }

  // ----- createPrefixMap -----

  /** `Object.keys(data).forEach((name, index) => out[name] = index)`, after `n` steps. */
  function PrefixesUpTo(keys: seq<string>, n: nat): (r: Obj<nat>)
    requires n <= |keys|
    requires Distinct(keys)
    ensures r.Valid() && r.keys == keys[..n]
    ensures forall i :: 0 <= i < n ==> keys[i] in r.vals && r.vals[keys[i]] == i
    decreases n
  {
    if n == 0 then Empty()
    else
      var r0 := PrefixesUpTo(keys, n - 1);
      assert keys[..n] == keys[..n - 1] + [keys[n - 1]];
      assert keys[n - 1] !in r0.vals;
      Put(r0, keys[n - 1], n - 1)
  }

  /** Each file of the table is mapped to its position. */
  ghost predicate Ordinal<R>(data: Obj<R>, prefixes: Obj<nat>) {
    forall i :: 0 <= i < |data.keys| ==> data.keys[i] in prefixes.vals && prefixes.vals[data.keys[i]] == i
  }

  /** The prefix map of a table: each file key sent to its position, and nothing else. */
  function PrefixMap<R>(data: Obj<R>): (r: Obj<nat>)
    requires data.Valid()
    ensures r.Valid() && r.keys == data.keys
    ensures Ordinal(data, r)
  {
    var r := PrefixesUpTo(data.keys, |data.keys|);
    assert data.keys[..|data.keys|] == data.keys;
    r
  }

  /** Distinct files get distinct prefixes. */
  lemma PrefixesDistinct<R>(data: Obj<R>, k1: string, k2: string)
    requires data.Valid()
    requires k1 in data.vals && k2 in data.vals && k1 != k2
    ensures PrefixMap(data).vals[k1] != PrefixMap(data).vals[k2]
  {
    var i :| 0 <= i < |data.keys| && data.keys[i] == k1;
    var j :| 0 <= j < |data.keys| && data.keys[j] == k2;
  }

  /** The prefix of a file is its position in the table. */
  lemma PrefixOfKey<R>(data: Obj<R>, k: string)
    requires data.Valid() && k in data.vals
    ensures k in PrefixMap(data).vals && PrefixMap(data).vals[k] < |data.keys|
    ensures data.keys[PrefixMap(data).vals[k]] == k
  {
    var i := KeyIndex(data, k);
  }

  method CreatePrefixMap<R>(data: Obj<R>) returns (prefixes: Obj<nat>)
    requires data.Valid()
    ensures prefixes == PrefixMap(data)
  {
    prefixes := Empty();
    var index := 0;
    while index < |data.keys|
      invariant 0 <= index <= |data.keys|
      invariant prefixes == PrefixesUpTo(data.keys, index)
    {
      prefixes := Put(prefixes, data.keys[index], index);
      index := index + 1;
    }
    assert data.keys[..|data.keys|] == data.keys;
  }

  // ----- combine -----

  /** A table each of whose records holds a well-formed category object. */
  ghost predicate Selects<R, V>(data: Obj<R>, sel: R -> Obj<V>) {
    data.Valid() && forall k :: k in data.vals ==> sel(data.vals[k]).Valid()
  }

  /** The default fixer `x => x`, used when `combine` is given none. */
  function Keep<V>(v: V, fileName: string): V {
    v
  }

  /** The assignments the inner loop makes for one file, in order. */
  function FileEntries<V>(prefix: nat, fileName: string, fileData: Obj<V>, fixer: (V, string) -> V): (r: seq<(string, V)>)
    requires fileData.Valid()
    ensures |r| == |fileData.keys|
  {
    seq(|fileData.keys|, j requires 0 <= j < |fileData.keys| =>
      (EntryKey(prefix, fileData.keys[j]), fixer(fileData.vals[fileData.keys[j]], fileName)))
  }

  /**
   * `out` after the outer loop has handled the first `n` files; file `i`
   * gets prefix `i`, the number `createPrefixMap` gives it.
   */
  function CombinedUpTo<R, V>(data: Obj<R>, sel: R -> Obj<V>, fixer: (V, string) -> V, n: nat): Obj<V>
    requires Selects(data, sel) && n <= |data.keys|
    decreases n
  {
    if n == 0 then Empty()
    else
      var f := data.keys[n - 1];
      PutAll(CombinedUpTo(data, sel, fixer, n - 1), FileEntries(n - 1, f, sel(data.vals[f]), fixer))
  }

  /** The object `combine(key, fixer)` returns. */
  function Combined<R, V>(data: Obj<R>, sel: R -> Obj<V>, fixer: (V, string) -> V): Obj<V>
    requires Selects(data, sel)
  {
    CombinedUpTo(data, sel, fixer, |data.keys|)
  }

  /** The inner loop of `combine`: the entries of one file, assigned in order. */
  method CombineFile<V>(out: Obj<V>, prefix: nat, fileName: string, fileData: Obj<V>, fixer: (V, string) -> V)
    returns (out': Obj<V>)
    requires fileData.Valid()
    ensures out' == PutAll(out, FileEntries(prefix, fileName, fileData, fixer))
  {
    ghost var entries := FileEntries(prefix, fileName, fileData, fixer);
    out' := out;
    var j := 0;
    while j < |fileData.keys|
      invariant 0 <= j <= |fileData.keys|
      invariant out' == PutAll(out, entries[..j])
    {
      var id := fileData.keys[j];
      out' := Put(out', EntryKey(prefix, id), fixer(fileData.vals[id], fileName));
      PutAllStep(out, entries, j);
      j := j + 1;
    }
    assert entries[..j] == entries;
  }

  /**
   * `combine(key, fixer)`: for every file in key order and every entry of
   * its category object, `out[prefix + "." + id] = fixer(value, fileName)`.
   * `sel` reads the category (`data[fileName][key]`); `prefixes` is the map
   * `combineFactory` computed once from the same table with
   * `createPrefixMap`, which sends each file to its position.
   */
  method Combine<R, V>(data: Obj<R>, prefixes: Obj<nat>, sel: R -> Obj<V>, fixer: (V, string) -> V)
    returns (out: Obj<V>)
    requires Selects(data, sel) && Ordinal(data, prefixes)
    ensures out == Combined(data, sel, fixer)
  {
    out := Empty();
    var i := 0;
    while i < |data.keys|
      invariant i <= |data.keys| && out == CombinedUpTo(data, sel, fixer, i)
    {
      var fileName := data.keys[i];
      CombinedUpToNext(data, sel, fixer, i);
      out := CombineFile(out, prefixes.vals[fileName], fileName, sel(data.vals[fileName]), fixer);
      i := i + 1;
    }
  }

  // ----- What combine computes -----

  /** Step `n` assigns the entries of file `n - 1` under prefix `n - 1`. */
  lemma CombinedUpToStep<R, V>(data: Obj<R>, sel: R -> Obj<V>, fixer: (V, string) -> V, n: nat)
    requires Selects(data, sel) && 0 < n <= |data.keys|
    ensures data.keys[n - 1] in data.vals && sel(data.vals[data.keys[n - 1]]).Valid()
    ensures CombinedUpTo(data, sel, fixer, n)
            == PutAll(CombinedUpTo(data, sel, fixer, n - 1),
                      FileEntries(n - 1, data.keys[n - 1], sel(data.vals[data.keys[n - 1]]), fixer))
  {
    KeyAt(data, n - 1);
  }

  /** Handling file `i` is one more step. */
  lemma CombinedUpToNext<R, V>(data: Obj<R>, sel: R -> Obj<V>, fixer: (V, string) -> V, i: nat)
    requires Selects(data, sel) && i < |data.keys|
    ensures data.keys[i] in data.vals && sel(data.vals[data.keys[i]]).Valid()
    ensures CombinedUpTo(data, sel, fixer, i + 1)
            == PutAll(CombinedUpTo(data, sel, fixer, i), FileEntries(i, data.keys[i], sel(data.vals[data.keys[i]]), fixer))
  {
    KeyAt(data, i);
  }

  /** A key with another prefix keeps its value through step `n`. */
  lemma CombinedUpToKeeps<R, V>(data: Obj<R>, sel: R -> Obj<V>, fixer: (V, string) -> V, n: nat, k: string)
    requires Selects(data, sel) && 0 < n <= |data.keys|
    requires k in CombinedUpTo(data, sel, fixer, n - 1).vals && KeyPrefix(k) != n - 1
    ensures k in CombinedUpTo(data, sel, fixer, n).vals
    ensures CombinedUpTo(data, sel, fixer, n).vals[k] == CombinedUpTo(data, sel, fixer, n - 1).vals[k]
  {
    CombinedUpToStep(data, sel, fixer, n);
    PutFileOther(CombinedUpTo(data, sel, fixer, n - 1), n - 1, data.keys[n - 1], sel(data.vals[data.keys[n - 1]]), fixer, k);
  }

  /** A key step `n` adds is `"<n - 1>.<id>"` for an entry `id` of file `n - 1`. */
  lemma CombinedUpToAdds<R, V>(data: Obj<R>, sel: R -> Obj<V>, fixer: (V, string) -> V, n: nat, k: string)
    requires Selects(data, sel) && 0 < n <= |data.keys|
    requires k in CombinedUpTo(data, sel, fixer, n).vals && k !in CombinedUpTo(data, sel, fixer, n - 1).vals
    ensures data.keys[n - 1] in data.vals
    ensures KeyPrefix(k) == n - 1 && KeyId(k) in sel(data.vals[data.keys[n - 1]]).vals && k == EntryKey(n - 1, KeyId(k))
  {
    CombinedUpToStep(data, sel, fixer, n);
    PutFileNew(CombinedUpTo(data, sel, fixer, n - 1), n - 1, data.keys[n - 1], sel(data.vals[data.keys[n - 1]]), fixer, k);
  }

  /** The keys file number `prefix` contributes. */
  ghost function FileKeys<V>(prefix: nat, fileData: Obj<V>): seq<string>
    requires fileData.Valid()
  {
    seq(|fileData.keys|, j requires 0 <= j < |fileData.keys| => EntryKey(prefix, fileData.keys[j]))
  }

  /** The values file `fileName` contributes, passed through the fixer. */
  ghost function FileValues<V>(fileName: string, fileData: Obj<V>, fixer: (V, string) -> V): seq<V>
    requires fileData.Valid()
  {
    seq(|fileData.keys|, j requires 0 <= j < |fileData.keys| => fixer(fileData.vals[fileData.keys[j]], fileName))
  }

  /** The renamed keys of the first `n` files, file after file. */
  ghost function RenamedKeys<R, V>(data: Obj<R>, sel: R -> Obj<V>, n: nat): seq<string>
    requires Selects(data, sel) && n <= |data.keys|
    decreases n
  {
    if n == 0 then [] else RenamedKeys(data, sel, n - 1) + FileKeys(n - 1, sel(data.vals[data.keys[n - 1]]))
  }

  /** The fixed values of the first `n` files, file after file. */
  ghost function FixedValues<R, V>(data: Obj<R>, sel: R -> Obj<V>, fixer: (V, string) -> V, n: nat): seq<V>
    requires Selects(data, sel) && n <= |data.keys|
    decreases n
  {
    if n == 0 then []
    else
      var f := data.keys[n - 1];
      FixedValues(data, sel, fixer, n - 1) + FileValues(f, sel(data.vals[f]), fixer)
  }

  /** The original values of the first `n` files, file after file. */
  ghost function AllValues<R, V>(data: Obj<R>, sel: R -> Obj<V>, n: nat): seq<V>
    requires Selects(data, sel) && n <= |data.keys|
    decreases n
  {
    if n == 0 then [] else AllValues(data, sel, n - 1) + Values(sel(data.vals[data.keys[n - 1]]))
  }

  /** With the default fixer the values come through untouched. */
  lemma {:induction false} KeepValues<R, V>(data: Obj<R>, sel: R -> Obj<V>, n: nat)
    requires Selects(data, sel) && n <= |data.keys|
    ensures FixedValues(data, sel, Keep, n) == AllValues(data, sel, n)
    decreases n
  {
    if n > 0 {
      KeepValues(data, sel, n - 1);
      var f := data.keys[n - 1];
      assert FileValues(f, sel(data.vals[f]), Keep) == Values(sel(data.vals[f]));
    }
  }

  /** The number of entries in the first `n` files. */
  ghost function EntryCount<R, V>(data: Obj<R>, sel: R -> Obj<V>, n: nat): nat
    requires Selects(data, sel) && n <= |data.keys|
    decreases n
  {
    if n == 0 then 0 else EntryCount(data, sel, n - 1) + |sel(data.vals[data.keys[n - 1]]).keys|
  }

  lemma {:induction false} RenamedKeysLength<R, V>(data: Obj<R>, sel: R -> Obj<V>, n: nat)
    requires Selects(data, sel) && n <= |data.keys|
    ensures |RenamedKeys(data, sel, n)| == EntryCount(data, sel, n)
    decreases n
  {
    if n > 0 {
      RenamedKeysLength(data, sel, n - 1);
    }
  }

  /** The keys one file contributes carry its prefix and are pairwise distinct. */
  lemma FileEntriesKeys<V>(prefix: nat, fileName: string, fileData: Obj<V>, fixer: (V, string) -> V)
    requires fileData.Valid()
    ensures EntryKeys(FileEntries(prefix, fileName, fileData, fixer)) == FileKeys(prefix, fileData)
    ensures EntryValues(FileEntries(prefix, fileName, fileData, fixer)) == FileValues(fileName, fileData, fixer)
    ensures Distinct(FileKeys(prefix, fileData))
    ensures forall k :: k in FileKeys(prefix, fileData) ==>
              KeyPrefix(k) == prefix && KeyId(k) in fileData.vals && k == EntryKey(prefix, KeyId(k))
  {
    var ks := FileKeys(prefix, fileData);
    forall k | k in ks
      ensures KeyPrefix(k) == prefix && KeyId(k) in fileData.vals && k == EntryKey(prefix, KeyId(k))
    {
      var j :| 0 <= j < |ks| && ks[j] == k;
      SplitEntryKey(prefix, fileData.keys[j]);
    }
    forall i, j | 0 <= i < j < |ks| ensures ks[i] != ks[j] {
      if ks[i] == ks[j] {
        EntryKeyInjective(prefix, fileData.keys[i], prefix, fileData.keys[j]);
      }
    }
  }

  /** The values one file contributes are its fixed values, in order. */
  lemma FileEntriesValues<V>(prefix: nat, fileName: string, fileData: Obj<V>, fixer: (V, string) -> V)
    requires fileData.Valid()
    ensures EntryValues(FileEntries(prefix, fileName, fileData, fixer)) == FileValues(fileName, fileData, fixer)
  {
  }

  /** The keys one file contributes are pairwise distinct. */
  lemma FileEntriesDistinct<V>(prefix: nat, fileName: string, fileData: Obj<V>, fixer: (V, string) -> V)
    requires fileData.Valid()
    ensures Distinct(EntryKeys(FileEntries(prefix, fileName, fileData, fixer)))
  {
    FileEntriesKeys(prefix, fileName, fileData, fixer);
  }

  /** A key one file contributes carries its prefix and one of its ids. */
  lemma FileEntryOrigin<V>(prefix: nat, fileName: string, fileData: Obj<V>, fixer: (V, string) -> V, k: string)
    requires fileData.Valid() && k in EntryKeys(FileEntries(prefix, fileName, fileData, fixer))
    ensures KeyPrefix(k) == prefix && KeyId(k) in fileData.vals && k == EntryKey(prefix, KeyId(k))
  {
    FileEntriesKeys(prefix, fileName, fileData, fixer);
  }

  /** Assigning the entries of one file files entry `id` under `"<prefix>.<id>"`. */
  lemma PutFileEntry<V>(o: Obj<V>, prefix: nat, fileName: string, fileData: Obj<V>, fixer: (V, string) -> V, id: string)
    requires fileData.Valid() && id in fileData.vals
    ensures EntryKey(prefix, id) in PutAll(o, FileEntries(prefix, fileName, fileData, fixer)).vals
    ensures PutAll(o, FileEntries(prefix, fileName, fileData, fixer)).vals[EntryKey(prefix, id)] == fixer(fileData.vals[id], fileName)
  {
    var es := FileEntries(prefix, fileName, fileData, fixer);
    var j := KeyIndex(fileData, id);
    FileEntriesDistinct(prefix, fileName, fileData, fixer);
    PutAllAt(o, es, j);
  }

  /** ... and leaves every key with another prefix as it was. */
  lemma PutFileOther<V>(o: Obj<V>, prefix: nat, fileName: string, fileData: Obj<V>, fixer: (V, string) -> V, k: string)
    requires fileData.Valid() && k in o.vals && KeyPrefix(k) != prefix
    ensures k in PutAll(o, FileEntries(prefix, fileName, fileData, fixer)).vals
    ensures PutAll(o, FileEntries(prefix, fileName, fileData, fixer)).vals[k] == o.vals[k]
  {
    var es := FileEntries(prefix, fileName, fileData, fixer);
    FileEntriesDistinct(prefix, fileName, fileData, fixer);
    if k in EntryKeys(es) {
      FileEntryOrigin(prefix, fileName, fileData, fixer, k);
    }
    PutAllKeeps(o, es, k);
  }

  /** A key that was not there before is `"<prefix>.<id>"` for an entry `id` of the file. */
  lemma PutFileNew<V>(o: Obj<V>, prefix: nat, fileName: string, fileData: Obj<V>, fixer: (V, string) -> V, k: string)
    requires fileData.Valid() && k in PutAll(o, FileEntries(prefix, fileName, fileData, fixer)).vals && k !in o.vals
    ensures KeyPrefix(k) == prefix && KeyId(k) in fileData.vals && k == EntryKey(prefix, KeyId(k))
  {
    var es := FileEntries(prefix, fileName, fileData, fixer);
    FileEntriesDistinct(prefix, fileName, fileData, fixer);
    PutAllFrom(o, es, k);
    FileEntryOrigin(prefix, fileName, fileData, fixer, k);
  }

  /**
   * The entries step `n` assigns are pairwise distinct and new: every key
   * already present carries a smaller prefix.
   */
  lemma CombinedUpToFresh<R, V>(data: Obj<R>, sel: R -> Obj<V>, fixer: (V, string) -> V, n: nat)
    requires Selects(data, sel) && 0 < n <= |data.keys|
    ensures data.keys[n - 1] in data.vals && sel(data.vals[data.keys[n - 1]]).Valid()
    ensures var es := FileEntries(n - 1, data.keys[n - 1], sel(data.vals[data.keys[n - 1]]), fixer);
            && Distinct(EntryKeys(es))
            && (forall j :: 0 <= j < |es| ==> es[j].0 !in CombinedUpTo(data, sel, fixer, n - 1).vals)
  {
    KeyAt(data, n - 1);
    var f := data.keys[n - 1];
    var fd := sel(data.vals[f]);
    var es := FileEntries(n - 1, f, fd, fixer);
    FileEntriesDistinct(n - 1, f, fd, fixer);
    forall j | 0 <= j < |es| ensures es[j].0 !in CombinedUpTo(data, sel, fixer, n - 1).vals {
      SplitEntryKey(n - 1, fd.keys[j]);
      CombinedUpToBelow(data, sel, fixer, n - 1, es[j].0);
    }
  }

  /** A key whose prefix is not below `n` is not among the first `n` files' keys. */
  lemma CombinedUpToBelow<R, V>(data: Obj<R>, sel: R -> Obj<V>, fixer: (V, string) -> V, n: nat, k: string)
    requires Selects(data, sel) && n <= |data.keys| && KeyPrefix(k) >= n
    ensures k !in CombinedUpTo(data, sel, fixer, n).vals
  {
    if k in CombinedUpTo(data, sel, fixer, n).vals {
      CombinedUpToOrigin(data, sel, fixer, n, k);
    }
  }

  /**
   * No assignment of `combine` overwrites another: the keys are the renamed
   * keys of every file in order.
   */
  lemma {:induction false} CombinedUpToKeys<R, V>(data: Obj<R>, sel: R -> Obj<V>, fixer: (V, string) -> V, n: nat)
    requires Selects(data, sel) && n <= |data.keys|
    ensures CombinedUpTo(data, sel, fixer, n).Valid()
    ensures CombinedUpTo(data, sel, fixer, n).keys == RenamedKeys(data, sel, n)
    decreases n
  {
    if n > 0 {
      CombinedUpToKeys(data, sel, fixer, n - 1);
      CombinedUpToFresh(data, sel, fixer, n);
      var f := data.keys[n - 1];
      var fd := sel(data.vals[f]);
      var es := FileEntries(n - 1, f, fd, fixer);
      PutAllFresh(CombinedUpTo(data, sel, fixer, n - 1), es);
      FileEntriesKeys(n - 1, f, fd, fixer);
    }
  }

  /** ... and the values are the fixed values, in the same order. */
  lemma {:induction false} CombinedUpToValues<R, V>(data: Obj<R>, sel: R -> Obj<V>, fixer: (V, string) -> V, n: nat)
    requires Selects(data, sel) && n <= |data.keys|
    ensures CombinedUpTo(data, sel, fixer, n).Valid()
    ensures Values(CombinedUpTo(data, sel, fixer, n)) == FixedValues(data, sel, fixer, n)
    decreases n
  {
    if n > 0 {
      CombinedUpToValues(data, sel, fixer, n - 1);
      CombinedUpToFresh(data, sel, fixer, n);
      var f := data.keys[n - 1];
      var fd := sel(data.vals[f]);
      var es := FileEntries(n - 1, f, fd, fixer);
      PutAllFreshValues(CombinedUpTo(data, sel, fixer, n - 1), es);
      FileEntriesValues(n - 1, f, fd, fixer);
      FixedValuesStep(data, sel, fixer, n);
    }
  }

  lemma FixedValuesStep<R, V>(data: Obj<R>, sel: R -> Obj<V>, fixer: (V, string) -> V, n: nat)
    requires Selects(data, sel) && 0 < n <= |data.keys|
    ensures data.keys[n - 1] in data.vals
    ensures FixedValues(data, sel, fixer, n)
            == FixedValues(data, sel, fixer, n - 1) + FileValues(data.keys[n - 1], sel(data.vals[data.keys[n - 1]]), fixer)
  {
    KeyAt(data, n - 1);
  }

  /** Entry `id` of file `i` is found under `"<i>.<id>"`, with its fixed value. */
  lemma {:induction false} CombinedUpToEntry<R, V>(data: Obj<R>, sel: R -> Obj<V>, fixer: (V, string) -> V,
                                                   n: nat, i: nat, id: string)
    requires Selects(data, sel) && i < n <= |data.keys|
    requires data.keys[i] in data.vals && id in sel(data.vals[data.keys[i]]).vals
    ensures EntryKey(i, id) in CombinedUpTo(data, sel, fixer, n).vals
    ensures CombinedUpTo(data, sel, fixer, n).vals[EntryKey(i, id)]
            == fixer(sel(data.vals[data.keys[i]]).vals[id], data.keys[i])
    decreases n, 1
  {
    if i == n - 1 {
      CombinedUpToLast(data, sel, fixer, n, id);
    } else {
      CombinedUpToEarlier(data, sel, fixer, n, i, id);
    }
  }

  /** The entries of the file just handled. */
  lemma CombinedUpToLast<R, V>(data: Obj<R>, sel: R -> Obj<V>, fixer: (V, string) -> V, n: nat, id: string)
    requires Selects(data, sel) && 0 < n <= |data.keys|
    requires data.keys[n - 1] in data.vals && id in sel(data.vals[data.keys[n - 1]]).vals
    ensures EntryKey(n - 1, id) in CombinedUpTo(data, sel, fixer, n).vals
    ensures CombinedUpTo(data, sel, fixer, n).vals[EntryKey(n - 1, id)]
            == fixer(sel(data.vals[data.keys[n - 1]]).vals[id], data.keys[n - 1])
  {
    CombinedUpToStep(data, sel, fixer, n);
    PutFileEntry(CombinedUpTo(data, sel, fixer, n - 1), n - 1, data.keys[n - 1], sel(data.vals[data.keys[n - 1]]), fixer, id);
  }

  /** The entries of earlier files survive the step. */
  lemma {:induction false} CombinedUpToEarlier<R, V>(data: Obj<R>, sel: R -> Obj<V>, fixer: (V, string) -> V,
                                                     n: nat, i: nat, id: string)
    requires Selects(data, sel) && i + 1 < n <= |data.keys|
    requires data.keys[i] in data.vals && id in sel(data.vals[data.keys[i]]).vals
    ensures EntryKey(i, id) in CombinedUpTo(data, sel, fixer, n).vals
    ensures CombinedUpTo(data, sel, fixer, n).vals[EntryKey(i, id)]
            == fixer(sel(data.vals[data.keys[i]]).vals[id], data.keys[i])
    decreases n, 0
  {
    CombinedUpToEntry(data, sel, fixer, n - 1, i, id);
    SplitEntryKey(i, id);
    CombinedUpToKeeps(data, sel, fixer, n, EntryKey(i, id));
  }

  /** Every key of the result is `"<i>.<id>"` for an entry `id` of file `i`. */
  lemma {:induction false} CombinedUpToOrigin<R, V>(data: Obj<R>, sel: R -> Obj<V>, fixer: (V, string) -> V,
                                                    n: nat, k: string)
    requires Selects(data, sel) && n <= |data.keys|
    requires k in CombinedUpTo(data, sel, fixer, n).vals
    ensures 0 <= KeyPrefix(k) < n && data.keys[KeyPrefix(k)] in data.vals
    ensures KeyId(k) in sel(data.vals[data.keys[KeyPrefix(k)]]).vals
    ensures k == EntryKey(KeyPrefix(k), KeyId(k))
    decreases n
  {
    if n == 0 {
      assert false;
    }
    if k in CombinedUpTo(data, sel, fixer, n - 1).vals {
      CombinedUpToOrigin(data, sel, fixer, n - 1, k);
    } else {
      CombinedUpToAdds(data, sel, fixer, n, k);
    }
  }

  /** The whole result of `combine`. */
  lemma CombinedShape<R, V>(data: Obj<R>, sel: R -> Obj<V>, fixer: (V, string) -> V)
    requires Selects(data, sel)
    ensures Combined(data, sel, fixer).Valid()
    ensures Combined(data, sel, fixer).keys == RenamedKeys(data, sel, |data.keys|)
    ensures |Combined(data, sel, fixer).keys| == EntryCount(data, sel, |data.keys|)
    ensures Values(Combined(data, sel, fixer)) == FixedValues(data, sel, fixer, |data.keys|)
    ensures forall i, id :: 0 <= i < |data.keys| && data.keys[i] in data.vals && id in sel(data.vals[data.keys[i]]).vals ==>
              && EntryKey(i, id) in Combined(data, sel, fixer).vals
              && Combined(data, sel, fixer).vals[EntryKey(i, id)]
                 == fixer(sel(data.vals[data.keys[i]]).vals[id], data.keys[i])
    ensures forall k :: k in Combined(data, sel, fixer).vals ==>
              && 0 <= KeyPrefix(k) < |data.keys| && data.keys[KeyPrefix(k)] in data.vals
              && KeyId(k) in sel(data.vals[data.keys[KeyPrefix(k)]]).vals
              && k == EntryKey(KeyPrefix(k), KeyId(k))
  {
    var n := |data.keys|;
    CombinedUpToKeys(data, sel, fixer, n);
    CombinedUpToValues(data, sel, fixer, n);
    RenamedKeysLength(data, sel, n);
    forall i, id | 0 <= i < n && data.keys[i] in data.vals && id in sel(data.vals[data.keys[i]]).vals
      ensures EntryKey(i, id) in Combined(data, sel, fixer).vals
      ensures Combined(data, sel, fixer).vals[EntryKey(i, id)] == fixer(sel(data.vals[data.keys[i]]).vals[id], data.keys[i])
    {
      CombinedUpToEntry(data, sel, fixer, n, i, id);
    }
    forall k | k in Combined(data, sel, fixer).vals
      ensures 0 <= KeyPrefix(k) < n && data.keys[KeyPrefix(k)] in data.vals
      ensures KeyId(k) in sel(data.vals[data.keys[KeyPrefix(k)]]).vals
      ensures k == EntryKey(KeyPrefix(k), KeyId(k))
    {
      CombinedUpToOrigin(data, sel, fixer, n, k);
    }
  }
}
