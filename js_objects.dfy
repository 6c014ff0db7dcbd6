/**
 * Plain JavaScript objects used as dictionaries, and the few lodash helpers
 * the core relies on (pick, omit, keyBy), together with Object.assign.
 *
 * A JavaScript object is modelled by the order in which `Object.keys`
 * enumerates it and by the map from keys to values. Every key the core
 * writes is a file path or a `"<prefix>.<id>"` string, never an array
 * index, so enumeration order is insertion order.
 */
module JsObjects {

  datatype Option<T> = None | Some(value: T)

  ghost predicate Distinct<T>(s: seq<T>) {
    forall i, j :: 0 <= i < j < |s| ==> s[i] != s[j]
  }

  datatype Obj<V> = Obj(keys: seq<string>, vals: map<string, V>) {
    /** The keys are enumerated once each, and exactly the keys that hold a value. */
    ghost predicate Valid() {
      Distinct(keys) && vals.Keys == set k | k in keys
    }
  }

  /** Every enumerated key holds a value. */
  lemma KeyAt<V>(o: Obj<V>, i: nat)
    requires o.Valid() && i < |o.keys|
    ensures o.keys[i] in o.vals
  {
  }

  /** The place of a key in the enumeration. */
  lemma KeyIndex<V>(o: Obj<V>, k: string) returns (j: nat)
    requires o.Valid() && k in o.vals
    ensures j < |o.keys| && o.keys[j] == k
  {
    j :| 0 <= j < |o.keys| && o.keys[j] == k;
  }

  function Empty<V>(): (r: Obj<V>)
    ensures r.Valid() && r.keys == [] && r.vals == map[]
  {
    Obj([], map[])
  }

  /** `o[k] = v`: an existing key keeps its place, a new key goes last. */
  function Put<V>(o: Obj<V>, k: string, v: V): (r: Obj<V>)
    ensures o.Valid() ==> r.Valid()
    ensures r.vals == o.vals[k := v]
    ensures k in o.vals ==> r.keys == o.keys
    ensures k !in o.vals ==> r.keys == o.keys + [k]
  {
    Obj(if k in o.vals then o.keys else o.keys + [k], o.vals[k := v])
  }

  /** The values in enumeration order. */
  function Values<V>(o: Obj<V>): (r: seq<V>)
    requires o.Valid()
    ensures |r| == |o.keys|
    ensures forall i :: 0 <= i < |o.keys| ==> r[i] == o.vals[o.keys[i]]
  {
    seq(|o.keys|, i requires 0 <= i < |o.keys| => o.vals[o.keys[i]])
  }

  function EntryKeys<V>(es: seq<(string, V)>): (r: seq<string>)
    ensures |r| == |es| && forall i :: 0 <= i < |es| ==> r[i] == es[i].0
  {
    seq(|es|, i requires 0 <= i < |es| => es[i].0)
  }

  function EntryValues<V>(es: seq<(string, V)>): (r: seq<V>)
    ensures |r| == |es| && forall i :: 0 <= i < |es| ==> r[i] == es[i].1
  {
    seq(|es|, i requires 0 <= i < |es| => es[i].1)
  }

  /** Assigns the entries one after another, as `for (...) out[k] = v` does. */
  function PutAll<V>(o: Obj<V>, es: seq<(string, V)>): Obj<V>
    decreases |es|
  {
    if es == [] then o
    else Put(PutAll(o, es[..|es| - 1]), es[|es| - 1].0, es[|es| - 1].1)
  }

  /** One more assignment of the loop `for (...) out[k] = v`. */
  lemma PutAllStep<V>(o: Obj<V>, es: seq<(string, V)>, j: nat)
    requires j < |es|
    ensures PutAll(o, es[..j + 1]) == Put(PutAll(o, es[..j]), es[j].0, es[j].1)
  {
    assert es[..j + 1][..j] == es[..j];
  }

  /**
   * When no entry key is already present and the entry keys are pairwise
   * distinct, assigning them appends every entry: nothing is overwritten.
   */
  lemma {:induction false} PutAllFresh<V>(o: Obj<V>, es: seq<(string, V)>)
    requires o.Valid()
    requires Distinct(EntryKeys(es))
    requires forall i :: 0 <= i < |es| ==> es[i].0 !in o.vals
    ensures PutAll(o, es).Valid()
    ensures PutAll(o, es).keys == o.keys + EntryKeys(es)
    decreases |es|
  {
    if es != [] {
      var init, k, v := es[..|es| - 1], es[|es| - 1].0, es[|es| - 1].1;
      assert Distinct(EntryKeys(init)) by {
        assert EntryKeys(init) == EntryKeys(es)[..|es| - 1];
      }
      PutAllFresh(o, init);
      var r0 := PutAll(o, init);
      assert k !in r0.vals by {
        assert k !in EntryKeys(init) by {
          assert EntryKeys(es) == EntryKeys(init) + [k];
        }
      }
      assert PutAll(o, es) == Put(r0, k, v);
      assert EntryKeys(es) == EntryKeys(init) + [k];
    }
  }

  /** Every entry with distinct keys is found under its key after the assignments. */
  lemma {:induction false} PutAllLookup<V>(o: Obj<V>, es: seq<(string, V)>)
    requires Distinct(EntryKeys(es))
    ensures forall i :: 0 <= i < |es| ==> es[i].0 in PutAll(o, es).vals && PutAll(o, es).vals[es[i].0] == es[i].1
    ensures forall k :: k in o.vals && k !in EntryKeys(es) ==> k in PutAll(o, es).vals && PutAll(o, es).vals[k] == o.vals[k]
    ensures forall k :: k in PutAll(o, es).vals ==> k in o.vals || k in EntryKeys(es)
    decreases |es|
  {
    if es != [] {
      var init, k, v := es[..|es| - 1], es[|es| - 1].0, es[|es| - 1].1;
      assert EntryKeys(init) == EntryKeys(es)[..|es| - 1];
      assert EntryKeys(es) == EntryKeys(init) + [k];
      PutAllLookup(o, init);
      assert PutAll(o, es) == Put(PutAll(o, init), k, v);
      forall i | 0 <= i < |init| ensures es[i].0 != k {
        assert EntryKeys(es)[i] == es[i].0;
      }
    }
  }

  /** Entry `j` is found under its key after the assignments. */
  lemma PutAllAt<V>(o: Obj<V>, es: seq<(string, V)>, j: nat)
    requires Distinct(EntryKeys(es)) && j < |es|
    ensures es[j].0 in PutAll(o, es).vals && PutAll(o, es).vals[es[j].0] == es[j].1
  {
    PutAllLookup(o, es);
  }

  /** A key no entry assigns keeps its value. */
  lemma PutAllKeeps<V>(o: Obj<V>, es: seq<(string, V)>, k: string)
    requires Distinct(EntryKeys(es)) && k in o.vals && k !in EntryKeys(es)
    ensures k in PutAll(o, es).vals && PutAll(o, es).vals[k] == o.vals[k]
  {
    PutAllLookup(o, es);
  }

  /** A key of the result was there before or was assigned. */
  lemma PutAllFrom<V>(o: Obj<V>, es: seq<(string, V)>, k: string)
    requires Distinct(EntryKeys(es)) && k in PutAll(o, es).vals
    ensures k in o.vals || k in EntryKeys(es)
  {
    PutAllLookup(o, es);
  }

  /** Under the same conditions the values come out in the order they were assigned. */
  lemma PutAllFreshValues<V>(o: Obj<V>, es: seq<(string, V)>)
    requires o.Valid()
    requires Distinct(EntryKeys(es))
    requires forall i :: 0 <= i < |es| ==> es[i].0 !in o.vals
    ensures PutAll(o, es).Valid()
    ensures Values(PutAll(o, es)) == Values(o) + EntryValues(es)
  {
    PutAllFresh(o, es);
    PutAllLookup(o, es);
    var r := PutAll(o, es);
    forall i | 0 <= i < |r.keys| ensures Values(r)[i] == (Values(o) + EntryValues(es))[i] {
      if i < |o.keys| {
        assert r.keys[i] == o.keys[i];
        assert o.keys[i] in o.vals;
        assert o.keys[i] !in EntryKeys(es);
      } else {
        assert r.keys[i] == EntryKeys(es)[i - |o.keys|];
      }
    }
  }

  /**
   * lodash `pick(o, ks)`: the keys of `ks` that `o` has, in the order of `ks`
   * (a repeated key keeps its first place), with their values.
   */
  function Pick<V>(o: Obj<V>, ks: seq<string>): (r: Obj<V>)
    ensures r.Valid()
    ensures forall k :: k in r.vals <==> k in o.vals && k in ks
    ensures forall k :: k in r.vals ==> r.vals[k] == o.vals[k]
    decreases |ks|
  {
    if ks == [] then Empty()
    else
      var r0 := Pick(o, ks[..|ks| - 1]);
      var k := ks[|ks| - 1];
      if k in o.vals then Put(r0, k, o.vals[k]) else r0
  }

  /** The position of the first `k` in `ks`. */
  function FirstIndex(ks: seq<string>, k: string): (i: nat)
    requires k in ks
    ensures i < |ks| && ks[i] == k
    ensures forall j :: 0 <= j < i ==> ks[j] != k
    decreases |ks|
  {
    if ks[0] == k then 0 else 1 + FirstIndex(ks[1..], k)
  }

  /** Appending to a list does not move the first occurrence of a key already in it. */
  lemma FirstIndexPrefix(a: seq<string>, b: seq<string>, k: string)
    requires k in a
    ensures k in a + b && FirstIndex(a + b, k) == FirstIndex(a, k)
  {
    var i, j := FirstIndex(a, k), FirstIndex(a + b, k);
    assert (a + b)[i] == k;
  }

  /**
   * `pick` lists the keys it keeps in the order of their first occurrence in
   * `ks`, whatever the order of `o`.
   */
  lemma {:induction false} PickOrder<V>(o: Obj<V>, ks: seq<string>, i: nat, j: nat)
    requires i < j < |Pick(o, ks).keys|
    ensures Pick(o, ks).keys[i] in ks && Pick(o, ks).keys[j] in ks
    ensures FirstIndex(ks, Pick(o, ks).keys[i]) < FirstIndex(ks, Pick(o, ks).keys[j])
    decreases |ks|
  {
    var init, k := ks[..|ks| - 1], ks[|ks| - 1];
    assert ks == init + [k];
    var r, r0 := Pick(o, ks), Pick(o, init);
    var grows := k in o.vals && k !in r0.vals;
    assert r.keys == if grows then r0.keys + [k] else r0.keys;
    var x, y := r.keys[i], r.keys[j];
    assert x in r0.vals && r0.keys[i] == x;
    FirstIndexPrefix(init, [k], x);
    if j < |r0.keys| {
      assert r0.keys[j] == y;
      PickOrder(o, init, i, j);
      FirstIndexPrefix(init, [k], y);
    } else {
      assert y == k && k !in init;
    }
  }

  /** Of two keys `pick` keeps, the one listed first in `ks` comes first. */
  lemma PickPositions<V>(o: Obj<V>, ks: seq<string>, a: nat, b: nat)
    requires a < |Pick(o, ks).keys| && b < |Pick(o, ks).keys|
    ensures Pick(o, ks).keys[a] in ks && Pick(o, ks).keys[b] in ks
    ensures a < b <==> FirstIndex(ks, Pick(o, ks).keys[a]) < FirstIndex(ks, Pick(o, ks).keys[b])
  {
    if a < b {
      PickOrder(o, ks, a, b);
    } else if b < a {
      PickOrder(o, ks, b, a);
    } else {
      assert Pick(o, ks).keys[a] in Pick(o, ks).vals;
    }
  }

  /** The keys of `keys` that are not in `ks`, in their order. */
  function Without(keys: seq<string>, ks: seq<string>): (r: seq<string>)
    ensures forall k :: k in r <==> k in keys && k !in ks
    ensures Distinct(keys) ==> Distinct(r)
    decreases |keys|
  {
    if keys == [] then []
    else if keys[0] in ks then Without(keys[1..], ks)
    else [keys[0]] + Without(keys[1..], ks)
  }

  /** lodash `omit(o, ks)`: every other key of `o`, in `o`'s order. */
  function Omit<V>(o: Obj<V>, ks: seq<string>): (r: Obj<V>)
    requires o.Valid()
    ensures r.Valid()
    ensures forall k :: k in r.vals <==> k in o.vals && k !in ks
    ensures forall k :: k in r.vals ==> r.vals[k] == o.vals[k]
  {
    Obj(Without(o.keys, ks), map k | k in o.vals && k !in ks :: o.vals[k])
  }

  /**
   * `pick` and `omit` over the same key list split an object exactly: no key
   * lands in both, and together they hold every entry with its value.
   */
  lemma PickOmitPartition<V>(o: Obj<V>, ks: seq<string>)
    requires o.Valid()
    ensures Pick(o, ks).vals.Keys !! Omit(o, ks).vals.Keys
    ensures Pick(o, ks).vals + Omit(o, ks).vals == o.vals
  {
  }

  /** Listing the omitted keys, then the picked ones, enumerates the object once over. */
  lemma PickOmitPermutation<V>(o: Obj<V>, ks: seq<string>)
    requires o.Valid()
    ensures Distinct(Omit(o, ks).keys + Pick(o, ks).keys)
    ensures multiset(Omit(o, ks).keys + Pick(o, ks).keys) == multiset(o.keys)
  {
    var p, q := Pick(o, ks), Omit(o, ks);
    assert forall x :: x in q.keys ==> x !in p.keys by {
      assert forall x :: x in q.keys ==> x in q.vals;
      assert forall x :: x in p.keys ==> x in p.vals;
    }
    DistinctConcat(q.keys, p.keys);
    forall x ensures x in q.keys + p.keys <==> x in o.keys {
      assert x in q.keys + p.keys <==> x in q.keys || x in p.keys;
      assert x in q.keys <==> x in q.vals;
      assert x in p.keys <==> x in p.vals;
      assert x in o.keys <==> x in o.vals;
    }
    DistinctSameElements(q.keys + p.keys, o.keys);
  }

  /** `Object.assign(target, source)`: the source's entries assigned in its order. */
  function Assign<V>(target: Obj<V>, source: Obj<V>): (r: Obj<V>)
    requires source.Valid()
    ensures target.Valid() ==> r.Valid()
    ensures forall k :: k in r.vals <==> k in target.vals || k in source.vals
    ensures forall k :: k in source.vals ==> r.vals[k] == source.vals[k]
    ensures forall k :: k in target.vals && k !in source.vals ==> r.vals[k] == target.vals[k]
  {
    AssignKeys(target, source, source.keys)
  }

  function AssignKeys<V>(target: Obj<V>, source: Obj<V>, ks: seq<string>): (r: Obj<V>)
    requires forall k :: k in ks ==> k in source.vals
    ensures target.Valid() ==> r.Valid()
    ensures forall k :: k in r.vals <==> k in target.vals || k in ks
    ensures forall k :: k in ks ==> r.vals[k] == source.vals[k]
    ensures forall k :: k in target.vals && k !in ks ==> r.vals[k] == target.vals[k]
    decreases |ks|
  {
    if ks == [] then target
    else
      var k := ks[|ks| - 1];
      assert forall x :: x in ks <==> x in ks[..|ks| - 1] || x == k by {
        assert ks == ks[..|ks| - 1] + [k];
      }
      Put(AssignKeys(target, source, ks[..|ks| - 1]), k, source.vals[k])
  }

  /**
   * lodash `keyBy(xs, key)`: each element filed under its key; when two
   * elements share a key the later one wins, the key keeps its first place.
   */
  function KeyBy<T>(xs: seq<T>, key: T -> string): (r: Obj<T>)
    ensures r.Valid()
    decreases |xs|
  {
    if xs == [] then Empty()
    else Put(KeyBy(xs[..|xs| - 1], key), key(xs[|xs| - 1]), xs[|xs| - 1])
  }

  /** Exactly the keys of the elements are filed. */
  lemma {:induction false} KeyByDomain<T>(xs: seq<T>, key: T -> string, k: string)
    ensures k in KeyBy(xs, key).vals <==> exists i :: 0 <= i < |xs| && key(xs[i]) == k
    decreases |xs|
  {
    if xs != [] {
      var init := xs[..|xs| - 1];
      KeyByDomain(init, key, k);
      if exists i :: 0 <= i < |init| && key(init[i]) == k {
        var i :| 0 <= i < |init| && key(init[i]) == k;
        assert xs[i] == init[i];
      }
      if exists i :: 0 <= i < |xs| && key(xs[i]) == k {
        var i :| 0 <= i < |xs| && key(xs[i]) == k;
        if i < |init| {
          assert init[i] == xs[i];
        }
      }
    }
  }

  /** An element no later element shares a key with is the one filed under its key. */
  lemma {:induction false} KeyByLast<T>(xs: seq<T>, key: T -> string, i: nat)
    requires i < |xs|
    requires forall j :: i < j < |xs| ==> key(xs[j]) != key(xs[i])
    ensures key(xs[i]) in KeyBy(xs, key).vals && KeyBy(xs, key).vals[key(xs[i])] == xs[i]
    decreases |xs|
  {
    if i < |xs| - 1 {
      var init := xs[..|xs| - 1];
      assert init[i] == xs[i];
      forall j | i < j < |init| ensures key(init[j]) != key(init[i]) {
        assert init[j] == xs[j];
      }
      KeyByLast(init, key, i);
    }
  }

  lemma DistinctConcat<T>(a: seq<T>, b: seq<T>)
    requires Distinct(a) && Distinct(b)
    requires forall x :: x in a ==> x !in b
    ensures Distinct(a + b)
  {
    forall i, j | 0 <= i < j < |a + b|
      ensures (a + b)[i] != (a + b)[j]
    {
      if j < |a| {
      } else if i >= |a| {
        assert (a + b)[i] == b[i - |a|] && (a + b)[j] == b[j - |a|];
      } else {
        assert (a + b)[i] in a && (a + b)[j] in b;
      }
    }
  }

  /** In a sequence without repetitions every element occurs once. */
  lemma {:induction false} DistinctMultiplicity<T>(s: seq<T>, x: T)
    requires Distinct(s)
    ensures multiset(s)[x] == if x in s then 1 else 0
    decreases |s|
  {
    if s != [] {
      var init := s[..|s| - 1];
      assert s == init + [s[|s| - 1]];
      assert s[|s| - 1] !in init;
      DistinctMultiplicity(init, x);
    }
  }

  /** Two sequences without repetitions that hold the same elements are permutations. */
  lemma DistinctSameElements<T>(a: seq<T>, b: seq<T>)
    requires Distinct(a) && Distinct(b)
    requires forall x :: x in a <==> x in b
    ensures multiset(a) == multiset(b)
  {
    forall x ensures multiset(a)[x] == multiset(b)[x] {
      DistinctMultiplicity(a, x);
      DistinctMultiplicity(b, x);
    }
  }
}
