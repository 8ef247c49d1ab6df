/**
 * One tier of the image cache (src/logic/cache/imageCache.js): a JS Map
 * from key to entry, the insertion order that Map keeps, and the byte
 * counter kept beside it (`ramCacheSize`, `diskCacheSize`).  The entry
 * type is a parameter; `f` reads an entry's recorded size and `stamp` its
 * lastAccess.
 */
module CacheTier {
  import opened Common
  import opened Lru

  datatype Store<V> = Store(entries: map<string, V>, order: seq<string>, size: int)

  function Empty<V>(): Store<V> {
    Store(map[], [], 0)
  }

  /** A per-key view of an entry field: 0 for a key the Map does not hold. */
  function SizeAt<V>(m: map<string, V>, f: V -> int): string -> int {
    k => if k in m then f(m[k]) else 0
  }

  /** The order lists exactly the Map's keys, once each. */
  ghost predicate OrderOf<V>(order: seq<string>, m: map<string, V>) {
    NoDuplicates(order) && forall k :: k in order <==> k in m
  }

  /** The tier's bookkeeping: the order lists the Map's keys and the
      counter is the sum of the recorded sizes. */
  ghost predicate Kept<V>(s: Store<V>, f: V -> int) {
    OrderOf(s.order, s.entries) && s.size == SizeSum(s.order, SizeAt(s.entries, f))
  }

  /** Every entry of `m` is an unchanged entry of `m0`. */
  ghost predicate SubMap<V>(m: map<string, V>, m0: map<string, V>) {
    forall k :: k in m ==> k in m0 && m[k] == m0[k]
  }

  // ---------------------------------------------------------------------
  // Map.set and Map.delete
  // ---------------------------------------------------------------------

  /** Map.set(key, e) with the counter kept exact: a new key goes to the
      end of the order, an existing one keeps its place and its old size
      is taken off. */
  function StorePut<V>(s: Store<V>, key: string, e: V, f: V -> int): Store<V> {
    if key in s.entries then Store(s.entries[key := e], s.order, s.size - f(s.entries[key]) + f(e))
    else Store(s.entries[key := e], s.order + [key], s.size + f(e))
  }

  /** Map.set(key, e) followed by `counter += size`, as _addToRamCache and
      _addToDiskCache do it, whether or not the key was there. */
  function StorePutAsWritten<V>(s: Store<V>, key: string, e: V, f: V -> int): Store<V> {
    if key in s.entries then Store(s.entries[key := e], s.order, s.size + f(e))
    else Store(s.entries[key := e], s.order + [key], s.size + f(e))
  }

  /** The counter is taken down by the entry's size, then Map.delete(key). */
  function StoreDelete<V>(s: Store<V>, key: string, f: V -> int): Store<V> {
    if key in s.entries then Store(s.entries - {key}, Without(s.order, [key]), s.size - f(s.entries[key]))
    else s
  }

  lemma StorePutKept<V>(s: Store<V>, key: string, e: V, f: V -> int)
    requires Kept(s, f)
    ensures var r := StorePut(s, key, e, f);
      && Kept(r, f)
      && key in r.entries && r.entries[key] == e
      && (forall k :: k != key ==> (k in r.entries <==> k in s.entries))
      && (forall k :: k in r.entries && k != key ==> r.entries[k] == s.entries[k])
      && r.order == (if key in s.entries then s.order else s.order + [key])
  {
    var r := StorePut(s, key, e, f);
    if key in s.entries {
      ReplaceSum(s.order, SizeAt(s.entries, f), SizeAt(r.entries, f), key);
    } else {
      SizeSumAppend(s.order, [key], SizeAt(r.entries, f));
      SizeSumAgree(s.order, SizeAt(s.entries, f), SizeAt(r.entries, f));
      assert [key][1..] == [];
      assert key !in s.order;
      assert forall i :: 0 <= i < |s.order| ==> r.order[i] == s.order[i];
    }
  }

  /** Setting a key that is already there through `counter += size` leaves
      the counter above the bytes held by the replaced entry's size. */
  lemma CounterDrift<V>(s: Store<V>, key: string, e: V, f: V -> int)
    requires Kept(s, f) && key in s.entries
    ensures StorePutAsWritten(s, key, e, f).size == StorePut(s, key, e, f).size + f(s.entries[key])
    ensures f(s.entries[key]) != 0 ==> !Kept(StorePutAsWritten(s, key, e, f), f)
  {
    StorePutKept(s, key, e, f);
  }

  lemma StoreDeleteKept<V>(s: Store<V>, key: string, f: V -> int)
    requires Kept(s, f)
    ensures var r := StoreDelete(s, key, f);
      && Kept(r, f)
      && key !in r.entries
      && SubMap(r.entries, s.entries)
      && (forall k :: k in s.entries && k != key ==> k in r.entries)
  {
    if key in s.entries {
      var r := StoreDelete(s, key, f);
      SizeSumRemove(s.order, key, SizeAt(s.entries, f));
      SizeSumAgree(r.order, SizeAt(s.entries, f), SizeAt(r.entries, f));
    }
  }

  /** Map.size: the number of keys is the length of the order. */
  lemma KeptCount<V>(s: Store<V>, f: V -> int)
    requires Kept(s, f)
    ensures |s.entries| == |s.order|
  {
    assert s.entries.Keys == SeqSet(s.order);
    DistinctCard(s.order);
  }

  function SeqSet<T>(s: seq<T>): set<T> {
    set x | x in s
  }

  lemma {:induction false} DistinctCard<T>(s: seq<T>)
    requires NoDuplicates(s)
    ensures |SeqSet(s)| == |s|
  {
    if s != [] {
      DistinctCard(s[1..]);
      assert SeqSet(s) == {s[0]} + SeqSet(s[1..]);
      assert s[0] !in s[1..];
    }
  }

  // ---------------------------------------------------------------------
  // Eviction
  // ---------------------------------------------------------------------

  /** The keys the eviction loop removes: least recently used first. */
  function VictimsOf<V>(s: Store<V>, required: int, max: int, f: V -> int, stamp: V -> int): seq<string> {
    Victims(s.order, s.size, required, max, SizeAt(s.entries, f), SizeAt(s.entries, stamp))
  }

  /** The tier after _evictRamCache / _evictDiskCache(required). */
  function Evicted<V>(s: Store<V>, required: int, max: int, f: V -> int, stamp: V -> int): Store<V> {
    var v := VictimsOf(s, required, max, f, stamp);
    Store(RemoveKeys(s.entries, v), Without(s.order, v), s.size - SizeSum(v, SizeAt(s.entries, f)))
  }

  /** The victims are distinct keys of the tier, taken from the front of
      the keys sorted by lastAccess. */
  lemma VictimsFacts<V>(s: Store<V>, required: int, max: int, f: V -> int, stamp: V -> int)
    requires Kept(s, f)
    ensures var sorted := SortBy(s.order, SizeAt(s.entries, stamp));
      var v := VictimsOf(s, required, max, f, stamp);
      && NoDuplicates(sorted) && (forall k :: k in sorted <==> k in s.order)
      && v <= sorted && NoDuplicates(v) && (forall x :: x in v ==> x in s.order)
  {
    var sorted := SortBy(s.order, SizeAt(s.entries, stamp));
    var v := VictimsOf(s, required, max, f, stamp);
    SweepSetup(s.order, s.entries, SizeAt(s.entries, stamp));
    PrefixDistinct(v, sorted);
  }

  lemma PrefixDistinct<T>(v: seq<T>, s: seq<T>)
    requires v <= s && NoDuplicates(s)
    ensures NoDuplicates(v) && forall x :: x in v ==> x in s
  {
    assert forall i :: 0 <= i < |v| ==> v[i] == s[i];
  }

  lemma EvictedKeysKept<V>(s: Store<V>, required: int, max: int, f: V -> int, stamp: V -> int)
    requires Kept(s, f)
    ensures var r := Evicted(s, required, max, f, stamp);
      && OrderOf(r.order, r.entries)
      && SubMap(r.entries, s.entries)
      && (VictimsOf(s, required, max, f, stamp) == SortBy(s.order, SizeAt(s.entries, stamp)) ==>
            r.order == [] && r.entries == map[])
  {
    var v := VictimsOf(s, required, max, f, stamp);
    VictimsFacts(s, required, max, f, stamp);
    EvictedKeys(SortBy(s.order, SizeAt(s.entries, stamp)), s.order, s.entries, v);
    RemoveKeysSpec(s.entries, v);
  }

  lemma EvictedSizeKept<V>(s: Store<V>, required: int, max: int, f: V -> int, stamp: V -> int)
    requires Kept(s, f)
    ensures var r := Evicted(s, required, max, f, stamp);
      r.size == SizeSum(r.order, SizeAt(r.entries, f))
  {
    var v := VictimsOf(s, required, max, f, stamp);
    var r := Evicted(s, required, max, f, stamp);
    VictimsFacts(s, required, max, f, stamp);
    SizeSumWithout(s.order, v, SizeAt(s.entries, f));
    EvictedKeysKept(s, required, max, f, stamp);
    SizeSumSub(r.order, r.entries, s.entries, f);
  }

  /** A sum over keys of a sub-map does not depend on which of the two
      maps the sizes are read from. */
  lemma SizeSumSub<V>(order: seq<string>, m: map<string, V>, m0: map<string, V>, f: V -> int)
    requires forall k :: k in order ==> k in m
    requires SubMap(m, m0)
    ensures SizeSum(order, SizeAt(m0, f)) == SizeSum(order, SizeAt(m, f))
  {
    forall i | 0 <= i < |order|
      ensures SizeAt(m0, f)(order[i]) == SizeAt(m, f)(order[i])
    {
      assert order[i] in m;
    }
    SizeSumAgree(order, SizeAt(m0, f), SizeAt(m, f));
  }

  /** Eviction keeps the bookkeeping, only removes entries, changes nothing
      when `size + required` already fits, and otherwise stops once it
      fits or the tier is empty. */
  lemma EvictedKept<V>(s: Store<V>, required: int, max: int, f: V -> int, stamp: V -> int)
    requires Kept(s, f)
    ensures var r := Evicted(s, required, max, f, stamp);
      && Kept(r, f)
      && SubMap(r.entries, s.entries)
      && (s.size + required <= max ==> r == s)
      && (r.size + required <= max || (r.entries == map[] && r.order == [] && r.size == 0))
  {
    EvictedKeysKept(s, required, max, f, stamp);
    EvictedSizeKept(s, required, max, f, stamp);
    if s.size + required <= max {
      WithoutNothing(s.order);
    }
  }

  /** Evicting from an empty tier leaves it empty. */
  lemma EvictedEmpty<V>(required: int, max: int, f: V -> int, stamp: V -> int)
    ensures Evicted(Empty<V>(), required, max, f, stamp) == Empty<V>()
  {
    var r := Evicted(Empty<V>(), required, max, f, stamp);
    assert Kept(Empty<V>(), f);
    EvictedKept(Empty<V>(), required, max, f, stamp);
  }

  /** Least recently used first: no evicted entry was accessed later than
      an entry that stays. */
  lemma EvictedLeastRecent<V>(s: Store<V>, required: int, max: int, f: V -> int, stamp: V -> int)
    requires Kept(s, f)
    ensures var r := Evicted(s, required, max, f, stamp);
      forall a, b :: a in s.entries && a !in r.entries && b in s.entries && b in r.entries ==>
        stamp(s.entries[a]) <= stamp(s.entries[b])
  {
    var v := VictimsOf(s, required, max, f, stamp);
    var r := Evicted(s, required, max, f, stamp);
    VictimsLeastRecent(s.order, s.size, required, max, SizeAt(s.entries, f), SizeAt(s.entries, stamp));
    RemoveKeysSpec(s.entries, v);
    forall a, b | a in s.entries && a !in r.entries && b in s.entries && b in r.entries
      ensures stamp(s.entries[a]) <= stamp(s.entries[b])
    {
      assert a in v && b in s.order && b !in v;
      assert SizeAt(s.entries, stamp)(a) <= SizeAt(s.entries, stamp)(b);
    }
  }

  // ---------------------------------------------------------------------
  // The eviction loop, with the files it deletes
  // ---------------------------------------------------------------------

  /** The file of an entry, as a set of paths to delete. */
  function FileSet(file: Option<string>): set<string> {
    if file.Some? then {file.value} else {}
  }

  /** The files of the entries of `m` listed in `keys`. */
  function FilesOf<V>(keys: seq<string>, m: map<string, V>, fileOf: V -> Option<string>): set<string> {
    if keys == [] then {}
    else
      var k := keys[|keys| - 1];
      FilesOf(keys[..|keys| - 1], m, fileOf) + (if k in m then FileSet(fileOf(m[k])) else {})
  }

  lemma {:induction false} FilesOfHas<V>(keys: seq<string>, m: map<string, V>, fileOf: V -> Option<string>, k: string)
    requires k in keys && k in m && fileOf(m[k]).Some?
    ensures fileOf(m[k]).value in FilesOf(keys, m, fileOf)
    decreases |keys|
  {
    if keys[|keys| - 1] != k {
      assert k in keys[..|keys| - 1] by {
        var i :| 0 <= i < |keys| && keys[i] == k;
        assert keys[..|keys| - 1][i] == k;
      }
      FilesOfHas(keys[..|keys| - 1], m, fileOf, k);
    }
  }

  /** The state of the eviction loop after i steps, files included. */
  ghost predicate EvictState<V>(entries: seq<string>, i: nat, order0: seq<string>, m0: map<string, V>,
                                counter0: int, size: string -> int, required: int, max: int,
                                fileOf: V -> Option<string>, files0: map<string, Bytes>,
                                order: seq<string>, m: map<string, V>, counter: int, files: map<string, Bytes>)
  {
    && EvictLoopInv(entries, i, order0, m0, counter0, size, required, max, order, m, counter)
    && files == files0 - FilesOf(entries[..i], m0, fileOf)
  }

  lemma EvictStateInit<V>(entries: seq<string>, order0: seq<string>, m0: map<string, V>,
                          counter0: int, size: string -> int, required: int, max: int,
                          fileOf: V -> Option<string>, files0: map<string, Bytes>)
    requires NoDuplicates(order0) && counter0 == SizeSum(order0, size)
    requires AllKeysIn(entries, m0)
    ensures EvictState(entries, 0, order0, m0, counter0, size, required, max, fileOf, files0, order0, m0, counter0, files0)
  {
    EvictLoopInit(entries, order0, m0, counter0, size, required, max);
    assert entries[..0] == [];
    assert files0 - {} == files0;
  }

  lemma EvictStateStep<V>(entries: seq<string>, i: nat, order0: seq<string>, m0: map<string, V>,
                          counter0: int, size: string -> int, required: int, max: int,
                          fileOf: V -> Option<string>, files0: map<string, Bytes>,
                          order: seq<string>, m: map<string, V>, counter: int, files: map<string, Bytes>,
                          order': seq<string>, m': map<string, V>, counter': int, files': map<string, Bytes>)
    requires NoDuplicates(entries) && i < |entries|
    requires forall k :: k in entries <==> k in order0
    requires EvictState(entries, i, order0, m0, counter0, size, required, max, fileOf, files0, order, m, counter, files)
    requires counter + required > max
    requires entries[i] in m
    requires order' == Without(order, [entries[i]]) && m' == m - {entries[i]}
    requires counter' == counter - size(entries[i]) && files' == files - FileSet(fileOf(m[entries[i]]))
    ensures EvictState(entries, i + 1, order0, m0, counter0, size, required, max, fileOf, files0, order', m', counter', files')
  {
    EvictLoopStep(entries, i, order0, m0, counter0, size, required, max, order, m, counter);
    FilesStep(entries, i, m0, fileOf, files0, files, files');
  }

  /** The files the loop has deleted after removing `entries[i]`. */
  lemma FilesStep<V>(entries: seq<string>, i: nat, m0: map<string, V>, fileOf: V -> Option<string>,
                     files0: map<string, Bytes>, files: map<string, Bytes>, files': map<string, Bytes>)
    requires i < |entries| && entries[i] in m0
    requires files == files0 - FilesOf(entries[..i], m0, fileOf)
    requires files' == files - FileSet(fileOf(m0[entries[i]]))
    ensures files' == files0 - FilesOf(entries[..i + 1], m0, fileOf)
  {
    assert entries[..i + 1][..i] == entries[..i];
  }

  /** Every key the loop visits is still in the Map when it is visited. */
  lemma EvictStateHas<V>(entries: seq<string>, i: nat, order0: seq<string>, m0: map<string, V>,
                         counter0: int, size: string -> int, required: int, max: int,
                         fileOf: V -> Option<string>, files0: map<string, Bytes>,
                         order: seq<string>, m: map<string, V>, counter: int, files: map<string, Bytes>)
    requires NoDuplicates(entries) && i < |entries|
    requires forall k :: k in entries <==> k in order0
    requires EvictState(entries, i, order0, m0, counter0, size, required, max, fileOf, files0, order, m, counter, files)
    requires counter + required > max
    ensures entries[i] in m
  {
    EvictLoopStep(entries, i, order0, m0, counter0, size, required, max, order, m, counter);
  }

  /** The `for` loop of `_evictRamCache` and `_evictDiskCache`: walks the
      keys sorted by lastAccess and, while `counter + required > max`,
      deletes each one's file (if it has one and it exists), takes its size
      off the counter and deletes it from the Map. */
  method EvictLoop<V>(entries: seq<string>, order0: seq<string>, m0: map<string, V>, counter0: int,
                      required: int, max: int, size: string -> int,
                      fileOf: V -> Option<string>, files0: map<string, Bytes>)
    returns (order: seq<string>, m: map<string, V>, counter: int, files: map<string, Bytes>)
    requires NoDuplicates(entries) && (forall k :: k in entries <==> k in order0)
    requires NoDuplicates(order0) && counter0 == SizeSum(order0, size)
    requires AllKeysIn(entries, m0)
    ensures var v := TakeVictims(entries, counter0, required, max, size);
      && order == Without(order0, v)
      && m == RemoveKeys(m0, v)
      && counter == counter0 - SizeSum(v, size)
      && files == files0 - FilesOf(v, m0, fileOf)
    ensures NoDuplicates(order) && counter == SizeSum(order, size)
  {
    EvictStateInit(entries, order0, m0, counter0, size, required, max, fileOf, files0);
    order, m, counter, files := order0, m0, counter0, files0;
    var i: nat := 0;
    while i < |entries|
      invariant EvictState(entries, i, order0, m0, counter0, size, required, max, fileOf, files0, order, m, counter, files)
    {
      if counter + required <= max {
        break;
      }
      var k := entries[i];
      EvictStateHas(entries, i, order0, m0, counter0, size, required, max, fileOf, files0, order, m, counter, files);
      ghost var order1, m1, counter1, files1 := order, m, counter, files;
      // Unlinking a file that does not exist leaves the directory as it is.
      files := files - FileSet(fileOf(m[k]));
      counter := counter - size(k);
      m := m - {k};
      order := Without(order, [k]);
      EvictStateStep(entries, i, order0, m0, counter0, size, required, max, fileOf, files0,
                     order1, m1, counter1, files1, order, m, counter, files);
      i := i + 1;
    }
    EvictDone(entries, i, order0, m0, counter0, size, required, max, order, m, counter);
  }

  lemma SweepSetup<V>(order0: seq<string>, m0: map<string, V>, stamp: string -> int)
    requires OrderOf(order0, m0)
    ensures var entries := SortBy(order0, stamp);
      NoDuplicates(entries) && (forall k :: k in entries <==> k in order0) && AllKeysIn(entries, m0)
  {
    var entries := SortBy(order0, stamp);
    SortByDistinct(order0, stamp);
    assert forall k :: k in entries <==> k in order0 by {
      assert forall k :: k in entries <==> k in multiset(entries);
    }
    AllKeysInFrom(entries, m0);
  }

  /** The sort and the loop, once eviction is needed. */
  method SweepTier<V>(order0: seq<string>, m0: map<string, V>, counter0: int, required: int, max: int,
                      size: string -> int, stamp: string -> int,
                      fileOf: V -> Option<string>, files0: map<string, Bytes>)
    returns (order: seq<string>, m: map<string, V>, counter: int, files: map<string, Bytes>)
    requires OrderOf(order0, m0) && counter0 == SizeSum(order0, size)
    ensures var v := Victims(order0, counter0, required, max, size, stamp);
      && order == Without(order0, v)
      && m == RemoveKeys(m0, v)
      && counter == counter0 - SizeSum(v, size)
      && files == files0 - FilesOf(v, m0, fileOf)
  {
    // Array.from(map.entries()).sort((a, b) => a.lastAccess - b.lastAccess)
    var entries := SortBy(order0, stamp);
    SweepSetup(order0, m0, stamp);
    order, m, counter, files := EvictLoop(entries, order0, m0, counter0, required, max, size, fileOf, files0);
  }

  /** _evictRamCache / _evictDiskCache on a tier's values: nothing happens
      when `size + required` fits; otherwise the loop runs (`swept`). */
  method EvictTier<V>(s: Store<V>, required: int, max: int, f: V -> int, stamp: V -> int,
                      fileOf: V -> Option<string>, files0: map<string, Bytes>)
    returns (swept: bool, r: Store<V>, files: map<string, Bytes>)
    requires Kept(s, f)
    ensures swept <==> s.size + required > max
    ensures r == Evicted(s, required, max, f, stamp)
    ensures files == files0 - FilesOf(VictimsOf(s, required, max, f, stamp), s.entries, fileOf)
  {
    if s.size + required <= max {
      EvictedKept(s, required, max, f, stamp);
      assert VictimsOf(s, required, max, f, stamp) == [];
      assert files0 - {} == files0;
      return false, s, files0;
    }
    var order, m, counter;
    order, m, counter, files := SweepTier(s.order, s.entries, s.size, required, max,
                                          SizeAt(s.entries, f), SizeAt(s.entries, stamp), fileOf, files0);
    return true, Store(m, order, counter), files;
  }
}
