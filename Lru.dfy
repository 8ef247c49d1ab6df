/**
 * Least-recently-used eviction as both tiers of the image cache perform it
 * (src/logic/cache/imageCache.js, `_evictRamCache` and `_evictDiskCache`):
 * the entries, in the Map's insertion order, are sorted by `lastAccess`
 * with JavaScript's stable Array.prototype.sort, and removed from the front
 * while `counter + required > max`.
 *
 * Also the stable sort itself, which the game list of the library page
 * uses as well.
 */
module Lru {
  import opened Common

  // ---------------------------------------------------------------------
  // Stable sort by an integer key
  // ---------------------------------------------------------------------

  predicate SortedBy<T>(s: seq<T>, key: T -> int) {
    forall i, j :: 0 <= i < j < |s| ==> key(s[i]) <= key(s[j])
  }

  /** Puts x in front of the first element whose key is not smaller. */
  function Insert<T>(x: T, s: seq<T>, key: T -> int): (r: seq<T>)
    ensures multiset(r) == multiset(s) + multiset{x}
    ensures |r| == |s| + 1
  {
    if s == [] || key(x) <= key(s[0]) then [x] + s
    else
      assert s == [s[0]] + s[1..];
      [s[0]] + Insert(x, s[1..], key)
  }

  lemma {:induction false} InsertSorted<T>(x: T, s: seq<T>, key: T -> int)
    requires SortedBy(s, key)
    ensures SortedBy(Insert(x, s, key), key)
    ensures key(Insert(x, s, key)[0]) == (if s == [] || key(x) <= key(s[0]) then key(x) else key(s[0]))
  {
    if s != [] && key(x) > key(s[0]) {
      InsertSorted(x, s[1..], key);
      var rest := Insert(x, s[1..], key);
      assert Insert(x, s, key) == [s[0]] + rest;
      assert key(s[0]) <= key(rest[0]);
    }
  }

  /** Array.prototype.sort with the comparator `(a, b) => key(a) - key(b)`:
      ascending and stable. */
  function SortBy<T>(s: seq<T>, key: T -> int): (r: seq<T>)
    ensures multiset(r) == multiset(s)
    ensures SortedBy(r, key)
  {
    if s == [] then []
    else
      assert s == [s[0]] + s[1..];
      InsertSorted(s[0], SortBy(s[1..], key), key);
      Insert(s[0], SortBy(s[1..], key), key)
  }

  /** The elements whose key is v, in order. */
  function WithKey<T>(s: seq<T>, key: T -> int, v: int): seq<T> {
    if s == [] then []
    else (if key(s[0]) == v then [s[0]] else []) + WithKey(s[1..], key, v)
  }

  lemma {:induction false} InsertStable<T>(x: T, s: seq<T>, key: T -> int, v: int)
    requires SortedBy(s, key)
    ensures WithKey(Insert(x, s, key), key, v) ==
              (if key(x) == v then [x] else []) + WithKey(s, key, v)
  {
    var r := Insert(x, s, key);
    if s == [] || key(x) <= key(s[0]) {
      assert r == [x] + s && r[1..] == s;
    } else {
      var rest := Insert(x, s[1..], key);
      InsertStable(x, s[1..], key, v);
      assert r == [s[0]] + rest && r[1..] == rest;
      assert WithKey(r, key, v) == (if key(s[0]) == v then [s[0]] else []) + WithKey(rest, key, v);
      assert WithKey(s, key, v) == (if key(s[0]) == v then [s[0]] else []) + WithKey(s[1..], key, v);
    }
  }

  /** Stability: elements with equal keys keep their relative order. */
  lemma {:induction false} SortStable<T>(s: seq<T>, key: T -> int, v: int)
    ensures WithKey(SortBy(s, key), key, v) == WithKey(s, key, v)
  {
    if s != [] {
      SortStable(s[1..], key, v);
      InsertStable(s[0], SortBy(s[1..], key), key, v);
    }
  }

  // ---------------------------------------------------------------------
  // Eviction
  // ---------------------------------------------------------------------

  function SizeSum<K>(ks: seq<K>, size: K -> int): int {
    if ks == [] then 0 else size(ks[0]) + SizeSum(ks[1..], size)
  }

  /** The entries the eviction loop removes when it walks `sorted` from
      the front: it stops as soon as `counter + required <= max`. */
  function TakeVictims<K>(sorted: seq<K>, counter: int, required: int, max: int, size: K -> int): (v: seq<K>)
    ensures v <= sorted
    ensures counter + required <= max ==> v == []
    ensures counter - SizeSum(v, size) + required <= max || v == sorted
    ensures v != [] ==> counter - SizeSum(v[..|v| - 1], size) + required > max
  {
    if sorted == [] || counter + required <= max then []
    else
      var rest := TakeVictims(sorted[1..], counter - size(sorted[0]), required, max, size);
      var v := [sorted[0]] + rest;
      assert v[1..] == rest;
      assert rest != [] ==> v[..|v| - 1][1..] == rest[..|rest| - 1];
      v
  }

  /** The keys `_evictRamCache` / `_evictDiskCache` remove, in removal order. */
  function Victims<K>(order: seq<K>, counter: int, required: int, max: int,
                          size: K -> int, stamp: K -> int): seq<K>
  {
    TakeVictims(SortBy(order, stamp), counter, required, max, size)
  }

  /** Least recently used first: no evicted entry was accessed later than
      an entry that stays. */
  lemma VictimsLeastRecent<K>(order: seq<K>, counter: int, required: int, max: int,
                                  size: K -> int, stamp: K -> int)
    ensures var v := Victims(order, counter, required, max, size, stamp);
      forall a, b :: a in v && b in order && b !in v ==> stamp(a) <= stamp(b)
  {
    var sorted := SortBy(order, stamp);
    var v := Victims(order, counter, required, max, size, stamp);
    forall a, b | a in v && b in order && b !in v
      ensures stamp(a) <= stamp(b)
    {
      var i :| 0 <= i < |v| && v[i] == a;
      assert b in multiset(order);
      assert b in sorted;
      var j :| 0 <= j < |sorted| && sorted[j] == b;
      assert sorted[i] == a;
      assert forall k :: 0 <= k < |v| ==> sorted[k] in v;
      assert j >= |v|;
    }
  }

  /** The keys of s that are not in gone, in order (Map.delete). */
  function Without<K(==,!new)>(s: seq<K>, gone: seq<K>): (r: seq<K>)
    ensures forall x :: x in r <==> x in s && x !in gone
    ensures NoDuplicates(s) ==> NoDuplicates(r)
  {
    if s == [] then []
    else (if s[0] in gone then [] else [s[0]]) + Without(s[1..], gone)
  }

  /** Deleting one key takes its size off the total. */
  lemma {:induction false} SizeSumRemove<K(!new)>(s: seq<K>, x: K, size: K -> int)
    requires NoDuplicates(s) && x in s
    ensures SizeSum(Without(s, [x]), size) == SizeSum(s, size) - size(x)
  {
    assert Without(s, [x]) == (if s[0] == x then [] else [s[0]]) + Without(s[1..], [x]);
    if s[0] != x {
      SizeSumRemove(s[1..], x, size);
    } else {
      assert x !in s[1..];
      WithoutAbsent(s[1..], x);
      assert Without(s, [x]) == s[1..];
    }
  }

  lemma {:induction false} WithoutAbsent<K(!new)>(s: seq<K>, x: K)
    requires x !in s
    ensures Without(s, [x]) == s
  {
    if s != [] {
      WithoutAbsent(s[1..], x);
    }
  }

  lemma {:induction false} WithoutStep<K(!new)>(s: seq<K>, gone: seq<K>, x: K)
    ensures Without(Without(s, gone), [x]) == Without(s, gone + [x])
  {
    if s != [] {
      WithoutStep(s[1..], gone, x);
      var head := if s[0] in gone then [] else [s[0]];
      assert Without(s, gone) == head + Without(s[1..], gone);
      assert Without(s, gone + [x]) == (if s[0] in gone + [x] then [] else [s[0]]) + Without(s[1..], gone + [x]);
      WithoutConcat(head, Without(s[1..], gone), [x]);
    }
  }

  lemma {:induction false} WithoutConcat<K(!new)>(a: seq<K>, b: seq<K>, gone: seq<K>)
    ensures Without(a + b, gone) == Without(a, gone) + Without(b, gone)
  {
    if a != [] {
      var ab := a + b;
      assert ab[0] == a[0] && ab[1..] == a[1..] + b;
      WithoutConcat(a[1..], b, gone);
      assert Without(ab, gone) == (if a[0] in gone then [] else [a[0]]) + Without(ab[1..], gone);
    } else {
      assert a + b == b;
    }
  }

  lemma {:induction false} SizeSumAppend<K>(a: seq<K>, b: seq<K>, size: K -> int)
    ensures SizeSum(a + b, size) == SizeSum(a, size) + SizeSum(b, size)
  {
    if a != [] {
      var ab := a + b;
      assert ab[0] == a[0] && ab[1..] == a[1..] + b;
      SizeSumAppend(a[1..], b, size);
      assert SizeSum(ab, size) == size(ab[0]) + SizeSum(ab[1..], size);
    } else {
      assert a + b == b;
    }
  }

  lemma {:induction false} SizeSumAgree<K>(s: seq<K>, f: K -> int, g: K -> int)
    requires forall i :: 0 <= i < |s| ==> f(s[i]) == g(s[i])
    ensures SizeSum(s, f) == SizeSum(s, g)
  {
    if s != [] {
      SizeSumAgree(s[1..], f, g);
    }
  }

  lemma {:induction false} InsertDistinct<T>(x: T, s: seq<T>, key: T -> int)
    requires NoDuplicates(s) && x !in s
    ensures NoDuplicates(Insert(x, s, key))
  {
    if s != [] && key(x) > key(s[0]) {
      InsertDistinct(x, s[1..], key);
      var rest := Insert(x, s[1..], key);
      assert s[0] !in s[1..];
      assert s[0] !in multiset(s[1..]);
      assert s[0] !in multiset(rest);
    }
  }

  /** Sorting keys that are distinct gives distinct keys. */
  lemma {:induction false} SortByDistinct<T>(s: seq<T>, key: T -> int)
    requires NoDuplicates(s)
    ensures NoDuplicates(SortBy(s, key))
  {
    if s != [] {
      SortByDistinct(s[1..], key);
      var t := SortBy(s[1..], key);
      assert s[0] !in s[1..];
      assert s[0] !in multiset(s[1..]);
      assert s[0] !in multiset(t);
      InsertDistinct(s[0], t, key);
    }
  }

  lemma {:induction false} WithoutAll<K(!new)>(s: seq<K>, gone: seq<K>)
    requires forall x :: x in s ==> x in gone
    ensures Without(s, gone) == []
  {
    if s != [] {
      WithoutAll(s[1..], gone);
    }
  }

  lemma {:induction false} WithoutNothing<K(!new)>(s: seq<K>)
    ensures Without(s, []) == s
  {
    if s != [] {
      WithoutNothing(s[1..]);
    }
  }

  /** Changing one key's size changes a sum over distinct keys by the
      difference. */
  lemma {:induction false} ReplaceSum<K(!new)>(s: seq<K>, f: K -> int, g: K -> int, key: K)
    requires NoDuplicates(s) && key in s
    requires forall k :: k != key ==> f(k) == g(k)
    ensures SizeSum(s, g) == SizeSum(s, f) - f(key) + g(key)
  {
    if s[0] == key {
      assert key !in s[1..];
      SizeSumAgree(s[1..], f, g);
    } else {
      ReplaceSum(s[1..], f, g, key);
    }
  }

  /** Deleting distinct keys one after another takes their sizes off the
      total. */
  lemma {:induction false} SizeSumWithout<K(!new)>(s: seq<K>, v: seq<K>, size: K -> int)
    requires NoDuplicates(s) && NoDuplicates(v)
    requires forall x :: x in v ==> x in s
    ensures SizeSum(Without(s, v), size) == SizeSum(s, size) - SizeSum(v, size)
    decreases |v|
  {
    if v == [] {
      WithoutNothing(s);
    } else {
      var w := v[..|v| - 1];
      var x := v[|v| - 1];
      assert v == w + [x];
      assert x !in w;
      SizeSumWithout(s, w, size);
      WithoutStep(s, w, x);
      SizeSumRemove(Without(s, w), x, size);
      SizeSumAppend(w, [x], size);
      assert [x][1..] == [];
    }
  }

  // ---------------------------------------------------------------------
  // The eviction loop, one entry at a time
  // ---------------------------------------------------------------------

  /** Map.delete of each key of ks in turn. */
  function RemoveKeys<V>(m: map<string, V>, ks: seq<string>): map<string, V> {
    if ks == [] then m else RemoveKeys(m, ks[..|ks| - 1]) - {ks[|ks| - 1]}
  }

  lemma {:induction false} RemoveKeysSpec<V>(m: map<string, V>, ks: seq<string>)
    ensures forall x :: x in RemoveKeys(m, ks) <==> x in m && x !in ks
    ensures forall x :: x in RemoveKeys(m, ks) ==> RemoveKeys(m, ks)[x] == m[x]
  {
    if ks != [] {
      var init := ks[..|ks| - 1];
      RemoveKeysSpec(m, init);
      assert ks == init + [ks[|ks| - 1]];
    }
  }

  /** Every key of ks is in m. */
  predicate AllKeysIn<V>(ks: seq<string>, m: map<string, V>) {
    ks == [] || (ks[0] in m && AllKeysIn(ks[1..], m))
  }

  lemma {:induction false} AllKeysInFrom<V>(ks: seq<string>, m: map<string, V>)
    requires forall x :: x in ks ==> x in m
    ensures AllKeysIn(ks, m)
  {
    if ks != [] {
      AllKeysInFrom(ks[1..], m);
    }
  }

  /** The state of the eviction loop after its first i steps over `entries`
      (the sorted keys of `m0`, listed in `order0`): those keys are gone from
      the order and the Map, and their sizes from the counter. */
  ghost predicate EvictedUpTo<V>(entries: seq<string>, i: nat, order0: seq<string>, m0: map<string, V>,
                                 counter0: int, size: string -> int,
                                 order: seq<string>, m: map<string, V>, counter: int)
  {
    && i <= |entries|
    && order == Without(order0, entries[..i])
    && m == RemoveKeys(m0, entries[..i])
    && counter == counter0 - SizeSum(entries[..i], size)
    && counter == SizeSum(order, size)
    && NoDuplicates(order)
  }

  /** Removing `entries[i]` advances the loop state by one step. */
  lemma EvictStep<V>(entries: seq<string>, i: nat, order0: seq<string>, m0: map<string, V>,
                     counter0: int, size: string -> int,
                     order: seq<string>, m: map<string, V>, counter: int)
    requires NoDuplicates(entries) && i < |entries|
    requires forall k :: k in entries <==> k in order0
    requires EvictedUpTo(entries, i, order0, m0, counter0, size, order, m, counter)
    ensures var k := entries[i];
      EvictedUpTo(entries, i + 1, order0, m0, counter0, size, Without(order, [k]), m - {k}, counter - size(k))
  {
    var k := entries[i];
    var done := entries[..i];
    assert entries[..i + 1] == done + [k];
    assert k !in done;
    assert k in order;
    SizeSumRemove(order, k, size);
    WithoutStep(order0, done, k);
    SizeSumAppend(done, [k], size);
    assert SizeSum([k], size) == size(k) by {
      assert [k][1..] == [];
    }
    assert entries[..i + 1][..i] == done;
  }

  /** The victims still to go shrink by their head at each step. */
  lemma VictimStep(entries: seq<string>, i: nat, counter: int, size: string -> int,
                   v: seq<string>, required: int, max: int)
    requires i < |entries| && counter + required > max
    requires i <= |v| && v[i..] == TakeVictims(entries[i..], counter, required, max, size)
    ensures i + 1 <= |v| && v[i + 1..] == TakeVictims(entries[i + 1..], counter - size(entries[i]), required, max, size)
  {
    assert entries[i..][0] == entries[i] && entries[i..][1..] == entries[i + 1..];
    assert v[i + 1..] == v[i..][1..];
  }

  /** The eviction loop's invariant: after i steps the state is
      `EvictedUpTo` and the victims still to go are those of the rest. */
  ghost predicate EvictLoopInv<V>(entries: seq<string>, i: nat, order0: seq<string>, m0: map<string, V>,
                                  counter0: int, size: string -> int, required: int, max: int,
                                  order: seq<string>, m: map<string, V>, counter: int)
  {
    var v := TakeVictims(entries, counter0, required, max, size);
    && i <= |v|
    && v[i..] == TakeVictims(entries[i..], counter, required, max, size)
    && EvictedUpTo(entries, i, order0, m0, counter0, size, order, m, counter)
    && AllKeysIn(entries[i..], m0)
  }

  lemma EvictLoopInit<V>(entries: seq<string>, order0: seq<string>, m0: map<string, V>,
                         counter0: int, size: string -> int, required: int, max: int)
    requires NoDuplicates(order0) && counter0 == SizeSum(order0, size)
    requires AllKeysIn(entries, m0)
    ensures EvictLoopInv(entries, 0, order0, m0, counter0, size, required, max, order0, m0, counter0)
  {
    var v := TakeVictims(entries, counter0, required, max, size);
    assert entries[..0] == [] && entries[0..] == entries && v[0..] == v;
    WithoutNothing(order0);
  }

  lemma EvictLoopStep<V>(entries: seq<string>, i: nat, order0: seq<string>, m0: map<string, V>,
                         counter0: int, size: string -> int, required: int, max: int,
                         order: seq<string>, m: map<string, V>, counter: int)
    requires NoDuplicates(entries) && i < |entries|
    requires forall k :: k in entries <==> k in order0
    requires EvictLoopInv(entries, i, order0, m0, counter0, size, required, max, order, m, counter)
    requires counter + required > max
    ensures entries[i] in m && entries[i] in m0 && m[entries[i]] == m0[entries[i]]
    ensures var k := entries[i];
      EvictLoopInv(entries, i + 1, order0, m0, counter0, size, required, max,
                   Without(order, [k]), m - {k}, counter - size(k))
  {
    var v := TakeVictims(entries, counter0, required, max, size);
    VictimStep(entries, i, counter, size, v, required, max);
    EvictStep(entries, i, order0, m0, counter0, size, order, m, counter);
    assert entries[i] !in entries[..i];
    RemoveKeysSpec(m0, entries[..i]);
    assert entries[i..][1..] == entries[i + 1..];
  }

  /** When the loop stops, it has removed exactly the victims. */
  lemma EvictDone<V>(entries: seq<string>, i: nat, order0: seq<string>, m0: map<string, V>,
                     counter0: int, size: string -> int, required: int, max: int,
                     order: seq<string>, m: map<string, V>, counter: int)
    requires EvictLoopInv(entries, i, order0, m0, counter0, size, required, max, order, m, counter)
    requires i == |entries| || counter + required <= max
    ensures var v := TakeVictims(entries, counter0, required, max, size);
      && order == Without(order0, v)
      && m == RemoveKeys(m0, v)
      && counter == counter0 - SizeSum(v, size)
      && v == entries[..i]
    ensures counter == SizeSum(order, size) && NoDuplicates(order)
  {
    var v := TakeVictims(entries, counter0, required, max, size);
    assert v[i..] == [];
    assert v == entries[..i];
  }

  /** After removing the keys v (taken from the sorted keys) from a Map and
      its key order, the order still lists exactly the Map's keys, and
      nothing is left once every key has gone. */
  lemma EvictedKeys<V>(entries: seq<string>, order0: seq<string>, m0: map<string, V>, v: seq<string>)
    requires forall k :: k in entries <==> k in order0
    requires forall k :: k in order0 <==> k in m0
    ensures forall k :: k in Without(order0, v) <==> k in RemoveKeys(m0, v)
    ensures v == entries ==> Without(order0, v) == [] && RemoveKeys(m0, v) == map[]
  {
    RemoveKeysSpec(m0, v);
    if v == entries {
      WithoutAll(order0, entries);
      assert forall k :: k !in RemoveKeys(m0, v);
    }
  }
}
