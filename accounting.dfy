/**
 * The closing accounting of assignModsToArmorSet: turning each item's hashes
 * back into mod instances by popping from per-hash pools, and listing the
 * mods no item received.
 */
module Accounting {
  import opened ModTypes

  /** The mods of `s` with hash `h`, in order. */
  function FilterHash(s: seq<LockedMod>, h: ModHash): (r: seq<LockedMod>)
    ensures forall m :: m in r <==> m in s && m.hash == h
  {
    if |s| == 0 then []
    else FilterHash(s[..|s| - 1], h) + (if s[|s| - 1].hash == h then [s[|s| - 1]] else [])
  }

  lemma FilterHashAppend(s: seq<LockedMod>, x: LockedMod, h: ModHash)
    ensures FilterHash(s + [x], h) == FilterHash(s, h) + (if x.hash == h then [x] else [])
  {
    assert (s + [x])[..|s|] == s;
  }

  /** Filtering by a mod's own hash loses none of its copies. */
  lemma {:induction false} FilterHashKeepsCopies(s: seq<LockedMod>, x: LockedMod)
    ensures multiset(FilterHash(s, x.hash))[x] == multiset(s)[x]
  {
    if |s| > 0 {
      FilterHashKeepsCopies(s[..|s| - 1], x);
      assert s == s[..|s| - 1] + [s[|s| - 1]];
    }
  }

  /** A pool holds as many mods as the input has hashes of its kind. */
  lemma {:induction false} FilterHashSize(s: seq<LockedMod>, h: ModHash)
    ensures |FilterHash(s, h)| == multiset(Hashes(s))[h]
  {
    if |s| > 0 {
      FilterHashSize(s[..|s| - 1], h);
      assert Hashes(s) == Hashes(s[..|s| - 1]) + [s[|s| - 1].hash];
    }
  }

  lemma {:induction false} FilterHashAbsent(s: seq<LockedMod>, h: ModHash)
    requires forall m | m in s :: m.hash != h
    ensures FilterHash(s, h) == []
  {
    if |s| > 0 {
      assert s[|s| - 1] in s;
      assert forall m | m in s[..|s| - 1] :: m in s;
      FilterHashAbsent(s[..|s| - 1], h);
    }
  }

  /** Comparing two lists hash by hash compares them as multisets. */
  lemma SubMultisetByHash(a: seq<LockedMod>, b: seq<LockedMod>)
    requires forall h :: multiset(FilterHash(a, h)) <= multiset(FilterHash(b, h))
    ensures multiset(a) <= multiset(b)
  {
    forall x
      ensures multiset(a)[x] <= multiset(b)[x]
    {
      FilterHashKeepsCopies(a, x);
      FilterHashKeepsCopies(b, x);
      assert multiset(FilterHash(a, x.hash)) <= multiset(FilterHash(b, x.hash));
    }
  }

  /** `_.groupBy(mods, (mod) => mod.modDef.hash)` */
  function GroupByHash(mods: seq<LockedMod>): map<ModHash, seq<LockedMod>>
  {
    map h | h in HashSet(mods) :: FilterHash(mods, h)
  }

  /** `Object.values(record).flat()` for a record with key order `order`. */
  function ConcatValues<V>(m: map<ItemId, seq<V>>, order: seq<ItemId>): seq<V>
    requires forall id | id in order :: id in m
  {
    if |order| == 0 then [] else ConcatValues(m, order[..|order| - 1]) + m[order[|order| - 1]]
  }

  lemma {:induction false} ConcatValuesUpdate<V>(m: map<ItemId, seq<V>>, order: seq<ItemId>, id: ItemId, v: seq<V>)
    requires forall i | i in order :: i in m
    requires id !in order
    ensures ConcatValues(m[id := v], order) == ConcatValues(m, order)
  {
    if |order| > 0 {
      ConcatValuesUpdate(m, order[..|order| - 1], id, v);
    }
  }

  /**
   * The mods whose key no assigned mod has, in input order:
   * `.filter((unassign) => !assigned.some((assign) => assign.key === unassign.key))`.
   */
  function Unassigned(mods: seq<LockedMod>, assignedKeys: set<int>): (r: seq<LockedMod>)
    ensures forall m :: m in r <==> m in mods && m.key !in assignedKeys
    ensures multiset(r) <= multiset(mods)
  {
    if |mods| == 0 then []
    else
      var last := mods[|mods| - 1];
      assert mods == mods[..|mods| - 1] + [last];
      Unassigned(mods[..|mods| - 1], assignedKeys) + (if last.key in assignedKeys then [] else [last])
  }

  /** With unique keys, the filter drops exactly one mod per assigned key that occurs in the input. */
  lemma {:induction false} UnassignedCount(mods: seq<LockedMod>, assignedKeys: set<int>)
    requires UniqueKeys(mods)
    ensures |Unassigned(mods, assignedKeys)| + |assignedKeys * KeySet(mods)| == |mods|
  {
    if |mods| > 0 {
      var n := |mods| - 1;
      var prefix, last := mods[..n], mods[n];
      assert UniqueKeys(prefix);
      UnassignedCount(prefix, assignedKeys);
      UnassignedSnoc(mods, assignedKeys);
      LastKeyIsNew(mods);
      IntersectSnoc(assignedKeys, KeySet(prefix), last.key);
    }
  }

  lemma UnassignedSnoc(mods: seq<LockedMod>, assignedKeys: set<int>)
    requires |mods| > 0
    ensures |Unassigned(mods, assignedKeys)| ==
      |Unassigned(mods[..|mods| - 1], assignedKeys)| + (if mods[|mods| - 1].key in assignedKeys then 0 else 1)
  {
  }

  lemma IntersectSnoc(keys: set<int>, prior: set<int>, k: int)
    requires k !in prior
    ensures |keys * (prior + {k})| == |keys * prior| + (if k in keys then 1 else 0)
  {
    if k in keys {
      assert keys * (prior + {k}) == (keys * prior) + {k};
    } else {
      assert keys * (prior + {k}) == keys * prior;
    }
  }

  lemma LastKeyIsNew(mods: seq<LockedMod>)
    requires UniqueKeys(mods) && |mods| > 0
    ensures KeySet(mods) == KeySet(mods[..|mods| - 1]) + {mods[|mods| - 1].key}
    ensures mods[|mods| - 1].key !in KeySet(mods[..|mods| - 1])
  {
    var n := |mods| - 1;
    assert mods == mods[..n] + [mods[n]];
  }

  /** In a list with unique keys, a key identifies its mod. */
  lemma KeyIdentifiesMod(mods: seq<LockedMod>, x: LockedMod, y: LockedMod)
    requires UniqueKeys(mods) && x in mods && y in mods
    ensures x.key == y.key ==> x == y
  {
  }

  /** Two positions holding the same mod make two copies of it. */
  lemma TwoPositionsTwoCopies(a: seq<LockedMod>, i: nat, j: nat)
    requires i < j < |a|
    ensures a[i] == a[j] ==> multiset(a)[a[i]] >= 2
  {
    assert a == a[..j] + a[j..];
    assert a[i] in a[..j] && a[j] in a[j..];
  }

  lemma {:induction false} UniqueKeysAtMostOnce(mods: seq<LockedMod>, x: LockedMod)
    requires UniqueKeys(mods)
    ensures multiset(mods)[x] <= 1
  {
    if |mods| > 0 {
      var n := |mods| - 1;
      assert UniqueKeys(mods[..n]);
      UniqueKeysAtMostOnce(mods[..n], x);
      assert mods == mods[..n] + [mods[n]];
    }
  }

  /** A sub-multiset of a list with unique keys has unique keys too, one per element. */
  lemma {:induction false} SubMultisetKeys(a: seq<LockedMod>, mods: seq<LockedMod>)
    requires UniqueKeys(mods)
    requires multiset(a) <= multiset(mods)
    ensures UniqueKeys(a)
    ensures |KeySet(a)| == |a|
    ensures KeySet(a) <= KeySet(mods)
  {
    forall i, j | 0 <= i < j < |a|
      ensures a[i].key != a[j].key
    {
      TwoPositionsTwoCopies(a, i, j);
      UniqueKeysAtMostOnce(mods, a[i]);
      assert a[i] in multiset(mods) && a[j] in multiset(mods);
      KeyIdentifiesMod(mods, a[i], a[j]);
    }
    KeySetSize(a);
    forall k | k in KeySet(a)
      ensures k in KeySet(mods)
    {
      var m :| m in a && m.key == k;
      assert m in multiset(mods);
    }
  }

  lemma {:induction false} KeySetSize(a: seq<LockedMod>)
    requires UniqueKeys(a)
    ensures |KeySet(a)| == |a|
  {
    if |a| > 0 {
      var n := |a| - 1;
      assert UniqueKeys(a[..n]);
      KeySetSize(a[..n]);
      assert a == a[..n] + [a[n]];
      assert KeySet(a) == KeySet(a[..n]) + {a[n].key};
    }
  }

  /**
   * With distinct keys, mods drawn from the input (each instance at most once)
   * and the input's mods left unassigned together number exactly the input.
   */
  lemma AssignedAndUnassignedCount(mods: seq<LockedMod>, given: seq<LockedMod>)
    requires UniqueKeys(mods) && multiset(given) <= multiset(mods)
    ensures |given| + |Unassigned(mods, KeySet(given))| == |mods|
  {
    UnassignedCount(mods, KeySet(given));
    SubMultisetKeys(given, mods);
    assert KeySet(given) * KeySet(mods) == KeySet(given);
  }

  /** Every mod in a pool carries the hash the pool is filed under. */
  ghost predicate PoolsByHash(pools: map<ModHash, seq<LockedMod>>)
  {
    forall h | h in pools :: forall m | m in pools[h] :: m.hash == h
  }

  lemma GroupedByHash(mods: seq<LockedMod>)
    ensures PoolsByHash(GroupByHash(mods))
    ensures forall h | h in GroupByHash(mods) :: |GroupByHash(mods)[h]| == multiset(Hashes(mods))[h]
  {
    forall h | h in GroupByHash(mods)
      ensures |GroupByHash(mods)[h]| == multiset(Hashes(mods))[h]
    {
      FilterHashSize(mods, h);
    }
  }

  lemma {:induction false} FilterHashConcat(a: seq<LockedMod>, b: seq<LockedMod>, h: ModHash)
    ensures FilterHash(a + b, h) == FilterHash(a, h) + FilterHash(b, h)
    decreases |b|
  {
    if |b| > 0 {
      var b' := b[..|b| - 1];
      var x := b[|b| - 1];
      assert b == b' + [x];
      assert a + b == (a + b') + [x];
      FilterHashConcat(a, b', h);
      FilterHashAppend(a + b', x, h);
      FilterHashAppend(b', x, h);
    } else {
      assert a + b == a;
    }
  }

  lemma HashesSnoc(s: seq<LockedMod>, x: LockedMod)
    ensures Hashes(s + [x]) == Hashes(s) + [x.hash]
  {
  }

  /** The mods popped so far, in order, and the pools that are left. */
  datatype Draw = Draw(got: seq<LockedMod>, pools: map<ModHash, seq<LockedMod>>)

  /**
   * `modsByHash[modHash].pop()` followed by `.filter(Boolean)`: the last mod
   * of the hash's pool is taken when the pool has one, and nothing otherwise.
   */
  function PopHash(d: Draw, h: ModHash): (r: Draw)
    requires h in d.pools
    ensures r.pools.Keys == d.pools.Keys
  {
    var pool := d.pools[h];
    if |pool| > 0 then Draw(d.got + [pool[|pool| - 1]], d.pools[h := pool[..|pool| - 1]])
    else d
  }

  /** One item's hashes popped in order from `pools`. */
  function DrawAll(hs: seq<ModHash>, pools: map<ModHash, seq<LockedMod>>): (r: Draw)
    requires forall i | 0 <= i < |hs| :: hs[i] in pools
    ensures r.pools.Keys == pools.Keys
  {
    if |hs| == 0 then Draw([], pools)
    else PopHash(DrawAll(hs[..|hs| - 1], pools), hs[|hs| - 1])
  }

  /** `s` back to front. */
  function Reversed<T>(s: seq<T>): seq<T>
  {
    if |s| == 0 then [] else [s[|s| - 1]] + Reversed(s[..|s| - 1])
  }

  lemma ReversedSnoc<T>(s: seq<T>, x: T)
    ensures Reversed(s + [x]) == [x] + Reversed(s)
  {
    assert (s + [x])[..|s|] == s;
  }

  lemma {:induction false} ReversedConcat<T>(a: seq<T>, b: seq<T>)
    ensures Reversed(a + b) == Reversed(b) + Reversed(a)
    decreases |b|
  {
    if |b| == 0 {
      assert a + b == a;
    } else {
      var b' := b[..|b| - 1];
      var x := b[|b| - 1];
      assert b == b' + [x];
      assert a + b == (a + b') + [x];
      ReversedSnoc(a + b', x);
      ReversedSnoc(b', x);
      ReversedConcat(a, b');
    }
  }

  lemma {:induction false} ReversedMultiset<T>(s: seq<T>)
    ensures multiset(Reversed(s)) == multiset(s)
  {
    if |s| > 0 {
      ReversedMultiset(s[..|s| - 1]);
      assert s == s[..|s| - 1] + [s[|s| - 1]];
    }
  }

  /**
   * The pools are stacks: each pool as it started is what is left of it
   * followed by the mods of its hash taken so far, the latest first.
   */
  ghost predicate Conserves(taken: seq<LockedMod>, rest: map<ModHash, seq<LockedMod>>,
                            start: map<ModHash, seq<LockedMod>>)
  {
    rest.Keys == start.Keys &&
    forall h | h in start :: start[h] == rest[h] + Reversed(FilterHash(taken, h))
  }

  /** Popping the last mod of pool `h` keeps the books balanced. */
  lemma PopConserves(taken: seq<LockedMod>, rest: map<ModHash, seq<LockedMod>>,
                     start: map<ModHash, seq<LockedMod>>, h: ModHash)
    requires Conserves(taken, rest, start) && PoolsByHash(rest)
    requires h in rest && |rest[h]| > 0
    ensures var pool := rest[h];
      Conserves(taken + [pool[|pool| - 1]], rest[h := pool[..|pool| - 1]], start)
  {
    var pool := rest[h];
    assert pool[|pool| - 1] in rest[h];
    forall h' | h' in start
      ensures start[h'] == rest[h := pool[..|pool| - 1]][h'] + Reversed(FilterHash(taken + [pool[|pool| - 1]], h'))
    {
      PopConservesAt(taken, rest, start, h, h');
    }
  }

  /** Moving the last element of `p` to the front of `q` keeps their concatenation. */
  lemma SplitLast<T>(p: seq<T>, q: seq<T>)
    requires |p| > 0
    ensures p + q == p[..|p| - 1] + ([p[|p| - 1]] + q)
  {
    assert p == p[..|p| - 1] + [p[|p| - 1]];
  }

  /** PopConserves, for the pool of one hash `h'`. */
  lemma PopConservesAt(taken: seq<LockedMod>, rest: map<ModHash, seq<LockedMod>>,
                       start: map<ModHash, seq<LockedMod>>, h: ModHash, h': ModHash)
    requires h' in start && h' in rest && start[h'] == rest[h'] + Reversed(FilterHash(taken, h'))
    requires h in rest && |rest[h]| > 0 && rest[h][|rest[h]| - 1].hash == h
    ensures var pool := rest[h];
      start[h'] == rest[h := pool[..|pool| - 1]][h'] + Reversed(FilterHash(taken + [pool[|pool| - 1]], h'))
  {
    var pool := rest[h];
    var n := |pool| - 1;
    var mod := pool[n];
    var before := FilterHash(taken, h');
    FilterHashAppend(taken, mod, h');
    if h' == h {
      ReversedSnoc(before, mod);
      SplitLast(pool, Reversed(before));
    } else {
      assert FilterHash(taken + [mod], h') == before;
    }
  }

  lemma PopKeepsPoolsByHash(rest: map<ModHash, seq<LockedMod>>, h: ModHash)
    requires PoolsByHash(rest) && h in rest && |rest[h]| > 0
    ensures PoolsByHash(rest[h := rest[h][..|rest[h]| - 1]])
  {
    var pool := rest[h];
    forall m | m in pool[..|pool| - 1]
      ensures m.hash == h
    {
      assert m in pool;
    }
  }

  /** Every pool keeps only mods of its own hash. */
  lemma {:induction false} DrawKeepsPoolsByHash(hs: seq<ModHash>, pools: map<ModHash, seq<LockedMod>>)
    requires forall i | 0 <= i < |hs| :: hs[i] in pools
    requires PoolsByHash(pools)
    ensures PoolsByHash(DrawAll(hs, pools).pools)
  {
    if |hs| > 0 {
      var p := DrawAll(hs[..|hs| - 1], pools);
      DrawKeepsPoolsByHash(hs[..|hs| - 1], pools);
      if |p.pools[hs[|hs| - 1]]| > 0 {
        PopKeepsPoolsByHash(p.pools, hs[|hs| - 1]);
      }
    }
  }

  /** Popping neither creates nor loses a mod. */
  lemma {:induction false} DrawConserves(hs: seq<ModHash>, pools: map<ModHash, seq<LockedMod>>)
    requires forall i | 0 <= i < |hs| :: hs[i] in pools
    requires PoolsByHash(pools)
    ensures Conserves(DrawAll(hs, pools).got, DrawAll(hs, pools).pools, pools)
  {
    if |hs| == 0 {
      assert forall h | h in pools :: pools[h] + Reversed(FilterHash([], h)) == pools[h];
    } else {
      var p := DrawAll(hs[..|hs| - 1], pools);
      DrawConserves(hs[..|hs| - 1], pools);
      DrawKeepsPoolsByHash(hs[..|hs| - 1], pools);
      var h := hs[|hs| - 1];
      if |p.pools[h]| > 0 {
        PopConserves(p.got, p.pools, pools, h);
      }
    }
  }

  /** Each hash yields at most one mod, and only a mod of that hash. */
  lemma {:induction false} DrawBounds(hs: seq<ModHash>, pools: map<ModHash, seq<LockedMod>>)
    requires forall i | 0 <= i < |hs| :: hs[i] in pools
    requires PoolsByHash(pools)
    ensures |DrawAll(hs, pools).got| <= |hs|
    ensures forall m | m in DrawAll(hs, pools).got :: m.hash in hs
  {
    if |hs| > 0 {
      var prefix := hs[..|hs| - 1];
      var h := hs[|hs| - 1];
      var p := DrawAll(prefix, pools);
      DrawBounds(prefix, pools);
      DrawKeepsPoolsByHash(prefix, pools);
      forall m | m in DrawAll(hs, pools).got
        ensures m.hash in hs
      {
        assert hs == prefix + [h];
        if m !in p.got {
          var pool := p.pools[h];
          assert pool[|pool| - 1] in pool;
        }
      }
    }
  }

  /** No pool shrinks by more than the number of times its hash was asked for. */
  lemma {:induction false} DrawWithinAsked(hs: seq<ModHash>, pools: map<ModHash, seq<LockedMod>>)
    requires forall i | 0 <= i < |hs| :: hs[i] in pools
    ensures forall h | h in pools :: |DrawAll(hs, pools).pools[h]| + multiset(hs)[h] >= |pools[h]|
  {
    if |hs| > 0 {
      DrawWithinAsked(hs[..|hs| - 1], pools);
      var h := hs[|hs| - 1];
      assert hs == hs[..|hs| - 1] + [h];
      assert multiset(hs) == multiset(hs[..|hs| - 1]) + multiset{h};
    }
  }

  /** When no hash is asked for more often than its pool can serve, every hash yields a mod of that hash. */
  lemma {:induction false} DrawServed(hs: seq<ModHash>, pools: map<ModHash, seq<LockedMod>>)
    requires forall i | 0 <= i < |hs| :: hs[i] in pools
    requires PoolsByHash(pools)
    requires forall h | h in pools :: multiset(hs)[h] <= |pools[h]|
    ensures Hashes(DrawAll(hs, pools).got) == hs
  {
    if |hs| > 0 {
      var prefix := hs[..|hs| - 1];
      var h := hs[|hs| - 1];
      assert hs == prefix + [h];
      assert multiset(hs) == multiset(prefix) + multiset{h};
      DrawServed(prefix, pools);
      DrawWithinAsked(prefix, pools);
      DrawKeepsPoolsByHash(prefix, pools);
      var p := DrawAll(prefix, pools);
      assert |p.pools[h]| > 0;
      var mod := p.pools[h][|p.pools[h]| - 1];
      assert mod in p.pools[h];
      HashesSnoc(p.got, mod);
    }
  }

  /** The `modHashes.map(...)` for one item: each hash popped in turn from the pools. */
  method TakeForItem(modHashes: seq<ModHash>, pools: map<ModHash, seq<LockedMod>>)
    returns (got: seq<LockedMod>, rest: map<ModHash, seq<LockedMod>>)
    requires forall i | 0 <= i < |modHashes| :: modHashes[i] in pools
    ensures Draw(got, rest) == DrawAll(modHashes, pools)
  {
    got, rest := [], pools;
    var j := 0;
    while j < |modHashes|
      invariant 0 <= j <= |modHashes|
      invariant Draw(got, rest) == DrawAll(modHashes[..j], pools)
    {
      var h := modHashes[j];
      assert modHashes[..j + 1][..j] == modHashes[..j];
      var pool := rest[h];
      if |pool| > 0 {
        got, rest := got + [pool[|pool| - 1]], rest[h := pool[..|pool| - 1]];
      }
      j := j + 1;
    }
    assert modHashes[..j] == modHashes;
  }

  /** The record built so far and the pools that are left. */
  datatype Taken = Taken(byItem: map<ItemId, seq<LockedMod>>, pools: map<ModHash, seq<LockedMod>>)

  /** Every hash any item plans for has a pool. */
  predicate PlannedFromPools(planned: map<ItemId, seq<ModHash>>, pools: map<ModHash, seq<LockedMod>>)
  {
    forall id | id in planned :: forall i | 0 <= i < |planned[id]| :: planned[id][i] in pools
  }

  /** `_.mapValues(assignments, ...)` over the items in key order, sharing one set of pools. */
  function TakeItems(order: seq<ItemId>, planned: map<ItemId, seq<ModHash>>,
                     pools: map<ModHash, seq<LockedMod>>): (r: Taken)
    requires forall id | id in order :: id in planned
    requires PlannedFromPools(planned, pools)
    ensures r.pools.Keys == pools.Keys
  {
    if |order| == 0 then Taken(map[], pools)
    else
      var t := TakeItems(order[..|order| - 1], planned, pools);
      var id := order[|order| - 1];
      var d := DrawAll(planned[id], t.pools);
      Taken(t.byItem[id := d.got], d.pools)
  }

  /** Exactly the items of the record receive an entry; each entry is bounded by the item's hashes. */
  lemma {:induction false} TakeItemsShape(order: seq<ItemId>, planned: map<ItemId, seq<ModHash>>,
                                          pools: map<ModHash, seq<LockedMod>>)
    requires forall id | id in order :: id in planned
    requires PlannedFromPools(planned, pools) && PoolsByHash(pools)
    ensures PoolsByHash(TakeItems(order, planned, pools).pools)
    ensures forall id :: id in TakeItems(order, planned, pools).byItem <==> id in order
    ensures forall id | id in TakeItems(order, planned, pools).byItem ::
      && |TakeItems(order, planned, pools).byItem[id]| <= |planned[id]|
      && forall m | m in TakeItems(order, planned, pools).byItem[id] :: m.hash in planned[id]
  {
    if |order| > 0 {
      var prefix := order[..|order| - 1];
      var id := order[|order| - 1];
      assert order == prefix + [id];
      TakeItemsShape(prefix, planned, pools);
      var t := TakeItems(prefix, planned, pools);
      DrawBounds(planned[id], t.pools);
      DrawKeepsPoolsByHash(planned[id], t.pools);
    }
  }

  /** Two rounds of popping compose: what the second round takes sits above what the first took. */
  lemma ConservesCompose(before: seq<LockedMod>, got: seq<LockedMod>, start: map<ModHash, seq<LockedMod>>,
                         mid: map<ModHash, seq<LockedMod>>, rest: map<ModHash, seq<LockedMod>>)
    requires Conserves(before, mid, start) && Conserves(got, rest, mid)
    ensures Conserves(before + got, rest, start)
  {
    forall h | h in start
      ensures start[h] == rest[h] + Reversed(FilterHash(before + got, h))
    {
      ConservesComposeAt(before, got, start[h], mid[h], rest[h], h);
    }
  }

  lemma ConservesComposeAt(before: seq<LockedMod>, got: seq<LockedMod>, start: seq<LockedMod>,
                           mid: seq<LockedMod>, rest: seq<LockedMod>, h: ModHash)
    requires start == mid + Reversed(FilterHash(before, h))
    requires mid == rest + Reversed(FilterHash(got, h))
    ensures start == rest + Reversed(FilterHash(before + got, h))
  {
    FilterHashConcat(before, got, h);
    ReversedConcat(FilterHash(before, h), FilterHash(got, h));
  }

  /** Every mod handed out came out of a pool, and the pools are left with exactly the rest. */
  lemma {:induction false} TakeItemsConserve(order: seq<ItemId>, planned: map<ItemId, seq<ModHash>>,
                                             pools: map<ModHash, seq<LockedMod>>)
    requires NoDup(order) && forall id | id in order :: id in planned
    requires PlannedFromPools(planned, pools) && PoolsByHash(pools)
    ensures var r := TakeItems(order, planned, pools);
      && (forall id | id in order :: id in r.byItem)
      && Conserves(ConcatValues(r.byItem, order), r.pools, pools)
  {
    TakeItemsShape(order, planned, pools);
    if |order| > 0 {
      var prefix := order[..|order| - 1];
      var id := order[|order| - 1];
      assert NoDup(prefix) && id !in prefix;
      TakeItemsConserve(prefix, planned, pools);
      TakeItemsShape(prefix, planned, pools);
      var t := TakeItems(prefix, planned, pools);
      var d := DrawAll(planned[id], t.pools);
      DrawConserves(planned[id], t.pools);
      ConcatValuesUpdate(t.byItem, prefix, id, d.got);
      ConservesCompose(ConcatValues(t.byItem, prefix), d.got, pools, t.pools, d.pools);
    }
  }

  /** Every mod handed out has the hash of some pool. */
  lemma {:induction false} TakeItemsHashesInPools(order: seq<ItemId>, planned: map<ItemId, seq<ModHash>>,
                                                  pools: map<ModHash, seq<LockedMod>>)
    requires NoDup(order) && forall id | id in order :: id in planned
    requires PlannedFromPools(planned, pools) && PoolsByHash(pools)
    ensures var r := TakeItems(order, planned, pools);
      && (forall id | id in order :: id in r.byItem)
      && forall m | m in ConcatValues(r.byItem, order) :: m.hash in pools
  {
    TakeItemsShape(order, planned, pools);
    if |order| > 0 {
      var prefix := order[..|order| - 1];
      var id := order[|order| - 1];
      assert NoDup(prefix) && id !in prefix;
      TakeItemsHashesInPools(prefix, planned, pools);
      TakeItemsShape(prefix, planned, pools);
      var t := TakeItems(prefix, planned, pools);
      var d := DrawAll(planned[id], t.pools);
      DrawBounds(planned[id], t.pools);
      ConcatValuesUpdate(t.byItem, prefix, id, d.got);
      forall m | m in d.got
        ensures m.hash in pools
      {
        var k :| 0 <= k < |planned[id]| && planned[id][k] == m.hash;
      }
    }
  }

  /** No pool has shrunk by more than the number of times its hash was planned. */
  lemma {:induction false} TakeItemsWithinPlan(order: seq<ItemId>, planned: map<ItemId, seq<ModHash>>,
                                               pools: map<ModHash, seq<LockedMod>>)
    requires forall id | id in order :: id in planned
    requires PlannedFromPools(planned, pools)
    ensures forall h | h in pools ::
      |TakeItems(order, planned, pools).pools[h]| + multiset(ConcatValues(planned, order))[h] >= |pools[h]|
  {
    if |order| > 0 {
      var prefix := order[..|order| - 1];
      var id := order[|order| - 1];
      TakeItemsWithinPlan(prefix, planned, pools);
      var t := TakeItems(prefix, planned, pools);
      DrawWithinAsked(planned[id], t.pools);
      assert ConcatValues(planned, order) == ConcatValues(planned, prefix) + planned[id];
    }
  }

  /**
   * When the items together plan no hash more often than its pool holds, every
   * item receives one mod per planned hash, in the planned order.
   */
  lemma {:induction false} TakeItemsTight(order: seq<ItemId>, planned: map<ItemId, seq<ModHash>>,
                                          pools: map<ModHash, seq<LockedMod>>)
    requires forall id | id in order :: id in planned
    requires PlannedFromPools(planned, pools) && PoolsByHash(pools)
    requires forall h | h in pools :: multiset(ConcatValues(planned, order))[h] <= |pools[h]|
    ensures var r := TakeItems(order, planned, pools);
      forall id | id in r.byItem && id in planned :: Hashes(r.byItem[id]) == planned[id]
  {
    if |order| > 0 {
      var prefix := order[..|order| - 1];
      var id := order[|order| - 1];
      var before := ConcatValues(planned, prefix);
      assert ConcatValues(planned, order) == before + planned[id];
      assert multiset(ConcatValues(planned, order)) == multiset(before) + multiset(planned[id]);
      TakeItemsTight(prefix, planned, pools);
      TakeItemsWithinPlan(prefix, planned, pools);
      TakeItemsShape(prefix, planned, pools);
      var t := TakeItems(prefix, planned, pools);
      DrawServed(planned[id], t.pools);
    }
  }

  /**
   * The `_.mapValues(assignments, (modHashes) => modHashes.map((modHash) =>
   * modsByHash[modHash].pop()).filter(Boolean))` step: the items' planned
   * hashes turned into mod instances, in the record's key order.
   */
  method TakeFromPools(order: seq<ItemId>, planned: map<ItemId, seq<ModHash>>,
                       modsByHash: map<ModHash, seq<LockedMod>>)
    returns (assignedMods: map<ItemId, seq<LockedMod>>)
    requires forall id | id in order :: id in planned
    requires PlannedFromPools(planned, modsByHash)
    ensures assignedMods == TakeItems(order, planned, modsByHash).byItem
  {
    var pools := modsByHash;
    assignedMods := map[];
    var k := 0;
    while k < |order|
      invariant 0 <= k <= |order|
      invariant Taken(assignedMods, pools) == TakeItems(order[..k], planned, modsByHash)
    {
      var id := order[k];
      assert order[..k + 1][..k] == order[..k];
      var got;
      got, pools := TakeForItem(planned[id], pools);
      assignedMods := assignedMods[id := got];
      k := k + 1;
    }
    assert order[..k] == order;
  }

  /** The mods handed out are drawn from the input, each copy at most once. */
  lemma TakenFromInput(order: seq<ItemId>, planned: map<ItemId, seq<ModHash>>, flat: seq<LockedMod>)
    requires NoDup(order) && forall id | id in order :: id in planned
    requires PlannedFromPools(planned, GroupByHash(flat))
    ensures var r := TakeItems(order, planned, GroupByHash(flat));
      && (forall id | id in order :: id in r.byItem)
      && multiset(ConcatValues(r.byItem, order)) <= multiset(flat)
  {
    var pools := GroupByHash(flat);
    GroupedByHash(flat);
    TakeItemsConserve(order, planned, pools);
    TakeItemsHashesInPools(order, planned, pools);
    var r := TakeItems(order, planned, pools);
    var taken := ConcatValues(r.byItem, order);
    forall h
      ensures multiset(FilterHash(taken, h)) <= multiset(FilterHash(flat, h))
    {
      if h in pools {
        ReversedMultiset(FilterHash(taken, h));
        assert multiset(pools[h]) == multiset(r.pools[h]) + multiset(Reversed(FilterHash(taken, h)));
      } else {
        FilterHashAbsent(taken, h);
      }
    }
    SubMultisetByHash(taken, flat);
  }

  /**
   * What the pop phase promises once the pools are `_.groupBy` of the input
   * mods: every item of the record gets an entry bounded by its hashes, the
   * mods handed out are drawn from the input without duplication, and when the
   * plan asks for no hash more often than the input has it, every item gets
   * exactly its planned hashes.
   */
  lemma TakeFromPoolsSound(order: seq<ItemId>, planned: map<ItemId, seq<ModHash>>, flat: seq<LockedMod>)
    requires NoDup(order) && forall id :: id in planned <==> id in order
    requires PlannedFromPools(planned, GroupByHash(flat))
    ensures var given := TakeItems(order, planned, GroupByHash(flat)).byItem;
      && given.Keys == planned.Keys
      && (forall id | id in given ::
          && |given[id]| <= |planned[id]|
          && forall m | m in given[id] :: m.hash in planned[id])
      && multiset(ConcatValues(given, order)) <= multiset(flat)
      && (multiset(ConcatValues(planned, order)) <= multiset(Hashes(flat)) ==>
          forall id | id in given :: Hashes(given[id]) == planned[id])
  {
    var pools := GroupByHash(flat);
    GroupedByHash(flat);
    TakeItemsShape(order, planned, pools);
    TakenFromInput(order, planned, flat);
    if multiset(ConcatValues(planned, order)) <= multiset(Hashes(flat)) {
      TakeItemsTight(order, planned, pools);
    }
  }
}
