/** The typed cache in front of a store: it bounds the number of items it holds or the sum of their
    sizes, and evicts random victims to stay within the bound. */
module Cache {
  import opened Options

  datatype CachePolicy =
    | Empty
    | Count(maxSize: nat)
    | Tracked(maxSize: nat, minItems: nat)

  datatype PolicyInner = PolicyInner(tracked: bool, maxSize: nat, minItems: nat)

  function Inner(policy: CachePolicy): PolicyInner {
    match policy
    case Empty => PolicyInner(false, 0, 0)
    case Count(maxSize) => PolicyInner(false, maxSize, 0)
    case Tracked(maxSize, minItems) => PolicyInner(true, maxSize, minItems)
  }

  ghost function TotalSize<K, V>(m: map<K, V>, size: V -> nat): nat
    decreases |m|
  {
    if m == map[] then 0
    else
      var k :| k in m;
      size(m[k]) + TotalSize(m - {k}, size)
  }

  lemma {:induction false} TotalSizeRemove<K, V>(m: map<K, V>, k: K, size: V -> nat)
    requires k in m
    ensures TotalSize(m, size) == size(m[k]) + TotalSize(m - {k}, size)
    decreases |m|
  {
    var j :| j in m && TotalSize(m, size) == size(m[j]) + TotalSize(m - {j}, size);
    if j != k {
      TotalSizeRemove(m - {j}, k, size);
      TotalSizeRemove(m - {k}, j, size);
      assert m - {j} - {k} == m - {k} - {j};
    }
  }

  lemma TotalSizeUpdate<K, V>(m: map<K, V>, k: K, v: V, size: V -> nat)
    ensures TotalSize(m[k := v], size) == size(v) + TotalSize(m - {k}, size)
    ensures k in m ==> TotalSize(m[k := v], size) == TotalSize(m, size) - size(m[k]) + size(v)
    ensures k !in m ==> TotalSize(m[k := v], size) == TotalSize(m, size) + size(v)
  {
    TotalSizeRemove(m[k := v], k, size);
    assert m[k := v] - {k} == m - {k};
    if k in m {
      TotalSizeRemove(m, k, size);
    } else {
      assert m - {k} == m;
    }
  }

  lemma MapCardinality<K, V>(m: map<K, V>, k: K, v: V)
    ensures |m - {k}| == if k in m then |m| - 1 else |m|
    ensures |m[k := v]| == |m - {k}| + 1
  {
    KeysAfter(m, k, v);
    KeysCount(m);
    KeysCount(m - {k});
    KeysCount(m[k := v]);
  }

  lemma KeysAfter<K, V>(m: map<K, V>, k: K, v: V)
    ensures (m - {k}).Keys == m.Keys - {k}
    ensures m[k := v].Keys == (m - {k}).Keys + {k}
  {
  }

  lemma KeysCount<K, V>(m: map<K, V>)
    ensures |m| == |m.Keys|
  {
  }

  ghost predicate SubMap<K, V>(a: map<K, V>, b: map<K, V>) {
    a.Keys <= b.Keys && forall k | k in a :: a[k] == b[k]
  }

  lemma SubMapSizes<K, V>(a: map<K, V>, b: map<K, V>, size: V -> nat)
    requires SubMap(a, b)
    ensures |a| <= |b| && TotalSize(a, size) <= TotalSize(b, size)
    decreases |b|
  {
    if k :| k in b && k !in a {
      assert SubMap(a, b - {k});
      SubMapSizes(a, b - {k}, size);
      TotalSizeRemove(b, k, size);
    } else {
      assert a == b;
    }
  }

  /** The guard of the eviction loop. */
  ghost predicate OverBudget<K, V>(p: PolicyInner, m: map<K, V>, size: V -> nat) {
    TotalSize(m, size) > p.maxSize && |m| > p.minItems
  }

  ghost predicate OneMoreWasOver<K, V>(p: PolicyInner, before: map<K, V>, after: map<K, V>, x: K, size: V -> nat) {
    x in before && x !in after && OverBudget(p, after[x := before[x]], size)
  }

  /** Where eviction may end: within budget, and with no more evicted than the budget asked for. */
  ghost predicate EvictedTo<K, V>(p: PolicyInner, before: map<K, V>, after: map<K, V>, size: V -> nat) {
    && SubMap(after, before)
    && !OverBudget(p, after, size)
    && (after == before || exists x | x in before :: OneMoreWasOver(p, before, after, x, size))
  }

  /** A run of the eviction loop: each victim is removed while the cache is over budget. */
  ghost predicate EvictionRun<K(!new), V(!new)>(p: PolicyInner, before: map<K, V>, victims: seq<K>, after: map<K, V>, size: V -> nat)
    decreases |victims|
  {
    if victims == [] then before == after && !OverBudget(p, after, size)
    else OverBudget(p, before, size) && victims[0] in before
         && EvictionRun(p, before - {victims[0]}, victims[1..], after, size)
  }

  /** `EvictedTo` is exact: it holds of the maps that some choice of victims leads to and of no others. */
  lemma EvictedToExact<K(!new), V(!new)>(p: PolicyInner, before: map<K, V>, after: map<K, V>, size: V -> nat)
    ensures EvictedTo(p, before, after, size) <==> exists victims :: EvictionRun(p, before, victims, after, size)
  {
    if EvictedTo(p, before, after, size) {
      var victims := SomeVictims(p, before, after, size);
      assert EvictionRun(p, before, victims, after, size);
      assert exists victims :: EvictionRun(p, before, victims, after, size);
    } else {
      forall victims
        ensures !EvictionRun(p, before, victims, after, size)
      {
        if EvictionRun(p, before, victims, after, size) {
          EvictionEnds(p, before, victims, after, size);
        }
      }
      assert !exists victims :: EvictionRun(p, before, victims, after, size);
    }
  }

  lemma {:induction false} SomeVictims<K(!new), V(!new)>(p: PolicyInner, before: map<K, V>, after: map<K, V>, size: V -> nat) returns (victims: seq<K>)
    requires EvictedTo(p, before, after, size)
    ensures EvictionRun(p, before, victims, after, size)
    decreases |before|
  {
    if before == after {
      victims := [];
    } else {
      var x :| x in before && OneMoreWasOver(p, before, after, x, size);
      OverBudgetGrows(p, after[x := before[x]], before, size);
      if y :| y in before && y !in after && y != x {
        FewerToEvict(p, before, after, x, y, size);
        var rest := SomeVictims(p, before - {y}, after, size);
        victims := [y] + rest;
        FirstVictim(p, before, y, rest, after, size);
      } else {
        victims := [x];
        LastVictim(p, before, after, x, size);
      }
    }
  }

  lemma FirstVictim<K(!new), V(!new)>(p: PolicyInner, before: map<K, V>, y: K, rest: seq<K>, after: map<K, V>, size: V -> nat)
    requires OverBudget(p, before, size) && y in before && EvictionRun(p, before - {y}, rest, after, size)
    ensures EvictionRun(p, before, [y] + rest, after, size)
  {
    assert ([y] + rest)[1..] == rest;
  }

  lemma LastVictim<K(!new), V(!new)>(p: PolicyInner, before: map<K, V>, after: map<K, V>, x: K, size: V -> nat)
    requires OverBudget(p, before, size) && !OverBudget(p, after, size)
    requires x in before && SubMap(after, before) && x !in after
    requires forall y | y in before && y !in after :: y == x
    ensures EvictionRun(p, before, [x], after, size)
  {
    assert before - {x} == after;
    assert [x][1..] == [];
    assert EvictionRun(p, after, [], after, size);
  }

  lemma OverBudgetGrows<K, V>(p: PolicyInner, a: map<K, V>, b: map<K, V>, size: V -> nat)
    requires SubMap(a, b) && OverBudget(p, a, size)
    ensures OverBudget(p, b, size)
  {
    SubMapSizes(a, b, size);
  }

  lemma FewerToEvict<K, V>(p: PolicyInner, before: map<K, V>, after: map<K, V>, x: K, y: K, size: V -> nat)
    requires EvictedTo(p, before, after, size)
    requires OneMoreWasOver(p, before, after, x, size)
    requires y in before && y !in after && y != x
    ensures EvictedTo(p, before - {y}, after, size)
    ensures |before - {y}| < |before|
  {
    MapCardinality(before, y, before[y]);
    assert OneMoreWasOver(p, before - {y}, after, x, size);
  }

  lemma {:induction false} EvictionEnds<K(!new), V(!new)>(p: PolicyInner, before: map<K, V>, victims: seq<K>, after: map<K, V>, size: V -> nat)
    requires EvictionRun(p, before, victims, after, size)
    ensures EvictedTo(p, before, after, size)
    decreases |victims|
  {
    if victims != [] {
      var mid := before - {victims[0]};
      EvictionEnds(p, mid, victims[1..], after, size);
      if mid == after {
        assert after[victims[0] := before[victims[0]]] == before;
        assert OneMoreWasOver(p, before, after, victims[0], size);
      } else {
        var x :| x in mid && OneMoreWasOver(p, mid, after, x, size);
        assert OneMoreWasOver(p, before, after, x, size);
      }
    }
  }

  // What each cache operation may do to the cached map, for every choice of victims

  ghost predicate Inserted<K, V>(p: PolicyInner, size: V -> nat, before: map<K, V>, k: K, v: V, after: map<K, V>) {
    if p.maxSize == 0 then after == before
    else if p.tracked then EvictedTo(p, before[k := v], after, size)
    else if |before| == p.maxSize then exists x | x in before :: after == (before - {x})[k := v]
    else after == before[k := v]
  }

  ghost predicate InsertedMany<K(!new), V(!new)>(p: PolicyInner, size: V -> nat, before: map<K, V>, items: seq<(K, V)>, after: map<K, V>)
    decreases |items|
  {
    if items == [] then after == before
    else
      var n := |items| - 1;
      exists mid :: InsertedMany(p, size, before, items[..n], mid) && Inserted(p, size, mid, items[n].0, items[n].1, after)
  }

  lemma InsertedOneMore<K(!new), V(!new)>(
      p: PolicyInner, size: V -> nat, before: map<K, V>, items: seq<(K, V)>, i: nat, mid: map<K, V>, after: map<K, V>)
    requires i < |items| && InsertedMany(p, size, before, items[..i], mid)
    requires Inserted(p, size, mid, items[i].0, items[i].1, after)
    ensures InsertedMany(p, size, before, items[..i + 1], after)
  {
    assert items[..i + 1][..i] == items[..i];
  }

  lemma WithoutOneMore<K(!new), V>(m: map<K, V>, keys: seq<K>, i: nat)
    requires i < |keys|
    ensures Without(m, keys[..i + 1]) == Without(m, keys[..i]) - {keys[i]}
  {
    assert keys[..i + 1][..i] == keys[..i];
  }

  /** One turn of the eviction loop. */
  lemma EvictOne<K, V>(p: PolicyInner, before: map<K, V>, m: map<K, V>, victim: K, size: V -> nat)
    requires SubMap(m, before) && OverBudget(p, m, size) && victim in m
    ensures SubMap(m - {victim}, before)
    ensures OneMoreWasOver(p, before, m - {victim}, victim, size)
  {
    assert (m - {victim})[victim := m[victim]] == m;
  }

  function Without<K(!new), V>(m: map<K, V>, keys: seq<K>): (r: map<K, V>)
    ensures forall k :: k in r <==> k in m && k !in keys
    ensures forall k | k in r :: r[k] == m[k]
  {
    if keys == [] then m
    else
      var n := |keys| - 1;
      assert keys == keys[..n] + [keys[n]];
      Without(m, keys[..n]) - {keys[n]}
  }

  ghost predicate Updated<K, V>(p: PolicyInner, size: V -> nat, before: map<K, V>, k: K, op: V -> V, after: map<K, V>) {
    if p.maxSize == 0 || k !in before then after == before
    else if p.tracked then EvictedTo(p, before[k := op(before[k])], after, size)
    else after == before[k := op(before[k])]
  }

  /** What the policy promises of the cached map in every reachable state. */
  ghost predicate WithinPolicy<K, V>(p: PolicyInner, m: map<K, V>, size: V -> nat) {
    && (p.maxSize == 0 ==> m == map[])
    && (p.tracked ==> !OverBudget(p, m, size))
    && (!p.tracked ==> |m| <= p.maxSize)
  }

  lemma InsertedKeepsPolicy<K, V>(p: PolicyInner, size: V -> nat, before: map<K, V>, k: K, v: V, after: map<K, V>)
    requires WithinPolicy(p, before, size) && Inserted(p, size, before, k, v, after)
    ensures WithinPolicy(p, after, size)
    ensures SubMap(after, before[k := v])
    ensures p.maxSize > 0 && !p.tracked ==> k in after
  {
    if p.maxSize > 0 && !p.tracked {
      MapCardinality(before, k, v);
      if |before| == p.maxSize {
        var x :| x in before && after == (before - {x})[k := v];
        ReplacedFits(before, x, k, v);
      }
    }
  }

  /** Making room for an item by removing one other keeps the number of items. */
  lemma ReplacedFits<K, V>(m: map<K, V>, x: K, k: K, v: V)
    requires x in m
    ensures |(m - {x})[k := v]| <= |m|
    ensures SubMap((m - {x})[k := v], m[k := v])
  {
    MapCardinality(m, x, v);
    MapCardinality(m - {x}, k, v);
  }

  lemma RemovedKeepsPolicy<K, V>(p: PolicyInner, size: V -> nat, before: map<K, V>, after: map<K, V>)
    requires WithinPolicy(p, before, size) && SubMap(after, before)
    ensures WithinPolicy(p, after, size)
  {
    SubMapSizes(after, before, size);
  }

  /** A cache has room for the value on its own. */
  predicate FitsAlone<V>(p: PolicyInner, size: V -> nat, v: V) {
    p.maxSize >= 1 && (p.tracked ==> size(v) <= p.maxSize || p.minItems >= 1)
  }

  function KeptAlone<K, V>(p: PolicyInner, size: V -> nat, k: K, v: V): map<K, V> {
    if FitsAlone(p, size, v) then map[k := v] else map[]
  }

  lemma AloneOverBudget<K, V>(p: PolicyInner, size: V -> nat, k: K, v: V)
    requires p.maxSize >= 1 && p.tracked
    ensures OverBudget(p, map[k := v], size) <==> !FitsAlone(p, size, v)
    ensures EvictedTo(p, map[k := v], KeptAlone(p, size, k, v), size)
  {
    var none: map<K, V> := map[];
    TotalSizeUpdate(none, k, v, size);
    assert none[k := v] == map[k := v];
    if !FitsAlone(p, size, v) {
      assert OneMoreWasOver(p, map[k := v], none, k, size);
    }
  }

  /** A cache that holds at most this key keeps the pair exactly when there is room for it alone. */
  lemma InsertedAlone<K, V>(p: PolicyInner, size: V -> nat, before: map<K, V>, k: K, v: V)
    requires p.maxSize >= 1 && before.Keys <= {k}
    ensures Inserted(p, size, before, k, v, KeptAlone(p, size, k, v))
  {
    assert before[k := v] == map[k := v];
    if p.tracked {
      AloneOverBudget(p, size, k, v);
    } else if before != map[] {
      assert k in before && before == map[k := before[k]];
      assert (before - {k})[k := v] == map[k := v];
    }
  }

  lemma UpdatedAlone<K, V>(p: PolicyInner, size: V -> nat, k: K, v: V, op: V -> V)
    requires p.maxSize >= 1
    ensures Updated(p, size, map[k := v], k, op, KeptAlone(p, size, k, op(v)))
  {
    assert map[k := v][k := op(v)] == map[k := op(v)];
    if p.tracked {
      AloneOverBudget(p, size, k, op(v));
    }
  }

  /** What a cache within its policy holds has room alone. */
  lemma HeldFitsAlone<K, V>(p: PolicyInner, size: V -> nat, m: map<K, V>, k: K)
    requires WithinPolicy(p, m, size) && k in m
    ensures FitsAlone(p, size, m[k])
  {
    if p.tracked {
      SubMapSizes(map[k := m[k]], m, size);
      AloneOverBudget(p, size, k, m[k]);
    }
  }

  lemma UpdatedKeepsPolicy<K, V>(p: PolicyInner, size: V -> nat, before: map<K, V>, k: K, op: V -> V, after: map<K, V>)
    requires WithinPolicy(p, before, size) && Updated(p, size, before, k, op, after)
    ensures WithinPolicy(p, after, size)
    ensures k in before ==> SubMap(after, before[k := op(before[k])])
    ensures k !in before ==> after == before
  {
    if k in before {
      assert before[k := op(before[k])].Keys == before.Keys;
    }
  }

  /** The bounds in terms of the policy that was asked for. */
  lemma PolicyBounds<K, V>(policy: CachePolicy, m: map<K, V>, size: V -> nat)
    ensures WithinPolicy(Inner(policy), m, size) <==>
            match policy
            case Empty => m == map[]
            case Count(max) => |m| <= max
            case Tracked(max, min) => (max == 0 ==> m == map[]) && (TotalSize(m, size) <= max || |m| <= min)
  {
    KeysCount(m);
    assert |m| == 0 ==> m.Keys == {};
  }

  /** Nothing is evicted while there is room for one more, and a full counted cache gives up one item. */
  lemma InsertWithRoom<K, V>(policy: CachePolicy, size: V -> nat, before: map<K, V>, k: K, v: V, after: map<K, V>)
    requires Inserted(Inner(policy), size, before, k, v, after)
    ensures policy.Empty? ==> after == before
    ensures policy.Count? && |before| < policy.maxSize ==> after == before[k := v]
    ensures policy.Count? && |before| == policy.maxSize > 0 ==>
              exists x | x in before :: after == (before - {x})[k := v]
    ensures policy.Tracked? && policy.maxSize > 0
            && (TotalSize(before[k := v], size) <= policy.maxSize || |before[k := v]| <= policy.minItems) ==>
              after == before[k := v]
  {
    var p := Inner(policy);
    if policy.Tracked? && policy.maxSize > 0 && after != before[k := v] {
      var x :| x in before[k := v] && OneMoreWasOver(p, before[k := v], after, x, size);
      OverBudgetGrows(p, after[x := before[k := v][x]], before[k := v], size);
    }
  }

  /** An update in place changes the value of its key, and evicts only over the budget. */
  lemma UpdateWithRoom<K, V>(policy: CachePolicy, size: V -> nat, before: map<K, V>, k: K, op: V -> V, after: map<K, V>)
    requires Updated(Inner(policy), size, before, k, op, after) && k in before
    ensures policy.Count? && policy.maxSize > 0 ==> after == before[k := op(before[k])]
    ensures policy.Tracked? && policy.maxSize > 0 && TotalSize(before[k := op(before[k])], size) <= policy.maxSize ==>
              after == before[k := op(before[k])]
  {
    var p, target := Inner(policy), before[k := op(before[k])];
    if policy.Tracked? && policy.maxSize > 0 && after != target {
      var x :| x in target && OneMoreWasOver(p, target, after, x, size);
      OverBudgetGrows(p, after[x := target[x]], target, size);
    }
  }

  class Cache<K(==,!new), V(!new)> {
    const policy: PolicyInner
    const size: V -> nat
    var entries: map<K, V>
    var trackedSize: nat

    /** Accounting is exact, so no subtraction underflows, and the policy is met. */
    ghost predicate Valid()
      reads this
    {
      && (policy.tracked ==> trackedSize == TotalSize(entries, size))
      && WithinPolicy(policy, entries, size)
    }

    constructor (policy: CachePolicy, size: V -> nat)
      ensures Valid() && entries == map[] && this.policy == Inner(policy) && this.size == size
    {
      this.policy := Inner(policy);
      this.size := size;
      entries := map[];
      trackedSize := 0;
    }

    method Get(key: K) returns (data: Option<V>)
      ensures data == if key in entries then Some(entries[key]) else None
    {
      if key in entries {
        data := Some(entries[key]);
      } else {
        data := None;
      }
    }

    method TrackedEvict()
      requires policy.tracked && trackedSize == TotalSize(entries, size)
      modifies this
      ensures trackedSize == TotalSize(entries, size)
      ensures EvictedTo(policy, old(entries), entries, size)
    {
      while trackedSize > policy.maxSize && |entries| > policy.minItems
        invariant trackedSize == TotalSize(entries, size)
        invariant SubMap(entries, old(entries))
        invariant entries == old(entries) || exists x | x in old(entries) :: OneMoreWasOver(policy, old(entries), entries, x, size)
        decreases |entries|
      {
        assert entries.Keys != {};
        var victim :| victim in entries;
        TotalSizeRemove(entries, victim, size);
        EvictOne(policy, old(entries), entries, victim, size);
        trackedSize := trackedSize - size(entries[victim]);
        entries := entries - {victim};
      }
    }

    method Insert(key: K, data: V)
      requires Valid()
      modifies this
      ensures Valid()
      ensures Inserted(policy, size, old(entries), key, data, entries)
    {
      if policy.maxSize == 0 {
        return;
      }
      if policy.tracked {
        TotalSizeUpdate(entries, key, data, size);
        trackedSize := trackedSize + size(data);
        if key in entries {
          TotalSizeRemove(entries, key, size);
          trackedSize := trackedSize - size(entries[key]);
        }
        entries := entries[key := data];
        TrackedEvict();
      } else {
        if |entries| == policy.maxSize {
          assert entries.Keys != {};
          var victim :| victim in entries;
          entries := entries - {victim};
        }
        entries := entries[key := data];
      }
      InsertedKeepsPolicy(policy, size, old(entries), key, data, entries);
    }

    method InsertNext(items: seq<(K, V)>, i: nat, ghost before: map<K, V>)
      requires Valid() && i < |items| && InsertedMany(policy, size, before, items[..i], entries)
      modifies this
      ensures Valid() && InsertedMany(policy, size, before, items[..i + 1], entries)
    {
      Insert(items[i].0, items[i].1);
      InsertedOneMore(policy, size, before, items, i, old(entries), entries);
    }

    method InsertMany(items: seq<(K, V)>)
      requires Valid()
      modifies this
      ensures Valid()
      ensures InsertedMany(policy, size, old(entries), items, entries)
    {
      var i := 0;
      while i < |items|
        invariant 0 <= i <= |items|
        invariant Valid()
        invariant InsertedMany(policy, size, old(entries), items[..i], entries)
      {
        InsertNext(items, i, old(entries));
        i := i + 1;
      }
      assert items[..i] == items;
    }

    method UpdateIfEntryExists(key: K, op: V -> V)
      requires Valid()
      modifies this
      ensures Valid()
      ensures Updated(policy, size, old(entries), key, op, entries)
    {
      if policy.maxSize == 0 || key !in entries {
        return;
      }
      var data := entries[key];
      if policy.tracked {
        TotalSizeRemove(entries, key, size);
        TotalSizeUpdate(entries, key, op(data), size);
        trackedSize := trackedSize - size(data);
        trackedSize := trackedSize + size(op(data));
        entries := entries[key := op(data)];
        TrackedEvict();
      } else {
        entries := entries[key := op(data)];
      }
      UpdatedKeepsPolicy(policy, size, old(entries), key, op, entries);
    }

    method Remove(key: K) returns (removed: Option<V>)
      requires Valid()
      modifies this
      ensures Valid()
      ensures entries == old(entries) - {key}
      ensures removed == if key in old(entries) then Some(old(entries)[key]) else None
    {
      removed := None;
      if policy.maxSize == 0 {
        assert entries == old(entries) - {key};
        return;
      }
      if key in entries {
        removed := Some(entries[key]);
        if policy.tracked {
          TotalSizeRemove(entries, key, size);
          trackedSize := trackedSize - size(entries[key]);
        }
        entries := entries - {key};
        RemovedKeepsPolicy(policy, size, old(entries), entries);
      }
    }

    method RemoveMany(keys: seq<K>)
      requires Valid()
      modifies this
      ensures Valid()
      ensures entries == Without(old(entries), keys)
    {
      var i := 0;
      while i < |keys|
        invariant 0 <= i <= |keys|
        invariant Valid()
        invariant entries == Without(old(entries), keys[..i])
      {
        var _ := Remove(keys[i]);
        WithoutOneMore(old(entries), keys, i);
        i := i + 1;
      }
      assert keys[..i] == keys;
    }

    method RemoveAll()
      requires Valid()
      modifies this
      ensures Valid()
      ensures entries == map[]
    {
      if policy.maxSize == 0 {
        return;
      }
      entries := map[];
      if policy.tracked {
        trackedSize := 0;
      }
    }
  }
}
