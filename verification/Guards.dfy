/** The bookkeeping shared by the two submit guards of the bridge: entries that expire after a time
    to live, and a queue of keys from which the front is dropped when there are too many. */
module Guards {
  datatype Entry<V> = Entry(ts: nat, value: V)

  datatype Guard<V> = Guard(ttl: nat, maxEntries: nat, entries: map<string, Entry<V>>, order: seq<string>)

  /** `Instant::duration_since` saturates at zero. */
  function Elapsed(now: nat, ts: nat): nat {
    if now >= ts then now - ts else 0
  }

  predicate Expired<V>(g: Guard<V>, key: string, now: nat) {
    key in g.entries ==> Elapsed(now, g.entries[key].ts) > g.ttl
  }

  function PopFront<V>(g: Guard<V>): Guard<V>
    requires g.order != []
  {
    g.(entries := g.entries - {g.order[0]}, order := g.order[1..])
  }

  function DropExpired<V>(g: Guard<V>, now: nat): Guard<V>
    decreases |g.order|
  {
    if g.order != [] && Expired(g, g.order[0], now) then DropExpired(PopFront(g), now) else g
  }

  function DropExcess<V>(g: Guard<V>): Guard<V>
    decreases |g.order|
  {
    if |g.entries| > g.maxEntries && g.order != [] then DropExcess(PopFront(g)) else g
  }

  function Pruned<V>(g: Guard<V>, now: nat): Guard<V> {
    DropExcess(DropExpired(g, now))
  }

  /** The two loops of `prune`. */
  method Prune<V>(g: Guard<V>, now: nat) returns (g': Guard<V>)
    ensures g' == Pruned(g, now)
  {
    var entries, order := g.entries, g.order;
    while order != []
      invariant DropExpired(g, now) == DropExpired(g.(entries := entries, order := order), now)
      decreases |order|
    {
      var front := order[0];
      var remove := if front in entries then Elapsed(now, entries[front].ts) > g.ttl else true;
      if !remove {
        break;
      }
      order := order[1..];
      entries := entries - {front};
    }
    ghost var mid := DropExpired(g, now);
    assert mid == g.(entries := entries, order := order);
    while |entries| > g.maxEntries
      invariant DropExcess(mid) == DropExcess(g.(entries := entries, order := order))
      decreases |order|
    {
      if order == [] {
        break;
      }
      var key := order[0];
      order := order[1..];
      entries := entries - {key};
    }
    g' := g.(entries := entries, order := order);
  }

  // What holds of any guard

  /** Every entry can be reached through the queue, which may also hold keys without entry and
      repeated keys. */
  ghost predicate Covered<V>(g: Guard<V>) {
    forall k | k in g.entries :: k in g.order
  }

  ghost predicate SameLimits<V>(g: Guard<V>, g': Guard<V>) {
    g.ttl == g'.ttl && g.maxEntries == g'.maxEntries
  }

  lemma PopFrontCovered<V>(g: Guard<V>)
    requires Covered(g) && g.order != []
    ensures Covered(PopFront(g))
  {
    forall k | k in PopFront(g).entries
      ensures k in g.order[1..]
    {
      assert g.order == [g.order[0]] + g.order[1..];
    }
  }

  lemma {:induction false} DropExpiredCovered<V>(g: Guard<V>, now: nat)
    requires Covered(g)
    ensures Covered(DropExpired(g, now)) && SameLimits(g, DropExpired(g, now))
    ensures |DropExpired(g, now).order| <= |g.order|
    decreases |g.order|
  {
    if g.order != [] && Expired(g, g.order[0], now) {
      PopFrontCovered(g);
      DropExpiredCovered(PopFront(g), now);
    }
  }

  lemma {:induction false} DropExcessCovered<V>(g: Guard<V>)
    requires Covered(g)
    ensures Covered(DropExcess(g)) && SameLimits(g, DropExcess(g))
    ensures |DropExcess(g).entries| <= g.maxEntries
    decreases |g.order|
  {
    if g.order == [] {
      assert g.entries == map[];
    } else if |g.entries| > g.maxEntries {
      PopFrontCovered(g);
      DropExcessCovered(PopFront(g));
    }
  }

  /** Pruning keeps the queue covering the entries and always ends within the capacity. */
  lemma PrunedWithinCapacity<V>(g: Guard<V>, now: nat)
    requires Covered(g)
    ensures Covered(Pruned(g, now)) && SameLimits(g, Pruned(g, now))
    ensures |Pruned(g, now).entries| <= g.maxEntries
  {
    DropExpiredCovered(g, now);
    DropExcessCovered(DropExpired(g, now));
  }

  /** Without excess, pruning removes expired entries only. */
  lemma {:induction false} DropExpiredKeepsFresh<V>(g: Guard<V>, now: nat, key: string)
    requires key in g.entries && !Expired(g, key, now)
    ensures key in DropExpired(g, now).entries && DropExpired(g, now).entries[key] == g.entries[key]
    decreases |g.order|
  {
    if g.order != [] && Expired(g, g.order[0], now) {
      DropExpiredKeepsFresh(PopFront(g), now, key);
    }
  }

  lemma {:induction false} DropExpiredShrinks<V>(g: Guard<V>, now: nat)
    ensures DropExpired(g, now).entries.Keys <= g.entries.Keys
    ensures forall k | k in DropExpired(g, now).entries :: DropExpired(g, now).entries[k] == g.entries[k]
    ensures |DropExpired(g, now).entries| <= |g.entries|
    decreases |g.order|
  {
    if g.order != [] && Expired(g, g.order[0], now) {
      var g1 := PopFront(g);
      DropExpiredShrinks(g1, now);
      assert g1.entries.Keys == g.entries.Keys - {g.order[0]};
      assert |g1.entries.Keys| <= |g.entries.Keys|;
    }
  }

  lemma {:induction false} DropExcessShrinks<V>(g: Guard<V>)
    ensures DropExcess(g).entries.Keys <= g.entries.Keys
    ensures forall k | k in DropExcess(g).entries :: DropExcess(g).entries[k] == g.entries[k]
    decreases |g.order|
  {
    if |g.entries| > g.maxEntries && g.order != [] {
      DropExcessShrinks(PopFront(g));
    }
  }

  lemma PrunedShrinks<V>(g: Guard<V>, now: nat)
    ensures Pruned(g, now).entries.Keys <= g.entries.Keys
    ensures forall k | k in Pruned(g, now).entries :: Pruned(g, now).entries[k] == g.entries[k]
  {
    DropExpiredShrinks(g, now);
    DropExcessShrinks(DropExpired(g, now));
  }

  lemma PrunedKeepsFresh<V>(g: Guard<V>, now: nat, key: string)
    requires |g.entries| <= g.maxEntries
    requires key in g.entries && !Expired(g, key, now)
    ensures key in Pruned(g, now).entries && Pruned(g, now).entries[key] == g.entries[key]
  {
    DropExpiredKeepsFresh(g, now, key);
    DropExpiredShrinks(g, now);
    DropExpiredLimits(g, now);
  }

  lemma {:induction false} DropExpiredLimits<V>(g: Guard<V>, now: nat)
    ensures SameLimits(g, DropExpired(g, now))
    decreases |g.order|
  {
    if g.order != [] && Expired(g, g.order[0], now) {
      DropExpiredLimits(PopFront(g), now);
    }
  }

  // What pruning drops from any guard

  /** The guard without the first `n` positions of the queue, and without the entries of their keys. */
  function Dropped<V>(g: Guard<V>, n: nat): Guard<V>
    requires n <= |g.order|
  {
    g.(entries := map k | k in g.entries && k !in g.order[..n] :: g.entries[k], order := g.order[n..])
  }

  lemma DroppedNext<V>(g: Guard<V>, n: nat)
    requires n < |g.order|
    ensures PopFront(Dropped(g, n)) == Dropped(g, n + 1)
    ensures Dropped(g, n).order[0] == g.order[n]
  {
    assert g.order[..n + 1] == g.order[..n] + [g.order[n]];
    assert g.order[n..][1..] == g.order[n + 1..];
  }

  lemma DroppedNone<V>(g: Guard<V>)
    ensures Dropped(g, 0) == g
  {
    assert g.order[..0] == [] && g.order[0..] == g.order;
  }

  /** Position `i` goes in the first loop: its key has expired, has no entry or went before. */
  predicate Outdated<V>(g: Guard<V>, now: nat, i: nat)
    requires i < |g.order|
  {
    g.order[i] in g.order[..i] || Expired(g, g.order[i], now)
  }

  lemma {:induction false} DropExpiredExactly<V>(g: Guard<V>, now: nat, i: nat) returns (a: nat)
    requires i <= |g.order|
    ensures i <= a <= |g.order| && DropExpired(Dropped(g, i), now) == Dropped(g, a)
    ensures forall j | i <= j < a :: Outdated(g, now, j)
    ensures a < |g.order| ==> !Outdated(g, now, a)
    decreases |g.order| - i
  {
    a := i;
    if i < |g.order| {
      DroppedNext(g, i);
      if Outdated(g, now, i) {
        a := DropExpiredExactly(g, now, i + 1);
      }
    }
  }

  /** After the first `n` positions there are still more entries than the capacity. */
  predicate Crowded<V>(g: Guard<V>, n: nat)
    requires n <= |g.order|
  {
    |Dropped(g, n).entries| > g.maxEntries
  }

  lemma DropExcessNext<V>(g: Guard<V>, i: nat)
    requires i <= |g.order|
    ensures i < |g.order| && Crowded(g, i) ==> DropExcess(Dropped(g, i)) == DropExcess(Dropped(g, i + 1))
    ensures i == |g.order| || !Crowded(g, i) ==> DropExcess(Dropped(g, i)) == Dropped(g, i)
  {
    if i < |g.order| {
      DroppedNext(g, i);
    }
  }

  lemma {:induction false} DropExcessExactly<V>(g: Guard<V>, i: nat) returns (n: nat)
    requires i <= |g.order|
    ensures i <= n <= |g.order| && DropExcess(Dropped(g, i)) == Dropped(g, n)
    ensures forall j | i <= j < n :: Crowded(g, j)
    ensures n < |g.order| ==> !Crowded(g, n)
    decreases |g.order| - i
  {
    n := i;
    DropExcessNext(g, i);
    if i < |g.order| && Crowded(g, i) {
      n := DropExcessExactly(g, i + 1);
    }
  }

  /** For any guard, its queue with stale and repeated keys: pruning drops the outdated positions in
      front and then positions until the entries are within the capacity; an entry goes if and only if
      its key is at one of them, however late its latest insertion. */
  lemma PrunedExactly<V>(g: Guard<V>, now: nat) returns (a: nat, n: nat)
    ensures a <= n <= |g.order| && Pruned(g, now) == Dropped(g, n)
    ensures forall k | k in g.entries :: k !in Pruned(g, now).entries <==> k in g.order[..n]
    ensures forall j | 0 <= j < a :: Outdated(g, now, j)
    ensures a < |g.order| ==> !Outdated(g, now, a)
    ensures forall j | a <= j < n :: Crowded(g, j)
    ensures n < |g.order| ==> !Crowded(g, n)
  {
    DroppedNone(g);
    a := DropExpiredExactly(g, now, 0);
    n := DropExcessExactly(g, a);
  }

  // A guard whose queue lists each entry once

  ghost predicate Distinct(order: seq<string>) {
    forall i, j | 0 <= i < j < |order| :: order[i] != order[j]
  }

  ghost predicate Exact<V>(g: Guard<V>) {
    && Distinct(g.order)
    && forall k :: k in g.entries <==> k in g.order
  }

  /** What is left after the first `n` keys of the queue are gone. */
  ghost predicate Suffix<V>(g: Guard<V>, n: nat, g': Guard<V>) {
    && n <= |g.order|
    && SameLimits(g, g')
    && g'.order == g.order[n..]
    && Exact(g')
    && forall k | k in g'.entries :: k in g.entries && g'.entries[k] == g.entries[k]
  }

  /** Why the key at position `i` may be dropped: expiry, or at least `maxEntries` keys behind it. */
  ghost predicate MayDrop<V>(g: Guard<V>, now: nat, i: nat)
    requires i < |g.order|
  {
    Expired(g, g.order[i], now) || |g.order| - 1 - i >= g.maxEntries
  }

  lemma PopFrontExact<V>(g: Guard<V>)
    requires Exact(g) && g.order != []
    ensures Suffix(g, 1, PopFront(g))
  {
    var g' := PopFront(g);
    forall k
      ensures k in g'.entries <==> k in g'.order
    {
      assert g.order == [g.order[0]] + g.order[1..];
      if k in g'.order {
        var i :| 0 <= i < |g'.order| && g'.order[i] == k;
        assert g.order[i + 1] == k;
      }
    }
  }

  lemma ExactSize<V>(g: Guard<V>)
    requires Exact(g)
    ensures |g.entries| == |g.order|
    decreases |g.order|
  {
    if g.order == [] {
      assert g.entries == map[];
    } else {
      PopFrontExact(g);
      ExactSize(PopFront(g));
      assert g.order[0] in g.entries;
      assert PopFront(g).entries.Keys == g.entries.Keys - {g.order[0]};
    }
  }

  lemma {:induction false} DropExpiredSuffix<V>(g: Guard<V>, now: nat) returns (n: nat)
    requires Exact(g)
    ensures Suffix(g, n, DropExpired(g, now))
    ensures forall i | 0 <= i < n :: Expired(g, g.order[i], now)
    ensures n < |g.order| ==> !Expired(g, g.order[n], now)
    decreases |g.order|
  {
    if g.order != [] && Expired(g, g.order[0], now) {
      PopFrontExact(g);
      var m := DropExpiredSuffix(PopFront(g), now);
      n := m + 1;
      forall i | 0 <= i < n
        ensures Expired(g, g.order[i], now)
      {
        if i > 0 {
          assert PopFront(g).order[i - 1] == g.order[i];
          assert g.order[i] in PopFront(g).order;
        }
      }
    } else {
      n := 0;
    }
  }

  lemma SuffixOfSuffix<V>(g: Guard<V>, a: nat, g1: Guard<V>, b: nat, g2: Guard<V>, n: nat)
    requires Suffix(g, a, g1) && Suffix(g1, b, g2) && n == a + b
    ensures Suffix(g, n, g2)
  {
    assert g1.order[b..] == g.order[n..];
  }

  function ExcessOf<V>(g: Guard<V>): (n: nat)
    ensures n <= |g.order|
  {
    if |g.order| > g.maxEntries then |g.order| - g.maxEntries else 0
  }

  lemma SuffixOfSelf<V>(g: Guard<V>)
    requires Exact(g)
    ensures Suffix(g, 0, g)
  {
    assert g.order[0..] == g.order;
  }

  lemma {:induction false} DropExcessSuffix<V>(g: Guard<V>)
    requires Exact(g)
    ensures Suffix(g, ExcessOf(g), DropExcess(g))
    decreases |g.order|
  {
    ExactSize(g);
    if |g.order| > g.maxEntries {
      PopFrontExact(g);
      DropExcessSuffix(PopFront(g));
      OneMoreExcess(g);
    } else {
      SuffixOfSelf(g);
    }
  }

  lemma OneMoreExcess<V>(g: Guard<V>)
    requires |g.order| > g.maxEntries && |g.entries| == |g.order|
    requires Suffix(g, 1, PopFront(g)) && Suffix(PopFront(g), ExcessOf(PopFront(g)), DropExcess(PopFront(g)))
    ensures Suffix(g, ExcessOf(g), DropExcess(g))
  {
    SuffixOfSuffix(g, 1, PopFront(g), ExcessOf(PopFront(g)), DropExcess(PopFront(g)), ExcessOf(g));
  }

  /** Pruning drops a run of keys from the front of the queue, each for one of the two reasons:
      nothing is dropped early. */
  lemma PrunedSuffix<V>(g: Guard<V>, now: nat) returns (n: nat)
    requires Exact(g)
    ensures Suffix(g, n, Pruned(g, now))
    ensures forall i | 0 <= i < n :: MayDrop(g, now, i)
  {
    var a := DropExpiredSuffix(g, now);
    var g1 := DropExpired(g, now);
    DropExcessSuffix(g1);
    n := a + ExcessOf(g1);
    SuffixOfSuffix(g, a, g1, ExcessOf(g1), Pruned(g, now), n);
  }

  /** An entry on its own stays while it is no older than the time to live, if there is room for any. */
  lemma LoneEntry<V>(g: Guard<V>, key: string, e: Entry<V>, now: nat)
    requires g.entries == map[key := e] && g.order == [key]
    ensures key in Pruned(g, now).entries <==> now <= e.ts + g.ttl && g.maxEntries >= 1
  {
    var none := PopFront(g);
    assert none.entries == map[] && none.order == [];
    assert g.entries.Keys == {key} && |g.entries| == 1;
    assert DropExpired(none, now) == none && DropExcess(none) == none;
    assert Expired(g, key, now) <==> now > e.ts + g.ttl;
    assert DropExcess(g) == if g.maxEntries >= 1 then g else none;
  }
}
