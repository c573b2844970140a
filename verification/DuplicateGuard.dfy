/** `DuplicateSubmitGuard`: remembers submitted shares so that a repeated one is answered without
    being scored again. */
module DuplicateGuard {
  import opened Options
  import opened Guards

  datatype Outcome = InFlight | Accepted | Stale | LowDiff | Bad

  type SubmitGuard = Guard<Outcome>

  function Insert(g: SubmitGuard, key: string, now: nat): SubmitGuard {
    var p := Pruned(g, now);
    if key in p.entries then p
    else p.(entries := p.entries[key := Entry(now, InFlight)], order := p.order + [key])
  }

  function SetOutcome(g: SubmitGuard, key: string, now: nat, outcome: Outcome): SubmitGuard {
    var p := Pruned(g, now);
    if key in p.entries then p.(entries := p.entries[key := Entry(now, outcome)]) else p
  }

  /** The critical section at admission: look the key up and, if it is new, insert it as in flight. */
  function Admit(g: SubmitGuard, key: string, now: nat): (SubmitGuard, Option<Outcome>) {
    var p := Pruned(g, now);
    if key in p.entries then (p, Some(p.entries[key].value)) else (Insert(p, key, now), None)
  }

  class DuplicateSubmitGuard {
    var state: SubmitGuard

    constructor (ttl: nat, maxEntries: nat)
      ensures state == Guard(ttl, maxEntries, map[], [])
    {
      state := Guard(ttl, maxEntries, map[], []);
    }

    method Get(key: string, now: nat) returns (outcome: Option<Outcome>)
      modifies this
      ensures state == Pruned(old(state), now)
      ensures outcome == if key in state.entries then Some(state.entries[key].value) else None
    {
      state := Prune(state, now);
      outcome := if key in state.entries then Some(state.entries[key].value) else None;
    }

    method InsertInflight(key: string, now: nat)
      modifies this
      ensures state == Insert(old(state), key, now)
    {
      state := Prune(state, now);
      if key in state.entries {
        return;
      }
      state := state.(entries := state.entries[key := Entry(now, InFlight)], order := state.order + [key]);
    }

    method Resolve(key: string, now: nat, outcome: Outcome)
      modifies this
      ensures state == SetOutcome(old(state), key, now, outcome)
    {
      state := Prune(state, now);
      if key in state.entries {
        state := state.(entries := state.entries[key := Entry(now, outcome)]);
      }
    }

    method Enter(key: string, now: nat) returns (duplicate: Option<Outcome>)
      modifies this
      ensures (state, duplicate) == Admit(old(state), key, now)
    {
      duplicate := Get(key, now);
      if duplicate.None? {
        InsertInflight(key, now);
      }
    }
  }

  lemma AppendExact(g: SubmitGuard, key: string, e: Entry<Outcome>)
    requires Exact(g) && key !in g.entries
    ensures Exact(g.(entries := g.entries[key := e], order := g.order + [key]))
  {
    var order := g.order + [key];
    assert forall k :: k in order <==> k in g.order || k == key;
  }

  /** `set_outcome` refreshes a timestamp without moving its key, so an expired entry can stay behind
      a fresh one. Pruning leaves no expired entry if and only if, among the last `maxEntries` keys,
      an expired key has only expired keys before it. */
  lemma NoneExpiredIff(g: SubmitGuard, now: nat)
    requires Exact(g)
    ensures (forall k | k in Pruned(g, now).entries :: !Expired(g, k, now)) <==> ExpiredFirst(g, now)
  {
    var a := DropExpiredSuffix(g, now);
    var n := Left(g, a);
    PrunedIs(g, now, a);
    LeftFresh(g, n, Pruned(g, now), now);
    FirstFresh(g, now, a, n);
  }

  /** How many keys are gone when the first `a` go for their age and more until the rest fit. */
  function Left(g: SubmitGuard, a: nat): (n: nat)
    requires a <= |g.order|
    ensures a <= n <= |g.order| && |g.order| - n <= g.maxEntries && (n == a || |g.order| - n == g.maxEntries)
  {
    if |g.order| - a > g.maxEntries then |g.order| - g.maxEntries else a
  }

  lemma PrunedIs(g: SubmitGuard, now: nat, a: nat)
    requires Suffix(g, a, DropExpired(g, now))
    ensures Suffix(g, Left(g, a), Pruned(g, now))
  {
    var g1 := DropExpired(g, now);
    DropExcessSuffix(g1);
    assert |g1.order| == |g.order| - a;
    SuffixOfSuffix(g, a, g1, ExcessOf(g1), DropExcess(g1), Left(g, a));
  }

  ghost predicate ExpiredFirst(g: SubmitGuard, now: nat) {
    forall i, j | 0 <= i < j < |g.order| && |g.order| - j <= g.maxEntries ::
      Expired(g, g.order[j], now) ==> Expired(g, g.order[i], now)
  }

  ghost predicate FreshFrom(g: SubmitGuard, n: nat, now: nat) {
    forall j | n <= j < |g.order| :: !Expired(g, g.order[j], now)
  }

  lemma LeftFresh(g: SubmitGuard, n: nat, g': SubmitGuard, now: nat)
    requires Suffix(g, n, g')
    ensures (forall k | k in g'.entries :: !Expired(g, k, now)) <==> FreshFrom(g, n, now)
  {
    forall j | n <= j < |g.order|
      ensures g.order[j] in g'.entries
    {
      assert g'.order[j - n] == g.order[j];
      assert g.order[j] in g'.order;
    }
    forall k | k in g'.entries
      ensures exists j :: n <= j < |g.order| && g.order[j] == k
    {
      var i :| 0 <= i < |g'.order| && g'.order[i] == k;
      assert g.order[n + i] == k;
    }
  }

  lemma FirstFresh(g: SubmitGuard, now: nat, a: nat, n: nat)
    requires a <= n <= |g.order|
    requires n == a || |g.order| - n == g.maxEntries
    requires |g.order| - n <= g.maxEntries
    requires forall i | 0 <= i < a :: Expired(g, g.order[i], now)
    requires a < |g.order| ==> !Expired(g, g.order[a], now)
    ensures FreshFrom(g, n, now) <==> ExpiredFirst(g, now)
  {
    if FreshFrom(g, n, now) {
      forall i, j | 0 <= i < j < |g.order| && |g.order| - j <= g.maxEntries && Expired(g, g.order[j], now)
        ensures Expired(g, g.order[i], now)
      {
        assert j < n;
      }
    } else {
      var j :| n <= j < |g.order| && Expired(g, g.order[j], now);
      assert a < j;
    }
  }

  /** An instance in calls, with a time to live of 10: a and b are inserted at 0, the outcome of a is
      written at 10. Pruning at 20 stops at a and leaves b, twice its time old. */
  lemma ExpiredBehindFresh(v: Outcome)
    ensures var g := SetOutcome(Insert(Insert(Guard(10, 10, map[], []), "a", 0), "b", 0), "a", 10, v);
            "b" in Pruned(g, 20).entries && Expired(g, "b", 20) && Elapsed(20, g.entries["b"].ts) == 20
  {
    var g0: SubmitGuard := Guard(10, 10, map[], []);
    assert Insert(g0, "a", 0) == Guard(10, 10, map["a" := Entry(0, InFlight)], ["a"]);
    var g1: SubmitGuard := Guard(10, 10, map["a" := Entry(0, InFlight)], ["a"]);
    FreshStays(g1, 0, {"a"});
    var g2: SubmitGuard := Guard(10, 10, map["a" := Entry(0, InFlight), "b" := Entry(0, InFlight)], ["a", "b"]);
    assert Insert(g1, "b", 0) == g2;
    FreshStays(g2, 10, {"a", "b"});
    var g3: SubmitGuard := Guard(10, 10, map["a" := Entry(10, v), "b" := Entry(0, InFlight)], ["a", "b"]);
    assert SetOutcome(g2, "a", 10, v) == g3;
    FreshStays(g3, 20, {"a", "b"});
  }

  lemma FreshStays(g: SubmitGuard, now: nat, keys: set<string>)
    requires g.entries.Keys == keys && |keys| <= g.maxEntries && g.order != [] && !Expired(g, g.order[0], now)
    ensures Pruned(g, now) == g
  {
  }

  /** A key without entry is admitted and put in flight. One whose entry is no older than the time to
      live is answered with its outcome, while the entries are within the capacity. */
  lemma AdmitReplies(g: SubmitGuard, key: string, now: nat)
    ensures key !in g.entries ==>
              && Admit(g, key, now).1 == None
              && key in Admit(g, key, now).0.entries && Admit(g, key, now).0.entries[key] == Entry(now, InFlight)
    ensures key in g.entries && now <= g.entries[key].ts + g.ttl && |g.entries| <= g.maxEntries ==>
              Admit(g, key, now).1 == Some(g.entries[key].value)
  {
    PrunedShrinks(g, now);
    PrunedShrinks(Pruned(g, now), now);
    if key in g.entries && now <= g.entries[key].ts + g.ttl && |g.entries| <= g.maxEntries {
      PrunedKeepsFresh(g, now, key);
    }
  }

  /** Resolving a key that is still held stores the outcome and restarts its time to live. */
  lemma ResolveStores(g: SubmitGuard, key: string, now: nat, outcome: Outcome)
    requires key in g.entries && now <= g.entries[key].ts + g.ttl && |g.entries| <= g.maxEntries
    ensures key in SetOutcome(g, key, now, outcome).entries
    ensures SetOutcome(g, key, now, outcome).entries[key] == Entry(now, outcome)
  {
    PrunedKeepsFresh(g, now, key);
  }
}
