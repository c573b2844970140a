/** Which two concurrent calls of `CachedDbSetAccess` can leave a cached set that is not stored: an exact
    condition on the calls and on what the cache has room for. */
module SetClashes {
  import opened Options
  import opened Database
  import opened Cache
  import opened Codecs
  import opened SetAccess
  import opened SetInterleaving

  ghost predicate EndsStale<D(!new)>(
      cfg: Config<D>, ops: seq<Op<D>>, states: seq<Shared<D>>, callers: seq<nat>, m: map<Key, set<D>>) {
    && SetInterleaving.Run(cfg, ops, states, callers) && Started(cfg, ops, states[0], m)
    && var s := states[|callers|];
       && |s.phases| == |ops| && (forall d | 0 <= d < |ops| :: s.phases[d].Over?)
       && exists k :: k in s.cache && s.cache[k] != At(PlainRun(m, s.done).0, k)
  }

  ghost predicate CanEndStale<D(!new)>(cfg: Config<D>, x: Op<D>, y: Op<D>) {
    exists states, callers, m :: EndsStale(cfg, [x, y], states, callers, m)
  }

  lemma NeverDisturbed<D(!new)>(cfg: Config<D>, ops: seq<Op<D>>, states: seq<Shared<D>>, callers: seq<nat>)
    requires SetInterleaving.Run(cfg, ops, states, callers) && |ops| == 2 && !Clash(ops[0], ops[1])
    ensures UndisturbedRun(cfg, ops, states, callers)
  {
    forall i | 0 <= i < |callers|
      ensures Section(cfg, ops, states[i], callers[i], states[i + 1]) && Undisturbed(ops, states[i].phases, callers[i])
    {
      assert Section(cfg, ops, states[i], callers[i], states[i + 1]);
      assert Clash(ops[0], ops[1]) == Clash(ops[1], ops[0]);
    }
  }

  lemma OthersEndFresh<D(!new)>(cfg: Config<D>, ops: seq<Op<D>>, states: seq<Shared<D>>, callers: seq<nat>, m: map<Key, set<D>>)
    requires Lossless(cfg.codec) && |ops| == 2 && !Clash(ops[0], ops[1])
    ensures !EndsStale(cfg, ops, states, callers, m)
  {
    if SetInterleaving.Run(cfg, ops, states, callers) && Started(cfg, ops, states[0], m) {
      NeverDisturbed(cfg, ops, states, callers);
      InterleavedRunRefines(cfg, ops, states, callers, m);
    }
  }

  /** The cache has room for the set on its own. */
  predicate Fits<D>(cfg: Config<D>, members: set<D>) {
    FitsAlone(cfg.policy, cfg.size, members)
  }

  /** What a change makes of the set. */
  function Effect<D(==)>(op: Op<D>, members: set<D>): set<D> {
    match op
    case ReadSet(_) => members
    case WriteItem(_, d) => members + {d}
    case DeleteItem(_, d) => members - {d}
    case DeleteBucket(_) => {}
  }

  /** Calls `i` and `j` are the two calls. */
  predicate Two<D>(ops: seq<Op<D>>, i: nat, j: nat) {
    |ops| == 2 && i < 2 && j < 2 && i != j
  }

  lemma OneMore<D(!new)>(cfg: Config<D>, ops: seq<Op<D>>, states: seq<Shared<D>>, callers: seq<nat>, c: nat, s': Shared<D>)
    requires SetInterleaving.Run(cfg, ops, states, callers) && Section(cfg, ops, states[|callers|], c, s')
    ensures SetInterleaving.Run(cfg, ops, states + [s'], callers + [c])
  {
    var all, who := states + [s'], callers + [c];
    forall i | 0 <= i < |who|
      ensures Section(cfg, ops, all[i], who[i], all[i + 1])
    {
      if i < |callers| {
        assert all[i] == states[i] && all[i + 1] == states[i + 1] && who[i] == callers[i];
      }
    }
  }

  lemma RunOfFive<D(!new)>(
      cfg: Config<D>, ops: seq<Op<D>>, i: nat, j: nat, s0: Shared<D>, s1: Shared<D>, s2: Shared<D>, s3: Shared<D>, s4: Shared<D>, s5: Shared<D>)
    requires Section(cfg, ops, s0, i, s1) && Section(cfg, ops, s1, i, s2)
    requires Section(cfg, ops, s2, j, s3) && Section(cfg, ops, s3, j, s4) && Section(cfg, ops, s4, i, s5)
    ensures SetInterleaving.Run(cfg, ops, [s0, s1, s2, s3, s4, s5], [i, i, j, j, i])
  {
    OneMore(cfg, ops, [s0], [], i, s1);
    OneMore(cfg, ops, [s0, s1], [i], i, s2);
    OneMore(cfg, ops, [s0, s1, s2], [i, i], j, s3);
    OneMore(cfg, ops, [s0, s1, s2, s3], [i, i, j], j, s4);
    OneMore(cfg, ops, [s0, s1, s2, s3, s4], [i, i, j, j], i, s5);
  }

  lemma RunOfFour<D(!new)>(
      cfg: Config<D>, ops: seq<Op<D>>, i: nat, j: nat, s0: Shared<D>, s1: Shared<D>, s2: Shared<D>, s3: Shared<D>, s4: Shared<D>)
    requires Section(cfg, ops, s0, i, s1) && Section(cfg, ops, s1, j, s2)
    requires Section(cfg, ops, s2, j, s3) && Section(cfg, ops, s3, i, s4)
    ensures SetInterleaving.Run(cfg, ops, [s0, s1, s2, s3, s4], [i, j, j, i])
  {
    OneMore(cfg, ops, [s0], [], i, s1);
    OneMore(cfg, ops, [s0, s1], [i], j, s2);
    OneMore(cfg, ops, [s0, s1, s2], [i, j], j, s3);
    OneMore(cfg, ops, [s0, s1, s2, s3], [i, j, j], i, s4);
  }

  /** The sections of the runs below, each by itself. */
  lemma Misses<D(!new)>(cfg: Config<D>, ops: seq<Op<D>>, s: Shared<D>, c: nat, k: Key) returns (s': Shared<D>)
    requires |s.phases| == |ops| && c < |ops| && ops[c] == ReadSet(k) && |k| == cfg.keyLen
    requires s.phases[c] == Idle && k !in s.cache
    ensures Section(cfg, ops, s, c, s') && s' == s.(phases := s.phases[c := Missed])
  {
    s' := s.(phases := s.phases[c := Missed]);
  }

  lemma Fetches<D(!new)>(cfg: Config<D>, ops: seq<Op<D>>, s: Shared<D>, c: nat, k: Key, m: map<Key, set<D>>) returns (s': Shared<D>)
    requires Lossless(cfg.codec) && Represents(cfg, s.rows, m)
    requires |s.phases| == |ops| && c < |ops| && ops[c] == ReadSet(k) && |k| == cfg.keyLen && s.phases[c] == Missed
    ensures Section(cfg, ops, s, c, s') && s' == s.(phases := s.phases[c := Fetched(At(m, k))])
  {
    CollectsTheSet(cfg, s.rows, m, k);
    s' := s.(phases := s.phases[c := Fetched(At(m, k))]);
  }

  lemma CollectsTheSet<D(!new)>(cfg: Config<D>, rows: Rows, m: map<Key, set<D>>, k: Key)
    requires Lossless(cfg.codec) && Represents(cfg, rows, m) && |k| == cfg.keyLen
    ensures Collects(cfg.codec, rows, cfg.prefix + k, Some(At(m, k)))
  {
    var bucket := cfg.prefix + k;
    forall r | r in rows && Iterated(bucket, r)
      ensures Decodes(cfg.codec, bucket, r) && cfg.codec.de(r[|bucket|..]).value in At(m, k)
    {
      RowOfBucket(cfg, rows, m, k, r);
    }
    forall d | d in At(m, k)
      ensures exists r | r in rows && Iterated(bucket, r) :: Decodes(cfg.codec, bucket, r) && cfg.codec.de(r[|bucket|..]) == Some(d)
    {
      var r := ItemPath(cfg, k, d);
      PathInBucket(cfg, k, d);
      IteratedIsPrefix(bucket, r);
      assert Holds(cfg, m, r, k, d);
    }
  }

  lemma Fills<D(!new)>(cfg: Config<D>, ops: seq<Op<D>>, s: Shared<D>, c: nat, k: Key, members: set<D>) returns (s': Shared<D>)
    requires Fits(cfg, members) && s.cache == map[]
    requires |s.phases| == |ops| && c < |ops| && ops[c] == ReadSet(k) && |k| == cfg.keyLen && s.phases[c] == Fetched(members)
    ensures Section(cfg, ops, s, c, s')
    ensures s' == Shared(map[k := members], s.rows, s.phases[c := Over(Members(members))], s.done + [ReadSet(k)], s.replies + [Members(members)])
  {
    InsertedAlone(cfg.policy, cfg.size, s.cache, k, members);
    s' := Shared(map[k := members], s.rows, s.phases[c := Over(Members(members))], s.done + [ReadSet(k)], s.replies + [Members(members)]);
  }

  lemma ChangesCache<D(!new)>(cfg: Config<D>, ops: seq<Op<D>>, s: Shared<D>, c: nat, cache': map<Key, set<D>>) returns (s': Shared<D>)
    requires |s.phases| == |ops| && c < |ops| && Callable(cfg, ops[c]) && !ops[c].ReadSet? && s.phases[c] == Idle
    requires CacheSection(cfg, s.cache, ops[c], cache')
    ensures Section(cfg, ops, s, c, s') && s' == s.(cache := cache', phases := s.phases[c := Part])
  {
    s' := s.(cache := cache', phases := s.phases[c := Part]);
  }

  lemma ChangesRows<D(!new)>(cfg: Config<D>, ops: seq<Op<D>>, s: Shared<D>, c: nat) returns (s': Shared<D>)
    requires |s.phases| == |ops| && c < |ops| && Callable(cfg, ops[c]) && !ops[c].ReadSet? && s.phases[c] == Part
    ensures Section(cfg, ops, s, c, s')
    ensures s' == Shared(s.cache, Apply(s.rows, RowWrite(cfg, ops[c])), s.phases[c := Over(Done)], s.done + [ops[c]], s.replies + [Done])
  {
    s' := Shared(s.cache, Apply(s.rows, RowWrite(cfg, ops[c])), s.phases[c := Over(Done)], s.done + [ops[c]], s.replies + [Done]);
  }

  lemma {:induction false} RowsFor<D(!new)>(cfg: Config<D>, k: Key, members: set<D>) returns (rows: Rows)
    requires Lossless(cfg.codec) && |k| == cfg.keyLen
    ensures Represents(cfg, rows, map[k := members])
    decreases |members|
  {
    if members == {} {
      rows := map[];
    } else {
      var d :| d in members;
      rows := RowsFor(cfg, k, members - {d});
      WriteRepresents(cfg, rows, map[k := members - {d}], k, d);
      assert members - {d} + {d} == members;
      assert map[k := members - {d}][k := members - {d} + {d}] == map[k := members];
      rows := rows[ItemPath(cfg, k, d) := []];
    }
  }

  lemma PlainRunOfTwo<D>(m: map<Key, set<D>>, x: Op<D>, y: Op<D>)
    ensures PlainRun(m, [x, y]).0 == PlainStep(PlainStep(m, x).0, y).0
  {
    DoneOneMore(m, [], x);
    DoneOneMore(m, [x], y);
    assert [] + [x] == [x] && [x] + [y] == [x, y];
  }

  /** Fetch, change, fill: the reader caches the old set after the rows were changed. */
  lemma FetchChangeFill<D(!new)>(cfg: Config<D>, ops: seq<Op<D>>, i: nat, j: nat, m: map<Key, set<D>>, rows: Rows)
      returns (states: seq<Shared<D>>, callers: seq<nat>)
    requires Two(ops, i, j) && Lossless(cfg.codec) && Fits(cfg, At(m, ops[i].key))
    requires ops[i].ReadSet? && !ops[j].ReadSet? && ops[i].key == ops[j].key && Callable(cfg, ops[j])
    requires Represents(cfg, rows, m) && At(PlainStep(m, ops[j]).0, ops[j].key) != At(m, ops[j].key)
    ensures EndsStale(cfg, ops, states, callers, m)
  {
    var s0: Shared<D> := Shared(map[], rows, [Idle, Idle], [], []);
    var s1, s2, s3, s4, s5 := FetchChangeFillSections(cfg, ops, i, j, m, s0);
    RunOfFive(cfg, ops, i, j, s0, s1, s2, s3, s4, s5);
    Starts(cfg, ops, s0, m);
    states, callers := [s0, s1, s2, s3, s4, s5], [i, i, j, j, i];
    StaleEnd(cfg, ops, states, callers, m, ops[i].key);
  }

  lemma StaleEnd<D(!new)>(cfg: Config<D>, ops: seq<Op<D>>, states: seq<Shared<D>>, callers: seq<nat>, m: map<Key, set<D>>, k: Key)
    requires SetInterleaving.Run(cfg, ops, states, callers) && Started(cfg, ops, states[0], m)
    requires StaleAt(ops, states[|callers|], m, k)
    ensures EndsStale(cfg, ops, states, callers, m)
  {
  }

  ghost predicate StaleAt<D>(ops: seq<Op<D>>, s: Shared<D>, m: map<Key, set<D>>, k: Key) {
    && |s.phases| == |ops| == 2 && s.phases[0].Over? && s.phases[1].Over?
    && k in s.cache && s.cache[k] != At(PlainRun(m, s.done).0, k)
  }

  lemma Starts<D(!new)>(cfg: Config<D>, ops: seq<Op<D>>, s: Shared<D>, m: map<Key, set<D>>)
    requires |ops| == 2 && s.phases == [Idle, Idle] && s.done == [] && s.replies == []
    requires WithinPolicy(cfg.policy, s.cache, cfg.size) && Represents(cfg, s.rows, m)
    requires forall k | k in s.cache :: s.cache[k] == At(m, k)
    ensures Started(cfg, ops, s, m)
  {
  }

  lemma UncachedStays<D>(cfg: Config<D>, op: Op<D>)
    requires !op.ReadSet?
    ensures CacheSection(cfg, map[], op, map[])
  {
    var none: map<Key, set<D>> := map[];
    assert none - {op.key} == none;
  }

  lemma FetchChangeFillSections<D(!new)>(cfg: Config<D>, ops: seq<Op<D>>, i: nat, j: nat, m: map<Key, set<D>>, s0: Shared<D>)
      returns (s1: Shared<D>, s2: Shared<D>, s3: Shared<D>, s4: Shared<D>, s5: Shared<D>)
    requires Two(ops, i, j) && Lossless(cfg.codec) && Fits(cfg, At(m, ops[i].key))
    requires ops[i].ReadSet? && !ops[j].ReadSet? && ops[i].key == ops[j].key && Callable(cfg, ops[j])
    requires s0.cache == map[] && s0.phases == [Idle, Idle] && s0.done == [] && Represents(cfg, s0.rows, m)
    ensures Section(cfg, ops, s0, i, s1) && Section(cfg, ops, s1, i, s2)
    ensures Section(cfg, ops, s2, j, s3) && Section(cfg, ops, s3, j, s4) && Section(cfg, ops, s4, i, s5)
    requires At(PlainStep(m, ops[j]).0, ops[j].key) != At(m, ops[j].key)
    ensures StaleAt(ops, s5, m, ops[i].key)
  {
    var k := ops[i].key;
    s1 := Misses(cfg, ops, s0, i, k);
    s2 := Fetches(cfg, ops, s1, i, k, m);
    UncachedStays(cfg, ops[j]);
    s3 := ChangesCache(cfg, ops, s2, j, map[]);
    s4 := ChangesRows(cfg, ops, s3, j);
    s5 := Fills(cfg, ops, s4, i, k, At(m, k));
    PlainRunOfTwo(m, ops[j], ops[i]);
    assert s5.done == [ops[j], ops[i]];
  }

  /** A deletion inside the addition of the same member: the member is stored and not cached. */
  lemma DeleteInside<D(!new)>(cfg: Config<D>, ops: seq<Op<D>>, i: nat, j: nat, k: Key, d: D, without: set<D>)
      returns (states: seq<Shared<D>>, callers: seq<nat>)
    requires Lossless(cfg.codec) && |k| == cfg.keyLen && d !in without && Fits(cfg, without) && Fits(cfg, without + {d})
    requires Two(ops, i, j) && ops[i] == WriteItem(k, d) && ops[j] == DeleteItem(k, d)
    ensures EndsStale(cfg, ops, states, callers, map[k := without])
  {
    var rows := RowsFor(cfg, k, without);
    var s0: Shared<D> := Shared(map[k := without], rows, [Idle, Idle], [], []);
    var s1, s2, s3, s4 := DeleteInsideSections(cfg, ops, i, j, k, d, without, s0);
    RunOfFour(cfg, ops, i, j, s0, s1, s2, s3, s4);
    HoldsAlone(cfg, k, without);
    Starts(cfg, ops, s0, map[k := without]);
    states, callers := [s0, s1, s2, s3, s4], [i, j, j, i];
    StaleEnd(cfg, ops, states, callers, map[k := without], k);
  }

  lemma HoldsAlone<D>(cfg: Config<D>, k: Key, members: set<D>)
    requires Fits(cfg, members)
    ensures WithinPolicy(cfg.policy, map[k := members], cfg.size)
  {
    if cfg.policy.tracked {
      AloneOverBudget(cfg.policy, cfg.size, k, members);
    }
  }

  lemma CachedChange<D>(cfg: Config<D>, k: Key, d: D, before: set<D>)
    requires cfg.policy.maxSize >= 1
    ensures Fits(cfg, before + {d}) ==> CacheSection(cfg, map[k := before], WriteItem(k, d), map[k := before + {d}])
    ensures Fits(cfg, before - {d}) ==> CacheSection(cfg, map[k := before], DeleteItem(k, d), map[k := before - {d}])
  {
    UpdatedAlone(cfg.policy, cfg.size, k, before, Adding(d));
    UpdatedAlone(cfg.policy, cfg.size, k, before, SetAccess.Removing(d));
  }

  lemma DeleteInsideSections<D(!new)>(cfg: Config<D>, ops: seq<Op<D>>, i: nat, j: nat, k: Key, d: D, without: set<D>, s0: Shared<D>)
      returns (s1: Shared<D>, s2: Shared<D>, s3: Shared<D>, s4: Shared<D>)
    requires |k| == cfg.keyLen && d !in without && Fits(cfg, without) && Fits(cfg, without + {d})
    requires Two(ops, i, j) && ops[i] == WriteItem(k, d) && ops[j] == DeleteItem(k, d)
    requires s0.cache == map[k := without] && s0.phases == [Idle, Idle] && s0.done == []
    ensures Section(cfg, ops, s0, i, s1) && Section(cfg, ops, s1, j, s2)
    ensures Section(cfg, ops, s2, j, s3) && Section(cfg, ops, s3, i, s4)
    ensures StaleAt(ops, s4, map[k := without], k)
  {
    CachedChange(cfg, k, d, without);
    s1 := ChangesCache(cfg, ops, s0, i, map[k := without + {d}]);
    assert without + {d} - {d} == without;
    CachedChange(cfg, k, d, without + {d});
    s2 := ChangesCache(cfg, ops, s1, j, map[k := without + {d} - {d}]);
    s3 := ChangesRows(cfg, ops, s2, j);
    s4 := ChangesRows(cfg, ops, s3, i);
    PlainRunOfTwo(map[k := without], ops[j], ops[i]);
    assert s4.done == [ops[j], ops[i]];
    assert d in At(PlainRun(map[k := without], s4.done).0, k);
  }

  /** The cache has room for what the clash needs: for a set that the change changes, or for the set with
      and without the member. */
  ghost predicate Room<D(!new)>(cfg: Config<D>, x: Op<D>, y: Op<D>) {
    if x.ReadSet? || y.ReadSet? then
      exists members :: Fits(cfg, members) && (Effect(x, members) != members || Effect(y, members) != members)
    else
      (x.WriteItem? || x.DeleteItem?)
      && exists without :: x.data !in without && Fits(cfg, without) && Fits(cfg, without + {x.data})
  }

  lemma ClashingEndsStale<D(!new)>(cfg: Config<D>, x: Op<D>, y: Op<D>)
    requires Lossless(cfg.codec) && Callable(cfg, x) && Callable(cfg, y) && Clash(x, y) && Room(cfg, x, y)
    ensures CanEndStale(cfg, x, y)
  {
    var ops := [x, y];
    if x.ReadSet? || y.ReadSet? {
      var i := if x.ReadSet? then 0 else 1;
      var members :| Fits(cfg, members) && (Effect(x, members) != members || Effect(y, members) != members);
      var m := map[x.key := members];
      var rows := RowsFor(cfg, x.key, members);
      assert At(PlainStep(m, ops[1 - i]).0, x.key) == Effect(ops[1 - i], members);
      var states, callers := FetchChangeFill(cfg, ops, i, 1 - i, m, rows);
    } else {
      var i := if x.WriteItem? then 0 else 1;
      var without :| x.data !in without && Fits(cfg, without) && Fits(cfg, without + {x.data});
      var states, callers := DeleteInside(cfg, ops, i, 1 - i, x.key, x.data, without);
    }
  }

  // A stale set shows what the cache had room for

  /** Two calls on the same set leave the other sets alone. */
  ghost predicate Elsewhere<D(!new)>(cfg: Config<D>, ops: seq<Op<D>>, s: Shared<D>, m: map<Key, set<D>>, k: Key) {
    && |s.phases| == |ops| == 2
    && WithinPolicy(cfg.policy, s.cache, cfg.size)
    && (forall q | q != k :: At(PlainRun(m, s.done).0, q) == At(m, q))
    && (forall q | q in s.cache && q != k :: s.cache[q] == At(m, q))
  }

  /** What a section may do to the cache. */
  lemma SectionOnCache<D(!new)>(cfg: Config<D>, ops: seq<Op<D>>, s: Shared<D>, c: nat, s': Shared<D>)
    requires Section(cfg, ops, s, c, s') && WithinPolicy(cfg.policy, s.cache, cfg.size)
    ensures WithinPolicy(cfg.policy, s'.cache, cfg.size)
    ensures forall q | q in s'.cache && q != ops[c].key :: q in s.cache && s'.cache[q] == s.cache[q]
    ensures !ops[c].ReadSet? && s.phases[c].Idle? && ops[c].key in s'.cache ==>
              ops[c].key in s.cache && s'.cache[ops[c].key] == Effect(ops[c], s.cache[ops[c].key])
    ensures ops[c].ReadSet? && s.phases[c].Fetched? && ops[c].key in s'.cache ==>
              s'.cache[ops[c].key] == s.phases[c].members
    ensures !s.phases[c].Idle? && !s.phases[c].Fetched? ==> s'.cache == s.cache
    ensures ops[c].ReadSet? && s.phases[c].Idle? ==> s'.cache == s.cache
  {
    if !ops[c].ReadSet? && s.phases[c].Idle? {
      SetInterleaving.CacheSectionEffect(cfg, s.cache, ops[c], s'.cache);
    } else if ops[c].ReadSet? && s.phases[c].Fetched? {
      InsertedKeepsPolicy(cfg.policy, cfg.size, s.cache, ops[c].key, s.phases[c].members, s'.cache);
    }
  }

  lemma SectionKeepsPolicy<D(!new)>(cfg: Config<D>, ops: seq<Op<D>>, s: Shared<D>, c: nat, s': Shared<D>)
    requires Section(cfg, ops, s, c, s') && WithinPolicy(cfg.policy, s.cache, cfg.size)
    ensures WithinPolicy(cfg.policy, s'.cache, cfg.size)
  {
    SectionOnCache(cfg, ops, s, c, s');
  }

  lemma SectionElsewhere<D(!new)>(cfg: Config<D>, ops: seq<Op<D>>, s: Shared<D>, c: nat, s': Shared<D>, m: map<Key, set<D>>, k: Key)
    requires Elsewhere(cfg, ops, s, m, k) && Section(cfg, ops, s, c, s') && ops[c].key == k
    ensures Elsewhere(cfg, ops, s', m, k)
  {
    SectionOnCache(cfg, ops, s, c, s');
    PlainElsewhere(m, s.done, ops[c]);
  }

  lemma PlainElsewhere<D>(m: map<Key, set<D>>, done: seq<Op<D>>, op: Op<D>)
    ensures forall q | q != op.key :: At(PlainRun(m, done + [op]).0, q) == At(PlainRun(m, done).0, q)
  {
    DoneOneMore(m, done, op);
  }

  lemma StartsElsewhere<D(!new)>(cfg: Config<D>, ops: seq<Op<D>>, s: Shared<D>, m: map<Key, set<D>>, k: Key)
    requires Started(cfg, ops, s, m) && |ops| == 2
    ensures Elsewhere(cfg, ops, s, m, k)
  {
  }

  lemma {:induction false} RunElsewhere<D(!new)>(
      cfg: Config<D>, ops: seq<Op<D>>, states: seq<Shared<D>>, callers: seq<nat>, m: map<Key, set<D>>, k: Key, t: nat)
    requires |ops| == 2 && ops[0].key == ops[1].key == k
    requires SetInterleaving.Run(cfg, ops, states, callers) && Elsewhere(cfg, ops, states[0], m, k) && t <= |callers|
    ensures Elsewhere(cfg, ops, states[t], m, k)
    decreases t
  {
    if t > 0 {
      var n := t - 1;
      RunElsewhere(cfg, ops, states, callers, m, k, n);
      assert Section(cfg, ops, states[n], callers[n], states[n + 1]);
      SectionElsewhere(cfg, ops, states[n], callers[n], states[n + 1], m, k);
    }
  }

  lemma {:induction false} RunKeepsPolicy<D(!new)>(
      cfg: Config<D>, ops: seq<Op<D>>, states: seq<Shared<D>>, callers: seq<nat>, t: nat)
    requires SetInterleaving.Run(cfg, ops, states, callers) && t <= |callers|
    requires WithinPolicy(cfg.policy, states[0].cache, cfg.size)
    ensures WithinPolicy(cfg.policy, states[t].cache, cfg.size)
    decreases t
  {
    if t > 0 {
      var n := t - 1;
      RunKeepsPolicy(cfg, ops, states, callers, n);
      assert Section(cfg, ops, states[n], callers[n], states[n + 1]);
      SectionKeepsPolicy(cfg, ops, states[n], callers[n], states[n + 1]);
    }
  }

  // A read and a change

  predicate ReadAndChange<D>(ops: seq<Op<D>>, i: nat, j: nat) {
    Two(ops, i, j) && ops[i].ReadSet? && !ops[j].ReadSet? && ops[i].key == ops[j].key
  }

  predicate OneOf<D(==)>(members: set<D>, a: set<D>, b: set<D>) {
    members == a || members == b
  }

  ghost predicate ReadInv<D(!new)>(ops: seq<Op<D>>, s: Shared<D>, m: map<Key, set<D>>, i: nat, j: nat)
    requires Two(ops, i, j) && |s.phases| == 2
  {
    var k := ops[j].key;
    var before := At(m, k);
    var after := Effect(ops[j], before);
    && At(PlainRun(m, s.done).0, k) == (if s.phases[j].Over? then after else before)
    && (s.phases[i].Fetched? ==> OneOf(s.phases[i].members, before, after))
    && (k in s.cache ==> OneOf(s.cache[k], before, after))
  }

  lemma ReadInvStep<D(!new)>(cfg: Config<D>, ops: seq<Op<D>>, s: Shared<D>, c: nat, s': Shared<D>, m: map<Key, set<D>>, i: nat, j: nat)
    requires Lossless(cfg.codec) && ReadAndChange(ops, i, j) && RowsOf(cfg, s, m) && |s.phases| == 2
    requires WithinPolicy(cfg.policy, s.cache, cfg.size) && ReadInv(ops, s, m, i, j) && Section(cfg, ops, s, c, s')
    ensures ReadInv(ops, s', m, i, j)
  {
    if c == i {
      ReadInvByRead(cfg, ops, s, s', m, i, j);
    } else {
      ReadInvByChange(cfg, ops, s, s', m, i, j);
    }
  }

  lemma ReadInvByRead<D(!new)>(cfg: Config<D>, ops: seq<Op<D>>, s: Shared<D>, s': Shared<D>, m: map<Key, set<D>>, i: nat, j: nat)
    requires Lossless(cfg.codec) && ReadAndChange(ops, i, j) && RowsOf(cfg, s, m) && |s.phases| == 2
    requires WithinPolicy(cfg.policy, s.cache, cfg.size) && ReadInv(ops, s, m, i, j) && Section(cfg, ops, s, i, s')
    ensures ReadInv(ops, s', m, i, j)
  {
    SectionOnCache(cfg, ops, s, i, s');
    DoneOneMore(m, s.done, ops[i]);
    if s.phases[i].Missed? {
      FetchesPlain(cfg, ops[i].key, s, s.phases[i], s', s'.phases[i], PlainRun(m, s.done).0);
    }
  }

  lemma ReadInvByChange<D(!new)>(cfg: Config<D>, ops: seq<Op<D>>, s: Shared<D>, s': Shared<D>, m: map<Key, set<D>>, i: nat, j: nat)
    requires ReadAndChange(ops, i, j) && |s.phases| == 2
    requires WithinPolicy(cfg.policy, s.cache, cfg.size) && ReadInv(ops, s, m, i, j) && Section(cfg, ops, s, j, s')
    ensures ReadInv(ops, s', m, i, j)
  {
    SectionOnCache(cfg, ops, s, j, s');
    DoneOneMore(m, s.done, ops[j]);
    EffectIsPlain(PlainRun(m, s.done).0, ops[j]);
    EffectTwice(ops[j], At(m, ops[j].key));
  }

  lemma FetchesPlain<D(!new)>(cfg: Config<D>, k: Key, s: Shared<D>, p: Phase<D>, s': Shared<D>, p': Phase<D>, plain: map<Key, set<D>>)
    requires Lossless(cfg.codec) && Represents(cfg, s.rows, plain) && |k| == cfg.keyLen
    requires p.Missed? && ReadSection(cfg, k, s, p, s', p')
    ensures p' == Fetched(At(plain, k))
  {
    var found :| Collects(cfg.codec, s.rows, cfg.prefix + k, found)
                 && p' == if found.Some? then Fetched(found.value) else Over(Failed);
    BucketIteratorExact(cfg, s.rows, plain, k, found);
  }

  lemma EffectIsPlain<D>(m: map<Key, set<D>>, op: Op<D>)
    ensures At(PlainStep(m, op).0, op.key) == Effect(op, At(m, op.key))
  {
  }

  lemma EffectTwice<D>(op: Op<D>, members: set<D>)
    ensures Effect(op, Effect(op, members)) == Effect(op, members)
  {
  }

  lemma {:induction false} ReadInvRun<D(!new)>(
      cfg: Config<D>, ops: seq<Op<D>>, states: seq<Shared<D>>, callers: seq<nat>, m: map<Key, set<D>>, i: nat, j: nat, t: nat)
    requires Lossless(cfg.codec) && ReadAndChange(ops, i, j)
    requires SetInterleaving.Run(cfg, ops, states, callers) && t <= |callers|
    requires WithinPolicy(cfg.policy, states[0].cache, cfg.size) && RowsOf(cfg, states[0], m)
    requires |states[0].phases| == 2 && ReadInv(ops, states[0], m, i, j)
    ensures |states[t].phases| == 2 && ReadInv(ops, states[t], m, i, j)
    decreases t
  {
    if t > 0 {
      var n := t - 1;
      RowsFollowOrder(cfg, ops, states, callers, m, n);
      ReadInvRun(cfg, ops, states, callers, m, i, j, n);
      RunKeepsPolicy(cfg, ops, states, callers, n);
      assert Section(cfg, ops, states[n], callers[n], states[n + 1]);
      ReadInvStep(cfg, ops, states[n], callers[n], states[n + 1], m, i, j);
    }
  }

  lemma StartsReadInv<D(!new)>(cfg: Config<D>, ops: seq<Op<D>>, s: Shared<D>, m: map<Key, set<D>>, i: nat, j: nat)
    requires ReadAndChange(ops, i, j) && Started(cfg, ops, s, m)
    ensures ReadInv(ops, s, m, i, j)
  {
  }

  // An addition and a deletion of the same member

  predicate SameMember<D(==)>(ops: seq<Op<D>>, i: nat, j: nat) {
    Two(ops, i, j) && ops[i].WriteItem? && ops[j].DeleteItem? && ops[i].data == ops[j].data && ops[i].key == ops[j].key
  }

  ghost predicate MemberInv<D(!new)>(cfg: Config<D>, ops: seq<Op<D>>, s: Shared<D>, m: map<Key, set<D>>, i: nat, j: nat)
    requires Two(ops, i, j) && |s.phases| == 2
  {
    var k := ops[i].key;
    var a, b := Effect(ops[i], At(m, k)), Effect(ops[j], At(m, k));
    k in s.cache ==>
      && (s.phases[i].Idle? && s.phases[j].Idle? ==> s.cache[k] == At(m, k))
      && (OneOf(s.cache[k], a, b) || s.cache[k] == At(m, k))
      && (!s.phases[i].Idle? ==> Fits(cfg, a))
      && (!s.phases[j].Idle? ==> Fits(cfg, b))
  }

  lemma MemberInvStep<D(!new)>(cfg: Config<D>, ops: seq<Op<D>>, s: Shared<D>, c: nat, s': Shared<D>, m: map<Key, set<D>>, i: nat, j: nat)
    requires SameMember(ops, i, j)
    requires WithinPolicy(cfg.policy, s.cache, cfg.size) && |s.phases| == 2 && MemberInv(cfg, ops, s, m, i, j) && Section(cfg, ops, s, c, s')
    ensures MemberInv(cfg, ops, s', m, i, j)
  {
    var k := ops[i].key;
    SectionOnCache(cfg, ops, s, c, s');
    if s.phases[c].Idle? && k in s'.cache {
      HeldFitsAlone(cfg.policy, cfg.size, s'.cache, k);
      if c == i {
        ManyEffects(ops[i], ops[j], At(m, k), s.cache[k]);
      } else {
        ManyEffects(ops[j], ops[i], At(m, k), s.cache[k]);
      }
    }
  }

  lemma ManyEffects<D>(x: Op<D>, y: Op<D>, members: set<D>, cached: set<D>)
    requires (x.WriteItem? && y.DeleteItem?) || (x.DeleteItem? && y.WriteItem?)
    requires x.data == y.data && (OneOf(cached, Effect(x, members), Effect(y, members)) || cached == members)
    ensures Effect(x, cached) == Effect(x, members)
  {
  }

  lemma {:induction false} MemberInvRun<D(!new)>(
      cfg: Config<D>, ops: seq<Op<D>>, states: seq<Shared<D>>, callers: seq<nat>, m: map<Key, set<D>>, i: nat, j: nat, t: nat)
    requires SameMember(ops, i, j)
    requires SetInterleaving.Run(cfg, ops, states, callers) && t <= |callers|
    requires WithinPolicy(cfg.policy, states[0].cache, cfg.size) && |states[0].phases| == 2 && MemberInv(cfg, ops, states[0], m, i, j)
    ensures |states[t].phases| == 2 && MemberInv(cfg, ops, states[t], m, i, j)
    decreases t
  {
    if t > 0 {
      var n := t - 1;
      MemberInvRun(cfg, ops, states, callers, m, i, j, n);
      RunKeepsPolicy(cfg, ops, states, callers, n);
      assert Section(cfg, ops, states[n], callers[n], states[n + 1]);
      MemberInvStep(cfg, ops, states[n], callers[n], states[n + 1], m, i, j);
    }
  }

  lemma StartsMemberInv<D(!new)>(cfg: Config<D>, ops: seq<Op<D>>, s: Shared<D>, m: map<Key, set<D>>, i: nat, j: nat)
    requires SameMember(ops, i, j) && Started(cfg, ops, s, m)
    ensures MemberInv(cfg, ops, s, m, i, j)
  {
  }

  lemma BothKeys<D>(ops: seq<Op<D>>, i: nat, j: nat)
    requires Two(ops, i, j) && ops[i].key == ops[j].key
    ensures ops[0].key == ops[1].key == ops[i].key
  {
  }

  /** Only the set of the two calls can be stale. */
  lemma StaleIsOurs<D(!new)>(cfg: Config<D>, ops: seq<Op<D>>, states: seq<Shared<D>>, callers: seq<nat>, m: map<Key, set<D>>, k: Key)
    requires |ops| == 2 && ops[0].key == ops[1].key == k && EndsStale(cfg, ops, states, callers, m)
    ensures var s := states[|callers|]; k in s.cache && s.cache[k] != At(PlainRun(m, s.done).0, k)
    ensures Fits(cfg, states[|callers|].cache[k])
    ensures WithinPolicy(cfg.policy, states[0].cache, cfg.size) && RowsOf(cfg, states[0], m)
  {
    StartsElsewhere(cfg, ops, states[0], m, k);
    RunElsewhere(cfg, ops, states, callers, m, k, |callers|);
    HeldFitsAlone(cfg.policy, cfg.size, states[|callers|].cache, k);
  }

  lemma StaleReadNeedsRoom<D(!new)>(
      cfg: Config<D>, ops: seq<Op<D>>, states: seq<Shared<D>>, callers: seq<nat>, m: map<Key, set<D>>, i: nat, j: nat)
    requires Lossless(cfg.codec) && ReadAndChange(ops, i, j) && EndsStale(cfg, ops, states, callers, m)
    ensures Fits(cfg, At(m, ops[j].key)) && Effect(ops[j], At(m, ops[j].key)) != At(m, ops[j].key)
  {
    BothKeys(ops, i, j);
    StaleIsOurs(cfg, ops, states, callers, m, ops[j].key);
    StartsReadInv(cfg, ops, states[0], m, i, j);
    ReadRoom(cfg, ops, states, callers, m, i, j);
  }

  lemma ReadRoom<D(!new)>(
      cfg: Config<D>, ops: seq<Op<D>>, states: seq<Shared<D>>, callers: seq<nat>, m: map<Key, set<D>>, i: nat, j: nat)
    requires Lossless(cfg.codec) && ReadAndChange(ops, i, j) && SetInterleaving.Run(cfg, ops, states, callers)
    requires WithinPolicy(cfg.policy, states[0].cache, cfg.size) && RowsOf(cfg, states[0], m)
    requires |states[0].phases| == 2 && ReadInv(ops, states[0], m, i, j)
    requires var s, k := states[|callers|], ops[j].key;
             && |s.phases| == 2 && s.phases[j].Over? && k in s.cache && Fits(cfg, s.cache[k])
             && s.cache[k] != At(PlainRun(m, s.done).0, k)
    ensures Fits(cfg, At(m, ops[j].key)) && Effect(ops[j], At(m, ops[j].key)) != At(m, ops[j].key)
  {
    ReadInvRun(cfg, ops, states, callers, m, i, j, |callers|);
  }

  lemma StaleMemberNeedsRoom<D(!new)>(
      cfg: Config<D>, ops: seq<Op<D>>, states: seq<Shared<D>>, callers: seq<nat>, m: map<Key, set<D>>, i: nat, j: nat)
    requires SameMember(ops, i, j) && EndsStale(cfg, ops, states, callers, m)
    ensures Fits(cfg, At(m, ops[i].key) + {ops[i].data}) && Fits(cfg, At(m, ops[i].key) - {ops[i].data})
  {
    BothKeys(ops, i, j);
    StaleIsOurs(cfg, ops, states, callers, m, ops[i].key);
    StartsMemberInv(cfg, ops, states[0], m, i, j);
    MemberRoom(cfg, ops, states, callers, m, i, j);
  }

  lemma MemberRoom<D(!new)>(
      cfg: Config<D>, ops: seq<Op<D>>, states: seq<Shared<D>>, callers: seq<nat>, m: map<Key, set<D>>, i: nat, j: nat)
    requires SameMember(ops, i, j) && SetInterleaving.Run(cfg, ops, states, callers)
    requires WithinPolicy(cfg.policy, states[0].cache, cfg.size) && |states[0].phases| == 2 && MemberInv(cfg, ops, states[0], m, i, j)
    requires var s := states[|callers|];
             |s.phases| == 2 && s.phases[i].Over? && s.phases[j].Over? && ops[i].key in s.cache
    ensures Fits(cfg, At(m, ops[i].key) + {ops[i].data}) && Fits(cfg, At(m, ops[i].key) - {ops[i].data})
  {
    MemberInvRun(cfg, ops, states, callers, m, i, j, |callers|);
  }

  lemma StaleNeedsRoom<D(!new)>(cfg: Config<D>, x: Op<D>, y: Op<D>, states: seq<Shared<D>>, callers: seq<nat>, m: map<Key, set<D>>)
    requires Lossless(cfg.codec) && Clash(x, y) && EndsStale(cfg, [x, y], states, callers, m)
    ensures Room(cfg, x, y)
  {
    if x.ReadSet? || y.ReadSet? {
      var i := if x.ReadSet? then 0 else 1;
      StaleReadNeedsRoom(cfg, [x, y], states, callers, m, i, 1 - i);
    } else {
      var i := if x.WriteItem? then 0 else 1;
      StaleMemberNeedsRoom(cfg, [x, y], states, callers, m, i, 1 - i);
      var without := At(m, x.key) - {x.data};
      assert without + {x.data} == At(m, x.key) + {x.data};
    }
  }

  /** Two calls can leave a cached set that is not the stored one, for some rows and some interleaving, if
      and only if they clash and the cache has room for what that takes. */
  lemma StaleIffClash<D(!new)>(cfg: Config<D>, x: Op<D>, y: Op<D>)
    requires Lossless(cfg.codec) && Callable(cfg, x) && Callable(cfg, y)
    ensures CanEndStale(cfg, x, y) <==> Clash(x, y) && Room(cfg, x, y)
  {
    if Clash(x, y) {
      if Room(cfg, x, y) {
        ClashingEndsStale(cfg, x, y);
      }
      if CanEndStale(cfg, x, y) {
        var states, callers, m :| EndsStale(cfg, [x, y], states, callers, m);
        StaleNeedsRoom(cfg, x, y, states, callers, m);
      }
    } else {
      forall states, callers, m
        ensures !EndsStale(cfg, [x, y], states, callers, m)
      {
        OthersEndFresh(cfg, [x, y], states, callers, m);
      }
    }
  }
}
