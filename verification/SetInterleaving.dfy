/** `CachedDbSetAccess` under concurrent callers. As for the key-value store, the cache and the database
    are locked for one section of a call at a time, and the sections of different calls interleave. */
module SetInterleaving {
  import opened ByteOrder
  import opened Database
  import opened Cache
  import opened Codecs
  import opened SetAccess

  // The sections of a call

  /** Where a call is. A read looks the set up in the cache, on a miss collects the bucket, and then fills
      the cache; the other calls have a cache section and then a row section. */
  datatype Phase<D> =
    | Idle
    | Missed
    | Fetched(members: set<D>)
    | Part
    | Over(reply: Reply<D>)

  predicate Active<D>(p: Phase<D>) {
    p.Missed? || p.Fetched? || p.Part?
  }

  /** The calls are numbered; `done` lists the calls that are over, in the order of their last sections,
      and `replies` their answers. */
  datatype Shared<!D> = Shared(
    cache: map<Key, set<D>>, rows: Rows, phases: seq<Phase<D>>, done: seq<Op<D>>, replies: seq<Reply<D>>)

  /** The key has the store's key length; deleting a bucket without successor panics. */
  predicate Callable<D>(cfg: Config<D>, op: Op<D>) {
    |op.key| == cfg.keyLen && (op.DeleteBucket? ==> Successor(cfg.prefix + op.key).Some?)
  }

  function RowWrite<D>(cfg: Config<D>, op: Op<D>): WriteOp
    requires Callable(cfg, op) && !op.ReadSet?
  {
    match op
    case WriteItem(k, d) => Put(ItemPath(cfg, k, d), [])
    case DeleteItem(k, d) => Delete(ItemPath(cfg, k, d))
    case DeleteBucket(k) => DeleteRange(cfg.prefix + k, Successor(cfg.prefix + k).value)
  }

  ghost predicate CacheSection<D>(cfg: Config<D>, cache: map<Key, set<D>>, op: Op<D>, cache': map<Key, set<D>>) {
    match op
    case ReadSet(_) => cache' == cache
    case WriteItem(k, d) => Updated(cfg.policy, cfg.size, cache, k, Adding(d), cache')
    case DeleteItem(k, d) => Updated(cfg.policy, cfg.size, cache, k, Removing(d), cache')
    case DeleteBucket(k) => cache' == cache - {k}
  }

  ghost predicate ReadSection<D(!new)>(cfg: Config<D>, k: Key, s: Shared<D>, p: Phase<D>, s': Shared<D>, p': Phase<D>) {
    && s'.rows == s.rows
    && match p
       case Idle => s'.cache == s.cache && p' == if k in s.cache then Over(Members(s.cache[k])) else Missed
       case Missed =>
         && s'.cache == s.cache
         && exists found :: Collects(cfg.codec, s.rows, cfg.prefix + k, found)
                            && p' == if found.Some? then Fetched(found.value) else Over(Failed)
       case Fetched(members) =>
         Inserted(cfg.policy, cfg.size, s.cache, k, members, s'.cache) && p' == Over(Members(members))
       case _ => false
  }

  ghost predicate ChangeSection<D>(cfg: Config<D>, op: Op<D>, s: Shared<D>, p: Phase<D>, s': Shared<D>, p': Phase<D>)
    requires Callable(cfg, op) && !op.ReadSet?
  {
    match p
    case Idle => s'.rows == s.rows && CacheSection(cfg, s.cache, op, s'.cache) && p' == Part
    case Part => s'.cache == s.cache && s'.rows == Apply(s.rows, RowWrite(cfg, op)) && p' == Over(Done)
    case _ => false
  }

  /** Call `c` went on, and is listed if that was its last section. */
  ghost predicate OneCallOn<D>(ops: seq<Op<D>>, s: Shared<D>, c: nat, s': Shared<D>) {
    && |s.phases| == |s'.phases| == |ops| && c < |ops|
    && (forall d | 0 <= d < |ops| && d != c :: s'.phases[d] == s.phases[d])
    && s'.done == (if s'.phases[c].Over? then s.done + [ops[c]] else s.done)
    && s'.replies == (if s'.phases[c].Over? then s.replies + [s'.phases[c].reply] else s.replies)
  }

  ghost predicate Section<D(!new)>(cfg: Config<D>, ops: seq<Op<D>>, s: Shared<D>, c: nat, s': Shared<D>) {
    && OneCallOn(ops, s, c, s') && Callable(cfg, ops[c])
    && if ops[c].ReadSet? then ReadSection(cfg, ops[c].key, s, s.phases[c], s', s'.phases[c])
       else ChangeSection(cfg, ops[c], s, s.phases[c], s', s'.phases[c])
  }

  ghost predicate Run<D(!new)>(cfg: Config<D>, ops: seq<Op<D>>, states: seq<Shared<D>>, callers: seq<nat>) {
    && |states| == |callers| + 1
    && forall i | 0 <= i < |callers| :: Section(cfg, ops, states[i], callers[i], states[i + 1])
  }

  ghost predicate Started<D(!new)>(cfg: Config<D>, ops: seq<Op<D>>, s: Shared<D>, m: map<Key, set<D>>) {
    && |s.phases| == |ops| && (forall d | 0 <= d < |ops| :: s.phases[d] == Idle)
    && s.done == [] && s.replies == []
    && WithinPolicy(cfg.policy, s.cache, cfg.size) && Represents(cfg, s.rows, m)
    && forall k | k in s.cache :: s.cache[k] == At(m, k)
  }

  // Rows: every interleaving

  /** The one row section of a changing call is its last section and does what the plain store does. */
  lemma RowSectionRepresents<D(!new)>(cfg: Config<D>, rows: Rows, op: Op<D>, m: map<Key, set<D>>)
    requires Lossless(cfg.codec) && Callable(cfg, op) && !op.ReadSet? && Represents(cfg, rows, m)
    ensures Represents(cfg, Apply(rows, RowWrite(cfg, op)), PlainStep(m, op).0)
  {
    match op
    case WriteItem(k, d) => WriteRepresents(cfg, rows, m, k, d);
    case DeleteItem(k, d) => DeleteRepresents(cfg, rows, m, k, d);
    case DeleteBucket(k) => DeleteBucketRepresents(cfg, rows, m, k);
  }

  lemma DoneOneMore<D>(m: map<Key, set<D>>, done: seq<Op<D>>, op: Op<D>)
    ensures PlainRun(m, done + [op]).0 == PlainStep(PlainRun(m, done).0, op).0
    ensures PlainRun(m, done + [op]).1 == PlainRun(m, done).1 + [PlainStep(PlainRun(m, done).0, op).1]
  {
    assert (done + [op])[..|done|] == done;
  }

  ghost predicate RowsOf<D(!new)>(cfg: Config<D>, s: Shared<D>, m: map<Key, set<D>>) {
    Represents(cfg, s.rows, PlainRun(m, s.done).0)
  }

  /** In every interleaving the rows are those of the plain store after the calls that are over, in the
      order of their last sections. */
  lemma {:induction false} RowsFollowOrder<D(!new)>(
      cfg: Config<D>, ops: seq<Op<D>>, states: seq<Shared<D>>, callers: seq<nat>, m: map<Key, set<D>>, t: nat)
    requires Lossless(cfg.codec) && Run(cfg, ops, states, callers) && t <= |callers|
    requires RowsOf(cfg, states[0], m)
    ensures RowsOf(cfg, states[t], m)
    decreases t
  {
    if t > 0 {
      var n := t - 1;
      RowsFollowOrder(cfg, ops, states, callers, m, n);
      assert Section(cfg, ops, states[n], callers[n], states[n + 1]);
      RowsFollow(cfg, ops, states[n], callers[n], states[n + 1], m);
    }
  }

  lemma RowsFollow<D(!new)>(cfg: Config<D>, ops: seq<Op<D>>, s: Shared<D>, c: nat, s': Shared<D>, m: map<Key, set<D>>)
    requires Lossless(cfg.codec) && Section(cfg, ops, s, c, s') && RowsOf(cfg, s, m)
    ensures RowsOf(cfg, s', m)
  {
    SectionOnRows(cfg, ops, s, c, s', PlainRun(m, s.done).0);
    DoneOneMore(m, s.done, ops[c]);
  }

  /** The plain store takes a call's whole effect at its last section. */
  function Advanced<D>(m: map<Key, set<D>>, op: Op<D>, p': Phase<D>): map<Key, set<D>> {
    if p'.Over? then PlainStep(m, op).0 else m
  }

  lemma SectionOnRows<D(!new)>(cfg: Config<D>, ops: seq<Op<D>>, s: Shared<D>, c: nat, s': Shared<D>, m: map<Key, set<D>>)
    requires Lossless(cfg.codec) && Section(cfg, ops, s, c, s') && Represents(cfg, s.rows, m)
    ensures Represents(cfg, s'.rows, Advanced(m, ops[c], s'.phases[c]))
  {
    if !ops[c].ReadSet? {
      RowSectionRepresents(cfg, s.rows, ops[c], m);
    }
  }

  // Calls that disturb each other

  /** A read and a change of the same set, or adding and removing the same member. */
  predicate Clash<D(==)>(a: Op<D>, b: Op<D>) {
    && a.key == b.key
    && (|| a.ReadSet? != b.ReadSet?
        || (a.WriteItem? && b.DeleteItem? && a.data == b.data)
        || (a.DeleteItem? && b.WriteItem? && a.data == b.data))
  }

  /** No call that clashes with `c` is between its first and its last section. */
  ghost predicate Undisturbed<D>(ops: seq<Op<D>>, phases: seq<Phase<D>>, c: nat)
    requires |phases| == |ops| && c < |ops|
  {
    forall d | 0 <= d < |ops| && d != c && Active(phases[d]) :: !Clash(ops[c], ops[d])
  }

  ghost predicate UndisturbedRun<D(!new)>(cfg: Config<D>, ops: seq<Op<D>>, states: seq<Shared<D>>, callers: seq<nat>)
    requires Run(cfg, ops, states, callers)
  {
    forall i | 0 <= i < |callers| ::
      Section(cfg, ops, states[i], callers[i], states[i + 1]) && Undisturbed(ops, states[i].phases, callers[i])
  }

  // The invariant, against the plain store of the calls that are over

  /** A call equal to `op` has done its cache section and not its row section. */
  ghost predicate Pending<D>(ops: seq<Op<D>>, phases: seq<Phase<D>>, op: Op<D>)
    requires |phases| == |ops|
  {
    exists d :: 0 <= d < |ops| && phases[d].Part? && ops[d] == op
  }

  /** The set as it will be when the calls under way are over. */
  ghost predicate Expected<D>(ops: seq<Op<D>>, phases: seq<Phase<D>>, m: map<Key, set<D>>, k: Key, x: D)
    requires |phases| == |ops|
  {
    Pending(ops, phases, WriteItem(k, x)) || (x in At(m, k) && !Pending(ops, phases, DeleteItem(k, x)))
  }

  ghost predicate CallInv<D>(cache: map<Key, set<D>>, m: map<Key, set<D>>, op: Op<D>, p: Phase<D>) {
    match p
    case Missed => op.ReadSet?
    case Fetched(members) => op.ReadSet? && members == At(m, op.key)
    case Part => !op.ReadSet? && (op.DeleteBucket? ==> op.key !in cache)
    case _ => true
  }

  ghost predicate Compatible<D>(ops: seq<Op<D>>, phases: seq<Phase<D>>)
    requires |phases| == |ops|
  {
    forall d, e | 0 <= d < |ops| && 0 <= e < |ops| && d != e && Active(phases[d]) && Active(phases[e]) :: !Clash(ops[d], ops[e])
  }

  ghost predicate CachedAt<D(!new)>(ops: seq<Op<D>>, phases: seq<Phase<D>>, cache: map<Key, set<D>>, m: map<Key, set<D>>, k: Key)
    requires |phases| == |ops|
  {
    k in cache ==> forall x :: x in cache[k] <==> Expected(ops, phases, m, k, x)
  }

  ghost predicate Inv<D(!new)>(cfg: Config<D>, ops: seq<Op<D>>, s: Shared<D>, m: map<Key, set<D>>) {
    && |s.phases| == |ops|
    && WithinPolicy(cfg.policy, s.cache, cfg.size)
    && Represents(cfg, s.rows, m)
    && (forall k :: CachedAt(ops, s.phases, s.cache, m, k))
    && (forall d | 0 <= d < |ops| :: CallInv(s.cache, m, ops[d], s.phases[d]))
    && Compatible(ops, s.phases)
  }

  lemma CompatibleStays<D>(ops: seq<Op<D>>, s: Shared<D>, c: nat, s': Shared<D>)
    requires OneCallOn(ops, s, c, s') && Compatible(ops, s.phases) && Undisturbed(ops, s.phases, c)
    ensures Compatible(ops, s'.phases)
  {
    forall d, e | 0 <= d < |ops| && 0 <= e < |ops| && d != e && Active(s'.phases[d]) && Active(s'.phases[e])
      ensures !Clash(ops[d], ops[e])
    {
      if d == c {
        assert !Clash(ops[c], ops[e]);
      } else if e == c {
        assert !Clash(ops[c], ops[d]);
      }
    }
  }

  /** A section of `c` changes only whether a call like `c` is pending. */
  lemma PendingOthers<D>(ops: seq<Op<D>>, s: Shared<D>, c: nat, s': Shared<D>, op: Op<D>)
    requires OneCallOn(ops, s, c, s')
    requires op != ops[c] || s'.phases[c].Part? == s.phases[c].Part?
    ensures Pending(ops, s'.phases, op) == Pending(ops, s.phases, op)
  {
    assert forall d | 0 <= d < |ops| && ops[d] == op :: s'.phases[d].Part? == s.phases[d].Part?;
  }

  lemma NoClashPending<D>(ops: seq<Op<D>>, phases: seq<Phase<D>>, c: nat, op: Op<D>)
    requires |phases| == |ops| && c < |ops| && Undisturbed(ops, phases, c) && Clash(ops[c], op) && ops[c] != op
    ensures !Pending(ops, phases, op)
  {
  }

  /** A read sees the set of the plain store: no change of it is under way. */
  lemma ReadUndisturbed<D(!new)>(cfg: Config<D>, ops: seq<Op<D>>, s: Shared<D>, m: map<Key, set<D>>, c: nat)
    requires Inv(cfg, ops, s, m) && c < |ops| && ops[c].ReadSet? && Undisturbed(ops, s.phases, c)
    ensures ops[c].key in s.cache ==> s.cache[ops[c].key] == At(m, ops[c].key)
    ensures forall x :: Expected(ops, s.phases, m, ops[c].key, x) <==> x in At(m, ops[c].key)
  {
    var k := ops[c].key;
    forall x
      ensures Expected(ops, s.phases, m, k, x) <==> x in At(m, k)
    {
      NoClashPending(ops, s.phases, c, WriteItem(k, x));
      NoClashPending(ops, s.phases, c, DeleteItem(k, x));
    }
    assert CachedAt(ops, s.phases, s.cache, m, k);
  }

  lemma SameExpected<D(!new)>(ops: seq<Op<D>>, s: Shared<D>, c: nat, s': Shared<D>, m: map<Key, set<D>>, k: Key)
    requires OneCallOn(ops, s, c, s') && CachedAt(ops, s.phases, s.cache, m, k)
    requires ops[c].key != k || s'.phases[c].Part? == s.phases[c].Part?
    requires k in s'.cache ==> k in s.cache && s'.cache[k] == s.cache[k]
    ensures CachedAt(ops, s'.phases, s'.cache, m, k)
  {
    forall x
      ensures Expected(ops, s'.phases, m, k, x) == Expected(ops, s.phases, m, k, x)
    {
      PendingOthers(ops, s, c, s', WriteItem(k, x));
      PendingOthers(ops, s, c, s', DeleteItem(k, x));
    }
  }

  // A section of a read

  lemma ReadStep<D(!new)>(cfg: Config<D>, ops: seq<Op<D>>, s: Shared<D>, m: map<Key, set<D>>, c: nat, s': Shared<D>)
    requires Lossless(cfg.codec) && Inv(cfg, ops, s, m) && Section(cfg, ops, s, c, s') && Undisturbed(ops, s.phases, c)
    requires ops[c].ReadSet?
    ensures Inv(cfg, ops, s', m)
    ensures s'.phases[c].Over? ==> s'.phases[c].reply == Members(At(m, ops[c].key))
  {
    ReadUndisturbed(cfg, ops, s, m, c);
    ReadCall(cfg, ops, s, m, c, s');
    forall k
      ensures CachedAt(ops, s'.phases, s'.cache, m, k)
    {
      assert CachedAt(ops, s.phases, s.cache, m, k);
      ReadCached(cfg, ops, s, m, c, s', k);
    }
    forall d | 0 <= d < |ops|
      ensures CallInv(s'.cache, m, ops[d], s'.phases[d])
    {
      ReadOther(cfg, ops, s, m, c, s', d);
    }
    CompatibleStays(ops, s, c, s');
  }

  /** The read itself: what it fetches and answers is the plain store's set. */
  lemma ReadCall<D(!new)>(cfg: Config<D>, ops: seq<Op<D>>, s: Shared<D>, m: map<Key, set<D>>, c: nat, s': Shared<D>)
    requires Lossless(cfg.codec) && Inv(cfg, ops, s, m) && Section(cfg, ops, s, c, s') && ops[c].ReadSet?
    requires ops[c].key in s.cache ==> s.cache[ops[c].key] == At(m, ops[c].key)
    ensures CallInv(s'.cache, m, ops[c], s'.phases[c]) && !s'.phases[c].Part? && !s.phases[c].Part?
    ensures s'.phases[c].Over? ==> s'.phases[c].reply == Members(At(m, ops[c].key))
    ensures WithinPolicy(cfg.policy, s'.cache, cfg.size)
    ensures s'.cache == s.cache || (s.phases[c].Fetched? && SubMap(s'.cache, s.cache[ops[c].key := At(m, ops[c].key)]))
  {
    var k := ops[c].key;
    assert CallInv(s.cache, m, ops[c], s.phases[c]);
    if s.phases[c].Missed? {
      var found :| Collects(cfg.codec, s.rows, cfg.prefix + k, found)
                   && s'.phases[c] == if found.Some? then Fetched(found.value) else Over(Failed);
      BucketIteratorExact(cfg, s.rows, m, k, found);
    } else if s.phases[c].Fetched? {
      InsertedKeepsPolicy(cfg.policy, cfg.size, s.cache, k, s.phases[c].members, s'.cache);
    }
  }

  lemma ReadCached<D(!new)>(cfg: Config<D>, ops: seq<Op<D>>, s: Shared<D>, m: map<Key, set<D>>, c: nat, s': Shared<D>, k: Key)
    requires OneCallOn(ops, s, c, s') && CachedAt(ops, s.phases, s.cache, m, k) && !s'.phases[c].Part? && !s.phases[c].Part?
    requires forall x :: Expected(ops, s.phases, m, ops[c].key, x) <==> x in At(m, ops[c].key)
    requires s'.cache == s.cache || SubMap(s'.cache, s.cache[ops[c].key := At(m, ops[c].key)])
    ensures CachedAt(ops, s'.phases, s'.cache, m, k)
  {
    var t := s.(cache := s.cache[ops[c].key := At(m, ops[c].key)]);
    assert CachedAt(ops, t.phases, t.cache, m, k);
    if s'.cache == s.cache {
      SameExpected(ops, s, c, s', m, k);
    } else {
      SameExpected(ops, t, c, s', m, k);
    }
  }

  lemma ReadOther<D(!new)>(cfg: Config<D>, ops: seq<Op<D>>, s: Shared<D>, m: map<Key, set<D>>, c: nat, s': Shared<D>, d: nat)
    requires Inv(cfg, ops, s, m) && OneCallOn(ops, s, c, s') && ops[c].ReadSet? && Undisturbed(ops, s.phases, c)
    requires CallInv(s'.cache, m, ops[c], s'.phases[c])
    requires s'.cache == s.cache || SubMap(s'.cache, s.cache[ops[c].key := At(m, ops[c].key)])
    requires d < |ops|
    ensures CallInv(s'.cache, m, ops[d], s'.phases[d])
  {
    assert CallInv(s.cache, m, ops[d], s.phases[d]);
    if d != c && s.phases[d].Part? {
      assert !Clash(ops[c], ops[d]);
    }
  }

  // The cache section of a change

  lemma UpdateEffect<D>(cfg: Config<D>, before: map<Key, set<D>>, k: Key, op: set<D> -> set<D>, after: map<Key, set<D>>)
    requires WithinPolicy(cfg.policy, before, cfg.size) && Updated(cfg.policy, cfg.size, before, k, op, after)
    ensures WithinPolicy(cfg.policy, after, cfg.size)
    ensures forall j | j in after :: j in before && after[j] == if j == k then op(before[j]) else before[j]
  {
    UpdatedKeepsPolicy(cfg.policy, cfg.size, before, k, op, after);
  }

  lemma CacheSectionEffect<D>(cfg: Config<D>, before: map<Key, set<D>>, op: Op<D>, after: map<Key, set<D>>)
    requires WithinPolicy(cfg.policy, before, cfg.size) && CacheSection(cfg, before, op, after)
    ensures WithinPolicy(cfg.policy, after, cfg.size)
    ensures forall j | j in after :: j in before && (j != op.key ==> after[j] == before[j])
    ensures op.WriteItem? && op.key in after ==> after[op.key] == before[op.key] + {op.data}
    ensures op.DeleteItem? && op.key in after ==> after[op.key] == before[op.key] - {op.data}
    ensures op.DeleteBucket? ==> op.key !in after
  {
    match op
    case ReadSet(_) =>
    case WriteItem(k, d) => UpdateEffect(cfg, before, k, Adding(d), after);
    case DeleteItem(k, d) => UpdateEffect(cfg, before, k, Removing(d), after);
    case DeleteBucket(k) => RemovedKeepsPolicy(cfg.policy, cfg.size, before, after);
  }

  lemma NowPending<D>(ops: seq<Op<D>>, phases: seq<Phase<D>>, c: nat)
    requires |phases| == |ops| && c < |ops| && phases[c].Part?
    ensures Pending(ops, phases, ops[c])
  {
  }

  /** The cached set takes the change, and so does the set expected. */
  lemma CacheSectionCached<D(!new)>(cfg: Config<D>, ops: seq<Op<D>>, s: Shared<D>, m: map<Key, set<D>>, c: nat, s': Shared<D>, k: Key)
    requires OneCallOn(ops, s, c, s') && Undisturbed(ops, s.phases, c)
    requires WithinPolicy(cfg.policy, s.cache, cfg.size) && CachedAt(ops, s.phases, s.cache, m, k)
    requires !ops[c].ReadSet? && s'.phases[c].Part? && CacheSection(cfg, s.cache, ops[c], s'.cache)
    ensures CachedAt(ops, s'.phases, s'.cache, m, k)
  {
    CacheSectionEffect(cfg, s.cache, ops[c], s'.cache);
    if ops[c].key != k {
      SameExpected(ops, s, c, s', m, k);
    } else if k in s'.cache {
      forall x
        ensures x in s'.cache[k] <==> Expected(ops, s'.phases, m, k, x)
      {
        CacheSectionItem(cfg, ops, s, m, c, s', k, x);
      }
    }
  }

  lemma CacheSectionItem<D(!new)>(cfg: Config<D>, ops: seq<Op<D>>, s: Shared<D>, m: map<Key, set<D>>, c: nat, s': Shared<D>, k: Key, x: D)
    requires OneCallOn(ops, s, c, s') && Undisturbed(ops, s.phases, c) && s'.phases[c].Part?
    requires ops[c].key == k && k in s.cache && k in s'.cache && (x in s.cache[k] <==> Expected(ops, s.phases, m, k, x))
    requires ops[c].WriteItem? || ops[c].DeleteItem?
    requires s'.cache[k] == if ops[c].WriteItem? then s.cache[k] + {ops[c].data} else s.cache[k] - {ops[c].data}
    ensures x in s'.cache[k] <==> Expected(ops, s'.phases, m, k, x)
  {
    NowPending(ops, s'.phases, c);
    if ops[c] == WriteItem(k, x) {
    } else if ops[c] == DeleteItem(k, x) {
      PendingOthers(ops, s, c, s', WriteItem(k, x));
      NoClashPending(ops, s.phases, c, WriteItem(k, x));
    } else {
      PendingOthers(ops, s, c, s', WriteItem(k, x));
      PendingOthers(ops, s, c, s', DeleteItem(k, x));
    }
  }

  lemma CacheSectionStep<D(!new)>(cfg: Config<D>, ops: seq<Op<D>>, s: Shared<D>, m: map<Key, set<D>>, c: nat, s': Shared<D>)
    requires Inv(cfg, ops, s, m) && Section(cfg, ops, s, c, s') && Undisturbed(ops, s.phases, c)
    requires !ops[c].ReadSet? && s.phases[c].Idle?
    ensures Inv(cfg, ops, s', m)
  {
    CacheSectionEffect(cfg, s.cache, ops[c], s'.cache);
    forall k
      ensures CachedAt(ops, s'.phases, s'.cache, m, k)
    {
      assert CachedAt(ops, s.phases, s.cache, m, k);
      CacheSectionCached(cfg, ops, s, m, c, s', k);
    }
    forall d | 0 <= d < |ops|
      ensures CallInv(s'.cache, m, ops[d], s'.phases[d])
    {
      assert CallInv(s.cache, m, ops[d], s.phases[d]);
    }
    CompatibleStays(ops, s, c, s');
  }

  // The row section of a change

  /** What is expected stays so when the change reaches the plain store. */
  lemma RowSectionItem<D(!new)>(ops: seq<Op<D>>, s: Shared<D>, m: map<Key, set<D>>, c: nat, s': Shared<D>, k: Key, x: D)
    requires OneCallOn(ops, s, c, s') && Undisturbed(ops, s.phases, c) && s.phases[c].Part? && s'.phases[c].Over?
    requires ops[c].WriteItem? || ops[c].DeleteItem? || (ops[c].DeleteBucket? && ops[c].key != k)
    ensures Expected(ops, s'.phases, PlainStep(m, ops[c]).0, k, x) == Expected(ops, s.phases, m, k, x)
  {
    if ops[c] == WriteItem(k, x) {
      NowPending(ops, s.phases, c);
      PendingOthers(ops, s, c, s', DeleteItem(k, x));
      NoClashPending(ops, s.phases, c, DeleteItem(k, x));
    } else if ops[c] == DeleteItem(k, x) {
      NowPending(ops, s.phases, c);
      PendingOthers(ops, s, c, s', WriteItem(k, x));
      NoClashPending(ops, s.phases, c, WriteItem(k, x));
    } else {
      PendingOthers(ops, s, c, s', WriteItem(k, x));
      PendingOthers(ops, s, c, s', DeleteItem(k, x));
    }
  }

  lemma RowSectionCached<D(!new)>(ops: seq<Op<D>>, s: Shared<D>, m: map<Key, set<D>>, c: nat, s': Shared<D>, k: Key)
    requires OneCallOn(ops, s, c, s') && Undisturbed(ops, s.phases, c) && s.phases[c].Part? && s'.phases[c].Over?
    requires CachedAt(ops, s.phases, s.cache, m, k) && CallInv(s.cache, m, ops[c], s.phases[c]) && s'.cache == s.cache
    ensures CachedAt(ops, s'.phases, s'.cache, PlainStep(m, ops[c]).0, k)
  {
    if k in s.cache {
      forall x
        ensures x in s'.cache[k] <==> Expected(ops, s'.phases, PlainStep(m, ops[c]).0, k, x)
      {
        RowSectionItem(ops, s, m, c, s', k, x);
      }
    }
  }

  lemma RowSectionOther<D(!new)>(ops: seq<Op<D>>, s: Shared<D>, m: map<Key, set<D>>, c: nat, s': Shared<D>, d: nat)
    requires OneCallOn(ops, s, c, s') && Undisturbed(ops, s.phases, c) && s.phases[c].Part? && s'.phases[c].Over?
    requires !ops[c].ReadSet? && s'.cache == s.cache && d < |ops| && CallInv(s.cache, m, ops[d], s.phases[d])
    ensures CallInv(s'.cache, PlainStep(m, ops[c]).0, ops[d], s'.phases[d])
  {
    if d != c && s.phases[d].Fetched? {
      assert !Clash(ops[c], ops[d]);
    }
  }

  lemma RowSectionStep<D(!new)>(cfg: Config<D>, ops: seq<Op<D>>, s: Shared<D>, m: map<Key, set<D>>, c: nat, s': Shared<D>)
    requires Lossless(cfg.codec) && Inv(cfg, ops, s, m) && Section(cfg, ops, s, c, s') && Undisturbed(ops, s.phases, c)
    requires !ops[c].ReadSet? && s.phases[c].Part?
    ensures Inv(cfg, ops, s', PlainStep(m, ops[c]).0) && s'.phases[c] == Over(Done)
  {
    RowSectionRepresents(cfg, s.rows, ops[c], m);
    assert CallInv(s.cache, m, ops[c], s.phases[c]);
    forall k
      ensures CachedAt(ops, s'.phases, s'.cache, PlainStep(m, ops[c]).0, k)
    {
      assert CachedAt(ops, s.phases, s.cache, m, k);
      RowSectionCached(ops, s, m, c, s', k);
    }
    forall d | 0 <= d < |ops|
      ensures CallInv(s'.cache, PlainStep(m, ops[c]).0, ops[d], s'.phases[d])
    {
      assert CallInv(s.cache, m, ops[d], s.phases[d]);
      RowSectionOther(ops, s, m, c, s', d);
    }
    CompatibleStays(ops, s, c, s');
  }

  // Whole runs

  lemma SectionStep<D(!new)>(cfg: Config<D>, ops: seq<Op<D>>, s: Shared<D>, m: map<Key, set<D>>, c: nat, s': Shared<D>)
    requires Lossless(cfg.codec) && Inv(cfg, ops, s, m) && Section(cfg, ops, s, c, s') && Undisturbed(ops, s.phases, c)
    ensures Inv(cfg, ops, s', Advanced(m, ops[c], s'.phases[c]))
    ensures s'.phases[c].Over? ==> s'.phases[c].reply == PlainStep(m, ops[c]).1
  {
    if ops[c].ReadSet? {
      ReadStep(cfg, ops, s, m, c, s');
    } else if s.phases[c].Idle? {
      CacheSectionStep(cfg, ops, s, m, c, s');
    } else {
      RowSectionStep(cfg, ops, s, m, c, s');
    }
  }

  lemma StartInv<D(!new)>(cfg: Config<D>, ops: seq<Op<D>>, s: Shared<D>, m: map<Key, set<D>>)
    requires Started(cfg, ops, s, m)
    ensures Inv(cfg, ops, s, m)
  {
    forall k
      ensures CachedAt(ops, s.phases, s.cache, m, k)
    {
    }
  }

  lemma {:induction false} RunKeepsInv<D(!new)>(
      cfg: Config<D>, ops: seq<Op<D>>, states: seq<Shared<D>>, callers: seq<nat>, m: map<Key, set<D>>, t: nat)
    requires Lossless(cfg.codec) && Run(cfg, ops, states, callers) && UndisturbedRun(cfg, ops, states, callers)
    requires Started(cfg, ops, states[0], m) && t <= |callers|
    ensures Inv(cfg, ops, states[t], PlainRun(m, states[t].done).0) && states[t].replies == PlainRun(m, states[t].done).1
    decreases t
  {
    if t == 0 {
      StartInv(cfg, ops, states[0], m);
    } else {
      RunKeepsInv(cfg, ops, states, callers, m, t - 1);
      var s, c := states[t - 1], callers[t - 1];
      assert Section(cfg, ops, s, c, states[t]) && Undisturbed(ops, s.phases, c);
      SectionStep(cfg, ops, s, PlainRun(m, s.done).0, c, states[t]);
      DoneOneMore(m, s.done, ops[c]);
    }
  }

  lemma AtRest<D(!new)>(cfg: Config<D>, ops: seq<Op<D>>, s: Shared<D>, m: map<Key, set<D>>, k: Key)
    requires Inv(cfg, ops, s, m) && (forall d | 0 <= d < |ops| :: !Active(s.phases[d])) && k in s.cache
    ensures s.cache[k] == At(m, k)
  {
    assert CachedAt(ops, s.phases, s.cache, m, k);
    forall x
      ensures Expected(ops, s.phases, m, k, x) <==> x in At(m, k)
    {
    }
  }

  /** For any number of concurrent calls and every interleaving of their sections in which no section of a
      call falls between the first and the last section of one that clashes with it: all answers are the
      plain store's in the order of last sections; and whenever no call is under way, every cached set is
      the plain store's. So additions interleave freely with additions, and deletions with deletions. */
  lemma InterleavedRunRefines<D(!new)>(
      cfg: Config<D>, ops: seq<Op<D>>, states: seq<Shared<D>>, callers: seq<nat>, m: map<Key, set<D>>)
    requires Lossless(cfg.codec) && Run(cfg, ops, states, callers) && UndisturbedRun(cfg, ops, states, callers)
    requires Started(cfg, ops, states[0], m)
    ensures var s := states[|callers|];
            && s.replies == PlainRun(m, s.done).1 && Represents(cfg, s.rows, PlainRun(m, s.done).0)
            && |s.phases| == |ops|
            && ((forall d | 0 <= d < |ops| :: !Active(s.phases[d])) ==>
                  forall k | k in s.cache :: s.cache[k] == At(PlainRun(m, s.done).0, k))
  {
    RunKeepsInv(cfg, ops, states, callers, m, |callers|);
    var s := states[|callers|];
    if forall d | 0 <= d < |ops| :: !Active(s.phases[d]) {
      forall k | k in s.cache
        ensures s.cache[k] == At(PlainRun(m, s.done).0, k)
      {
        AtRest(cfg, ops, s, PlainRun(m, s.done).0, k);
      }
    }
  }
}
