/** `DbSetAccess` and `CachedDbSetAccess`: sets of data stored one row per member, under the store
    prefix followed by a key of fixed length. */
module SetAccess {
  import opened Options
  import opened ByteOrder
  import opened DbKeys
  import opened Database
  import opened Cache
  import opened Codecs

  type Key = Bytes

  datatype Config<!D> = Config(prefix: Bytes, keyLen: nat, policy: PolicyInner, size: set<D> -> nat, codec: Codec<D>)

  // The reference: a map from keys to sets, where a missing key stands for the empty set

  datatype Op<D> =
    | ReadSet(key: Key)
    | WriteItem(key: Key, data: D)
    | DeleteItem(key: Key, data: D)
    | DeleteBucket(key: Key)

  datatype Reply<D> = Done | Members(members: set<D>) | Failed

  function At<D>(m: map<Key, set<D>>, k: Key): set<D> {
    if k in m then m[k] else {}
  }

  function PlainStep<D>(m: map<Key, set<D>>, op: Op<D>): (map<Key, set<D>>, Reply<D>) {
    match op
    case ReadSet(k) => (m, Members(At(m, k)))
    case WriteItem(k, d) => (m[k := At(m, k) + {d}], Done)
    case DeleteItem(k, d) => (m[k := At(m, k) - {d}], Done)
    case DeleteBucket(k) => (m[k := {}], Done)
  }

  /** Which members a read answers with after each operation. */
  lemma MembersAfter<D>(m: map<Key, set<D>>, op: Op<D>, k: Key, x: D)
    ensures !op.ReadSet? ==> PlainStep(m, op).1 == Done
    ensures var reply := PlainStep(PlainStep(m, op).0, ReadSet(k)).1;
            && reply.Members?
            && (x in reply.members <==>
                match op
                case ReadSet(_) => k in m && x in m[k]
                case WriteItem(j, d) => (j == k && d == x) || (k in m && x in m[k])
                case DeleteItem(j, d) => !(j == k && d == x) && k in m && x in m[k]
                case DeleteBucket(j) => j != k && k in m && x in m[k])
  {
  }

  function PlainRun<D>(m: map<Key, set<D>>, ops: seq<Op<D>>): (map<Key, set<D>>, seq<Reply<D>>) {
    if ops == [] then (m, [])
    else
      var n := |ops| - 1;
      var (mid, replies) := PlainRun(m, ops[..n]);
      var (last, reply) := PlainStep(mid, ops[n]);
      (last, replies + [reply])
  }

  // Rows

  function ItemPath<D>(cfg: Config<D>, k: Key, d: D): Bytes {
    BucketPath(cfg.prefix, k, cfg.codec.ser(d))
  }

  ghost predicate Holds<D>(cfg: Config<D>, m: map<Key, set<D>>, r: Bytes, k: Key, d: D) {
    |k| == cfg.keyLen && d in At(m, k) && r == ItemPath(cfg, k, d)
  }

  /** The rows under the prefix are exactly the encodings of the members of the sets. */
  ghost predicate Represents<D(!new)>(cfg: Config<D>, rows: Rows, m: map<Key, set<D>>) {
    forall r: Bytes | cfg.prefix <= r :: r in rows <==> exists k, d :: Holds(cfg, m, r, k, d)
  }

  /** The bounds given to the iterator: there is no upper bound when the bucket has no successor. */
  predicate Iterated(bucket: Bytes, r: Bytes) {
    !Less(r, bucket) && (Successor(bucket).Some? ==> Less(r, Successor(bucket).value))
  }

  lemma IteratedIsPrefix(bucket: Bytes, r: Bytes)
    ensures Iterated(bucket, r) <==> bucket <= r
  {
    if Successor(bucket).Some? {
      RangeIsPrefix(bucket, r);
    } else {
      NotBelowAllMax(bucket, r);
    }
  }

  ghost predicate Decodes<D>(c: Codec<D>, bucket: Bytes, r: Bytes) {
    |bucket| <= |r| && c.de(r[|bucket|..]).Some?
  }

  /** What a pass over the bucket collects: a set, or nothing when some row does not decode. */
  ghost predicate Collects<D(!new)>(c: Codec<D>, rows: Rows, bucket: Bytes, found: Option<set<D>>) {
    match found
    case Some(s) =>
      && (forall r | r in rows && Iterated(bucket, r) :: Decodes(c, bucket, r) && c.de(r[|bucket|..]).value in s)
      && (forall d | d in s :: exists r | r in rows && Iterated(bucket, r) :: Decodes(c, bucket, r) && c.de(r[|bucket|..]) == Some(d))
    case None => exists r | r in rows && Iterated(bucket, r) :: !Decodes(c, bucket, r)
  }

  lemma PathInBucket<D>(cfg: Config<D>, k: Key, d: D)
    ensures cfg.prefix <= ItemPath(cfg, k, d)
    ensures cfg.prefix + k <= ItemPath(cfg, k, d)
    ensures ItemPath(cfg, k, d)[|cfg.prefix + k|..] == cfg.codec.ser(d)
  {
  }

  lemma HoldsInBucket<D>(cfg: Config<D>, m: map<Key, set<D>>, r: Bytes, k: Key, j: Key, d: D)
    requires Holds(cfg, m, r, j, d) && |k| == cfg.keyLen
    ensures cfg.prefix + k <= r <==> j == k
  {
    PathInBucket(cfg, j, d);
    if cfg.prefix + k <= r {
      var n := |cfg.prefix|;
      assert k == r[n..n + |k|] == j;
    }
  }

  /** (key, data) to row is injective. */
  lemma ItemPathInjective<D(!new)>(cfg: Config<D>, k1: Key, d1: D, k2: Key, d2: D)
    requires Lossless(cfg.codec)
    requires |k1| == |k2| == cfg.keyLen
    ensures ItemPath(cfg, k1, d1) == ItemPath(cfg, k2, d2) <==> k1 == k2 && d1 == d2
  {
    if ItemPath(cfg, k1, d1) == ItemPath(cfg, k2, d2) {
      BucketPathInjective(cfg.prefix, k1, cfg.codec.ser(d1), k2, cfg.codec.ser(d2));
      assert Some(d1) == cfg.codec.de(cfg.codec.ser(d1)) == Some(d2);
    }
  }

  /** A pass over a bucket of represented rows never fails and collects exactly the key's set. */
  lemma BucketIteratorExact<D(!new)>(cfg: Config<D>, rows: Rows, m: map<Key, set<D>>, k: Key, found: Option<set<D>>)
    requires Lossless(cfg.codec)
    requires Represents(cfg, rows, m) && |k| == cfg.keyLen
    requires Collects(cfg.codec, rows, cfg.prefix + k, found)
    ensures found == Some(At(m, k))
  {
    var bucket := cfg.prefix + k;
    forall r | r in rows && Iterated(bucket, r)
      ensures Decodes(cfg.codec, bucket, r) && cfg.codec.de(r[|bucket|..]).value in At(m, k)
    {
      RowOfBucket(cfg, rows, m, k, r);
    }
    if found.Some? {
      forall d | d in At(m, k)
        ensures d in found.value
      {
        var r := ItemPath(cfg, k, d);
        PathInBucket(cfg, k, d);
        assert Holds(cfg, m, r, k, d);
        IteratedIsPrefix(bucket, r);
      }
      forall d | d in found.value
        ensures d in At(m, k)
      {
        var r :| r in rows && Iterated(bucket, r) && Decodes(cfg.codec, bucket, r) && cfg.codec.de(r[|bucket|..]) == Some(d);
      }
      assert found.value == At(m, k);
    }
  }

  lemma RowOfBucket<D(!new)>(cfg: Config<D>, rows: Rows, m: map<Key, set<D>>, k: Key, r: Bytes)
    requires Lossless(cfg.codec)
    requires Represents(cfg, rows, m) && |k| == cfg.keyLen
    requires r in rows && Iterated(cfg.prefix + k, r)
    ensures Decodes(cfg.codec, cfg.prefix + k, r) && cfg.codec.de(r[|cfg.prefix + k|..]).value in At(m, k)
  {
    IteratedIsPrefix(cfg.prefix + k, r);
    assert cfg.prefix <= r;
    var j, d :| Holds(cfg, m, r, j, d);
    HoldsInBucket(cfg, m, r, k, j, d);
    PathInBucket(cfg, k, d);
  }

  // The cached store

  /** The cache, the rows that reads see, and the rows once everything staged is committed; with a
      direct writer the two are the same. */
  datatype State<!D> = State(cache: map<Key, set<D>>, rows: Rows, pending: Rows)

  ghost predicate Emitted<D>(direct: bool, s: State<D>, op: WriteOp, s': State<D>) {
    s'.pending == Apply(s.pending, op) && s'.rows == if direct then s'.pending else s.rows
  }

  function Adding<D>(d: D): set<D> -> set<D> {
    s => s + {d}
  }

  function Removing<D>(d: D): set<D> -> set<D> {
    s => s - {d}
  }

  /** A read that misses: collect the bucket and cache what was found. */
  ghost predicate Fills<D(!new)>(cfg: Config<D>, s: State<D>, k: Key, found: Option<set<D>>, cache': map<Key, set<D>>, reply: Reply<D>) {
    && Collects(cfg.codec, s.rows, cfg.prefix + k, found)
    && match found
       case Some(members) => Inserted(cfg.policy, cfg.size, s.cache, k, members, cache') && reply == Members(members)
       case None => cache' == s.cache && reply == Failed
  }

  ghost predicate Step<D(!new)>(cfg: Config<D>, direct: bool, s: State<D>, op: Op<D>, s': State<D>, reply: Reply<D>) {
    && |op.key| == cfg.keyLen
    && match op
       case ReadSet(k) =>
         && s'.rows == s.rows && s'.pending == s.pending
         && if k in s.cache then s'.cache == s.cache && reply == Members(s.cache[k])
            else exists found :: Fills(cfg, s, k, found, s'.cache, reply)
       case WriteItem(k, d) =>
         && Updated(cfg.policy, cfg.size, s.cache, k, Adding(d), s'.cache)
         && Emitted(direct, s, Put(ItemPath(cfg, k, d), []), s')
         && reply == Done
       case DeleteItem(k, d) =>
         && Updated(cfg.policy, cfg.size, s.cache, k, Removing(d), s'.cache)
         && Emitted(direct, s, Delete(ItemPath(cfg, k, d)), s')
         && reply == Done
       case DeleteBucket(k) =>
         && Successor(cfg.prefix + k).Some?
         && s'.cache == s.cache - {k}
         && Emitted(direct, s, DeleteRange(cfg.prefix + k, Successor(cfg.prefix + k).value), s')
         && reply == Done
  }

  /** Cached sets, and the pending rows, are those of the map. */
  ghost predicate Inv<D(!new)>(cfg: Config<D>, direct: bool, s: State<D>, m: map<Key, set<D>>) {
    && (direct ==> s.rows == s.pending)
    && WithinPolicy(cfg.policy, s.cache, cfg.size)
    && (forall k | k in s.cache :: |k| == cfg.keyLen && s.cache[k] == At(m, k))
    && Represents(cfg, s.pending, m)
  }

  /** A read that misses the cache finds in the database the rows the pending database holds. With
      nothing staged this is always so. */
  ghost predicate MissIsCurrent<D>(cfg: Config<D>, s: State<D>, op: Op<D>) {
    op.ReadSet? && op.key !in s.cache ==> SameBucket(s.rows, s.pending, cfg.prefix + op.key)
  }

  ghost predicate SameBucket(a: Rows, b: Rows, bucket: Bytes) {
    forall r: Bytes | bucket <= r :: r in a <==> r in b
  }

  lemma WriteRepresents<D(!new)>(cfg: Config<D>, rows: Rows, m: map<Key, set<D>>, k: Key, d: D)
    requires Lossless(cfg.codec) && |k| == cfg.keyLen && Represents(cfg, rows, m)
    ensures Represents(cfg, rows[ItemPath(cfg, k, d) := []], m[k := At(m, k) + {d}])
  {
    var p, m' := ItemPath(cfg, k, d), m[k := At(m, k) + {d}];
    var rows' := rows[p := []];
    forall r: Bytes | cfg.prefix <= r
      ensures r in rows' <==> exists j, e :: Holds(cfg, m', r, j, e)
    {
      if r == p {
        assert Holds(cfg, m', r, k, d);
      } else if r in rows {
        var j, e :| Holds(cfg, m, r, j, e);
        assert Holds(cfg, m', r, j, e);
      } else {
        forall j, e | Holds(cfg, m', r, j, e)
          ensures false
        {
          assert Holds(cfg, m, r, j, e);
        }
      }
    }
  }

  lemma DeleteRepresents<D(!new)>(cfg: Config<D>, rows: Rows, m: map<Key, set<D>>, k: Key, d: D)
    requires Lossless(cfg.codec) && |k| == cfg.keyLen && Represents(cfg, rows, m)
    ensures Represents(cfg, rows - {ItemPath(cfg, k, d)}, m[k := At(m, k) - {d}])
  {
    var p, m' := ItemPath(cfg, k, d), m[k := At(m, k) - {d}];
    var rows' := rows - {p};
    forall r: Bytes | cfg.prefix <= r
      ensures r in rows' <==> exists j, e :: Holds(cfg, m', r, j, e)
    {
      if r in rows' {
        var j, e :| Holds(cfg, m, r, j, e);
        assert Holds(cfg, m', r, j, e);
      } else {
        forall j, e | Holds(cfg, m', r, j, e)
          ensures false
        {
          assert Holds(cfg, m, r, j, e);
          ItemPathInjective(cfg, j, e, k, d);
        }
      }
    }
  }

  lemma DeleteBucketRepresents<D(!new)>(cfg: Config<D>, rows: Rows, m: map<Key, set<D>>, k: Key)
    requires |k| == cfg.keyLen && Represents(cfg, rows, m) && Successor(cfg.prefix + k).Some?
    ensures Represents(cfg, Apply(rows, DeleteRange(cfg.prefix + k, Successor(cfg.prefix + k).value)), m[k := {}])
  {
    var m' := m[k := {}];
    var rows' := Apply(rows, DeleteRange(cfg.prefix + k, Successor(cfg.prefix + k).value));
    DeletePrefixRange(rows, cfg.prefix + k);
    forall r: Bytes | cfg.prefix <= r
      ensures r in rows' <==> exists j, e :: Holds(cfg, m', r, j, e)
    {
      if r in rows' {
        var j, e :| Holds(cfg, m, r, j, e);
        HoldsInBucket(cfg, m, r, k, j, e);
        assert Holds(cfg, m', r, j, e);
      } else {
        forall j, e | Holds(cfg, m', r, j, e)
          ensures false
        {
          assert Holds(cfg, m, r, j, e);
          HoldsInBucket(cfg, m, r, k, j, e);
        }
      }
    }
  }

  lemma CollectsSame<D(!new)>(c: Codec<D>, a: Rows, b: Rows, bucket: Bytes, found: Option<set<D>>)
    requires SameBucket(a, b, bucket) && Collects(c, a, bucket, found)
    ensures Collects(c, b, bucket, found)
  {
    forall r: Bytes
      ensures r in a && Iterated(bucket, r) <==> r in b && Iterated(bucket, r)
    {
      IteratedIsPrefix(bucket, r);
    }
    if found.Some? {
      forall d | d in found.value
        ensures exists r | r in b && Iterated(bucket, r) :: Decodes(c, bucket, r) && c.de(r[|bucket|..]) == Some(d)
      {
        var r :| r in a && Iterated(bucket, r) && Decodes(c, bucket, r) && c.de(r[|bucket|..]) == Some(d);
        assert r in b && Iterated(bucket, r);
      }
    } else {
      var r :| r in a && Iterated(bucket, r) && !Decodes(c, bucket, r);
      assert r in b && Iterated(bucket, r);
    }
  }

  lemma ReadRefines<D(!new)>(cfg: Config<D>, direct: bool, s: State<D>, k: Key, s': State<D>, reply: Reply<D>, m: map<Key, set<D>>)
    requires Lossless(cfg.codec)
    requires Inv(cfg, direct, s, m) && Step(cfg, direct, s, ReadSet(k), s', reply)
    requires MissIsCurrent(cfg, s, ReadSet(k))
    ensures Inv(cfg, direct, s', m)
    ensures reply == Members(At(m, k))
  {
    if k !in s.cache {
      var found :| Fills(cfg, s, k, found, s'.cache, reply);
      CollectsSame(cfg.codec, s.rows, s.pending, cfg.prefix + k, found);
      BucketIteratorExact(cfg, s.pending, m, k, found);
      InsertedKeepsPolicy(cfg.policy, cfg.size, s.cache, k, At(m, k), s'.cache);
    }
  }

  /** A miss while the bucket has staged rows: if the rows that reads see hold the sets of `seen`, the
      fill keeps the cache equal to the map if and only if `seen` and the map agree on that key. */
  lemma MissWhileStaged<D(!new)>(cfg: Config<D>, s: State<D>, k: Key, s': State<D>, reply: Reply<D>, m: map<Key, set<D>>, seen: map<Key, set<D>>)
    requires Lossless(cfg.codec)
    requires Inv(cfg, false, s, m) && Represents(cfg, s.rows, seen) && Step(cfg, false, s, ReadSet(k), s', reply)
    requires k !in s.cache && k in s'.cache
    ensures reply == Members(At(seen, k))
    ensures Inv(cfg, false, s', m) <==> At(seen, k) == At(m, k)
  {
    var found :| Fills(cfg, s, k, found, s'.cache, reply);
    BucketIteratorExact(cfg, s.rows, seen, k, found);
    InsertedKeepsPolicy(cfg.policy, cfg.size, s.cache, k, At(seen, k), s'.cache);
  }

  /** An in-place edit of the cached set, if there is one, keeps the cache equal to the edited map. */
  lemma UpdateTracks<D>(cfg: Config<D>, cache: map<Key, set<D>>, k: Key, edit: set<D> -> set<D>, cache': map<Key, set<D>>, m: map<Key, set<D>>)
    requires WithinPolicy(cfg.policy, cache, cfg.size)
    requires forall j | j in cache :: |j| == cfg.keyLen && cache[j] == At(m, j)
    requires Updated(cfg.policy, cfg.size, cache, k, edit, cache')
    ensures WithinPolicy(cfg.policy, cache', cfg.size)
    ensures forall j | j in cache' :: |j| == cfg.keyLen && cache'[j] == At(m[k := edit(At(m, k))], j)
  {
    UpdatedKeepsPolicy(cfg.policy, cfg.size, cache, k, edit, cache');
  }

  lemma StepRefines<D(!new)>(cfg: Config<D>, direct: bool, s: State<D>, op: Op<D>, s': State<D>, reply: Reply<D>, m: map<Key, set<D>>)
    requires Lossless(cfg.codec)
    requires Inv(cfg, direct, s, m) && Step(cfg, direct, s, op, s', reply)
    requires MissIsCurrent(cfg, s, op)
    ensures Inv(cfg, direct, s', PlainStep(m, op).0)
    ensures reply == PlainStep(m, op).1
  {
    match op
    case ReadSet(k) => ReadRefines(cfg, direct, s, k, s', reply, m);
    case WriteItem(k, d) =>
      UpdateTracks(cfg, s.cache, k, Adding(d), s'.cache, m);
      WriteRepresents(cfg, s.pending, m, k, d);
    case DeleteItem(k, d) =>
      UpdateTracks(cfg, s.cache, k, Removing(d), s'.cache, m);
      DeleteRepresents(cfg, s.pending, m, k, d);
    case DeleteBucket(k) =>
      RemovedKeepsPolicy(cfg.policy, cfg.size, s.cache, s'.cache);
      DeleteBucketRepresents(cfg, s.pending, m, k);
  }

  ghost predicate Run<D(!new)>(cfg: Config<D>, direct: bool, states: seq<State<D>>, ops: seq<Op<D>>, replies: seq<Reply<D>>) {
    && |states| == |ops| + 1 && |replies| == |ops|
    && forall i | 0 <= i < |ops| :: Step(cfg, direct, states[i], ops[i], states[i + 1], replies[i])
  }

  ghost predicate MissesAreCurrent<D>(cfg: Config<D>, states: seq<State<D>>, ops: seq<Op<D>>)
    requires |states| == |ops| + 1
  {
    forall i | 0 <= i < |ops| :: MissIsCurrent(cfg, states[i], ops[i])
  }

  /** Every run, direct or batched, whose misses find current rows answers as the map of sets does and
      has, at every point, the cache and the pending rows both equal to it. */
  lemma {:induction false} RunRefines<D(!new)>(cfg: Config<D>, direct: bool, states: seq<State<D>>, ops: seq<Op<D>>, replies: seq<Reply<D>>, m: map<Key, set<D>>, t: nat)
    requires Lossless(cfg.codec)
    requires Run(cfg, direct, states, ops, replies) && Inv(cfg, direct, states[0], m)
    requires MissesAreCurrent(cfg, states, ops) && t <= |ops|
    ensures Inv(cfg, direct, states[t], PlainRun(m, ops[..t]).0)
    ensures replies[..t] == PlainRun(m, ops[..t]).1
    decreases t
  {
    if t > 0 {
      RunRefines(cfg, direct, states, ops, replies, m, t - 1);
      assert MissIsCurrent(cfg, states[t - 1], ops[t - 1]);
      var before := PlainRun(m, ops[..t - 1]).0;
      var after := PlainStep(before, ops[t - 1]).0;
      StepRefines(cfg, direct, states[t - 1], ops[t - 1], states[t], replies[t - 1], before);
      PlainRunNext(m, ops, replies, t, before, after);
    }
  }

  /** With direct writers no hypothesis on misses is needed. */
  lemma DirectRunRefines<D(!new)>(cfg: Config<D>, states: seq<State<D>>, ops: seq<Op<D>>, replies: seq<Reply<D>>, m: map<Key, set<D>>)
    requires Lossless(cfg.codec)
    requires Run(cfg, true, states, ops, replies) && Inv(cfg, true, states[0], m)
    ensures Inv(cfg, true, states[|ops|], PlainRun(m, ops).0)
    ensures replies == PlainRun(m, ops).1
  {
    forall i | 0 <= i < |ops|
      ensures MissIsCurrent(cfg, states[i], ops[i])
    {
      NothingStaged(cfg, states, ops, replies, i);
    }
    RunRefines(cfg, true, states, ops, replies, m, |ops|);
    assert ops[..|ops|] == ops && replies[..|ops|] == replies;
  }

  lemma {:induction false} NothingStaged<D(!new)>(cfg: Config<D>, states: seq<State<D>>, ops: seq<Op<D>>, replies: seq<Reply<D>>, i: nat)
    requires Run(cfg, true, states, ops, replies) && states[0].rows == states[0].pending && i <= |ops|
    ensures states[i].rows == states[i].pending
    decreases i
  {
    if i > 0 {
      NothingStaged(cfg, states, ops, replies, i - 1);
      assert Step(cfg, true, states[i - 1], ops[i - 1], states[i], replies[i - 1]);
    }
  }

  /** One operation more. */
  lemma PlainRunNext<D>(m: map<Key, set<D>>, ops: seq<Op<D>>, replies: seq<Reply<D>>, t: nat, before: map<Key, set<D>>, after: map<Key, set<D>>)
    requires 0 < t <= |ops| == |replies|
    requires (before, replies[..t - 1]) == PlainRun(m, ops[..t - 1])
    requires (after, replies[t - 1]) == PlainStep(before, ops[t - 1])
    ensures (after, replies[..t]) == PlainRun(m, ops[..t])
  {
    assert ops[..t][..t - 1] == ops[..t - 1];
    assert replies[..t] == replies[..t - 1] + [replies[t - 1]];
  }

  class DbSetAccess<D(==,!new)> {
    const db: DB
    const prefix: Bytes
    const codec: Codec<D>

    constructor (db: DB, prefix: Bytes, codec: Codec<D>)
      ensures this.db == db && this.prefix == prefix && this.codec == codec
    {
      this.db := db;
      this.prefix := prefix;
      this.codec := codec;
    }

    method Write(writer: DbWriter, key: Key, data: D)
      requires writer.Valid() && writer.db == db
      modifies writer, db
      ensures writer.Valid()
      ensures writer.direct ==> db.rows == Apply(old(db.rows), Put(BucketPath(prefix, key, codec.ser(data)), []))
      ensures !writer.direct ==> db.rows == old(db.rows)
                                 && writer.batch == old(writer.batch) + [Put(BucketPath(prefix, key, codec.ser(data)), [])]
      ensures writer.Pending() == Apply(old(writer.Pending()), Put(BucketPath(prefix, key, codec.ser(data)), []))
    {
      var dbKey := DbKey.NewWithBucket(prefix, key, codec.ser(data));
      writer.Emit(Put(dbKey.path, []));
    }

    method Delete(writer: DbWriter, key: Key, data: D)
      requires writer.Valid() && writer.db == db
      modifies writer, db
      ensures writer.Valid()
      ensures writer.direct ==> db.rows == Apply(old(db.rows), WriteOp.Delete(BucketPath(prefix, key, codec.ser(data))))
      ensures !writer.direct ==> db.rows == old(db.rows)
                                 && writer.batch == old(writer.batch) + [WriteOp.Delete(BucketPath(prefix, key, codec.ser(data)))]
      ensures writer.Pending() == Apply(old(writer.Pending()), WriteOp.Delete(BucketPath(prefix, key, codec.ser(data))))
    {
      var dbKey := DbKey.NewWithBucket(prefix, key, codec.ser(data));
      writer.Emit(WriteOp.Delete(dbKey.path));
    }

    /** `to.unwrap()` panics when the bucket has no successor. */
    method DeleteBucket(writer: DbWriter, key: Key)
      requires writer.Valid() && writer.db == db
      requires Successor(prefix + key).Some?
      modifies writer, db
      ensures writer.Valid()
      ensures writer.direct ==> db.rows == Apply(old(db.rows), DeleteRange(prefix + key, Successor(prefix + key).value))
      ensures !writer.direct ==> db.rows == old(db.rows)
                                 && writer.batch == old(writer.batch) + [DeleteRange(prefix + key, Successor(prefix + key).value)]
      ensures writer.Pending() == Apply(old(writer.Pending()), DeleteRange(prefix + key, Successor(prefix + key).value))
    {
      var dbKey := DbKey.NewWithBucket(prefix, key, []);
      assert dbKey.path == prefix + key;
      writer.Emit(DeleteRange(dbKey.path, Successor(dbKey.path).value));
    }

    /** Collects `bucket_iterator(key)`, stopping at the first row that does not decode. */
    method CollectBucket(key: Key) returns (found: Option<set<D>>)
      ensures Collects(codec, db.rows, prefix + key, found)
    {
      var dbKey := DbKey.NewWithBucket(prefix, key, []);
      var bucket, prefixLen := dbKey.path, dbKey.prefixLen;
      assert bucket == prefix + key;
      var members: set<D> := {};
      var todo := set r | r in db.rows && Iterated(bucket, r);
      while todo != {}
        invariant todo <= set r | r in db.rows && Iterated(bucket, r)
        invariant forall r | r in db.rows && Iterated(bucket, r) && r !in todo ::
                    Decodes(codec, bucket, r) && codec.de(r[|bucket|..]).value in members
        invariant forall d | d in members :: exists r | r in db.rows && Iterated(bucket, r) ::
                    Decodes(codec, bucket, r) && codec.de(r[|bucket|..]) == Some(d)
        decreases todo
      {
        var r :| r in todo;
        IteratedIsPrefix(bucket, r);
        var data := codec.de(r[prefixLen..]);
        if data.None? {
          assert !Decodes(codec, bucket, r);
          return None;
        }
        assert Decodes(codec, bucket, r);
        members := members + {data.value};
        todo := todo - {r};
      }
      found := Some(members);
    }
  }

  class CachedDbSetAccess<D(==,!new)> {
    const inner: DbSetAccess<D>
    const cache: Cache<Key, set<D>>
    ghost const keyLen: nat

    ghost function Settings(): Config<D> {
      Config(inner.prefix, keyLen, cache.policy, cache.size, inner.codec)
    }

    ghost function StateWith(pending: Rows): State<D>
      reads cache, inner.db
    {
      State(cache.entries, inner.db.rows, pending)
    }

    constructor (db: DB, policy: CachePolicy, size: set<D> -> nat, prefix: Bytes, codec: Codec<D>, ghost keyLen: nat)
      ensures fresh(cache) && cache.Valid() && cache.entries == map[] && inner.db == db
      ensures Settings() == Config(prefix, keyLen, Inner(policy), size, codec)
    {
      this.inner := new DbSetAccess(db, prefix, codec);
      this.cache := new Cache(policy, size);
      this.keyLen := keyLen;
    }

    ghost predicate Ready(writer: DbWriter)
      reads cache, writer
    {
      cache.Valid() && writer.Valid() && writer.db == inner.db
    }

    method Read(key: Key, ghost direct: bool, ghost pending: Rows) returns (reply: Reply<D>)
      requires cache.Valid() && |key| == keyLen
      modifies cache
      ensures cache.Valid()
      ensures Step(Settings(), direct, old(StateWith(pending)), ReadSet(key), StateWith(pending), reply)
    {
      var cached := cache.Get(key);
      if cached.Some? {
        return Members(cached.value);
      }
      var found := inner.CollectBucket(key);
      match found {
        case Some(data) =>
          cache.Insert(key, data);
          reply := Members(data);
        case None =>
          reply := Failed;
      }
      assert Fills(Settings(), old(StateWith(pending)), key, found, cache.entries, reply);
    }

    method Write(writer: DbWriter, key: Key, data: D)
      requires Ready(writer) && |key| == keyLen
      modifies cache, writer, inner.db
      ensures Ready(writer)
      ensures Step(Settings(), writer.direct, old(StateWith(writer.Pending())), WriteItem(key, data), StateWith(writer.Pending()), Done)
    {
      cache.UpdateIfEntryExists(key, Adding(data));
      inner.Write(writer, key, data);
    }

    method Delete(writer: DbWriter, key: Key, data: D)
      requires Ready(writer) && |key| == keyLen
      modifies cache, writer, inner.db
      ensures Ready(writer)
      ensures Step(Settings(), writer.direct, old(StateWith(writer.Pending())), DeleteItem(key, data), StateWith(writer.Pending()), Done)
    {
      cache.UpdateIfEntryExists(key, Removing(data));
      inner.Delete(writer, key, data);
    }

    method DropBucket(writer: DbWriter, key: Key)
      requires Ready(writer) && |key| == keyLen
      requires Successor(inner.prefix + key).Some?
      modifies cache, writer, inner.db
      ensures Ready(writer)
      ensures Step(Settings(), writer.direct, old(StateWith(writer.Pending())), DeleteBucket(key), StateWith(writer.Pending()), Done)
    {
      var _ := cache.Remove(key);
      inner.DeleteBucket(writer, key);
    }
  }
}
