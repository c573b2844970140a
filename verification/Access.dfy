/** `CachedDbAccess`: a typed store of rows under one prefix, read and written through a cache.
    The state machine here says what each call may do for every choice of victims; the class at the
    end carries the calls out, and the theorems compare whole runs with a plain map. */
module Access {
  import opened Options
  import opened ByteOrder
  import opened Database
  import opened Cache
  import opened Codecs

  type Key = Bytes

  datatype Config<!V> = Config(prefix: Bytes, policy: PolicyInner, size: V -> nat, codec: Codec<V>)

  datatype Op<V> =
    | Has(key: Key)
    | Read(key: Key)
    | Write(key: Key, data: V)
    | WriteMany(items: seq<(Key, V)>)
    | WriteManyWithoutCache(items: seq<(Key, V)>)
    | DeleteOne(key: Key)
    | DeleteMany(keys: seq<Key>)
    | DeleteAll

  datatype Reply<V> =
    | Done
    | Present(present: bool)
    | Value(value: V)
    | NotFound
    | Undecodable

  // The reference: a plain map from keys to serialised values

  function PlainRead<V>(c: Codec<V>, stored: map<Key, Bytes>, key: Key): Reply<V> {
    if key !in stored then NotFound
    else
      match c.de(stored[key])
      case Some(v) => Value(v)
      case None => Undecodable
  }

  function StoreMany<V>(c: Codec<V>, stored: map<Key, Bytes>, items: seq<(Key, V)>): map<Key, Bytes> {
    if items == [] then stored
    else
      var n := |items| - 1;
      StoreMany(c, stored, items[..n])[items[n].0 := c.ser(items[n].1)]
  }

  function PlainStep<V>(c: Codec<V>, stored: map<Key, Bytes>, op: Op<V>): (map<Key, Bytes>, Reply<V>) {
    match op
    case Has(k) => (stored, Present(k in stored))
    case Read(k) => (stored, PlainRead(c, stored, k))
    case Write(k, v) => (stored[k := c.ser(v)], Done)
    case WriteMany(items) => (StoreMany(c, stored, items), Done)
    case WriteManyWithoutCache(items) => (StoreMany(c, stored, items), Done)
    case DeleteOne(k) => (stored - {k}, Done)
    case DeleteMany(keys) => (Without(stored, keys), Done)
    case DeleteAll => (map[], Done)
  }

  /** What the last of the items under a key makes a read answer. */
  function Written<V>(c: Codec<V>, stored: map<Key, Bytes>, items: seq<(Key, V)>, k: Key): Reply<V> {
    var i := LastOf(items, k);
    if i < |items| then Value(items[i].1) else PlainRead(c, stored, k)
  }

  /** What a read answers after each operation. */
  lemma ReadAfter<V(!new)>(c: Codec<V>, stored: map<Key, Bytes>, op: Op<V>, k: Key, after: map<Key, Bytes>, reply: Reply<V>)
    requires Lossless(c) && PlainStep(c, stored, op) == (after, reply)
    ensures PlainRead(c, stored, k) == NotFound <==> k !in stored
    ensures op.Has? ==> after == stored && reply == Present(op.key in stored)
    ensures op.Read? ==> after == stored && reply == PlainRead(c, stored, op.key)
    ensures !op.Has? && !op.Read? ==> reply == Done
    ensures op.Write? ==> PlainRead(c, after, k) == if op.key == k then Value(op.data) else PlainRead(c, stored, k)
    ensures op.WriteMany? || op.WriteManyWithoutCache? ==> PlainRead(c, after, k) == Written(c, stored, op.items, k)
    ensures op.DeleteOne? ==> PlainRead(c, after, k) == if op.key == k then NotFound else PlainRead(c, stored, k)
    ensures op.DeleteMany? ==> PlainRead(c, after, k) == if k in op.keys then NotFound else PlainRead(c, stored, k)
    ensures op.DeleteAll? ==> PlainRead(c, after, k) == NotFound
  {
    if op.WriteMany? || op.WriteManyWithoutCache? {
      ReadAfterMany(c, stored, op.items, k);
    }
  }

  /** Position of the last item under the key, or the length if there is none. */
  function LastOf<V>(items: seq<(Key, V)>, k: Key): (i: nat)
    ensures i <= |items|
    ensures i < |items| ==> items[i].0 == k
    ensures forall j | 0 <= j < |items| && (j > i || i == |items|) :: items[j].0 != k
  {
    if items == [] then 0
    else
      var n := |items| - 1;
      var i := LastOf(items[..n], k);
      if items[n].0 == k then n else if i == n then n + 1 else i
  }

  lemma {:induction false} ReadAfterMany<V(!new)>(c: Codec<V>, stored: map<Key, Bytes>, items: seq<(Key, V)>, k: Key)
    requires Lossless(c)
    ensures PlainRead(c, StoreMany(c, stored, items), k) == Written(c, stored, items, k)
    decreases |items|
  {
    if items != [] {
      ReadAfterMany(c, stored, items[..|items| - 1], k);
    }
  }

  function PlainRun<V>(c: Codec<V>, stored: map<Key, Bytes>, ops: seq<Op<V>>): (map<Key, Bytes>, seq<Reply<V>>) {
    if ops == [] then (stored, [])
    else
      var n := |ops| - 1;
      var (mid, replies) := PlainRun(c, stored, ops[..n]);
      var (last, reply) := PlainStep(c, mid, ops[n]);
      (last, replies + [reply])
  }

  // The cached store

  datatype State<!V> = State(cache: map<Key, V>, rows: Rows, batch: seq<WriteOp>)

  /** The rows once everything staged is committed; with a direct writer, the rows. */
  function Pending<V>(s: State<V>): Rows {
    ApplyAll(s.rows, s.batch)
  }

  /** The part of the database under a prefix, keyed as the store's caller keys it. */
  function Under(rows: Rows, prefix: Bytes): (stored: map<Key, Bytes>)
    ensures forall k :: k in stored <==> prefix + k in rows
    ensures forall k | k in stored :: stored[k] == rows[prefix + k]
  {
    var keys := set r | r in rows && prefix <= r :: r[|prefix|..];
    assert forall r | r in rows && prefix <= r :: r == prefix + r[|prefix|..];
    assert forall k | prefix + k in rows :: k == (prefix + k)[|prefix|..];
    map k | k in keys :: rows[prefix + k]
  }

  function PutAll<V>(cfg: Config<V>, items: seq<(Key, V)>): seq<WriteOp> {
    seq(|items|, i requires 0 <= i < |items| => Put(cfg.prefix + items[i].0, cfg.codec.ser(items[i].1)))
  }

  function DeleteEach(prefix: Bytes, keys: seq<Key>): seq<WriteOp> {
    seq(|keys|, i requires 0 <= i < |keys| => Delete(prefix + keys[i]))
  }

  /** What an operation sends to its writer, in order. `delete_all` panics on a prefix without
      successor. */
  function Writes<V>(cfg: Config<V>, op: Op<V>): seq<WriteOp>
    requires op.DeleteAll? ==> Successor(cfg.prefix).Some?
  {
    match op
    case Has(_) => []
    case Read(_) => []
    case Write(k, v) => [Put(cfg.prefix + k, cfg.codec.ser(v))]
    case WriteMany(items) => PutAll(cfg, items)
    case WriteManyWithoutCache(items) => PutAll(cfg, items)
    case DeleteOne(k) => [Delete(cfg.prefix + k)]
    case DeleteMany(keys) => DeleteEach(cfg.prefix, keys)
    case DeleteAll => [DeleteRange(cfg.prefix, Successor(cfg.prefix).value)]
  }

  /** How the writer carries the operations out. */
  ghost predicate Emitted<V>(direct: bool, s: State<V>, ops: seq<WriteOp>, s': State<V>) {
    if direct
    then s'.batch == s.batch && s'.rows == ApplyAll(s.rows, ops)
    else s'.batch == s.batch + ops && s'.rows == s.rows
  }

  ghost predicate CacheStep<V(!new)>(cfg: Config<V>, s: State<V>, op: Op<V>, cache': map<Key, V>) {
    match op
    case Has(_) => cache' == s.cache
    case Read(k) =>
      var found := PlainRead(cfg.codec, Under(s.rows, cfg.prefix), k);
      if k !in s.cache && found.Value?
      then Inserted(cfg.policy, cfg.size, s.cache, k, found.value, cache')
      else cache' == s.cache
    case Write(k, v) => Inserted(cfg.policy, cfg.size, s.cache, k, v, cache')
    case WriteMany(items) => InsertedMany(cfg.policy, cfg.size, s.cache, items, cache')
    case WriteManyWithoutCache(_) => cache' == map[]
    case DeleteOne(k) => cache' == s.cache - {k}
    case DeleteMany(keys) => cache' == Without(s.cache, keys)
    case DeleteAll => cache' == map[]
  }

  ghost function CachedReply<V(!new)>(cfg: Config<V>, s: State<V>, op: Op<V>): Reply<V> {
    match op
    case Has(k) => Present(k in s.cache || k in Under(s.rows, cfg.prefix))
    case Read(k) =>
      if k in s.cache then Value(s.cache[k]) else PlainRead(cfg.codec, Under(s.rows, cfg.prefix), k)
    case _ => Done
  }

  ghost predicate Step<V(!new)>(cfg: Config<V>, direct: bool, s: State<V>, op: Op<V>, s': State<V>, reply: Reply<V>) {
    && (op.DeleteAll? ==> Successor(cfg.prefix).Some?)
    && CacheStep(cfg, s, op, s'.cache)
    && Emitted(direct, s, Writes(cfg, op), s')
    && reply == CachedReply(cfg, s, op)
  }

  // The invariant: every cached pair is the pair the database (will) hold

  ghost predicate Agrees<V>(c: Codec<V>, cache: map<Key, V>, stored: map<Key, Bytes>) {
    forall k | k in cache :: k in stored && c.de(stored[k]) == Some(cache[k])
  }

  ghost predicate Inv<V>(cfg: Config<V>, direct: bool, s: State<V>) {
    && (direct ==> s.batch == [])
    && WithinPolicy(cfg.policy, s.cache, cfg.size)
    && Agrees(cfg.codec, s.cache, Under(Pending(s), cfg.prefix))
  }

  /** A lookup that misses the cache finds in the database what the pending database holds.
      With nothing staged this is always so. */
  ghost predicate MissIsCurrent<V>(cfg: Config<V>, s: State<V>, op: Op<V>) {
    (op.Has? || op.Read?) && op.key !in s.cache ==>
      SameRow(Under(s.rows, cfg.prefix), Under(Pending(s), cfg.prefix), op.key)
  }

  predicate SameRow(a: map<Key, Bytes>, b: map<Key, Bytes>, k: Key) {
    (k in a <==> k in b) && (k in a ==> a[k] == b[k])
  }

  // Writes seen through the prefix

  lemma UnderPut(rows: Rows, prefix: Bytes, k: Key, v: Bytes)
    ensures Under(rows[prefix + k := v], prefix) == Under(rows, prefix)[k := v]
  {
    assert forall j :: prefix + j == prefix + k ==> j == (prefix + j)[|prefix|..] == (prefix + k)[|prefix|..] == k;
  }

  lemma UnderDelete(rows: Rows, prefix: Bytes, k: Key)
    ensures Under(rows - {prefix + k}, prefix) == Under(rows, prefix) - {k}
  {
    assert forall j :: prefix + j == prefix + k ==> j == (prefix + j)[|prefix|..] == (prefix + k)[|prefix|..] == k;
  }

  lemma UnderDeleteAll(rows: Rows, prefix: Bytes)
    requires Successor(prefix).Some?
    ensures Under(Apply(rows, DeleteRange(prefix, Successor(prefix).value)), prefix) == map[]
  {
    DeletePrefixRange(rows, prefix);
    assert forall k: Key :: prefix <= prefix + k;
  }

  lemma {:induction false} UnderPutAll<V>(cfg: Config<V>, rows: Rows, items: seq<(Key, V)>)
    ensures Under(ApplyAll(rows, PutAll(cfg, items)), cfg.prefix) == StoreMany(cfg.codec, Under(rows, cfg.prefix), items)
    decreases |items|
  {
    if items == [] {
      assert PutAll(cfg, items) == [];
    } else {
      var n := |items| - 1;
      UnderPutAll(cfg, rows, items[..n]);
      assert PutAll(cfg, items)[..n] == PutAll(cfg, items[..n]);
      UnderPut(ApplyAll(rows, PutAll(cfg, items[..n])), cfg.prefix, items[n].0, cfg.codec.ser(items[n].1));
    }
  }

  lemma {:induction false} UnderDeleteEach(rows: Rows, prefix: Bytes, keys: seq<Key>)
    ensures Under(ApplyAll(rows, DeleteEach(prefix, keys)), prefix) == Without(Under(rows, prefix), keys)
    decreases |keys|
  {
    if keys == [] {
      assert DeleteEach(prefix, keys) == [];
    } else {
      var n := |keys| - 1;
      UnderDeleteEach(rows, prefix, keys[..n]);
      assert DeleteEach(prefix, keys)[..n] == DeleteEach(prefix, keys[..n]);
      UnderDelete(ApplyAll(rows, DeleteEach(prefix, keys[..n])), prefix, keys[n]);
    }
  }

  /** The writes of an operation do to the store's rows what the plain map does. */
  lemma WritesAreThePlainStep<V>(cfg: Config<V>, rows: Rows, op: Op<V>)
    requires op.DeleteAll? ==> Successor(cfg.prefix).Some?
    ensures Under(ApplyAll(rows, Writes(cfg, op)), cfg.prefix) == PlainStep(cfg.codec, Under(rows, cfg.prefix), op).0
  {
    match op
    case Has(_) => assert Writes(cfg, op) == [];
    case Read(_) => assert Writes(cfg, op) == [];
    case Write(k, v) => WriteIsPlain(cfg, rows, k, v);
    case WriteMany(items) => UnderPutAll(cfg, rows, items);
    case WriteManyWithoutCache(items) => UnderPutAll(cfg, rows, items);
    case DeleteOne(k) => DeleteIsPlain(cfg, rows, k);
    case DeleteMany(keys) => UnderDeleteEach(rows, cfg.prefix, keys);
    case DeleteAll =>
      DeleteAllIsPlain(cfg, rows);
      assert Writes(cfg, op) == [DeleteRange(cfg.prefix, Successor(cfg.prefix).value)];
  }

  lemma WriteIsPlain<V>(cfg: Config<V>, rows: Rows, k: Key, v: V)
    ensures Under(ApplyAll(rows, Writes(cfg, Write(k, v))), cfg.prefix) == Under(rows, cfg.prefix)[k := cfg.codec.ser(v)]
  {
    UnderOne(rows, cfg.prefix, Put(cfg.prefix + k, cfg.codec.ser(v)), k);
  }

  lemma DeleteIsPlain<V>(cfg: Config<V>, rows: Rows, k: Key)
    ensures Under(ApplyAll(rows, Writes(cfg, DeleteOne(k))), cfg.prefix) == Under(rows, cfg.prefix) - {k}
  {
    UnderOne(rows, cfg.prefix, Delete(cfg.prefix + k), k);
  }

  lemma DeleteAllIsPlain<V>(cfg: Config<V>, rows: Rows)
    requires Successor(cfg.prefix).Some?
    ensures Under(ApplyAll(rows, Writes(cfg, DeleteAll)), cfg.prefix) == map[]
  {
    var range := DeleteRange(cfg.prefix, Successor(cfg.prefix).value);
    var all: Op<V> := DeleteAll;
    assert Writes(cfg, all) == [range];
    UnderOne(rows, cfg.prefix, range, []);
  }

  lemma UnderOne(rows: Rows, prefix: Bytes, op: WriteOp, k: Key)
    requires op.Put? || op.Delete? ==> op.key == prefix + k
    requires op.DeleteRange? ==> op.from == prefix && Successor(prefix) == Some(op.to)
    ensures Under(ApplyAll(rows, [op]), prefix) ==
            match op
            case Put(_, v) => Under(rows, prefix)[k := v]
            case Delete(_) => Under(rows, prefix) - {k}
            case DeleteRange(_, _) => map[]
  {
    ApplyOne(rows, op);
    match op
    case Put(_, v) => UnderPut(rows, prefix, k, v);
    case Delete(_) => UnderDelete(rows, prefix, k);
    case DeleteRange(_, _) => UnderDeleteAll(rows, prefix);
  }

  lemma EmittedOneMore<V>(direct: bool, s: State<V>, ops: seq<WriteOp>, mid: State<V>, op: WriteOp, s': State<V>)
    requires Emitted(direct, s, ops, mid)
    requires if direct then s'.batch == mid.batch && s'.rows == Apply(mid.rows, op)
             else s'.batch == mid.batch + [op] && s'.rows == mid.rows
    ensures Emitted(direct, s, ops + [op], s')
  {
    assert (ops + [op])[..|ops|] == ops;
  }

  lemma EmittedOne<V>(direct: bool, s: State<V>, op: WriteOp, s': State<V>)
    requires if direct then s'.batch == s.batch && s'.rows == Apply(s.rows, op)
             else s'.batch == s.batch + [op] && s'.rows == s.rows
    ensures Emitted(direct, s, [op], s')
  {
    assert [op][..0] == [];
  }

  lemma PutAllOneMore<V>(cfg: Config<V>, items: seq<(Key, V)>, i: nat)
    requires i < |items|
    ensures PutAll(cfg, items[..i + 1]) == PutAll(cfg, items[..i]) + [Put(cfg.prefix + items[i].0, cfg.codec.ser(items[i].1))]
  {
  }

  lemma DeleteEachOneMore(prefix: Bytes, keys: seq<Key>, i: nat)
    requires i < |keys|
    ensures DeleteEach(prefix, keys[..i + 1]) == DeleteEach(prefix, keys[..i]) + [Delete(prefix + keys[i])]
  {
  }

  lemma EmittedAdvancesPending<V>(direct: bool, s: State<V>, ops: seq<WriteOp>, s': State<V>)
    requires Emitted(direct, s, ops, s')
    requires direct ==> s.batch == []
    ensures Pending(s') == ApplyAll(Pending(s), ops)
  {
    if !direct {
      ApplyAllAppend(s.rows, s.batch, ops);
    }
  }

  // Cache steps keep the agreement

  lemma InsertedAgrees<V>(cfg: Config<V>, before: map<Key, V>, k: Key, v: V, after: map<Key, V>, stored: map<Key, Bytes>)
    requires WithinPolicy(cfg.policy, before, cfg.size)
    requires Inserted(cfg.policy, cfg.size, before, k, v, after)
    requires forall j | j in before && j != k :: j in stored && cfg.codec.de(stored[j]) == Some(before[j])
    requires k in stored && cfg.codec.de(stored[k]) == Some(v)
    ensures WithinPolicy(cfg.policy, after, cfg.size)
    ensures Agrees(cfg.codec, after, stored)
  {
    InsertedKeepsPolicy(cfg.policy, cfg.size, before, k, v, after);
  }

  lemma {:induction false} InsertedManyAgrees<V(!new)>(cfg: Config<V>, before: map<Key, V>, items: seq<(Key, V)>, after: map<Key, V>, stored: map<Key, Bytes>)
    requires Lossless(cfg.codec)
    requires WithinPolicy(cfg.policy, before, cfg.size)
    requires Agrees(cfg.codec, before, stored)
    requires InsertedMany(cfg.policy, cfg.size, before, items, after)
    ensures WithinPolicy(cfg.policy, after, cfg.size)
    ensures Agrees(cfg.codec, after, StoreMany(cfg.codec, stored, items))
    decreases |items|
  {
    if items != [] {
      var n := |items| - 1;
      var (k, v) := items[n];
      var mid :| InsertedMany(cfg.policy, cfg.size, before, items[..n], mid) && Inserted(cfg.policy, cfg.size, mid, k, v, after);
      InsertedManyAgrees(cfg, before, items[..n], mid, stored);
      var image := StoreMany(cfg.codec, stored, items[..n]);
      assert StoreMany(cfg.codec, stored, items) == image[k := cfg.codec.ser(v)];
      InsertedAgrees(cfg, mid, k, v, after, image[k := cfg.codec.ser(v)]);
    }
  }

  lemma ReadAgrees<V(!new)>(cfg: Config<V>, s: State<V>, k: Key, cache': map<Key, V>)
    requires CacheStep(cfg, s, Read(k), cache')
    requires WithinPolicy(cfg.policy, s.cache, cfg.size)
    requires Agrees(cfg.codec, s.cache, Under(Pending(s), cfg.prefix))
    requires MissIsCurrent(cfg, s, Read(k))
    ensures WithinPolicy(cfg.policy, cache', cfg.size)
    ensures Agrees(cfg.codec, cache', Under(Pending(s), cfg.prefix))
  {
    var found := PlainRead(cfg.codec, Under(s.rows, cfg.prefix), k);
    if k !in s.cache && found.Value? {
      InsertedAgrees(cfg, s.cache, k, found.value, cache', Under(Pending(s), cfg.prefix));
    }
  }

  lemma CacheStepAgrees<V(!new)>(cfg: Config<V>, s: State<V>, op: Op<V>, cache': map<Key, V>)
    requires Lossless(cfg.codec)
    requires CacheStep(cfg, s, op, cache')
    requires WithinPolicy(cfg.policy, s.cache, cfg.size)
    requires Agrees(cfg.codec, s.cache, Under(Pending(s), cfg.prefix))
    requires MissIsCurrent(cfg, s, op)
    ensures WithinPolicy(cfg.policy, cache', cfg.size)
    ensures Agrees(cfg.codec, cache', PlainStep(cfg.codec, Under(Pending(s), cfg.prefix), op).0)
  {
    var stored := Under(Pending(s), cfg.prefix);
    match op
    case Has(_) =>
    case Read(k) => ReadAgrees(cfg, s, k, cache');
    case Write(k, v) => InsertedAgrees(cfg, s.cache, k, v, cache', stored[k := cfg.codec.ser(v)]);
    case WriteMany(items) => InsertedManyAgrees(cfg, s.cache, items, cache', stored);
    case _ => RemovedAgrees(cfg, s, op, cache', stored);
  }

  /** The operations that only remove from the cache. */
  lemma RemovedAgrees<V(!new)>(cfg: Config<V>, s: State<V>, op: Op<V>, cache': map<Key, V>, stored: map<Key, Bytes>)
    requires op.WriteManyWithoutCache? || op.DeleteOne? || op.DeleteMany? || op.DeleteAll?
    requires CacheStep(cfg, s, op, cache') && WithinPolicy(cfg.policy, s.cache, cfg.size) && Agrees(cfg.codec, s.cache, stored)
    ensures WithinPolicy(cfg.policy, cache', cfg.size)
    ensures Agrees(cfg.codec, cache', PlainStep(cfg.codec, stored, op).0)
  {
    RemovedKeepsPolicy(cfg.policy, cfg.size, s.cache, cache');
  }

  lemma StepRefines<V(!new)>(cfg: Config<V>, direct: bool, s: State<V>, op: Op<V>, s': State<V>, reply: Reply<V>)
    requires Lossless(cfg.codec)
    requires Inv(cfg, direct, s) && Step(cfg, direct, s, op, s', reply)
    requires MissIsCurrent(cfg, s, op)
    ensures Inv(cfg, direct, s')
    ensures (Under(Pending(s'), cfg.prefix), reply) == PlainStep(cfg.codec, Under(Pending(s), cfg.prefix), op)
  {
    EmittedAdvancesPending(direct, s, Writes(cfg, op), s');
    WritesAreThePlainStep(cfg, Pending(s), op);
    CacheStepAgrees(cfg, s, op, s'.cache);
  }

  // Whole runs

  ghost predicate Run<V(!new)>(cfg: Config<V>, direct: bool, states: seq<State<V>>, ops: seq<Op<V>>, replies: seq<Reply<V>>) {
    && |states| == |ops| + 1 && |replies| == |ops|
    && forall i | 0 <= i < |ops| :: Step(cfg, direct, states[i], ops[i], states[i + 1], replies[i])
  }

  ghost predicate MissesAreCurrent<V>(cfg: Config<V>, states: seq<State<V>>, ops: seq<Op<V>>)
    requires |states| == |ops| + 1
  {
    forall i | 0 <= i < |ops| :: MissIsCurrent(cfg, states[i], ops[i])
  }

  /** One operation more. */
  lemma PlainRunNext<V>(c: Codec<V>, stored: map<Key, Bytes>, ops: seq<Op<V>>, replies: seq<Reply<V>>, t: nat, before: map<Key, Bytes>, after: map<Key, Bytes>)
    requires 0 < t <= |ops| == |replies|
    requires (before, replies[..t - 1]) == PlainRun(c, stored, ops[..t - 1])
    requires (after, replies[t - 1]) == PlainStep(c, before, ops[t - 1])
    ensures (after, replies[..t]) == PlainRun(c, stored, ops[..t])
  {
    assert ops[..t][..t - 1] == ops[..t - 1];
    assert replies[..t] == replies[..t - 1] + [replies[t - 1]];
  }

  /** Every run whose misses find current rows answers, at every point, exactly as the plain map does,
      for every policy and every choice of victims. */
  lemma {:induction false} RunRefines<V(!new)>(cfg: Config<V>, direct: bool, states: seq<State<V>>, ops: seq<Op<V>>, replies: seq<Reply<V>>, t: nat)
    requires Lossless(cfg.codec)
    requires Run(cfg, direct, states, ops, replies)
    requires Inv(cfg, direct, states[0])
    requires MissesAreCurrent(cfg, states, ops) && t <= |ops|
    ensures Inv(cfg, direct, states[t])
    ensures (Under(Pending(states[t]), cfg.prefix), replies[..t]) == PlainRun(cfg.codec, Under(Pending(states[0]), cfg.prefix), ops[..t])
    decreases t
  {
    if t == 0 {
      assert ops[..0] == [] && replies[..0] == [];
    } else {
      var n := t - 1;
      RunRefines(cfg, direct, states, ops, replies, n);
      assert MissIsCurrent(cfg, states[n], ops[n]);
      assert Step(cfg, direct, states[n], ops[n], states[n + 1], replies[n]);
      StepRefines(cfg, direct, states[n], ops[n], states[n + 1], replies[n]);
      PlainRunNext(cfg.codec, Under(Pending(states[0]), cfg.prefix), ops, replies, t,
                   Under(Pending(states[n]), cfg.prefix), Under(Pending(states[n + 1]), cfg.prefix));
    }
  }

  /** With direct writers nothing is ever staged, so no hypothesis on misses is needed. */
  lemma DirectRunRefines<V(!new)>(cfg: Config<V>, states: seq<State<V>>, ops: seq<Op<V>>, replies: seq<Reply<V>>)
    requires Lossless(cfg.codec)
    requires Run(cfg, true, states, ops, replies)
    requires Inv(cfg, true, states[0])
    ensures Inv(cfg, true, states[|ops|])
    ensures (Under(states[|ops|].rows, cfg.prefix), replies) == PlainRun(cfg.codec, Under(states[0].rows, cfg.prefix), ops)
  {
    forall i | 0 <= i < |ops|
      ensures MissIsCurrent(cfg, states[i], ops[i])
    {
      NothingStaged(cfg, states, ops, replies, i);
    }
    NothingStaged(cfg, states, ops, replies, |ops|);
    RunRefines(cfg, true, states, ops, replies, |ops|);
    assert ops[..|ops|] == ops && replies[..|ops|] == replies;
  }

  lemma {:induction false} NothingStaged<V(!new)>(cfg: Config<V>, states: seq<State<V>>, ops: seq<Op<V>>, replies: seq<Reply<V>>, i: nat)
    requires Run(cfg, true, states, ops, replies) && states[0].batch == [] && i <= |ops|
    ensures states[i].batch == []
    decreases i
  {
    if i > 0 {
      NothingStaged(cfg, states, ops, replies, i - 1);
      assert Step(cfg, true, states[i - 1], ops[i - 1], states[i], replies[i - 1]);
    }
  }

  // Batches

  ghost function AllWrites<V>(cfg: Config<V>, ops: seq<Op<V>>): seq<WriteOp>
    requires forall op | op in ops :: op.DeleteAll? ==> Successor(cfg.prefix).Some?
  {
    if ops == [] then [] else AllWrites(cfg, ops[..|ops| - 1]) + Writes(cfg, ops[|ops| - 1])
  }

  lemma {:induction false} RunEmits<V(!new)>(cfg: Config<V>, direct: bool, states: seq<State<V>>, ops: seq<Op<V>>, replies: seq<Reply<V>>)
    requires Run(cfg, direct, states, ops, replies)
    requires states[0].batch == []
    ensures forall op | op in ops :: op.DeleteAll? ==> Successor(cfg.prefix).Some?
    ensures direct ==> states[|ops|].batch == [] && states[|ops|].rows == ApplyAll(states[0].rows, AllWrites(cfg, ops))
    ensures !direct ==> states[|ops|].rows == states[0].rows && states[|ops|].batch == AllWrites(cfg, ops)
    decreases |ops|
  {
    if ops != [] {
      var n := |ops| - 1;
      RunEmits(cfg, direct, states[..n + 1], ops[..n], replies[..n]);
      assert Step(cfg, direct, states[n], ops[n], states[n + 1], replies[n]);
      assert ops == ops[..n] + [ops[n]];
      ApplyAllAppend(states[0].rows, AllWrites(cfg, ops[..n]), Writes(cfg, ops[n]));
    }
  }

  /** Nothing of a batched run is visible before the commit, the commit leaves the database that the
      same operations leave through a direct writer, and if no lookup missed on a row the batch
      changes, the cache agrees with the committed rows and every reply was the plain map's. */
  lemma CommitBatch<V(!new)>(
      cfg: Config<V>, states: seq<State<V>>, ops: seq<Op<V>>, replies: seq<Reply<V>>,
      states': seq<State<V>>, replies': seq<Reply<V>>)
    requires Lossless(cfg.codec)
    requires Run(cfg, false, states, ops, replies) && Run(cfg, true, states', ops, replies')
    requires states[0].rows == states'[0].rows && states[0].batch == states'[0].batch == []
    ensures states[|ops|].rows == states[0].rows
    ensures Pending(states[|ops|]) == states'[|ops|].rows
    ensures Inv(cfg, false, states[0]) && MissesAreCurrent(cfg, states, ops) ==>
              && Agrees(cfg.codec, states[|ops|].cache, Under(states'[|ops|].rows, cfg.prefix))
              && replies == PlainRun(cfg.codec, Under(states[0].rows, cfg.prefix), ops).1
  {
    RunEmits(cfg, false, states, ops, replies);
    RunEmits(cfg, true, states', ops, replies');
    if Inv(cfg, false, states[0]) && MissesAreCurrent(cfg, states, ops) {
      RunRefines(cfg, false, states, ops, replies, |ops|);
      assert ops[..|ops|] == ops && replies[..|ops|] == replies;
    }
  }

  /** The hypothesis on misses is exact: a read that misses and caches what it found keeps the cache
      in agreement with the pending rows if and only if the batch leaves the value of that row alone. */
  lemma MissWhileStaged<V(!new)>(cfg: Config<V>, s: State<V>, k: Key, s': State<V>, reply: Reply<V>)
    requires Lossless(cfg.codec)
    requires Inv(cfg, false, s) && Step(cfg, false, s, Read(k), s', reply)
    requires k !in s.cache && reply.Value? && k in s'.cache
    ensures Inv(cfg, false, s') <==>
              PlainRead(cfg.codec, Under(Pending(s), cfg.prefix), k) == PlainRead(cfg.codec, Under(s.rows, cfg.prefix), k)
  {
    EmittedAdvancesPending(false, s, [], s');
    InsertedKeepsPolicy(cfg.policy, cfg.size, s.cache, k, reply.value, s'.cache);
  }

  const SampleConfig: Config<Bytes> :=
    Config([1], PolicyInner(false, 1, 0), (v: Bytes) => 1, Codec((v: Bytes) => v, (b: Bytes) => Some(b)))

  const SampleRows: Rows := map[[1, 5] := [0]]
  const Put5 := Put([1, 5], [9])
  const Put6 := Put([1, 6], [7])
  const Sample0: State<Bytes> := State(map[], SampleRows, [])
  const Sample1: State<Bytes> := State(map[[5] := [9]], SampleRows, [Put5])
  const Sample2: State<Bytes> := State(map[[6] := [7]], SampleRows, [Put5, Put6])
  const Sample3: State<Bytes> := State(map[[5] := [0]], SampleRows, [Put5, Put6])

  lemma SampleWrites()
    ensures Step(SampleConfig, false, Sample0, Write([5], [9]), Sample1, Done)
    ensures Step(SampleConfig, false, Sample1, Write([6], [7]), Sample2, Done)
  {
    assert [1] + [5] == [1, 5] && [1] + [6] == [1, 6];
    assert Sample1.cache == Sample0.cache[[5] := [9]];
    assert [5] in Sample1.cache && Sample2.cache == (Sample1.cache - {[5]})[[6] := [7]];
  }

  lemma SampleRead()
    ensures Step(SampleConfig, false, Sample2, Read([5]), Sample3, Value([0]))
  {
    assert [1] + [5] == [1, 5];
    assert [5] in Under(SampleRows, [1]);
    assert [6] in Sample2.cache && Sample3.cache == (Sample2.cache - {[6]})[[5] := [0]];
  }

  lemma SampleEndsStale()
    ensures !Agrees(SampleConfig.codec, Sample3.cache, Under(Pending(Sample3), SampleConfig.prefix))
  {
    assert [Put5, Put6][..1] == [Put5] && [Put5][..0] == [];
    assert ApplyAll(SampleRows, []) == SampleRows;
    assert ApplyAll(SampleRows, [Put5]) == Apply(SampleRows, Put5);
    assert Pending(Sample3) == SampleRows[[1, 5] := [9]][[1, 6] := [7]];
    assert [1] + [5] == [1, 5];
    assert [5] in Sample3.cache;
  }

  /** With room for one item: a staged write, its eviction by another, and a read of the old row
      leave a cached value that the committed database does not hold. */
  lemma StaleAfterCommit()
    ensures Run(SampleConfig, false, [Sample0, Sample1, Sample2, Sample3],
                [Write([5], [9]), Write([6], [7]), Read([5])], [Done, Done, Value([0])])
    ensures Inv(SampleConfig, false, Sample0)
    ensures !Agrees(SampleConfig.codec, Sample3.cache, Under(Pending(Sample3), SampleConfig.prefix))
  {
    SampleWrites();
    SampleRead();
    SampleEndsStale();
    RunOfThree(SampleConfig, false, Sample0, Write([5], [9]), Done, Sample1, Write([6], [7]), Done, Sample2,
               Read([5]), Value([0]), Sample3);
    assert Agrees(SampleConfig.codec, Sample0.cache, Under(Pending(Sample0), SampleConfig.prefix));
  }

  lemma RunOfThree<V(!new)>(
      cfg: Config<V>, direct: bool, s0: State<V>, op0: Op<V>, r0: Reply<V>, s1: State<V>, op1: Op<V>, r1: Reply<V>,
      s2: State<V>, op2: Op<V>, r2: Reply<V>, s3: State<V>)
    requires Step(cfg, direct, s0, op0, s1, r0) && Step(cfg, direct, s1, op1, s2, r1) && Step(cfg, direct, s2, op2, s3, r2)
    ensures Run(cfg, direct, [s0, s1, s2, s3], [op0, op1, op2], [r0, r1, r2])
  {
  }

  class CachedDbAccess<V(!new)> {
    const db: DB
    const cache: Cache<Key, V>
    const prefix: Bytes
    const codec: Codec<V>

    ghost function Settings(): Config<V> {
      Config(prefix, cache.policy, cache.size, codec)
    }

    ghost function StateWith(batch: seq<WriteOp>): State<V>
      reads cache, db
    {
      State(cache.entries, db.rows, batch)
    }

    constructor (db: DB, policy: CachePolicy, size: V -> nat, prefix: Bytes, codec: Codec<V>)
      ensures this.db == db && fresh(cache) && cache.Valid() && cache.entries == map[]
      ensures Settings() == Config(prefix, Inner(policy), size, codec)
    {
      this.db := db;
      this.prefix := prefix;
      this.codec := codec;
      this.cache := new Cache(policy, size);
    }

    method HasKey(key: Key, ghost batch: seq<WriteOp>) returns (reply: Reply<V>)
      ensures Step(Settings(), true, StateWith(batch), Has(key), StateWith(batch), reply)
    {
      reply := Present(key in cache.entries || prefix + key in db.rows);
    }

    method ReadKey(key: Key, ghost batch: seq<WriteOp>) returns (reply: Reply<V>)
      requires cache.Valid()
      modifies cache
      ensures cache.Valid()
      ensures Step(Settings(), true, old(StateWith(batch)), Read(key), StateWith(batch), reply)
      ensures key in old(cache.entries) ==> reply == Value(old(cache.entries)[key])
      ensures reply == NotFound <==> key !in old(cache.entries) && prefix + key !in db.rows
      ensures reply == Undecodable <==>
              key !in old(cache.entries) && prefix + key in db.rows && codec.de(db.rows[prefix + key]).None?
    {
      var cached := cache.Get(key);
      if cached.Some? {
        reply := Value(cached.value);
      } else if prefix + key in db.rows {
        match codec.de(db.rows[prefix + key])
        case Some(data) =>
          cache.Insert(key, data);
          reply := Value(data);
        case None =>
          reply := Undecodable;
      } else {
        reply := NotFound;
      }
    }

    ghost predicate Ready(writer: DbWriter)
      reads cache, writer
    {
      cache.Valid() && writer.Valid() && writer.db == db
    }

    method EmitOne(writer: DbWriter, op: WriteOp)
      requires Ready(writer)
      modifies writer, db
      ensures Ready(writer)
      ensures Emitted(writer.direct, old(StateWith(writer.batch)), [op], StateWith(writer.batch))
    {
      writer.Emit(op);
      EmittedOne(writer.direct, old(StateWith(writer.batch)), op, StateWith(writer.batch));
    }

    method WriteKey(writer: DbWriter, key: Key, data: V)
      requires Ready(writer)
      modifies cache, writer, db
      ensures Ready(writer)
      ensures Step(Settings(), writer.direct, old(StateWith(writer.batch)), Write(key, data), StateWith(writer.batch), Done)
    {
      var binData := codec.ser(data);
      cache.Insert(key, data);
      EmitOne(writer, Put(prefix + key, binData));
    }

    method PutEach(writer: DbWriter, items: seq<(Key, V)>)
      requires Ready(writer)
      modifies writer, db
      ensures Ready(writer)
      ensures Emitted(writer.direct, old(StateWith(writer.batch)), PutAll(Settings(), items), StateWith(writer.batch))
    {
      ghost var cfg := Settings();
      var i := 0;
      while i < |items|
        invariant 0 <= i <= |items|
        invariant Ready(writer)
        invariant Emitted(writer.direct, old(StateWith(writer.batch)), PutAll(cfg, items[..i]), StateWith(writer.batch))
      {
        ghost var mid := StateWith(writer.batch);
        var op := Put(prefix + items[i].0, codec.ser(items[i].1));
        writer.Emit(op);
        EmittedOneMore(writer.direct, old(StateWith(writer.batch)), PutAll(cfg, items[..i]), mid, op, StateWith(writer.batch));
        PutAllOneMore(cfg, items, i);
        i := i + 1;
      }
      assert items[..i] == items;
    }

    method WriteKeys(writer: DbWriter, items: seq<(Key, V)>)
      requires Ready(writer)
      modifies cache, writer, db
      ensures Ready(writer)
      ensures Step(Settings(), writer.direct, old(StateWith(writer.batch)), WriteMany(items), StateWith(writer.batch), Done)
    {
      cache.InsertMany(items);
      PutEach(writer, items);
    }

    method WriteKeysWithoutCache(writer: DbWriter, items: seq<(Key, V)>)
      requires Ready(writer)
      modifies cache, writer, db
      ensures Ready(writer)
      ensures Step(Settings(), writer.direct, old(StateWith(writer.batch)), WriteManyWithoutCache(items), StateWith(writer.batch), Done)
    {
      PutEach(writer, items);
      cache.RemoveAll();
    }

    method DeleteKey(writer: DbWriter, key: Key)
      requires Ready(writer)
      modifies cache, writer, db
      ensures Ready(writer)
      ensures Step(Settings(), writer.direct, old(StateWith(writer.batch)), DeleteOne(key), StateWith(writer.batch), Done)
    {
      var _ := cache.Remove(key);
      EmitOne(writer, Delete(prefix + key));
    }

    method DropEach(writer: DbWriter, keys: seq<Key>)
      requires Ready(writer)
      modifies writer, db
      ensures Ready(writer)
      ensures Emitted(writer.direct, old(StateWith(writer.batch)), DeleteEach(prefix, keys), StateWith(writer.batch))
    {
      var i := 0;
      while i < |keys|
        invariant 0 <= i <= |keys|
        invariant Ready(writer)
        invariant Emitted(writer.direct, old(StateWith(writer.batch)), DeleteEach(prefix, keys[..i]), StateWith(writer.batch))
      {
        ghost var mid := StateWith(writer.batch);
        writer.Emit(Delete(prefix + keys[i]));
        EmittedOneMore(writer.direct, old(StateWith(writer.batch)), DeleteEach(prefix, keys[..i]), mid,
                       Delete(prefix + keys[i]), StateWith(writer.batch));
        DeleteEachOneMore(prefix, keys, i);
        i := i + 1;
      }
      assert keys[..i] == keys;
    }

    method DeleteKeys(writer: DbWriter, keys: seq<Key>)
      requires Ready(writer)
      modifies cache, writer, db
      ensures Ready(writer)
      ensures Step(Settings(), writer.direct, old(StateWith(writer.batch)), DeleteMany(keys), StateWith(writer.batch), Done)
    {
      cache.RemoveMany(keys);
      DropEach(writer, keys);
    }

    /** `to.unwrap()` panics when the prefix has no successor. */
    method DeleteEverything(writer: DbWriter)
      requires Ready(writer)
      requires Successor(prefix).Some?
      modifies cache, writer, db
      ensures Ready(writer)
      ensures Step(Settings(), writer.direct, old(StateWith(writer.batch)), DeleteAll, StateWith(writer.batch), Done)
    {
      cache.RemoveAll();
      EmitOne(writer, DeleteRange(prefix, Successor(prefix).value));
    }
  }
}
