/** `CachedDbAccess` under concurrent callers. The cache is locked for each of its operations and the
    database for each of its own, never both and never for a whole call; so the steps here are these
    sections, and the sections of different calls interleave freely. */
module Interleaving {
  import opened Options
  import opened ByteOrder
  import opened Database
  import opened Cache
  import opened Codecs
  import opened Access

  // The sections of a call

  /** A section of a call on the rows of the store. */
  datatype RowOp = PutRow(key: Key, data: Bytes) | DropRow(key: Key) | DropRows

  function ApplyRow(stored: map<Key, Bytes>, r: RowOp): map<Key, Bytes> {
    match r
    case PutRow(k, data) => stored[k := data]
    case DropRow(k) => stored - {k}
    case DropRows => map[]
  }

  function ApplyRows(stored: map<Key, Bytes>, rs: seq<RowOp>): map<Key, Bytes> {
    if rs == [] then stored else ApplyRow(ApplyRows(stored, rs[..|rs| - 1]), rs[|rs| - 1])
  }

  function PutRows<V>(c: Codec<V>, items: seq<(Key, V)>): seq<RowOp> {
    seq(|items|, i requires 0 <= i < |items| => PutRow(items[i].0, c.ser(items[i].1)))
  }

  function DropEach(keys: seq<Key>): seq<RowOp> {
    seq(|keys|, i requires 0 <= i < |keys| => DropRow(keys[i]))
  }

  function RowsOf<V>(c: Codec<V>, op: Op<V>): seq<RowOp> {
    match op
    case Has(_) => []
    case Read(_) => []
    case Write(k, v) => [PutRow(k, c.ser(v))]
    case WriteMany(items) => PutRows(c, items)
    case WriteManyWithoutCache(items) => PutRows(c, items)
    case DeleteOne(k) => [DropRow(k)]
    case DeleteMany(keys) => DropEach(keys)
    case DeleteAll => [DropRows]
  }

  predicate Mutates<V>(op: Op<V>) {
    !op.Has? && !op.Read?
  }

  /** A mutating call has one cache section, before its row sections but for `write_many_without_cache`. */
  predicate CacheFirst<V>(op: Op<V>) {
    !op.WriteManyWithoutCache?
  }

  /** How many of the row sections are among the first `n` sections of a mutating call. */
  function RowsAmong<V>(c: Codec<V>, op: Op<V>, n: nat): (m: nat)
    requires n <= |RowsOf(c, op)| + 1
    ensures m <= |RowsOf(c, op)|
  {
    if CacheFirst(op) then (if n == 0 then 0 else n - 1)
    else (if n <= |RowsOf(c, op)| then n else n - 1)
  }

  /** Where a call is. A reading call looks the key up in the cache, on a miss fetches the row, and a
      `read` then fills the cache. */
  datatype Phase<V> =
    | Idle
    | Missed
    | Fetched(value: V)
    | Part(sections: nat)
    | Over(reply: Reply<V>)

  predicate Active<V>(p: Phase<V>) {
    p.Missed? || p.Fetched? || p.Part?
  }

  /** The calls are numbered; `log` lists those that are over, in the order of their last sections. */
  datatype Shared<!V> = Shared(cache: map<Key, V>, stored: map<Key, Bytes>, phases: seq<Phase<V>>, log: seq<nat>)

  function SectionsDone<V>(p: Phase<V>): nat {
    if p.Part? then p.sections else 0
  }

  ghost predicate CacheSection<V(!new)>(cfg: Config<V>, cache: map<Key, V>, op: Op<V>, cache': map<Key, V>)
    requires Mutates(op)
  {
    CacheStep(cfg, State(cache, map[], []), op, cache')
  }

  /** Section `n` of a mutating call. */
  ghost predicate MutatingSection<V(!new)>(cfg: Config<V>, op: Op<V>, n: nat, s: Shared<V>, s': Shared<V>)
    requires Mutates(op)
  {
    var rows := RowsOf(cfg.codec, op);
    && n <= |rows|
    && if n == (if CacheFirst(op) then 0 else |rows|)
       then CacheSection(cfg, s.cache, op, s'.cache) && s'.stored == s.stored
       else s'.cache == s.cache && s'.stored == ApplyRow(s.stored, rows[if CacheFirst(op) then n - 1 else n])
  }

  ghost predicate ReadingSection<V(!new)>(cfg: Config<V>, op: Op<V>, p: Phase<V>, s: Shared<V>, s': Shared<V>, p': Phase<V>)
    requires !Mutates(op)
  {
    var found := PlainRead(cfg.codec, s.stored, op.key);
    && s'.stored == s.stored
    && match p
       case Idle =>
         && s'.cache == s.cache
         && p' == (if op.key !in s.cache then Missed else Over(if op.Has? then Present(true) else Value(s.cache[op.key])))
       case Missed =>
         && s'.cache == s.cache
         && p' == (if op.Has? then Over(Present(op.key in s.stored)) else if found.Value? then Fetched(found.value) else Over(found))
       case Fetched(v) => op.Read? && Inserted(cfg.policy, cfg.size, s.cache, op.key, v, s'.cache) && p' == Over(Value(v))
       case _ => false
  }

  /** Call `c` went on, and is logged if that was its last section. */
  ghost predicate OneCallOn<V>(ops: seq<Op<V>>, s: Shared<V>, c: nat, s': Shared<V>) {
    && |s.phases| == |s'.phases| == |ops| && c < |ops| && !s.phases[c].Over?
    && (forall d | 0 <= d < |ops| && d != c :: s'.phases[d] == s.phases[d])
    && s'.log == (if s'.phases[c].Over? then s.log + [c] else s.log)
  }

  /** Call `c` takes its next section. */
  ghost predicate Section<V(!new)>(cfg: Config<V>, ops: seq<Op<V>>, s: Shared<V>, c: nat, s': Shared<V>) {
    && OneCallOn(ops, s, c, s')
    && if Mutates(ops[c])
       then
         var n := SectionsDone(s.phases[c]);
         && (s.phases[c].Idle? || s.phases[c].Part?)
         && MutatingSection(cfg, ops[c], n, s, s')
         && s'.phases[c] == (if n == |RowsOf(cfg.codec, ops[c])| then Over(Done) else Part(n + 1))
       else ReadingSection(cfg, ops[c], s.phases[c], s, s', s'.phases[c])
  }

  ghost predicate Run<V(!new)>(cfg: Config<V>, ops: seq<Op<V>>, states: seq<Shared<V>>, callers: seq<nat>) {
    && |states| == |callers| + 1
    && forall i | 0 <= i < |callers| :: Section(cfg, ops, states[i], callers[i], states[i + 1])
  }

  // Calls that disturb each other

  predicate Touches<V>(op: Op<V>, k: Key) {
    match op
    case Has(key) => k == key
    case Read(key) => k == key
    case Write(key, _) => k == key
    case WriteMany(items) => exists i :: 0 <= i < |items| && items[i].0 == k
    case WriteManyWithoutCache(items) => exists i :: 0 <= i < |items| && items[i].0 == k
    case DeleteOne(key) => k == key
    case DeleteMany(keys) => k in keys
    case DeleteAll => true
  }

  ghost predicate Conflict<V>(a: Op<V>, b: Op<V>) {
    (Mutates(a) || Mutates(b)) && exists k :: Touches(a, k) && Touches(b, k)
  }

  /** No call that conflicts with `c` is between its first and its last section. */
  ghost predicate Undisturbed<V>(ops: seq<Op<V>>, s: Shared<V>, c: nat)
    requires |s.phases| == |ops| && c < |ops|
  {
    forall d | 0 <= d < |ops| && d != c && Active(s.phases[d]) :: !Conflict(ops[c], ops[d])
  }

  ghost predicate UndisturbedRun<V(!new)>(cfg: Config<V>, ops: seq<Op<V>>, states: seq<Shared<V>>, callers: seq<nat>)
    requires Run(cfg, ops, states, callers)
  {
    forall i | 0 <= i < |callers| ::
      Section(cfg, ops, states[i], callers[i], states[i + 1]) && Undisturbed(ops, states[i], callers[i])
  }

  // The rows of a call, and the plain map

  lemma {:induction false} PutRowsStore<V>(c: Codec<V>, stored: map<Key, Bytes>, items: seq<(Key, V)>)
    ensures ApplyRows(stored, PutRows(c, items)) == StoreMany(c, stored, items)
    decreases |items|
  {
    if items != [] {
      var n := |items| - 1;
      PutRowsStore(c, stored, items[..n]);
      assert PutRows(c, items)[..n] == PutRows(c, items[..n]);
    }
  }

  lemma {:induction false} DropEachDrops(stored: map<Key, Bytes>, keys: seq<Key>)
    ensures ApplyRows(stored, DropEach(keys)) == Without(stored, keys)
    decreases |keys|
  {
    if keys != [] {
      var n := |keys| - 1;
      DropEachDrops(stored, keys[..n]);
      assert DropEach(keys)[..n] == DropEach(keys[..n]);
    }
  }

  lemma ApplyNext(stored: map<Key, Bytes>, rs: seq<RowOp>, m: nat)
    requires m < |rs|
    ensures ApplyRows(stored, rs[..m + 1]) == ApplyRow(ApplyRows(stored, rs[..m]), rs[m])
  {
    assert rs[..m + 1][..m] == rs[..m];
  }

  lemma ApplyOne(stored: map<Key, Bytes>, r: RowOp)
    ensures ApplyRows(stored, [r]) == ApplyRow(stored, r)
  {
    assert [r][..0] == [];
  }

  /** All row sections of a call together do to the rows what the plain map does. */
  lemma RowsAreThePlainStep<V>(c: Codec<V>, stored: map<Key, Bytes>, op: Op<V>)
    ensures ApplyRows(stored, RowsOf(c, op)) == PlainStep(c, stored, op).0
  {
    match op
    case Has(_) =>
    case Read(_) =>
    case Write(k, v) => ApplyOne(stored, PutRow(k, c.ser(v)));
    case WriteMany(items) => PutRowsStore(c, stored, items);
    case WriteManyWithoutCache(items) => PutRowsStore(c, stored, items);
    case DeleteOne(k) => ApplyOne(stored, DropRow(k));
    case DeleteMany(keys) => DropEachDrops(stored, keys);
    case DeleteAll => ApplyOne(stored, DropRows);
  }

  /** Each row section is the write the call sends to a direct writer. */
  lemma RowSectionIsTheWrite<V>(cfg: Config<V>, rows: Rows, op: Op<V>, i: nat)
    requires op.DeleteAll? ==> Successor(cfg.prefix).Some?
    requires i < |RowsOf(cfg.codec, op)|
    ensures |Writes(cfg, op)| == |RowsOf(cfg.codec, op)|
    ensures Under(Apply(rows, Writes(cfg, op)[i]), cfg.prefix) == ApplyRow(Under(rows, cfg.prefix), RowsOf(cfg.codec, op)[i])
  {
    match RowsOf(cfg.codec, op)[i]
    case PutRow(k, data) => UnderPut(rows, cfg.prefix, k, data);
    case DropRow(k) => UnderDelete(rows, cfg.prefix, k);
    case DropRows =>
      DeletePrefixRange(rows, cfg.prefix);
      assert forall k: Key :: cfg.prefix <= cfg.prefix + k;
  }

  // Rows change at the keys of the call only

  predicate RowTouches(r: RowOp, k: Key) {
    r.DropRows? || r.key == k
  }

  lemma RowsTouch<V>(c: Codec<V>, op: Op<V>, i: nat, k: Key)
    requires i < |RowsOf(c, op)| && RowTouches(RowsOf(c, op)[i], k)
    ensures Touches(op, k)
  {
  }

  lemma {:induction false} UntouchedRow<V>(c: Codec<V>, stored: map<Key, Bytes>, op: Op<V>, m: nat, k: Key)
    requires m <= |RowsOf(c, op)| && !Touches(op, k)
    ensures SameRow(ApplyRows(stored, RowsOf(c, op)[..m]), stored, k)
    decreases m
  {
    if m > 0 {
      UntouchedRow(c, stored, op, m - 1, k);
      var rows := RowsOf(c, op);
      assert rows[..m][..m - 1] == rows[..m - 1];
      if RowTouches(rows[m - 1], k) {
        RowsTouch(c, op, m - 1, k);
      }
    }
  }

  lemma RowCongruent(a: map<Key, Bytes>, b: map<Key, Bytes>, r: RowOp, k: Key)
    requires SameRow(a, b, k)
    ensures SameRow(ApplyRow(a, r), ApplyRow(b, r), k)
  {
  }

  lemma {:induction false} RowsCongruent(a: map<Key, Bytes>, b: map<Key, Bytes>, rs: seq<RowOp>, k: Key)
    requires SameRow(a, b, k)
    ensures SameRow(ApplyRows(a, rs), ApplyRows(b, rs), k)
    decreases |rs|
  {
    if rs != [] {
      RowsCongruent(a, b, rs[..|rs| - 1], k);
      RowCongruent(ApplyRows(a, rs[..|rs| - 1]), ApplyRows(b, rs[..|rs| - 1]), rs[|rs| - 1], k);
    }
  }

  /** The plain map with the row sections among the first `n` sections of a call applied. */
  function Partly<V>(c: Codec<V>, plain: map<Key, Bytes>, op: Op<V>, n: nat): map<Key, Bytes>
    requires n <= |RowsOf(c, op)| + 1
  {
    ApplyRows(plain, RowsOf(c, op)[..RowsAmong(c, op, n)])
  }

  lemma PartlyEnds<V>(c: Codec<V>, plain: map<Key, Bytes>, op: Op<V>)
    ensures Partly(c, plain, op, 0) == plain
    ensures Partly(c, plain, op, |RowsOf(c, op)| + 1) == PlainStep(c, plain, op).0
  {
    var rows := RowsOf(c, op);
    assert rows[..|rows|] == rows;
    RowsAreThePlainStep(c, plain, op);
  }

  /** One section on. */
  lemma PartlyNext<V>(c: Codec<V>, plain: map<Key, Bytes>, op: Op<V>, n: nat)
    requires n <= |RowsOf(c, op)|
    ensures Partly(c, plain, op, n + 1) ==
            if n == (if CacheFirst(op) then 0 else |RowsOf(c, op)|) then Partly(c, plain, op, n)
            else ApplyRow(Partly(c, plain, op, n), RowsOf(c, op)[if CacheFirst(op) then n - 1 else n])
  {
    var rows, m := RowsOf(c, op), RowsAmong(c, op, n);
    if m < |rows| {
      ApplyNext(plain, rows, m);
    }
  }

  // Cache sections change the cache at the keys of the call, and elsewhere only drop entries

  /** The cached pair at `k`, if any, is the one stored. */
  ghost predicate AgreesAt<V>(c: Codec<V>, cache: map<Key, V>, stored: map<Key, Bytes>, k: Key) {
    k in cache ==> k in stored && c.de(stored[k]) == Some(cache[k])
  }

  ghost predicate KeepsAt<V>(before: map<Key, V>, after: map<Key, V>, k: Key) {
    k in after ==> k in before && after[k] == before[k]
  }

  function Serialised<V>(c: Codec<V>, cache: map<Key, V>): map<Key, Bytes> {
    map k | k in cache :: c.ser(cache[k])
  }

  lemma {:induction false} StoreManyAt<V>(c: Codec<V>, a: map<Key, Bytes>, b: map<Key, Bytes>, items: seq<(Key, V)>, k: Key)
    ensures Touches(WriteMany(items), k) ==> SameRow(StoreMany(c, a, items), StoreMany(c, b, items), k)
    ensures !Touches(WriteMany(items), k) ==> SameRow(StoreMany(c, a, items), a, k)
    decreases |items|
  {
    if items != [] {
      var n := |items| - 1;
      StoreManyAt(c, a, b, items[..n], k);
      if items[n].0 != k && Touches(WriteMany(items), k) {
        var i :| 0 <= i < |items| && items[i].0 == k;
        assert items[..n][i].0 == k;
      }
      if Touches(WriteMany(items[..n]), k) {
        var i :| 0 <= i < n && items[..n][i].0 == k;
        assert items[i].0 == k;
      }
    }
  }

  lemma InsertManySection<V(!new)>(cfg: Config<V>, before: map<Key, V>, items: seq<(Key, V)>, after: map<Key, V>, plain: map<Key, Bytes>, k: Key)
    requires Lossless(cfg.codec) && WithinPolicy(cfg.policy, before, cfg.size)
    requires InsertedMany(cfg.policy, cfg.size, before, items, after)
    ensures WithinPolicy(cfg.policy, after, cfg.size)
    ensures Touches(WriteMany(items), k) ==> AgreesAt(cfg.codec, after, StoreMany(cfg.codec, plain, items), k)
    ensures !Touches(WriteMany(items), k) ==> KeepsAt(before, after, k)
  {
    var image := Serialised(cfg.codec, before);
    InsertedManyAgrees(cfg, before, items, after, image);
    StoreManyAt(cfg.codec, image, plain, items, k);
    if k in after && !Touches(WriteMany(items), k) {
      assert k in image;
    }
  }

  /** The cache section of a mutating call. */
  lemma CacheSectionEffect<V(!new)>(cfg: Config<V>, before: map<Key, V>, op: Op<V>, after: map<Key, V>, plain: map<Key, Bytes>, k: Key)
    requires Lossless(cfg.codec) && WithinPolicy(cfg.policy, before, cfg.size)
    requires Mutates(op) && CacheSection(cfg, before, op, after)
    ensures WithinPolicy(cfg.policy, after, cfg.size)
    ensures Touches(op, k) ==> AgreesAt(cfg.codec, after, PlainStep(cfg.codec, plain, op).0, k)
    ensures !Touches(op, k) ==> KeepsAt(before, after, k)
  {
    match op
    case Write(key, v) => InsertedKeepsPolicy(cfg.policy, cfg.size, before, key, v, after);
    case WriteMany(items) => InsertManySection(cfg, before, items, after, plain, k);
    case WriteManyWithoutCache(_) => RemovedKeepsPolicy(cfg.policy, cfg.size, before, after);
    case DeleteOne(_) => RemovedKeepsPolicy(cfg.policy, cfg.size, before, after);
    case DeleteMany(_) => RemovedKeepsPolicy(cfg.policy, cfg.size, before, after);
    case DeleteAll => RemovedKeepsPolicy(cfg.policy, cfg.size, before, after);
  }

  // The invariant, against the plain map of the calls that are over

  ghost predicate Writing<V>(ops: seq<Op<V>>, phases: seq<Phase<V>>, d: nat)
    requires |phases| == |ops|
  {
    d < |ops| && Active(phases[d]) && Mutates(ops[d])
  }

  /** No mutating call on `k` is under way. */
  ghost predicate Quiet<V>(ops: seq<Op<V>>, phases: seq<Phase<V>>, k: Key)
    requires |phases| == |ops|
  {
    forall d | 0 <= d < |ops| && Writing(ops, phases, d) :: !Touches(ops[d], k)
  }

  ghost predicate QuietAt<V>(c: Codec<V>, s: Shared<V>, plain: map<Key, Bytes>, k: Key) {
    SameRow(s.stored, plain, k) && AgreesAt(c, s.cache, plain, k)
  }

  /** After `n` sections of a mutating call: its rows are partly written, and once its cache section is
      done its cached pairs are those it will store. */
  ghost predicate PartAt<V>(c: Codec<V>, s: Shared<V>, plain: map<Key, Bytes>, op: Op<V>, n: nat, k: Key)
    requires n <= |RowsOf(c, op)| + 1
  {
    && SameRow(s.stored, Partly(c, plain, op, n), k)
    && (n > 0 && CacheFirst(op) ==> AgreesAt(c, s.cache, PlainStep(c, plain, op).0, k))
  }

  ghost predicate CallInv<V>(c: Codec<V>, s: Shared<V>, plain: map<Key, Bytes>, op: Op<V>, p: Phase<V>) {
    match p
    case Idle => true
    case Missed => !Mutates(op)
    case Fetched(v) => op.Read? && PlainRead(c, plain, op.key) == Value(v)
    case Part(n) =>
      && Mutates(op) && 1 <= n <= |RowsOf(c, op)|
      && forall k | Touches(op, k) :: PartAt(c, s, plain, op, n, k)
    case Over(_) => true
  }

  ghost predicate Compatible<V>(ops: seq<Op<V>>, phases: seq<Phase<V>>)
    requires |phases| == |ops|
  {
    forall d, e | 0 <= d < |ops| && 0 <= e < |ops| && d != e && Active(phases[d]) && Active(phases[e]) ::
      !Conflict(ops[d], ops[e])
  }

  ghost predicate Inv<V(!new)>(cfg: Config<V>, ops: seq<Op<V>>, s: Shared<V>, plain: map<Key, Bytes>) {
    && |s.phases| == |ops|
    && WithinPolicy(cfg.policy, s.cache, cfg.size)
    && (forall k | Quiet(ops, s.phases, k) :: QuietAt(cfg.codec, s, plain, k))
    && (forall d | 0 <= d < |ops| :: CallInv(cfg.codec, s, plain, ops[d], s.phases[d]))
    && Compatible(ops, s.phases)
  }

  /** The plain map takes a call's whole effect at its last section. */
  function Advanced<V>(c: Codec<V>, plain: map<Key, Bytes>, op: Op<V>, p': Phase<V>): map<Key, Bytes> {
    if p'.Over? then PlainStep(c, plain, op).0 else plain
  }

  lemma UndisturbedIsQuiet<V>(ops: seq<Op<V>>, s: Shared<V>, c: nat, k: Key)
    requires |s.phases| == |ops| && c < |ops| && Undisturbed(ops, s, c)
    requires Touches(ops[c], k) && !(Writing(ops, s.phases, c))
    ensures Quiet(ops, s.phases, k)
  {
    forall d | 0 <= d < |ops| && Writing(ops, s.phases, d)
      ensures !Touches(ops[d], k)
    {
      assert !Conflict(ops[c], ops[d]);
    }
  }

  /** What a section of another call leaves alone. */
  ghost predicate Spares<V>(s: Shared<V>, plain: map<Key, Bytes>, s': Shared<V>, plain': map<Key, Bytes>, k: Key) {
    SameRow(s'.stored, s.stored, k) && SameRow(plain', plain, k) && KeepsAt(s.cache, s'.cache, k)
  }

  lemma AgreesAtSpared<V>(c: Codec<V>, a: map<Key, V>, b: map<Key, V>, plain: map<Key, Bytes>, plain': map<Key, Bytes>, k: Key)
    requires AgreesAt(c, a, plain, k) && KeepsAt(a, b, k) && SameRow(plain', plain, k)
    ensures AgreesAt(c, b, plain', k)
  {
  }

  lemma PartAtSpared<V>(c: Codec<V>, s: Shared<V>, plain: map<Key, Bytes>, s': Shared<V>, plain': map<Key, Bytes>, op: Op<V>, n: nat, k: Key)
    requires n <= |RowsOf(c, op)| + 1
    requires PartAt(c, s, plain, op, n, k) && Spares(s, plain, s', plain', k)
    ensures PartAt(c, s', plain', op, n, k)
  {
    RowsCongruent(plain', plain, RowsOf(c, op)[..RowsAmong(c, op, n)], k);
    RowsCongruent(plain', plain, RowsOf(c, op), k);
    RowsAreThePlainStep(c, plain, op);
    RowsAreThePlainStep(c, plain', op);
    if n > 0 && CacheFirst(op) {
      AgreesAtSpared(c, s.cache, s'.cache, PlainStep(c, plain, op).0, PlainStep(c, plain', op).0, k);
    }
  }

  /** The other calls' parts of the invariant carry over, where their keys are spared. */
  lemma CallInvSpared<V>(c: Codec<V>, s: Shared<V>, plain: map<Key, Bytes>, s': Shared<V>, plain': map<Key, Bytes>, op: Op<V>, p: Phase<V>)
    requires CallInv(c, s, plain, op, p)
    requires Mutates(op) && p.Part? ==> forall k | Touches(op, k) :: Spares(s, plain, s', plain', k)
    requires op.Read? && p.Fetched? ==> SameRow(plain', plain, op.key)
    ensures CallInv(c, s', plain', op, p)
  {
    if p.Part? {
      forall k | Touches(op, k)
        ensures PartAt(c, s', plain', op, p.sections, k)
      {
        PartAtSpared(c, s, plain, s', plain', op, p.sections, k);
      }
    }
  }

  lemma CompatibleStays<V>(ops: seq<Op<V>>, s: Shared<V>, c: nat, phases': seq<Phase<V>>)
    requires |s.phases| == |phases'| == |ops| && c < |ops| && Compatible(ops, s.phases) && Undisturbed(ops, s, c)
    requires forall d | 0 <= d < |ops| && d != c :: phases'[d] == s.phases[d]
    ensures Compatible(ops, phases')
  {
    forall d, e | 0 <= d < |ops| && 0 <= e < |ops| && d != e && Active(phases'[d]) && Active(phases'[e])
      ensures !Conflict(ops[d], ops[e])
    {
      if d == c {
        assert !Conflict(ops[c], ops[e]);
      } else if e == c {
        assert !Conflict(ops[c], ops[d]);
      }
    }
  }

  lemma QuietWithout<V>(ops: seq<Op<V>>, phases: seq<Phase<V>>, c: nat, phases': seq<Phase<V>>, k: Key)
    requires |phases| == |phases'| == |ops| && c < |ops|
    requires forall d | 0 <= d < |ops| && d != c :: phases'[d] == phases[d]
    requires Quiet(ops, phases', k) && (!Touches(ops[c], k) || !Mutates(ops[c]))
    ensures Quiet(ops, phases, k)
  {
    forall d | 0 <= d < |ops| && Writing(ops, phases, d)
      ensures !Touches(ops[d], k)
    {
      if d != c {
        assert Writing(ops, phases', d);
      }
    }
  }

  // A section of a mutating call

  lemma PartBefore<V(!new)>(cfg: Config<V>, ops: seq<Op<V>>, s: Shared<V>, plain: map<Key, Bytes>, c: nat, k: Key)
    requires Inv(cfg, ops, s, plain) && c < |ops| && Mutates(ops[c]) && Undisturbed(ops, s, c)
    requires s.phases[c].Idle? || s.phases[c].Part?
    requires Touches(ops[c], k)
    ensures SectionsDone(s.phases[c]) <= |RowsOf(cfg.codec, ops[c])|
    ensures PartAt(cfg.codec, s, plain, ops[c], SectionsDone(s.phases[c]), k)
  {
    assert CallInv(cfg.codec, s, plain, ops[c], s.phases[c]);
    if s.phases[c].Idle? {
      UndisturbedIsQuiet(ops, s, c, k);
      PartlyEnds(cfg.codec, plain, ops[c]);
    }
  }

  lemma PartAfter<V(!new)>(cfg: Config<V>, op: Op<V>, n: nat, s: Shared<V>, s': Shared<V>, plain: map<Key, Bytes>, k: Key)
    requires Lossless(cfg.codec) && WithinPolicy(cfg.policy, s.cache, cfg.size)
    requires Mutates(op) && MutatingSection(cfg, op, n, s, s') && Touches(op, k)
    requires PartAt(cfg.codec, s, plain, op, n, k)
    ensures PartAt(cfg.codec, s', plain, op, n + 1, k)
  {
    var rows := RowsOf(cfg.codec, op);
    PartlyNext(cfg.codec, plain, op, n);
    if n == (if CacheFirst(op) then 0 else |rows|) {
      CacheSectionEffect(cfg, s.cache, op, s'.cache, plain, k);
    } else {
      RowCongruent(s.stored, Partly(cfg.codec, plain, op, n), rows[if CacheFirst(op) then n - 1 else n], k);
    }
  }

  lemma SectionKeepsPolicy<V(!new)>(cfg: Config<V>, op: Op<V>, n: nat, s: Shared<V>, s': Shared<V>, plain: map<Key, Bytes>)
    requires Lossless(cfg.codec) && WithinPolicy(cfg.policy, s.cache, cfg.size)
    requires Mutates(op) && MutatingSection(cfg, op, n, s, s')
    ensures WithinPolicy(cfg.policy, s'.cache, cfg.size)
  {
    if n == (if CacheFirst(op) then 0 else |RowsOf(cfg.codec, op)|) {
      CacheSectionEffect(cfg, s.cache, op, s'.cache, plain, []);
    }
  }

  /** Keys the call does not touch are spared, also by its effect on the plain map. */
  lemma SectionSpares<V(!new)>(cfg: Config<V>, op: Op<V>, n: nat, s: Shared<V>, s': Shared<V>, plain: map<Key, Bytes>, k: Key)
    requires Lossless(cfg.codec) && WithinPolicy(cfg.policy, s.cache, cfg.size)
    requires Mutates(op) && MutatingSection(cfg, op, n, s, s') && !Touches(op, k)
    ensures Spares(s, plain, s', plain, k) && Spares(s, plain, s', PlainStep(cfg.codec, plain, op).0, k)
  {
    var rows := RowsOf(cfg.codec, op);
    if n == (if CacheFirst(op) then 0 else |rows|) {
      CacheSectionEffect(cfg, s.cache, op, s'.cache, plain, k);
    } else {
      var i := if CacheFirst(op) then n - 1 else n;
      if RowTouches(rows[i], k) {
        RowsTouch(cfg.codec, op, i, k);
      }
    }
    UntouchedRow(cfg.codec, plain, op, |rows|, k);
    assert rows[..|rows|] == rows;
    RowsAreThePlainStep(cfg.codec, plain, op);
  }

  /** When the last section is done, the call's keys are as the plain map has them. */
  lemma LastSection<V(!new)>(cfg: Config<V>, op: Op<V>, s: Shared<V>, s': Shared<V>, plain: map<Key, Bytes>, k: Key)
    requires Mutates(op) && MutatingSection(cfg, op, |RowsOf(cfg.codec, op)|, s, s')
    requires PartAt(cfg.codec, s', plain, op, |RowsOf(cfg.codec, op)| + 1, k)
    ensures QuietAt(cfg.codec, s', PlainStep(cfg.codec, plain, op).0, k)
  {
    PartlyEnds(cfg.codec, plain, op);
  }

  lemma MutatingQuiet<V(!new)>(cfg: Config<V>, ops: seq<Op<V>>, s: Shared<V>, plain: map<Key, Bytes>, c: nat, s': Shared<V>, k: Key)
    requires Lossless(cfg.codec)
    requires Inv(cfg, ops, s, plain) && Section(cfg, ops, s, c, s') && Undisturbed(ops, s, c)
    requires Mutates(ops[c]) && Quiet(ops, s'.phases, k)
    ensures QuietAt(cfg.codec, s', Advanced(cfg.codec, plain, ops[c], s'.phases[c]), k)
  {
    var op, n := ops[c], SectionsDone(s.phases[c]);
    if Touches(op, k) {
      assert !Writing(ops, s'.phases, c);
      MutatingPart(cfg, ops, s, plain, c, s', k);
      LastSection(cfg, op, s, s', plain, k);
    } else {
      QuietWithout(ops, s.phases, c, s'.phases, k);
      SectionSpares(cfg, op, n, s, s', plain, k);
      AgreesAtSpared(cfg.codec, s.cache, s'.cache, plain, Advanced(cfg.codec, plain, op, s'.phases[c]), k);
    }
  }

  lemma MutatingPart<V(!new)>(cfg: Config<V>, ops: seq<Op<V>>, s: Shared<V>, plain: map<Key, Bytes>, c: nat, s': Shared<V>, k: Key)
    requires Lossless(cfg.codec)
    requires Inv(cfg, ops, s, plain) && Section(cfg, ops, s, c, s') && Undisturbed(ops, s, c)
    requires Mutates(ops[c]) && Touches(ops[c], k)
    ensures SectionsDone(s.phases[c]) <= |RowsOf(cfg.codec, ops[c])|
    ensures PartAt(cfg.codec, s', plain, ops[c], SectionsDone(s.phases[c]) + 1, k)
  {
    PartBefore(cfg, ops, s, plain, c, k);
    PartAfter(cfg, ops[c], SectionsDone(s.phases[c]), s, s', plain, k);
  }

  lemma MutatingCall<V(!new)>(cfg: Config<V>, ops: seq<Op<V>>, s: Shared<V>, plain: map<Key, Bytes>, c: nat, s': Shared<V>)
    requires Lossless(cfg.codec)
    requires Inv(cfg, ops, s, plain) && Section(cfg, ops, s, c, s') && Undisturbed(ops, s, c)
    requires Mutates(ops[c])
    ensures CallInv(cfg.codec, s', Advanced(cfg.codec, plain, ops[c], s'.phases[c]), ops[c], s'.phases[c])
  {
    var n := SectionsDone(s.phases[c]);
    SectionOfMutating(cfg, ops, s, c, s');
    if n < |RowsOf(cfg.codec, ops[c])| {
      MutatingParts(cfg, ops, s, plain, c, s');
      PartIsInv(cfg.codec, s', plain, ops[c], n + 1);
    }
  }

  lemma SectionOfMutating<V(!new)>(cfg: Config<V>, ops: seq<Op<V>>, s: Shared<V>, c: nat, s': Shared<V>)
    requires Section(cfg, ops, s, c, s') && Mutates(ops[c])
    ensures var n := SectionsDone(s.phases[c]);
            && n <= |RowsOf(cfg.codec, ops[c])|
            && s'.phases[c] == if n == |RowsOf(cfg.codec, ops[c])| then Over(Done) else Part(n + 1)
  {
  }

  lemma PartIsInv<V>(c: Codec<V>, s: Shared<V>, plain: map<Key, Bytes>, op: Op<V>, n: nat)
    requires Mutates(op) && 1 <= n <= |RowsOf(c, op)| && forall k | Touches(op, k) :: PartAt(c, s, plain, op, n, k)
    ensures CallInv(c, s, plain, op, Part(n))
  {
  }

  lemma MutatingParts<V(!new)>(cfg: Config<V>, ops: seq<Op<V>>, s: Shared<V>, plain: map<Key, Bytes>, c: nat, s': Shared<V>)
    requires Lossless(cfg.codec)
    requires Inv(cfg, ops, s, plain) && Section(cfg, ops, s, c, s') && Undisturbed(ops, s, c)
    requires Mutates(ops[c]) && SectionsDone(s.phases[c]) <= |RowsOf(cfg.codec, ops[c])|
    ensures forall k | Touches(ops[c], k) :: PartAt(cfg.codec, s', plain, ops[c], SectionsDone(s.phases[c]) + 1, k)
  {
    forall k | Touches(ops[c], k)
      ensures PartAt(cfg.codec, s', plain, ops[c], SectionsDone(s.phases[c]) + 1, k)
    {
      MutatingPart(cfg, ops, s, plain, c, s', k);
    }
  }

  lemma MutatingOther<V(!new)>(cfg: Config<V>, ops: seq<Op<V>>, s: Shared<V>, plain: map<Key, Bytes>, c: nat, s': Shared<V>, d: nat)
    requires Lossless(cfg.codec)
    requires Inv(cfg, ops, s, plain) && Section(cfg, ops, s, c, s') && Undisturbed(ops, s, c)
    requires Mutates(ops[c]) && d < |ops| && d != c
    ensures CallInv(cfg.codec, s', Advanced(cfg.codec, plain, ops[c], s'.phases[c]), ops[d], s'.phases[d])
  {
    var plain' := Advanced(cfg.codec, plain, ops[c], s'.phases[c]);
    assert CallInv(cfg.codec, s, plain, ops[d], s.phases[d]);
    if Active(s.phases[d]) {
      assert !Conflict(ops[c], ops[d]);
      forall k | Touches(ops[d], k)
        ensures Spares(s, plain, s', plain', k)
      {
        assert !Touches(ops[c], k);
        SectionSpares(cfg, ops[c], SectionsDone(s.phases[c]), s, s', plain, k);
      }
      assert ops[d].Read? ==> Touches(ops[d], ops[d].key);
      CallInvSpared(cfg.codec, s, plain, s', plain', ops[d], s.phases[d]);
    }
  }

  lemma MutatingStep<V(!new)>(cfg: Config<V>, ops: seq<Op<V>>, s: Shared<V>, plain: map<Key, Bytes>, c: nat, s': Shared<V>)
    requires Lossless(cfg.codec)
    requires Inv(cfg, ops, s, plain) && Section(cfg, ops, s, c, s') && Undisturbed(ops, s, c)
    requires Mutates(ops[c])
    ensures Inv(cfg, ops, s', Advanced(cfg.codec, plain, ops[c], s'.phases[c]))
    ensures s'.phases[c].Over? ==> s'.phases[c].reply == PlainStep(cfg.codec, plain, ops[c]).1
  {
    var plain' := Advanced(cfg.codec, plain, ops[c], s'.phases[c]);
    SectionKeepsPolicy(cfg, ops[c], SectionsDone(s.phases[c]), s, s', plain);
    forall k | Quiet(ops, s'.phases, k)
      ensures QuietAt(cfg.codec, s', plain', k)
    {
      MutatingQuiet(cfg, ops, s, plain, c, s', k);
    }
    forall d | 0 <= d < |ops|
      ensures CallInv(cfg.codec, s', plain', ops[d], s'.phases[d])
    {
      if d == c {
        MutatingCall(cfg, ops, s, plain, c, s');
      } else {
        MutatingOther(cfg, ops, s, plain, c, s', d);
      }
    }
    CompatibleStays(ops, s, c, s'.phases);
  }

  // A section of a reading call

  /** Reading changes nothing but the cache, and there only adds the pair of its key as it is stored. */
  lemma ReadingEffect<V(!new)>(cfg: Config<V>, ops: seq<Op<V>>, s: Shared<V>, plain: map<Key, Bytes>, c: nat, s': Shared<V>)
    requires Inv(cfg, ops, s, plain) && Section(cfg, ops, s, c, s') && Undisturbed(ops, s, c)
    requires !Mutates(ops[c])
    ensures WithinPolicy(cfg.policy, s'.cache, cfg.size) && s'.stored == s.stored
    ensures forall k | k != ops[c].key :: KeepsAt(s.cache, s'.cache, k)
    ensures Quiet(ops, s.phases, ops[c].key) && QuietAt(cfg.codec, s', plain, ops[c].key)
    ensures CallInv(cfg.codec, s', plain, ops[c], s'.phases[c])
    ensures s'.phases[c].Over? ==> s'.phases[c].reply == PlainStep(cfg.codec, plain, ops[c]).1
  {
    var op := ops[c];
    UndisturbedIsQuiet(ops, s, c, op.key);
    assert QuietAt(cfg.codec, s, plain, op.key);
    assert CallInv(cfg.codec, s, plain, op, s.phases[c]);
    if s.phases[c].Fetched? {
      InsertedKeepsPolicy(cfg.policy, cfg.size, s.cache, op.key, s.phases[c].value, s'.cache);
    }
  }

  lemma ReadingOther<V(!new)>(cfg: Config<V>, ops: seq<Op<V>>, s: Shared<V>, plain: map<Key, Bytes>, c: nat, s': Shared<V>, d: nat)
    requires Inv(cfg, ops, s, plain) && Section(cfg, ops, s, c, s') && Undisturbed(ops, s, c)
    requires !Mutates(ops[c]) && d < |ops| && d != c
    ensures CallInv(cfg.codec, s', plain, ops[d], s'.phases[d])
  {
    ReadingEffect(cfg, ops, s, plain, c, s');
    assert CallInv(cfg.codec, s, plain, ops[d], s.phases[d]);
    if Writing(ops, s.phases, d) {
      assert !Touches(ops[d], ops[c].key);
    }
    CallInvSpared(cfg.codec, s, plain, s', plain, ops[d], s.phases[d]);
  }

  lemma ReadingStep<V(!new)>(cfg: Config<V>, ops: seq<Op<V>>, s: Shared<V>, plain: map<Key, Bytes>, c: nat, s': Shared<V>)
    requires Inv(cfg, ops, s, plain) && Section(cfg, ops, s, c, s') && Undisturbed(ops, s, c)
    requires !Mutates(ops[c])
    ensures Inv(cfg, ops, s', plain)
    ensures s'.phases[c].Over? ==> s'.phases[c].reply == PlainStep(cfg.codec, plain, ops[c]).1
  {
    ReadingEffect(cfg, ops, s, plain, c, s');
    forall k | Quiet(ops, s'.phases, k)
      ensures QuietAt(cfg.codec, s', plain, k)
    {
      QuietWithout(ops, s.phases, c, s'.phases, k);
      if k != ops[c].key {
        AgreesAtSpared(cfg.codec, s.cache, s'.cache, plain, plain, k);
      }
    }
    forall d | 0 <= d < |ops|
      ensures CallInv(cfg.codec, s', plain, ops[d], s'.phases[d])
    {
      if d != c {
        ReadingOther(cfg, ops, s, plain, c, s', d);
      }
    }
    CompatibleStays(ops, s, c, s'.phases);
  }

  lemma SectionStep<V(!new)>(cfg: Config<V>, ops: seq<Op<V>>, s: Shared<V>, plain: map<Key, Bytes>, c: nat, s': Shared<V>)
    requires Lossless(cfg.codec)
    requires Inv(cfg, ops, s, plain) && Section(cfg, ops, s, c, s') && Undisturbed(ops, s, c)
    ensures Inv(cfg, ops, s', Advanced(cfg.codec, plain, ops[c], s'.phases[c]))
    ensures s'.phases[c].Over? ==> s'.phases[c].reply == PlainStep(cfg.codec, plain, ops[c]).1
  {
    if Mutates(ops[c]) {
      MutatingStep(cfg, ops, s, plain, c, s');
    } else {
      ReadingStep(cfg, ops, s, plain, c, s');
    }
  }

  // Whole runs

  ghost predicate Started<V(!new)>(cfg: Config<V>, ops: seq<Op<V>>, s: Shared<V>) {
    && |s.phases| == |ops| && (forall d | 0 <= d < |ops| :: s.phases[d] == Idle)
    && s.log == []
    && WithinPolicy(cfg.policy, s.cache, cfg.size) && Agrees(cfg.codec, s.cache, s.stored)
  }

  predicate Numbers(log: seq<nat>, n: nat) {
    forall i | 0 <= i < |log| :: log[i] < n
  }

  /** The calls that are over, as operations in the order of their last sections. */
  function OpsOf<V>(ops: seq<Op<V>>, log: seq<nat>): seq<Op<V>>
    requires Numbers(log, |ops|)
  {
    seq(|log|, i requires 0 <= i < |log| => ops[log[i]])
  }

  /** The calls that are over are listed once each. */
  ghost predicate Listed<V>(ops: seq<Op<V>>, s: Shared<V>) {
    && |s.phases| == |ops| && Numbers(s.log, |ops|)
    && (forall d: nat | d < |ops| :: d in s.log <==> s.phases[d].Over?)
    && (forall i, j | 0 <= i < j < |s.log| :: s.log[i] != s.log[j])
  }

  /** They were answered so. */
  ghost predicate Replied<V>(s: Shared<V>, replies: seq<Reply<V>>) {
    |replies| == |s.log|
    && forall i | 0 <= i < |s.log| :: s.log[i] < |s.phases| && s.phases[s.log[i]] == Over(replies[i])
  }

  lemma PlainRunLast<V>(c: Codec<V>, stored: map<Key, Bytes>, ops: seq<Op<V>>, op: Op<V>)
    ensures var mid := PlainRun(c, stored, ops);
            PlainRun(c, stored, ops + [op]) == (PlainStep(c, mid.0, op).0, mid.1 + [PlainStep(c, mid.0, op).1])
  {
    assert (ops + [op])[..|ops|] == ops;
  }

  lemma ListGrows<V>(ops: seq<Op<V>>, s: Shared<V>, c: nat, s': Shared<V>)
    requires Listed(ops, s) && OneCallOn(ops, s, c, s')
    ensures Listed(ops, s')
  {
    assert c !in s.log;
    if s'.phases[c].Over? {
      assert forall d: nat :: d in s'.log <==> d in s.log || d == c;
    }
  }

  lemma RepliesGrow<V>(ops: seq<Op<V>>, s: Shared<V>, c: nat, s': Shared<V>, replies: seq<Reply<V>>, reply: Reply<V>)
    requires Listed(ops, s) && OneCallOn(ops, s, c, s')
    requires Replied(s, replies) && (s'.phases[c].Over? ==> s'.phases[c].reply == reply)
    ensures Replied(s', if s'.phases[c].Over? then replies + [reply] else replies)
  {
    assert c !in s.log;
  }

  lemma LogGrows<V>(cfg: Config<V>, ops: seq<Op<V>>, s: Shared<V>, c: nat, s': Shared<V>, stored: map<Key, Bytes>)
    requires Listed(ops, s) && OneCallOn(ops, s, c, s')
    requires Replied(s, PlainRun(cfg.codec, stored, OpsOf(ops, s.log)).1)
    requires var plain := PlainRun(cfg.codec, stored, OpsOf(ops, s.log)).0;
             s'.phases[c].Over? ==> s'.phases[c].reply == PlainStep(cfg.codec, plain, ops[c]).1
    ensures Listed(ops, s') && Replied(s', PlainRun(cfg.codec, stored, OpsOf(ops, s'.log)).1)
    ensures PlainRun(cfg.codec, stored, OpsOf(ops, s'.log)).0
            == Advanced(cfg.codec, PlainRun(cfg.codec, stored, OpsOf(ops, s.log)).0, ops[c], s'.phases[c])
  {
    var mid := PlainRun(cfg.codec, stored, OpsOf(ops, s.log));
    var (plain', reply) := PlainStep(cfg.codec, mid.0, ops[c]);
    ListGrows(ops, s, c, s');
    RepliesGrow(ops, s, c, s', mid.1, reply);
    if s'.phases[c].Over? {
      PlainRunLogged(cfg.codec, stored, ops, s.log, c);
      assert PlainRun(cfg.codec, stored, OpsOf(ops, s'.log)) == (plain', mid.1 + [reply]);
    }
  }

  lemma PlainRunLogged<V>(codec: Codec<V>, stored: map<Key, Bytes>, ops: seq<Op<V>>, log: seq<nat>, c: nat)
    requires Numbers(log, |ops|) && c < |ops|
    ensures var mid := PlainRun(codec, stored, OpsOf(ops, log));
            var (plain', reply) := PlainStep(codec, mid.0, ops[c]);
            PlainRun(codec, stored, OpsOf(ops, log + [c])) == (plain', mid.1 + [reply])
  {
    assert OpsOf(ops, log + [c]) == OpsOf(ops, log) + [ops[c]];
    PlainRunLast(codec, stored, OpsOf(ops, log), ops[c]);
  }

  lemma SameMap(a: map<Key, Bytes>, b: map<Key, Bytes>)
    requires forall k :: SameRow(a, b, k)
    ensures a == b
  {
    assert forall k :: k in a <==> k in b by {
      forall k
        ensures k in a <==> k in b
      {
        assert SameRow(a, b, k);
      }
    }
    forall k | k in a
      ensures a[k] == b[k]
    {
      assert SameRow(a, b, k);
    }
  }

  lemma StartInv<V(!new)>(cfg: Config<V>, ops: seq<Op<V>>, s: Shared<V>)
    requires Started(cfg, ops, s)
    ensures Inv(cfg, ops, s, s.stored) && Listed(ops, s)
    ensures PlainRun(cfg.codec, s.stored, OpsOf(ops, s.log)) == (s.stored, [])
  {
  }

  lemma {:induction false} RunKeepsInv<V(!new)>(cfg: Config<V>, ops: seq<Op<V>>, states: seq<Shared<V>>, callers: seq<nat>, t: nat)
    requires Lossless(cfg.codec)
    requires Run(cfg, ops, states, callers) && UndisturbedRun(cfg, ops, states, callers)
    requires Started(cfg, ops, states[0]) && t <= |callers|
    ensures Listed(ops, states[t]) && Replied(states[t], PlainRun(cfg.codec, states[0].stored, OpsOf(ops, states[t].log)).1)
    ensures Inv(cfg, ops, states[t], PlainRun(cfg.codec, states[0].stored, OpsOf(ops, states[t].log)).0)
    decreases t
  {
    if t == 0 {
      StartInv(cfg, ops, states[0]);
    } else {
      RunKeepsInv(cfg, ops, states, callers, t - 1);
      var s, c := states[t - 1], callers[t - 1];
      assert Section(cfg, ops, s, c, states[t]) && Undisturbed(ops, s, c);
      SectionStep(cfg, ops, s, PlainRun(cfg.codec, states[0].stored, OpsOf(ops, s.log)).0, c, states[t]);
      LogGrows(cfg, ops, s, c, states[t], states[0].stored);
    }
  }

  /** In every interleaving in which no section of a call falls between the first and the last section
      of a conflicting one: the calls that are over were answered as a plain map answers them in the
      order of their last sections; and whenever no call is under way, the rows are that map and every
      cached pair is stored. */
  lemma InterleavedRunRefines<V(!new)>(cfg: Config<V>, ops: seq<Op<V>>, states: seq<Shared<V>>, callers: seq<nat>)
    requires Lossless(cfg.codec)
    requires Run(cfg, ops, states, callers) && UndisturbedRun(cfg, ops, states, callers)
    requires Started(cfg, ops, states[0])
    ensures var s := states[|callers|];
            && Listed(ops, s) && Replied(s, PlainRun(cfg.codec, states[0].stored, OpsOf(ops, s.log)).1)
            && ((forall d | 0 <= d < |ops| :: !Active(s.phases[d])) ==>
                  && s.stored == PlainRun(cfg.codec, states[0].stored, OpsOf(ops, s.log)).0
                  && Agrees(cfg.codec, s.cache, s.stored))
  {
    RunKeepsInv(cfg, ops, states, callers, |callers|);
    var s := states[|callers|];
    var plain := PlainRun(cfg.codec, states[0].stored, OpsOf(ops, s.log)).0;
    if forall d | 0 <= d < |ops| :: !Active(s.phases[d]) {
      forall k: Key
        ensures SameRow(s.stored, plain, k) && AgreesAt(cfg.codec, s.cache, plain, k)
      {
        assert Quiet(ops, s.phases, k) && QuietAt(cfg.codec, s, plain, k);
      }
      SameMap(s.stored, plain);
      assert forall k | k in s.cache :: AgreesAt(cfg.codec, s.cache, plain, k);
    }
  }

  // Every run: the cache against the order of its own sections

  /** What the sections so far put into the cache, in their order and were nothing evicted: a fill puts
      what was fetched, a mutating call's cache section does to it what the call does to the plain map. */
  function CacheOrderNext<V>(cfg: Config<V>, op: Op<V>, p: Phase<V>, ordered: map<Key, Bytes>): map<Key, Bytes> {
    if !Mutates(op) then (if p.Fetched? then ordered[op.key := cfg.codec.ser(p.value)] else ordered)
    else if SectionsDone(p) != (if CacheFirst(op) then 0 else |RowsOf(cfg.codec, op)|) then ordered
    else if CacheFirst(op) then PlainStep(cfg.codec, ordered, op).0
    else map[]
  }

  ghost predicate Numbered<V>(ops: seq<Op<V>>, states: seq<Shared<V>>, callers: seq<nat>)
    requires |callers| < |states|
  {
    forall i | 0 <= i < |callers| :: callers[i] < |ops| == |states[i].phases|
  }

  lemma RunIsNumbered<V(!new)>(cfg: Config<V>, ops: seq<Op<V>>, states: seq<Shared<V>>, callers: seq<nat>)
    requires Run(cfg, ops, states, callers)
    ensures Numbered(ops, states, callers)
  {
    forall i | 0 <= i < |callers|
      ensures callers[i] < |ops| == |states[i].phases|
    {
      assert Section(cfg, ops, states[i], callers[i], states[i + 1]);
    }
  }

  ghost function CacheOrder<V>(cfg: Config<V>, ops: seq<Op<V>>, states: seq<Shared<V>>, callers: seq<nat>, t: nat): map<Key, Bytes>
    requires t <= |callers| < |states|
    requires Numbered(ops, states, callers)
  {
    if t == 0 then Serialised(cfg.codec, states[0].cache)
    else
      var c := callers[t - 1];
      CacheOrderNext(cfg, ops[c], states[t - 1].phases[c], CacheOrder(cfg, ops, states, callers, t - 1))
  }

  lemma SerialisedAgrees<V(!new)>(c: Codec<V>, cache: map<Key, V>)
    requires Lossless(c)
    ensures Agrees(c, cache, Serialised(c, cache))
  {
  }

  lemma CacheSectionOrdered<V(!new)>(cfg: Config<V>, before: map<Key, V>, op: Op<V>, after: map<Key, V>, ordered: map<Key, Bytes>)
    requires Lossless(cfg.codec) && WithinPolicy(cfg.policy, before, cfg.size) && Agrees(cfg.codec, before, ordered)
    requires Mutates(op) && CacheFirst(op) && CacheSection(cfg, before, op, after)
    ensures WithinPolicy(cfg.policy, after, cfg.size) && Agrees(cfg.codec, after, PlainStep(cfg.codec, ordered, op).0)
  {
    var rows := RowsOf(cfg.codec, op);
    assert rows[..|rows|] == rows;
    RowsAreThePlainStep(cfg.codec, ordered, op);
    CacheSectionEffect(cfg, before, op, after, ordered, []);
    forall k | k in after
      ensures AgreesAt(cfg.codec, after, PlainStep(cfg.codec, ordered, op).0, k)
    {
      CacheSectionEffect(cfg, before, op, after, ordered, k);
      if !Touches(op, k) {
        UntouchedRow(cfg.codec, ordered, op, |rows|, k);
      }
    }
  }

  lemma FillOrdered<V(!new)>(cfg: Config<V>, before: map<Key, V>, k: Key, v: V, after: map<Key, V>, ordered: map<Key, Bytes>)
    requires Lossless(cfg.codec) && WithinPolicy(cfg.policy, before, cfg.size) && Agrees(cfg.codec, before, ordered)
    requires Inserted(cfg.policy, cfg.size, before, k, v, after)
    ensures WithinPolicy(cfg.policy, after, cfg.size) && Agrees(cfg.codec, after, ordered[k := cfg.codec.ser(v)])
  {
    InsertedKeepsPolicy(cfg.policy, cfg.size, before, k, v, after);
  }

  lemma SectionOrdered<V(!new)>(cfg: Config<V>, ops: seq<Op<V>>, s: Shared<V>, c: nat, s': Shared<V>, ordered: map<Key, Bytes>)
    requires Lossless(cfg.codec) && Section(cfg, ops, s, c, s')
    requires WithinPolicy(cfg.policy, s.cache, cfg.size) && Agrees(cfg.codec, s.cache, ordered)
    ensures WithinPolicy(cfg.policy, s'.cache, cfg.size)
    ensures Agrees(cfg.codec, s'.cache, CacheOrderNext(cfg, ops[c], s.phases[c], ordered))
  {
    var op, p := ops[c], s.phases[c];
    if !Mutates(op) {
      if p.Fetched? {
        FillOrdered(cfg, s.cache, op.key, p.value, s'.cache, ordered);
      }
    } else if SectionsDone(p) == (if CacheFirst(op) then 0 else |RowsOf(cfg.codec, op)|) {
      if CacheFirst(op) {
        CacheSectionOrdered(cfg, s.cache, op, s'.cache, ordered);
      } else {
        RemovedKeepsPolicy(cfg.policy, cfg.size, s.cache, s'.cache);
      }
    }
  }

  lemma {:induction false} CacheFollowsOrder<V(!new)>(cfg: Config<V>, ops: seq<Op<V>>, states: seq<Shared<V>>, callers: seq<nat>, t: nat)
    requires Lossless(cfg.codec) && Run(cfg, ops, states, callers) && Started(cfg, ops, states[0]) && t <= |callers|
    ensures Numbered(ops, states, callers)
    ensures WithinPolicy(cfg.policy, states[t].cache, cfg.size)
    ensures Agrees(cfg.codec, states[t].cache, CacheOrder(cfg, ops, states, callers, t))
    decreases t
  {
    RunIsNumbered(cfg, ops, states, callers);
    if t == 0 {
      SerialisedAgrees(cfg.codec, states[0].cache);
      assert CacheOrder(cfg, ops, states, callers, 0) == Serialised(cfg.codec, states[0].cache);
    } else {
      CacheFollowsOrder(cfg, ops, states, callers, t - 1);
      SectionOrdered(cfg, ops, states[t - 1], callers[t - 1], states[t], CacheOrder(cfg, ops, states, callers, t - 1));
    }
  }

  /** For every interleaving, disturbed or not, and every key, the cached pair is the stored one if and
      only if it was evicted or the last cache section on the key and the last row section on it leave
      the same value. */
  lemma AgreesIffSameOrder<V(!new)>(cfg: Config<V>, ops: seq<Op<V>>, states: seq<Shared<V>>, callers: seq<nat>, t: nat, k: Key)
    requires Lossless(cfg.codec) && Run(cfg, ops, states, callers) && Started(cfg, ops, states[0]) && t <= |callers|
    ensures Numbered(ops, states, callers)
    ensures AgreesAt(cfg.codec, states[t].cache, states[t].stored, k) <==>
            k !in states[t].cache
            || PlainRead(cfg.codec, states[t].stored, k) == PlainRead(cfg.codec, CacheOrder(cfg, ops, states, callers, t), k)
  {
    CacheFollowsOrder(cfg, ops, states, callers, t);
  }
}
