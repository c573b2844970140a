/** Which concurrent calls of `CachedDbAccess` can leave a cached pair that is not stored: an exact
    condition on the kinds of the calls, for every interleaving of their sections. */
module Clashes {
  import opened ByteOrder
  import opened Cache
  import opened Codecs
  import opened Access
  import opened Interleaving

  datatype Kind =
    | Looking | Reading
    | Writing | WritingMany | Bypassing
    | Deleting | DeletingMany | DeletingAll

  function KindOf<V>(op: Op<V>): Kind {
    match op
    case Has(_) => Looking
    case Read(_) => Reading
    case Write(_, _) => Writing
    case WriteMany(_) => WritingMany
    case WriteManyWithoutCache(_) => Bypassing
    case DeleteOne(_) => Deleting
    case DeleteMany(_) => DeletingMany
    case DeleteAll => DeletingAll
  }

  /** Puts its pairs into the cache before it stores them. */
  predicate Inserting(a: Kind) {
    a.Writing? || a.WritingMany?
  }

  predicate Removing(a: Kind) {
    a.Deleting? || a.DeletingMany? || a.DeletingAll?
  }

  /** A read fills the cache with a row that may be rewritten meanwhile; a write caches a pair whose row
      another write or delete may replace. A call that writes around the cache clears it afterwards, and
      so clashes with reads only. */
  predicate KindsClash(a: Kind, b: Kind) {
    || (a.Reading? && (Inserting(b) || Removing(b) || b.Bypassing?))
    || (b.Reading? && (Inserting(a) || Removing(a) || a.Bypassing?))
    || (Inserting(a) && (Inserting(b) || Removing(b)))
    || (Inserting(b) && Removing(a))
  }

  /** No two calls on the key clash. */
  ghost predicate ClashFree<V>(ops: seq<Op<V>>, k: Key) {
    forall d, e | 0 <= d < |ops| && 0 <= e < |ops| && d != e && Touches(ops[d], k) && Touches(ops[e], k) ::
      !KindsClash(KindOf(ops[d]), KindOf(ops[e]))
  }

  // Without clashes, at one key

  /** Call `d` is on the key and between two of its sections. */
  ghost predicate Midway<V>(ops: seq<Op<V>>, phases: seq<Phase<V>>, d: int, k: Key)
    requires |phases| == |ops|
  {
    0 <= d < |ops| && phases[d].Part? && Touches(ops[d], k)
  }

  /** A call that will clear the cache is under way. */
  ghost predicate Bypassed<V>(ops: seq<Op<V>>, phases: seq<Phase<V>>, k: Key)
    requires |phases| == |ops|
  {
    exists d :: Midway(ops, phases, d, k) && KindOf(ops[d]).Bypassing?
  }

  /** What is known of a call on the key: a row it fetched is still the row, a pair it removed from the
      cache stays away, and a pair it cached is the one its remaining row sections lead to. */
  ghost predicate CallAt<V>(c: Codec<V>, s: Shared<V>, op: Op<V>, p: Phase<V>, k: Key, bypassed: bool) {
    match p
    case Fetched(v) => op.Read? && PlainRead(c, s.stored, k) == Value(v)
    case Part(n) =>
      && 1 <= n <= |RowsOf(c, op)|
      && (Removing(KindOf(op)) ==> k !in s.cache)
      && (Inserting(KindOf(op)) && !bypassed ==> AgreesAt(c, s.cache, ApplyRows(s.stored, RowsOf(c, op)[n - 1..]), k))
    case _ => true
  }

  /** No write of the key, and none around the cache, is under way. */
  ghost predicate Unwritten<V>(ops: seq<Op<V>>, phases: seq<Phase<V>>, k: Key)
    requires |phases| == |ops|
  {
    forall d | Midway(ops, phases, d, k) :: Removing(KindOf(ops[d]))
  }

  ghost predicate SettledAt<V(!new)>(cfg: Config<V>, ops: seq<Op<V>>, s: Shared<V>, k: Key) {
    && |s.phases| == |ops|
    && (forall d | 0 <= d < |ops| && Touches(ops[d], k) ::
          CallAt(cfg.codec, s, ops[d], s.phases[d], k, Bypassed(ops, s.phases, k)))
    && (Unwritten(ops, s.phases, k) ==> AgreesAt(cfg.codec, s.cache, s.stored, k))
  }

  lemma {:induction false} FirstRow(stored: map<Key, Bytes>, rs: seq<RowOp>)
    requires rs != []
    ensures ApplyRows(stored, rs) == ApplyRows(ApplyRow(stored, rs[0]), rs[1..])
    decreases |rs|
  {
    var n := |rs| - 1;
    if n > 0 {
      FirstRow(stored, rs[..n]);
      assert rs[..n][1..] == rs[1..][..n - 1];
    } else {
      assert rs[..0] == [] && rs[1..] == [];
    }
  }

  lemma CallAtSpared<V>(c: Codec<V>, s: Shared<V>, s': Shared<V>, op: Op<V>, p: Phase<V>, k: Key, bypassed: bool)
    requires CallAt(c, s, op, p, k, bypassed)
    requires SameRow(s'.stored, s.stored, k) && KeepsAt(s.cache, s'.cache, k)
    ensures CallAt(c, s', op, p, k, bypassed)
  {
    if p.Part? {
      RowsCongruent(s'.stored, s.stored, RowsOf(c, op)[p.sections - 1..], k);
    }
  }

  /** A section of a call on other keys. */
  lemma ElsewhereSpares<V(!new)>(cfg: Config<V>, ops: seq<Op<V>>, s: Shared<V>, c: nat, s': Shared<V>, k: Key)
    requires Lossless(cfg.codec) && WithinPolicy(cfg.policy, s.cache, cfg.size)
    requires Section(cfg, ops, s, c, s') && !Touches(ops[c], k)
    ensures SameRow(s'.stored, s.stored, k) && KeepsAt(s.cache, s'.cache, k)
  {
    if Mutates(ops[c]) {
      SectionSpares(cfg, ops[c], SectionsDone(s.phases[c]), s, s', s.stored, k);
    } else if s.phases[c].Fetched? {
      InsertedKeepsPolicy(cfg.policy, cfg.size, s.cache, ops[c].key, s.phases[c].value, s'.cache);
    }
  }

  lemma ElsewhereStep<V(!new)>(cfg: Config<V>, ops: seq<Op<V>>, s: Shared<V>, c: nat, s': Shared<V>, k: Key)
    requires Lossless(cfg.codec) && WithinPolicy(cfg.policy, s.cache, cfg.size)
    requires Section(cfg, ops, s, c, s') && !Touches(ops[c], k) && SettledAt(cfg, ops, s, k)
    ensures SettledAt(cfg, ops, s', k)
  {
    ElsewhereSpares(cfg, ops, s, c, s', k);
    SameMidway(ops, s, c, s', k);
    forall d | 0 <= d < |ops| && Touches(ops[d], k)
      ensures CallAt(cfg.codec, s', ops[d], s'.phases[d], k, Bypassed(ops, s'.phases, k))
    {
      CallAtSpared(cfg.codec, s, s', ops[d], s.phases[d], k, Bypassed(ops, s.phases, k));
    }
  }

  lemma SameMidway<V>(ops: seq<Op<V>>, s: Shared<V>, c: nat, s': Shared<V>, k: Key)
    requires OneCallOn(ops, s, c, s') && !Touches(ops[c], k)
    ensures Bypassed(ops, s'.phases, k) == Bypassed(ops, s.phases, k)
    ensures Unwritten(ops, s'.phases, k) == Unwritten(ops, s.phases, k)
  {
    assert forall d :: Midway(ops, s'.phases, d, k) == Midway(ops, s.phases, d, k);
  }

  /** A section of a reading call on the key. */
  lemma ReadingStepAt<V(!new)>(cfg: Config<V>, ops: seq<Op<V>>, s: Shared<V>, c: nat, s': Shared<V>, k: Key)
    requires WithinPolicy(cfg.policy, s.cache, cfg.size)
    requires Section(cfg, ops, s, c, s') && Touches(ops[c], k) && !Mutates(ops[c])
    requires ClashFree(ops, k) && SettledAt(cfg, ops, s, k)
    ensures SettledAt(cfg, ops, s', k)
  {
    assert CallAt(cfg.codec, s, ops[c], s.phases[c], k, Bypassed(ops, s.phases, k));
    assert forall d :: Midway(ops, s'.phases, d, k) == Midway(ops, s.phases, d, k);
    forall d | 0 <= d < |ops| && Touches(ops[d], k)
      ensures CallAt(cfg.codec, s', ops[d], s'.phases[d], k, Bypassed(ops, s.phases, k))
    {
      if d != c {
        BesideReading(cfg, ops, s, c, s', k, d);
      }
    }
    if s.phases[c].Fetched? {
      InsertedKeepsPolicy(cfg.policy, cfg.size, s.cache, k, s.phases[c].value, s'.cache);
    }
  }

  /** Beside a read no call changes the key. */
  lemma BesideReading<V(!new)>(cfg: Config<V>, ops: seq<Op<V>>, s: Shared<V>, c: nat, s': Shared<V>, k: Key, d: nat)
    requires Section(cfg, ops, s, c, s') && Touches(ops[c], k) && !Mutates(ops[c])
    requires ClashFree(ops, k) && SettledAt(cfg, ops, s, k) && d < |ops| && d != c && Touches(ops[d], k)
    ensures CallAt(cfg.codec, s', ops[d], s'.phases[d], k, Bypassed(ops, s.phases, k))
  {
    assert !KindsClash(KindOf(ops[c]), KindOf(ops[d]));
    assert CallAt(cfg.codec, s, ops[d], s.phases[d], k, Bypassed(ops, s.phases, k));
  }

  /** A section of a writing call on the key: beside it there are at most lookups and writes around the
      cache. */
  lemma InsertingStepAt<V(!new)>(cfg: Config<V>, ops: seq<Op<V>>, s: Shared<V>, c: nat, s': Shared<V>, k: Key)
    requires Lossless(cfg.codec) && WithinPolicy(cfg.policy, s.cache, cfg.size)
    requires Section(cfg, ops, s, c, s') && Touches(ops[c], k) && Inserting(KindOf(ops[c]))
    requires ClashFree(ops, k) && SettledAt(cfg, ops, s, k)
    ensures SettledAt(cfg, ops, s', k)
  {
    var bypassed := Bypassed(ops, s.phases, k);
    BypassedByOthers(ops, s, c, s', k);
    assert CallAt(cfg.codec, s, ops[c], s.phases[c], k, bypassed);
    InsertingCallAt(cfg, ops[c], s, s', s.phases[c], s'.phases[c], k, bypassed);
    forall d | 0 <= d < |ops| && Touches(ops[d], k)
      ensures CallAt(cfg.codec, s', ops[d], s'.phases[d], k, bypassed)
    {
      if d != c {
        BesideInserting(cfg, ops, s, c, s', k, d);
      }
    }
    if Unwritten(ops, s'.phases, k) {
      InsertingIsOver(cfg, ops, s, c, s', k);
    }
  }

  lemma BesideInserting<V(!new)>(cfg: Config<V>, ops: seq<Op<V>>, s: Shared<V>, c: nat, s': Shared<V>, k: Key, d: nat)
    requires OneCallOn(ops, s, c, s') && Touches(ops[c], k) && Inserting(KindOf(ops[c]))
    requires ClashFree(ops, k) && SettledAt(cfg, ops, s, k) && d < |ops| && d != c && Touches(ops[d], k)
    ensures CallAt(cfg.codec, s', ops[d], s'.phases[d], k, Bypassed(ops, s.phases, k))
  {
    assert !KindsClash(KindOf(ops[c]), KindOf(ops[d]));
    assert CallAt(cfg.codec, s, ops[d], s.phases[d], k, Bypassed(ops, s.phases, k));
  }

  lemma InsertingIsOver<V(!new)>(cfg: Config<V>, ops: seq<Op<V>>, s: Shared<V>, c: nat, s': Shared<V>, k: Key)
    requires Section(cfg, ops, s, c, s') && Touches(ops[c], k) && Inserting(KindOf(ops[c]))
    requires Unwritten(ops, s'.phases, k)
    ensures s'.phases[c].Over? && !Bypassed(ops, s.phases, k)
  {
    assert !Midway(ops, s'.phases, c, k);
    BypassedByOthers(ops, s, c, s', k);
  }

  lemma BypassedByOthers<V>(ops: seq<Op<V>>, s: Shared<V>, c: nat, s': Shared<V>, k: Key)
    requires OneCallOn(ops, s, c, s') && !KindOf(ops[c]).Bypassing?
    ensures Bypassed(ops, s'.phases, k) == Bypassed(ops, s.phases, k)
  {
    assert forall d | d != c :: Midway(ops, s'.phases, d, k) == Midway(ops, s.phases, d, k);
  }

  /** The pair it caches is the one its remaining row sections lead to, up to the last. */
  lemma InsertingCallAt<V(!new)>(
      cfg: Config<V>, op: Op<V>, s: Shared<V>, s': Shared<V>, p: Phase<V>, p': Phase<V>, k: Key, bypassed: bool)
    requires Lossless(cfg.codec) && WithinPolicy(cfg.policy, s.cache, cfg.size)
    requires Inserting(KindOf(op)) && Touches(op, k) && (p.Idle? || p.Part?)
    requires MutatingSection(cfg, op, SectionsDone(p), s, s')
    requires p' == if SectionsDone(p) == |RowsOf(cfg.codec, op)| then Over(Done) else Part(SectionsDone(p) + 1)
    requires CallAt(cfg.codec, s, op, p, k, bypassed)
    ensures CallAt(cfg.codec, s', op, p', k, bypassed)
    ensures p'.Over? && !bypassed ==> AgreesAt(cfg.codec, s'.cache, s'.stored, k)
  {
    var rows, n := RowsOf(cfg.codec, op), SectionsDone(p);
    if n == 0 {
      CachedIsToBeStored(cfg, op, s, s', k);
    } else {
      OneRowLess(s.stored, rows, n);
    }
  }

  lemma CachedIsToBeStored<V(!new)>(cfg: Config<V>, op: Op<V>, s: Shared<V>, s': Shared<V>, k: Key)
    requires Lossless(cfg.codec) && WithinPolicy(cfg.policy, s.cache, cfg.size)
    requires Inserting(KindOf(op)) && Touches(op, k) && MutatingSection(cfg, op, 0, s, s')
    ensures RowsOf(cfg.codec, op) != [] && s'.stored == s.stored
    ensures AgreesAt(cfg.codec, s'.cache, ApplyRows(s'.stored, RowsOf(cfg.codec, op)[0..]), k)
  {
    CacheSectionEffect(cfg, s.cache, op, s'.cache, s.stored, k);
    RowsAreThePlainStep(cfg.codec, s.stored, op);
    assert RowsOf(cfg.codec, op)[0..] == RowsOf(cfg.codec, op);
  }

  lemma OneRowLess(stored: map<Key, Bytes>, rows: seq<RowOp>, n: nat)
    requires 1 <= n <= |rows|
    ensures ApplyRows(stored, rows[n - 1..]) == ApplyRows(ApplyRow(stored, rows[n - 1]), rows[n..])
    ensures n == |rows| ==> ApplyRows(stored, rows[n - 1..]) == ApplyRow(stored, rows[n - 1])
  {
    FirstRow(stored, rows[n - 1..]);
    assert rows[n - 1..][0] == rows[n - 1] && rows[n - 1..][1..] == rows[n..];
  }

  /** A section of a deleting call: once its cache section is done nothing brings the pair back. */
  lemma RemovingStepAt<V(!new)>(cfg: Config<V>, ops: seq<Op<V>>, s: Shared<V>, c: nat, s': Shared<V>, k: Key)
    requires Lossless(cfg.codec) && WithinPolicy(cfg.policy, s.cache, cfg.size)
    requires Section(cfg, ops, s, c, s') && Touches(ops[c], k) && Removing(KindOf(ops[c]))
    requires ClashFree(ops, k) && SettledAt(cfg, ops, s, k)
    ensures SettledAt(cfg, ops, s', k)
  {
    RemovedAt(cfg, ops, s, c, s', k);
    BypassedByOthers(ops, s, c, s', k);
    forall d | 0 <= d < |ops| && Touches(ops[d], k)
      ensures CallAt(cfg.codec, s', ops[d], s'.phases[d], k, Bypassed(ops, s'.phases, k))
    {
      if d != c {
        assert !KindsClash(KindOf(ops[c]), KindOf(ops[d]));
        assert CallAt(cfg.codec, s, ops[d], s.phases[d], k, Bypassed(ops, s.phases, k));
      } else {
        assert CallAt(cfg.codec, s, ops[c], s.phases[c], k, Bypassed(ops, s.phases, k));
      }
    }
  }

  lemma RemovedAt<V(!new)>(cfg: Config<V>, ops: seq<Op<V>>, s: Shared<V>, c: nat, s': Shared<V>, k: Key)
    requires Lossless(cfg.codec) && WithinPolicy(cfg.policy, s.cache, cfg.size)
    requires Section(cfg, ops, s, c, s') && Touches(ops[c], k) && Removing(KindOf(ops[c]))
    requires SettledAt(cfg, ops, s, k)
    ensures k !in s'.cache
  {
    assert CallAt(cfg.codec, s, ops[c], s.phases[c], k, Bypassed(ops, s.phases, k));
    if SectionsDone(s.phases[c]) == 0 {
      CacheSectionEffect(cfg, s.cache, ops[c], s'.cache, map[], k);
    }
  }

  /** A section of a call that writes around the cache: it is itself under way, or has cleared the cache. */
  lemma BypassingStepAt<V(!new)>(cfg: Config<V>, ops: seq<Op<V>>, s: Shared<V>, c: nat, s': Shared<V>, k: Key)
    requires Section(cfg, ops, s, c, s') && Touches(ops[c], k) && KindOf(ops[c]).Bypassing?
    requires ClashFree(ops, k) && SettledAt(cfg, ops, s, k)
    ensures SettledAt(cfg, ops, s', k)
  {
    var rows, n := RowsOf(cfg.codec, ops[c]), SectionsDone(s.phases[c]);
    assert CallAt(cfg.codec, s, ops[c], s.phases[c], k, Bypassed(ops, s.phases, k));
    assert n == |rows| || Midway(ops, s'.phases, c, k);
    forall d | 0 <= d < |ops| && Touches(ops[d], k)
      ensures CallAt(cfg.codec, s', ops[d], s'.phases[d], k, Bypassed(ops, s'.phases, k))
    {
      if d != c {
        assert !KindsClash(KindOf(ops[c]), KindOf(ops[d]));
        assert CallAt(cfg.codec, s, ops[d], s.phases[d], k, Bypassed(ops, s.phases, k));
      }
    }
  }

  lemma ClashFreeStep<V(!new)>(cfg: Config<V>, ops: seq<Op<V>>, s: Shared<V>, c: nat, s': Shared<V>, k: Key)
    requires Lossless(cfg.codec) && WithinPolicy(cfg.policy, s.cache, cfg.size)
    requires Section(cfg, ops, s, c, s') && ClashFree(ops, k) && SettledAt(cfg, ops, s, k)
    ensures SettledAt(cfg, ops, s', k)
  {
    if !Touches(ops[c], k) {
      ElsewhereStep(cfg, ops, s, c, s', k);
    } else if !Mutates(ops[c]) {
      ReadingStepAt(cfg, ops, s, c, s', k);
    } else if Inserting(KindOf(ops[c])) {
      InsertingStepAt(cfg, ops, s, c, s', k);
    } else if Removing(KindOf(ops[c])) {
      RemovingStepAt(cfg, ops, s, c, s', k);
    } else {
      BypassingStepAt(cfg, ops, s, c, s', k);
    }
  }

  lemma {:induction false} ClashFreeRun<V(!new)>(cfg: Config<V>, ops: seq<Op<V>>, states: seq<Shared<V>>, callers: seq<nat>, t: nat, k: Key)
    requires Lossless(cfg.codec) && Interleaving.Run(cfg, ops, states, callers) && Started(cfg, ops, states[0])
    requires ClashFree(ops, k) && t <= |callers|
    ensures SettledAt(cfg, ops, states[t], k)
    decreases t
  {
    if t > 0 {
      ClashFreeRun(cfg, ops, states, callers, t - 1, k);
      CacheFollowsOrder(cfg, ops, states, callers, t - 1);
      ClashFreeStep(cfg, ops, states[t - 1], callers[t - 1], states[t], k);
    }
  }

  /** For any number of calls and every interleaving of their sections: if no two calls on a key clash,
      then whenever no call on it is under way its cached pair, if any, is the stored one. */
  lemma ClashFreeAgrees<V(!new)>(cfg: Config<V>, ops: seq<Op<V>>, states: seq<Shared<V>>, callers: seq<nat>, t: nat, k: Key)
    requires Lossless(cfg.codec) && Interleaving.Run(cfg, ops, states, callers) && Started(cfg, ops, states[0])
    requires ClashFree(ops, k) && t <= |callers|
    ensures |states[t].phases| == |ops|
    ensures (forall d | 0 <= d < |ops| && Touches(ops[d], k) :: !Active(states[t].phases[d])) ==>
              AgreesAt(cfg.codec, states[t].cache, states[t].stored, k)
  {
    ClashFreeRun(cfg, ops, states, callers, t, k);
  }

  // Calls that clash

  /** The cache after inserting the pair, when it holds at most that key. */
  function Kept<V>(cfg: Config<V>, k: Key, v: V): map<Key, V> {
    KeptAlone(cfg.policy, cfg.size, k, v)
  }

  ghost predicate EndsStale<V(!new)>(cfg: Config<V>, ops: seq<Op<V>>, states: seq<Shared<V>>, callers: seq<nat>) {
    && Interleaving.Run(cfg, ops, states, callers) && Started(cfg, ops, states[0])
    && (forall d | 0 <= d < |ops| :: d < |states[|callers|].phases| && states[|callers|].phases[d].Over?)
    && !Agrees(cfg.codec, states[|callers|].cache, states[|callers|].stored)
  }

  lemma OneMore<V(!new)>(cfg: Config<V>, ops: seq<Op<V>>, states: seq<Shared<V>>, callers: seq<nat>, c: nat, s': Shared<V>)
    requires Interleaving.Run(cfg, ops, states, callers) && Section(cfg, ops, states[|callers|], c, s')
    ensures Interleaving.Run(cfg, ops, states + [s'], callers + [c])
  {
    var all, who := states + [s'], callers + [c];
    forall i | 0 <= i < |who|
      ensures Section(cfg, ops, all[i], who[i], all[i + 1])
    {
      if i < |callers| {
        assert all[i] == states[i] && all[i + 1] == states[i + 1] && who[i] == callers[i];
      }
    }
  }

  lemma RunOfFive<V(!new)>(
      cfg: Config<V>, ops: seq<Op<V>>, i: nat, j: nat, s0: Shared<V>, s1: Shared<V>, s2: Shared<V>, s3: Shared<V>, s4: Shared<V>, s5: Shared<V>)
    requires Section(cfg, ops, s0, i, s1) && Section(cfg, ops, s1, i, s2)
    requires Section(cfg, ops, s2, j, s3) && Section(cfg, ops, s3, j, s4) && Section(cfg, ops, s4, i, s5)
    ensures Interleaving.Run(cfg, ops, [s0, s1, s2, s3, s4, s5], [i, i, j, j, i])
  {
    OneMore(cfg, ops, [s0], [], i, s1);
    OneMore(cfg, ops, [s0, s1], [i], i, s2);
    OneMore(cfg, ops, [s0, s1, s2], [i, i], j, s3);
    OneMore(cfg, ops, [s0, s1, s2, s3], [i, i, j], j, s4);
    OneMore(cfg, ops, [s0, s1, s2, s3, s4], [i, i, j, j], i, s5);
  }

  lemma RunOfFour<V(!new)>(
      cfg: Config<V>, ops: seq<Op<V>>, i: nat, j: nat, s0: Shared<V>, s1: Shared<V>, s2: Shared<V>, s3: Shared<V>, s4: Shared<V>)
    requires Section(cfg, ops, s0, i, s1) && Section(cfg, ops, s1, j, s2)
    requires Section(cfg, ops, s2, j, s3) && Section(cfg, ops, s3, i, s4)
    ensures Interleaving.Run(cfg, ops, [s0, s1, s2, s3, s4], [i, j, j, i])
  {
    OneMore(cfg, ops, [s0], [], i, s1);
    OneMore(cfg, ops, [s0, s1], [i], j, s2);
    OneMore(cfg, ops, [s0, s1, s2], [i, j], j, s3);
    OneMore(cfg, ops, [s0, s1, s2, s3], [i, j, j], i, s4);
  }

  /** A call of the kind on one key. */
  function Sample<V>(a: Kind, k: Key, v: V): (op: Op<V>)
    ensures KindOf(op) == a && Touches(op, k)
  {
    match a
    case Looking => Has(k)
    case Reading => Read(k)
    case Writing => Write(k, v)
    case WritingMany => assert [(k, v)][0].0 == k; WriteMany([(k, v)])
    case Bypassing => assert [(k, v)][0].0 == k; WriteManyWithoutCache([(k, v)])
    case Deleting => DeleteOne(k)
    case DeletingMany => DeleteMany([k])
    case DeletingAll => DeleteAll
  }

  /** The one row section of such a call. */
  function SampleRow<V>(c: Codec<V>, a: Kind, k: Key, v: V): RowOp {
    if a.DeletingAll? then DropRows else if Removing(a) then DropRow(k) else PutRow(k, c.ser(v))
  }

  lemma SampleRows<V>(c: Codec<V>, a: Kind, k: Key, v: V)
    requires Mutates(Sample(a, k, v))
    ensures RowsOf(c, Sample(a, k, v)) == [SampleRow(c, a, k, v)]
  {
  }

  lemma InsertedManyOnly<V(!new)>(cfg: Config<V>, before: map<Key, V>, k: Key, v: V)
    requires cfg.policy.maxSize >= 1 && before.Keys <= {k}
    ensures InsertedMany(cfg.policy, cfg.size, before, [(k, v)], Kept(cfg, k, v))
  {
    InsertedAlone(cfg.policy, cfg.size, before, k, v);
    assert InsertedMany(cfg.policy, cfg.size, before, [(k, v)][..0], before);
  }

  lemma RemovedOnly<V>(before: map<Key, V>, k: Key)
    requires before.Keys <= {k}
    ensures before - {k} == map[] && Without(before, [k]) == map[]
  {
    assert forall j | j in before :: j == k;
    assert Without(before, [k][..0]) == before;
  }

  /** Its cache section, on a cache that holds at most its key. */
  lemma SampleCacheSection<V(!new)>(cfg: Config<V>, cache: map<Key, V>, a: Kind, k: Key, v: V)
    requires cfg.policy.maxSize >= 1 && cache.Keys <= {k} && Mutates(Sample(a, k, v))
    ensures CacheSection(cfg, cache, Sample(a, k, v), if Inserting(a) then Kept(cfg, k, v) else map[])
  {
    match a
    case Writing => InsertedAlone(cfg.policy, cfg.size, cache, k, v);
    case WritingMany => InsertedManyOnly(cfg, cache, k, v);
    case Deleting => RemovedOnly(cache, k);
    case DeletingMany => RemovedOnly(cache, k);
    case _ =>
  }

  lemma TakesCacheSection<V(!new)>(cfg: Config<V>, ops: seq<Op<V>>, s: Shared<V>, c: nat, a: Kind, k: Key, v: V) returns (s': Shared<V>)
    requires cfg.policy.maxSize >= 1 && s.cache.Keys <= {k}
    requires |s.phases| == |ops| && c < |ops| && ops[c] == Sample(a, k, v) && (Inserting(a) || Removing(a))
    requires s.phases[c] == Idle
    ensures Section(cfg, ops, s, c, s')
    ensures s' == s.(cache := if Inserting(a) then Kept(cfg, k, v) else map[], phases := s.phases[c := Part(1)])
  {
    SampleRows(cfg.codec, a, k, v);
    SampleCacheSection(cfg, s.cache, a, k, v);
    s' := s.(cache := if Inserting(a) then Kept(cfg, k, v) else map[], phases := s.phases[c := Part(1)]);
  }

  lemma TakesRowSection<V(!new)>(cfg: Config<V>, ops: seq<Op<V>>, s: Shared<V>, c: nat, a: Kind, k: Key, v: V) returns (s': Shared<V>)
    requires |s.phases| == |ops| && c < |ops| && ops[c] == Sample(a, k, v) && (Inserting(a) || Removing(a))
    requires s.phases[c] == Part(1)
    ensures Section(cfg, ops, s, c, s')
    ensures s' == Shared(s.cache, ApplyRow(s.stored, SampleRow(cfg.codec, a, k, v)), s.phases[c := Over(Done)], s.log + [c])
  {
    SampleRows(cfg.codec, a, k, v);
    s' := Shared(s.cache, ApplyRow(s.stored, SampleRow(cfg.codec, a, k, v)), s.phases[c := Over(Done)], s.log + [c]);
  }

  /** The two sections of a mutating call, one after the other. */
  lemma TakesBoth<V(!new)>(cfg: Config<V>, ops: seq<Op<V>>, s: Shared<V>, c: nat, a: Kind, k: Key, v: V) returns (mid: Shared<V>, s': Shared<V>)
    requires cfg.policy.maxSize >= 1 && s.cache.Keys <= {k}
    requires |s.phases| == |ops| && c < |ops| && ops[c] == Sample(a, k, v) && Mutates(ops[c]) && s.phases[c] == Idle
    ensures Section(cfg, ops, s, c, mid) && Section(cfg, ops, mid, c, s')
    ensures s' == Shared(if Inserting(a) then Kept(cfg, k, v) else map[], ApplyRow(s.stored, SampleRow(cfg.codec, a, k, v)),
                         s.phases[c := Over(Done)], s.log + [c])
  {
    if a.Bypassing? {
      SampleRows(cfg.codec, a, k, v);
      mid := s.(stored := ApplyRow(s.stored, SampleRow(cfg.codec, a, k, v)), phases := s.phases[c := Part(1)]);
      s' := Shared(map[], mid.stored, mid.phases[c := Over(Done)], s.log + [c]);
    } else {
      mid := TakesCacheSection(cfg, ops, s, c, a, k, v);
      s' := TakesRowSection(cfg, ops, mid, c, a, k, v);
    }
    assert s'.phases == s.phases[c := Over(Done)];
  }

  lemma ReadMisses<V(!new)>(cfg: Config<V>, ops: seq<Op<V>>, s: Shared<V>, c: nat, k: Key) returns (s': Shared<V>)
    requires |s.phases| == |ops| && c < |ops| && ops[c] == Read(k) && s.phases[c] == Idle && k !in s.cache
    ensures Section(cfg, ops, s, c, s') && s' == s.(phases := s.phases[c := Missed])
  {
    s' := s.(phases := s.phases[c := Missed]);
  }

  lemma ReadFetches<V(!new)>(cfg: Config<V>, ops: seq<Op<V>>, s: Shared<V>, c: nat, k: Key, v: V) returns (s': Shared<V>)
    requires |s.phases| == |ops| && c < |ops| && ops[c] == Read(k) && s.phases[c] == Missed
    requires PlainRead(cfg.codec, s.stored, k) == Value(v)
    ensures Section(cfg, ops, s, c, s') && s' == s.(phases := s.phases[c := Fetched(v)])
  {
    s' := s.(phases := s.phases[c := Fetched(v)]);
  }

  lemma ReadMissesAndFetches<V(!new)>(cfg: Config<V>, ops: seq<Op<V>>, s: Shared<V>, c: nat, k: Key, v: V)
      returns (mid: Shared<V>, s': Shared<V>)
    requires |s.phases| == |ops| && c < |ops| && ops[c] == Read(k) && s.phases[c] == Idle && k !in s.cache
    requires PlainRead(cfg.codec, s.stored, k) == Value(v)
    ensures Section(cfg, ops, s, c, mid) && Section(cfg, ops, mid, c, s')
    ensures s' == s.(phases := s.phases[c := Fetched(v)])
  {
    mid := ReadMisses(cfg, ops, s, c, k);
    s' := ReadFetches(cfg, ops, mid, c, k, v);
    assert s'.phases == s.phases[c := Fetched(v)];
  }

  lemma ReadFills<V(!new)>(cfg: Config<V>, ops: seq<Op<V>>, s: Shared<V>, c: nat, k: Key, v: V) returns (s': Shared<V>)
    requires |s.phases| == |ops| && c < |ops| && ops[c] == Read(k) && s.phases[c] == Fetched(v)
    requires FitsAlone(cfg.policy, cfg.size, v) && s.cache.Keys <= {k}
    ensures Section(cfg, ops, s, c, s')
    ensures s' == Shared(map[k := v], s.stored, s.phases[c := Over(Value(v))], s.log + [c])
  {
    InsertedAlone(cfg.policy, cfg.size, s.cache, k, v);
    s' := Shared(map[k := v], s.stored, s.phases[c := Over(Value(v))], s.log + [c]);
  }

  /** Calls `i` and `j` are the two calls. */
  predicate Two<V>(ops: seq<Op<V>>, i: nat, j: nat) {
    |ops| == 2 && i < 2 && j < 2 && i != j
  }

  /** At the end the cache holds the key and the row is as the last row section left it. */
  ghost predicate Ends<V>(ops: seq<Op<V>>, s: Shared<V>, k: Key, cached: V, stored: map<Key, Bytes>) {
    && s.cache == map[k := cached] && s.stored == stored
    && |s.phases| == |ops| == 2 && s.phases[0].Over? && s.phases[1].Over?
  }

  lemma StaleEnd<V(!new)>(cfg: Config<V>, ops: seq<Op<V>>, states: seq<Shared<V>>, callers: seq<nat>, k: Key, cached: V)
    requires Interleaving.Run(cfg, ops, states, callers) && |ops| == 2
    requires states[0].phases == [Idle, Idle] && states[0].cache == map[] && states[0].log == []
    requires var s := states[|callers|];
             Ends(ops, s, k, cached, s.stored) && PlainRead(cfg.codec, s.stored, k) != Value(cached)
    ensures EndsStale(cfg, ops, states, callers)
  {
    var s := states[|callers|];
    assert k in s.cache && !AgreesAt(cfg.codec, s.cache, s.stored, k);
  }

  /** Fetch, change, fill: the reader puts the old value into the cache after the row was changed. */
  lemma FetchChangeFill<V(!new)>(cfg: Config<V>, ops: seq<Op<V>>, i: nat, j: nat, a: Kind, k: Key, was: V, now: V)
      returns (states: seq<Shared<V>>, callers: seq<nat>)
    requires Lossless(cfg.codec) && FitsAlone(cfg.policy, cfg.size, was) && was != now
    requires Two(ops, i, j) && ops[i] == Read(k) && ops[j] == Sample(a, k, now) && Mutates(ops[j])
    ensures EndsStale(cfg, ops, states, callers)
  {
    var s0: Shared<V> := Shared(map[], map[k := cfg.codec.ser(was)], [Idle, Idle], []);
    var s1, s2, s3, s4, s5 := FetchChangeFillSections(cfg, ops, i, j, s0, a, k, was, now);
    RunOfFive(cfg, ops, i, j, s0, s1, s2, s3, s4, s5);
    states, callers := [s0, s1, s2, s3, s4, s5], [i, i, j, j, i];
    StaleEnd(cfg, ops, states, callers, k, was);
  }

  lemma FetchChangeFillSections<V(!new)>(
      cfg: Config<V>, ops: seq<Op<V>>, i: nat, j: nat, s0: Shared<V>, a: Kind, k: Key, was: V, now: V)
      returns (s1: Shared<V>, s2: Shared<V>, s3: Shared<V>, s4: Shared<V>, s5: Shared<V>)
    requires FitsAlone(cfg.policy, cfg.size, was)
    requires Two(ops, i, j) && ops[i] == Read(k) && ops[j] == Sample(a, k, now) && Mutates(ops[j])
    requires s0.cache == map[] && s0.phases == [Idle, Idle] && PlainRead(cfg.codec, s0.stored, k) == Value(was)
    ensures Section(cfg, ops, s0, i, s1) && Section(cfg, ops, s1, i, s2)
    ensures Section(cfg, ops, s2, j, s3) && Section(cfg, ops, s3, j, s4) && Section(cfg, ops, s4, i, s5)
    ensures Ends(ops, s5, k, was, ApplyRow(s0.stored, SampleRow(cfg.codec, a, k, now)))
  {
    s1, s2 := ReadMissesAndFetches(cfg, ops, s0, i, k, was);
    s3, s4 := TakesBoth(cfg, ops, s2, j, a, k, now);
    s5 := ReadFills(cfg, ops, s4, i, k, was);
  }

  /** A whole write between the two sections of a write or delete: its value stays cached and its row
      does not stay. */
  lemma WriteInside<V(!new)>(cfg: Config<V>, ops: seq<Op<V>>, i: nat, j: nat, a: Kind, b: Kind, k: Key, va: V, vb: V)
      returns (states: seq<Shared<V>>, callers: seq<nat>)
    requires Lossless(cfg.codec) && FitsAlone(cfg.policy, cfg.size, vb) && va != vb
    requires Two(ops, i, j) && ops[i] == Sample(a, k, va) && (Inserting(a) || Removing(a))
    requires ops[j] == Sample(b, k, vb) && Inserting(b)
    ensures EndsStale(cfg, ops, states, callers)
  {
    var s0: Shared<V> := Shared(map[], map[], [Idle, Idle], []);
    var s1, s2, s3, s4 := WriteInsideSections(cfg, ops, i, j, s0, a, b, k, va, vb);
    RunOfFour(cfg, ops, i, j, s0, s1, s2, s3, s4);
    states, callers := [s0, s1, s2, s3, s4], [i, j, j, i];
    StaleEnd(cfg, ops, states, callers, k, vb);
  }

  lemma WriteInsideSections<V(!new)>(
      cfg: Config<V>, ops: seq<Op<V>>, i: nat, j: nat, s0: Shared<V>, a: Kind, b: Kind, k: Key, va: V, vb: V)
      returns (s1: Shared<V>, s2: Shared<V>, s3: Shared<V>, s4: Shared<V>)
    requires FitsAlone(cfg.policy, cfg.size, vb)
    requires Two(ops, i, j) && ops[i] == Sample(a, k, va) && (Inserting(a) || Removing(a))
    requires ops[j] == Sample(b, k, vb) && Inserting(b)
    requires s0.cache == map[] && s0.phases == [Idle, Idle]
    ensures Section(cfg, ops, s0, i, s1) && Section(cfg, ops, s1, j, s2)
    ensures Section(cfg, ops, s2, j, s3) && Section(cfg, ops, s3, i, s4)
    ensures Ends(ops, s4, k, vb, ApplyRow(s0.stored[k := cfg.codec.ser(vb)], SampleRow(cfg.codec, a, k, va)))
  {
    s1 := TakesCacheSection(cfg, ops, s0, i, a, k, va);
    s2, s3 := TakesBoth(cfg, ops, s1, j, b, k, vb);
    s4 := TakesRowSection(cfg, ops, s3, i, a, k, va);
  }

  /** A whole read between the two sections of a delete: it caches a row that is about to go. */
  lemma ReadInside<V(!new)>(cfg: Config<V>, a: Kind, k: Key, v: V) returns (states: seq<Shared<V>>, callers: seq<nat>)
    requires Lossless(cfg.codec) && FitsAlone(cfg.policy, cfg.size, v) && Removing(a)
    ensures EndsStale(cfg, [Sample(a, k, v), Read(k)], states, callers)
  {
    var ops := [Sample(a, k, v), Read(k)];
    var s0: Shared<V> := Shared(map[], map[k := cfg.codec.ser(v)], [Idle, Idle], []);
    var s1, s2, s3, s4, s5 := ReadInsideSections(cfg, ops, s0, a, k, v);
    RunOfReadInside(cfg, ops, s0, s1, s2, s3, s4, s5);
    states, callers := [s0, s1, s2, s3, s4, s5], [0, 1, 1, 1, 0];
    StaleEnd(cfg, ops, states, callers, k, v);
  }

  lemma ReadInsideSections<V(!new)>(cfg: Config<V>, ops: seq<Op<V>>, s0: Shared<V>, a: Kind, k: Key, v: V)
      returns (s1: Shared<V>, s2: Shared<V>, s3: Shared<V>, s4: Shared<V>, s5: Shared<V>)
    requires FitsAlone(cfg.policy, cfg.size, v) && Removing(a)
    requires |ops| == 2 && ops[0] == Sample(a, k, v) && ops[1] == Read(k)
    requires s0.cache == map[] && s0.phases == [Idle, Idle] && PlainRead(cfg.codec, s0.stored, k) == Value(v)
    ensures Section(cfg, ops, s0, 0, s1) && Section(cfg, ops, s1, 1, s2)
    ensures Section(cfg, ops, s2, 1, s3) && Section(cfg, ops, s3, 1, s4) && Section(cfg, ops, s4, 0, s5)
    ensures Ends(ops, s5, k, v, ApplyRow(s0.stored, SampleRow(cfg.codec, a, k, v)))
  {
    s1 := TakesCacheSection(cfg, ops, s0, 0, a, k, v);
    s2, s3 := ReadMissesAndFetches(cfg, ops, s1, 1, k, v);
    s4 := ReadFills(cfg, ops, s3, 1, k, v);
    s5 := TakesRowSection(cfg, ops, s4, 0, a, k, v);
  }

  lemma RunOfReadInside<V(!new)>(
      cfg: Config<V>, ops: seq<Op<V>>, s0: Shared<V>, s1: Shared<V>, s2: Shared<V>, s3: Shared<V>, s4: Shared<V>, s5: Shared<V>)
    requires Section(cfg, ops, s0, 0, s1) && Section(cfg, ops, s1, 1, s2)
    requires Section(cfg, ops, s2, 1, s3) && Section(cfg, ops, s3, 1, s4) && Section(cfg, ops, s4, 0, s5)
    ensures Interleaving.Run(cfg, ops, [s0, s1, s2, s3, s4, s5], [0, 1, 1, 1, 0])
  {
    OneMore(cfg, ops, [s0], [], 0, s1);
    OneMore(cfg, ops, [s0, s1], [0], 1, s2);
    OneMore(cfg, ops, [s0, s1, s2], [0, 1], 1, s3);
    OneMore(cfg, ops, [s0, s1, s2, s3], [0, 1, 1], 1, s4);
    OneMore(cfg, ops, [s0, s1, s2, s3, s4], [0, 1, 1, 1], 0, s5);
  }

  ghost predicate CanEndStale<V(!new)>(cfg: Config<V>, a: Kind, b: Kind) {
    exists x, y, states, callers :: KindOf(x) == a && KindOf(y) == b && EndsStale(cfg, [x, y], states, callers)
  }

  lemma ClashingEndsStale<V(!new)>(cfg: Config<V>, a: Kind, b: Kind, k: Key, v: V, w: V)
    requires Lossless(cfg.codec) && FitsAlone(cfg.policy, cfg.size, v) && v != w
    requires KindsClash(a, b)
    ensures CanEndStale(cfg, a, b)
  {
    var first := !b.Reading? && (a.Reading? || !Inserting(b));    // the cached value is that of the first call
    var x, y := Sample(a, k, if first then v else w), Sample(b, k, if first then w else v);
    var states, callers;
    if a.Reading? {
      states, callers := FetchChangeFill(cfg, [x, y], 0, 1, b, k, v, w);
    } else if b.Reading? {
      states, callers := FetchChangeFill(cfg, [x, y], 1, 0, a, k, v, w);
    } else if Inserting(b) {
      states, callers := WriteInside(cfg, [x, y], 0, 1, a, b, k, w, v);
    } else {
      states, callers := WriteInside(cfg, [x, y], 1, 0, b, a, k, w, v);
    }
    assert KindOf(x) == a && KindOf(y) == b && EndsStale(cfg, [x, y], states, callers);
  }

  lemma OthersEndFresh<V(!new)>(cfg: Config<V>, x: Op<V>, y: Op<V>, states: seq<Shared<V>>, callers: seq<nat>)
    requires Lossless(cfg.codec) && !KindsClash(KindOf(x), KindOf(y))
    ensures !EndsStale(cfg, [x, y], states, callers)
  {
    if Interleaving.Run(cfg, [x, y], states, callers) && Started(cfg, [x, y], states[0]) {
      PairEndsFresh(cfg, [x, y], states, callers);
    }
  }

  lemma PairEndsFresh<V(!new)>(cfg: Config<V>, ops: seq<Op<V>>, states: seq<Shared<V>>, callers: seq<nat>)
    requires Lossless(cfg.codec) && |ops| == 2 && !KindsClash(KindOf(ops[0]), KindOf(ops[1]))
    requires Interleaving.Run(cfg, ops, states, callers) && Started(cfg, ops, states[0])
    ensures |states[|callers|].phases| == 2
    ensures (forall d | 0 <= d < 2 :: states[|callers|].phases[d].Over?) ==>
              Agrees(cfg.codec, states[|callers|].cache, states[|callers|].stored)
  {
    var s := states[|callers|];
    ClashFreeAgrees(cfg, ops, states, callers, |callers|, []);
    if forall d | 0 <= d < 2 :: s.phases[d].Over? {
      forall k | k in s.cache
        ensures AgreesAt(cfg.codec, s.cache, s.stored, k)
      {
        ClashFreeAgrees(cfg, ops, states, callers, |callers|, k);
      }
    }
  }

  lemma StaleNeedsRoom<V(!new)>(cfg: Config<V>, ops: seq<Op<V>>, states: seq<Shared<V>>, callers: seq<nat>) returns (v: V)
    requires Lossless(cfg.codec) && EndsStale(cfg, ops, states, callers)
    ensures FitsAlone(cfg.policy, cfg.size, v)
  {
    var s := states[|callers|];
    CacheFollowsOrder(cfg, ops, states, callers, |callers|);
    var k :| k in s.cache;
    HeldFitsAlone(cfg.policy, cfg.size, s.cache, k);
    v := s.cache[k];
  }

  /** Two calls of given kinds can leave a cached pair that is not stored, for some keys, values, rows and
      interleaving, if and only if the kinds clash and the cache has room for some value. There are two
      values at least. */
  lemma StaleIffKindsClash<V(!new)>(cfg: Config<V>, a: Kind, b: Kind, v: V, w: V)
    requires Lossless(cfg.codec) && v != w
    ensures CanEndStale(cfg, a, b) <==> KindsClash(a, b) && exists u :: FitsAlone(cfg.policy, cfg.size, u)
  {
    if KindsClash(a, b) {
      if u :| FitsAlone(cfg.policy, cfg.size, u) {
        ClashingEndsStale(cfg, a, b, [], u, if u == v then w else v);
      }
      if CanEndStale(cfg, a, b) {
        var x, y, states, callers :| KindOf(x) == a && KindOf(y) == b && EndsStale(cfg, [x, y], states, callers);
        var u := StaleNeedsRoom(cfg, [x, y], states, callers);
      }
    } else {
      forall x, y, states, callers | KindOf(x) == a && KindOf(y) == b
        ensures !EndsStale(cfg, [x, y], states, callers)
      {
        OthersEndFresh(cfg, x, y, states, callers);
      }
    }
  }
}
