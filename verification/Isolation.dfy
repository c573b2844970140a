/** Stores beside each other in one database: key-value stores and set stores under prefixes of which
    none extends another do not see each other's writes, however their calls interleave. */
module Isolation {
  import opened Options
  import opened ByteOrder
  import opened Database
  import opened Codecs
  import Access
  import SetAccess

  ghost predicate Incomparable(p: Bytes, q: Bytes) {
    !(p <= q) && !(q <= p)
  }

  /** The write goes to rows under the prefix. */
  predicate AimsUnder(prefix: Bytes, op: WriteOp) {
    match op
    case Put(k, _) => prefix <= k
    case Delete(k) => prefix <= k
    case DeleteRange(from, to) => prefix <= from && Successor(from) == Some(to)
  }

  ghost predicate SameUnder(a: Rows, b: Rows, q: Bytes) {
    forall r: Bytes | q <= r :: Access.SameRow(a, b, r)
  }

  lemma UnderSame(a: Rows, b: Rows, q: Bytes)
    requires SameUnder(a, b, q)
    ensures Access.Under(a, q) == Access.Under(b, q)
  {
    forall k: Bytes
      ensures Access.SameRow(a, b, q + k)
    {
      assert q <= q + k;
    }
  }

  lemma PrefixTransitive(p: Bytes, q: Bytes, r: Bytes)
    requires p <= q && q <= r
    ensures p <= r
  {
    assert p == q[..|p|] == r[..|p|];
  }

  lemma WriteElsewhere(rows: Rows, p: Bytes, op: WriteOp, r: Bytes)
    requires AimsUnder(p, op) && !(p <= r)
    ensures Access.SameRow(Apply(rows, op), rows, r)
  {
    if op.DeleteRange? {
      DeletePrefixRange(rows, op.from);
      if op.from <= r {
        PrefixTransitive(p, op.from, r);
      }
    }
  }

  lemma WriteSpares(rows: Rows, p: Bytes, op: WriteOp, q: Bytes)
    requires AimsUnder(p, op) && Incomparable(p, q)
    ensures SameUnder(Apply(rows, op), rows, q)
  {
    forall r: Bytes | q <= r
      ensures Access.SameRow(Apply(rows, op), rows, r)
    {
      if p <= r {
        PrefixesOfOneKey(p, q, r);
      }
      WriteElsewhere(rows, p, op, r);
    }
  }

  lemma WriteCongruent(a: Rows, b: Rows, op: WriteOp, q: Bytes)
    requires SameUnder(a, b, q)
    ensures SameUnder(Apply(a, op), Apply(b, op), q)
  {
    forall r: Bytes | q <= r
      ensures Access.SameRow(Apply(a, op), Apply(b, op), r)
    {
      assert Access.SameRow(a, b, r);
    }
  }

  // Any interleaving of the writes of several stores

  /** A write, with the prefix of the store that sent it. */
  datatype Sent = Sent(store: Bytes, op: WriteOp)

  function AllOf(writes: seq<Sent>): seq<WriteOp> {
    if writes == [] then [] else AllOf(writes[..|writes| - 1]) + [writes[|writes| - 1].op]
  }

  function SentBy(writes: seq<Sent>, q: Bytes): seq<WriteOp> {
    if writes == [] then []
    else
      var before, last := SentBy(writes[..|writes| - 1], q), writes[|writes| - 1];
      if last.store == q then before + [last.op] else before
  }

  lemma ApplyLast(rows: Rows, ops: seq<WriteOp>, op: WriteOp)
    ensures ApplyAll(rows, ops + [op]) == Apply(ApplyAll(rows, ops), op)
  {
    assert (ops + [op])[..|ops|] == ops;
  }

  /** Each write goes under its store's prefix, and the other stores' prefixes are not comparable to q. */
  ghost predicate Apart(writes: seq<Sent>, q: Bytes) {
    && (forall i | 0 <= i < |writes| :: AimsUnder(writes[i].store, writes[i].op))
    && (forall i | 0 <= i < |writes| :: writes[i].store == q || Incomparable(writes[i].store, q))
  }

  lemma {:induction false} OwnWritesDecide(rows: Rows, writes: seq<Sent>, q: Bytes)
    requires Apart(writes, q)
    ensures SameUnder(ApplyAll(rows, AllOf(writes)), ApplyAll(rows, SentBy(writes, q)), q)
    decreases |writes|
  {
    if writes != [] {
      var n := |writes| - 1;
      OwnWritesDecide(rows, writes[..n], q);
      var all, own, op := ApplyAll(rows, AllOf(writes[..n])), ApplyAll(rows, SentBy(writes[..n], q)), writes[n].op;
      ApplyLast(rows, AllOf(writes[..n]), op);
      if writes[n].store == q {
        ApplyLast(rows, SentBy(writes[..n], q), op);
        WriteCongruent(all, own, op, q);
      } else {
        WriteSpares(all, writes[n].store, op, q);
        SameUnderTransitive(Apply(all, op), all, own, q);
      }
    }
  }

  lemma SameUnderTransitive(a: Rows, b: Rows, c: Rows, q: Bytes)
    requires SameUnder(a, b, q) && SameUnder(b, c, q)
    ensures SameUnder(a, c, q)
  {
    forall r: Bytes | q <= r
      ensures Access.SameRow(a, c, r)
    {
      assert Access.SameRow(a, b, r) && Access.SameRow(b, c, r);
    }
  }

  /** However the writes of stores under pairwise incomparable prefixes interleave, each store's part of
      the database is what its own writes alone produce. */
  lemma StoresAreIsolated(rows: Rows, writes: seq<Sent>, q: Bytes)
    requires Apart(writes, q)
    ensures Access.Under(ApplyAll(rows, AllOf(writes)), q) == Access.Under(ApplyAll(rows, SentBy(writes, q)), q)
  {
    OwnWritesDecide(rows, writes, q);
    UnderSame(ApplyAll(rows, AllOf(writes)), ApplyAll(rows, SentBy(writes, q)), q);
  }

  // What the calls of a store send

  /** What the stores beside q send. */
  ghost predicate Beside(writes: seq<Sent>, q: Bytes) {
    Apart(writes, q) && forall i | 0 <= i < |writes| :: writes[i].store != q
  }

  function From(store: Bytes, ops: seq<WriteOp>): seq<Sent> {
    seq(|ops|, i requires 0 <= i < |ops| => Sent(store, ops[i]))
  }

  lemma {:induction false} AllFrom(store: Bytes, ops: seq<WriteOp>)
    ensures AllOf(From(store, ops)) == ops
    decreases |ops|
  {
    if ops != [] {
      var n := |ops| - 1;
      AllFrom(store, ops[..n]);
      assert From(store, ops)[..n] == From(store, ops[..n]);
      assert ops == ops[..n] + [ops[n]];
    }
  }

  lemma SentFrom(store: Bytes, ops: seq<WriteOp>, q: Bytes)
    requires (forall i | 0 <= i < |ops| :: AimsUnder(store, ops[i])) && Incomparable(store, q)
    ensures Beside(From(store, ops), q) && AllOf(From(store, ops)) == ops
  {
    AllFrom(store, ops);
  }

  lemma AccessAims<V>(cfg: Access.Config<V>, op: Access.Op<V>, i: nat)
    requires op.DeleteAll? ==> Successor(cfg.prefix).Some?
    requires i < |Access.Writes(cfg, op)|
    ensures AimsUnder(cfg.prefix, Access.Writes(cfg, op)[i])
  {
  }

  /** What a call of a key-value store sends stays apart from every prefix not comparable to its own. */
  lemma CallSends<V(!new)>(
      cfg: Access.Config<V>, s: Access.State<V>, op: Access.Op<V>, s': Access.State<V>, reply: Access.Reply<V>, q: Bytes)
      returns (writes: seq<Sent>)
    requires Access.Step(cfg, true, s, op, s', reply) && Incomparable(cfg.prefix, q)
    ensures s'.rows == ApplyAll(s.rows, AllOf(writes)) && Beside(writes, q)
  {
    var ops := Access.Writes(cfg, op);
    forall i | 0 <= i < |ops|
      ensures AimsUnder(cfg.prefix, ops[i])
    {
      AccessAims(cfg, op, i);
    }
    writes := From(cfg.prefix, ops);
    SentFrom(cfg.prefix, ops, q);
  }

  function SetWrites<D>(cfg: SetAccess.Config<D>, op: SetAccess.Op<D>): seq<WriteOp>
    requires op.DeleteBucket? ==> Successor(cfg.prefix + op.key).Some?
  {
    match op
    case ReadSet(_) => []
    case WriteItem(k, d) => [Put(SetAccess.ItemPath(cfg, k, d), [])]
    case DeleteItem(k, d) => [Delete(SetAccess.ItemPath(cfg, k, d))]
    case DeleteBucket(k) => [DeleteRange(cfg.prefix + k, Successor(cfg.prefix + k).value)]
  }

  lemma SetAccessAims<D>(cfg: SetAccess.Config<D>, op: SetAccess.Op<D>)
    requires op.DeleteBucket? ==> Successor(cfg.prefix + op.key).Some?
    ensures forall i | 0 <= i < |SetWrites(cfg, op)| :: AimsUnder(cfg.prefix, SetWrites(cfg, op)[i])
  {
    if op.WriteItem? || op.DeleteItem? {
      SetAccess.PathInBucket(cfg, op.key, op.data);
    }
  }

  lemma SetStepSends<D(!new)>(
      cfg: SetAccess.Config<D>, s: SetAccess.State<D>, op: SetAccess.Op<D>, s': SetAccess.State<D>, reply: SetAccess.Reply<D>)
    requires SetAccess.Step(cfg, true, s, op, s', reply)
    ensures s'.pending == ApplyAll(s.pending, SetWrites(cfg, op))
  {
    if !op.ReadSet? {
      ApplyLast(s.pending, [], SetWrites(cfg, op)[0]);
      assert [] + [SetWrites(cfg, op)[0]] == SetWrites(cfg, op);
    }
  }

  /** So does what a call of a set store sends. */
  lemma SetCallSends<D(!new)>(
      cfg: SetAccess.Config<D>, s: SetAccess.State<D>, op: SetAccess.Op<D>, s': SetAccess.State<D>, reply: SetAccess.Reply<D>,
      q: Bytes) returns (writes: seq<Sent>)
    requires SetAccess.Step(cfg, true, s, op, s', reply) && Incomparable(cfg.prefix, q)
    ensures s'.pending == ApplyAll(s.pending, AllOf(writes)) && Beside(writes, q)
  {
    var ops := SetWrites(cfg, op);
    SetAccessAims(cfg, op);
    SetStepSends(cfg, s, op, s', reply);
    writes := From(cfg.prefix, ops);
    SentFrom(cfg.prefix, ops, q);
  }

  // A store's runs, with other stores at work between its calls

  lemma {:induction false} NoneOfOurs(writes: seq<Sent>, q: Bytes)
    requires forall i | 0 <= i < |writes| :: writes[i].store != q
    ensures SentBy(writes, q) == []
    decreases |writes|
  {
    if writes != [] {
      NoneOfOurs(writes[..|writes| - 1], q);
    }
  }

  lemma OthersSpare(rows: Rows, writes: seq<Sent>, q: Bytes)
    requires Beside(writes, q)
    ensures SameUnder(ApplyAll(rows, AllOf(writes)), rows, q)
  {
    OwnWritesDecide(rows, writes, q);
    NoneOfOurs(writes, q);
  }

  /** Between two calls the other stores' writes reach the database. */
  ghost predicate Meanwhile<V>(cfg: Access.Config<V>, s: Access.State<V>, others: seq<Sent>, s': Access.State<V>) {
    s' == s.(rows := ApplyAll(s.rows, AllOf(others))) && Beside(others, cfg.prefix)
  }

  ghost predicate RunAmongOthers<V(!new)>(
      cfg: Access.Config<V>, before: seq<Access.State<V>>, ops: seq<Access.Op<V>>, after: seq<Access.State<V>>,
      replies: seq<Access.Reply<V>>, others: seq<seq<Sent>>) {
    && |before| == |ops| + 1 && |after| == |replies| == |others| == |ops|
    && (forall i | 0 <= i < |ops| :: Access.Step(cfg, true, before[i], ops[i], after[i], replies[i]))
    && (forall i | 0 <= i < |ops| :: Meanwhile(cfg, after[i], others[i], before[i + 1]))
  }

  lemma MeanwhileKeepsInv<V>(cfg: Access.Config<V>, s: Access.State<V>, others: seq<Sent>, s': Access.State<V>)
    requires Access.Inv(cfg, true, s) && Meanwhile(cfg, s, others, s')
    ensures Access.Inv(cfg, true, s') && Access.Under(s'.rows, cfg.prefix) == Access.Under(s.rows, cfg.prefix)
  {
    OthersSpare(s.rows, others, cfg.prefix);
    UnderSame(s'.rows, s.rows, cfg.prefix);
  }

  /** A key-value store answers as a plain map whatever the stores beside it send between its calls. */
  lemma {:induction false} AnswersAmongOthers<V(!new)>(
      cfg: Access.Config<V>, before: seq<Access.State<V>>, ops: seq<Access.Op<V>>, after: seq<Access.State<V>>,
      replies: seq<Access.Reply<V>>, others: seq<seq<Sent>>, t: nat)
    requires Lossless(cfg.codec)
    requires RunAmongOthers(cfg, before, ops, after, replies, others) && Access.Inv(cfg, true, before[0]) && t <= |ops|
    ensures Access.Inv(cfg, true, before[t])
    ensures (Access.Under(before[t].rows, cfg.prefix), replies[..t])
            == Access.PlainRun(cfg.codec, Access.Under(before[0].rows, cfg.prefix), ops[..t])
    decreases t
  {
    if t == 0 {
      assert ops[..0] == [] && replies[..0] == [];
    } else {
      var n := t - 1;
      AnswersAmongOthers(cfg, before, ops, after, replies, others, n);
      assert Access.Step(cfg, true, before[n], ops[n], after[n], replies[n]) && Meanwhile(cfg, after[n], others[n], before[n + 1]);
      OneCallAmongOthers(cfg, before[n], ops[n], after[n], replies[n], others[n], before[n + 1]);
      Access.PlainRunNext(cfg.codec, Access.Under(before[0].rows, cfg.prefix), ops, replies, t,
                          Access.Under(before[n].rows, cfg.prefix), Access.Under(before[n + 1].rows, cfg.prefix));
    }
  }

  lemma OneCallAmongOthers<V(!new)>(
      cfg: Access.Config<V>, s: Access.State<V>, op: Access.Op<V>, s': Access.State<V>, reply: Access.Reply<V>,
      others: seq<Sent>, t: Access.State<V>)
    requires Lossless(cfg.codec)
    requires Access.Inv(cfg, true, s) && Access.Step(cfg, true, s, op, s', reply) && Meanwhile(cfg, s', others, t)
    ensures Access.Inv(cfg, true, t)
    ensures (Access.Under(t.rows, cfg.prefix), reply) == Access.PlainStep(cfg.codec, Access.Under(s.rows, cfg.prefix), op)
  {
    Access.StepRefines(cfg, true, s, op, s', reply);
    MeanwhileKeepsInv(cfg, s', others, t);
  }

  ghost predicate MeanwhileSets<D>(cfg: SetAccess.Config<D>, s: SetAccess.State<D>, others: seq<Sent>, s': SetAccess.State<D>) {
    && s'.cache == s.cache && s'.rows == s'.pending == ApplyAll(s.pending, AllOf(others))
    && Beside(others, cfg.prefix)
  }

  ghost predicate SetRunAmongOthers<D(!new)>(
      cfg: SetAccess.Config<D>, before: seq<SetAccess.State<D>>, ops: seq<SetAccess.Op<D>>, after: seq<SetAccess.State<D>>,
      replies: seq<SetAccess.Reply<D>>, others: seq<seq<Sent>>) {
    && |before| == |ops| + 1 && |after| == |replies| == |others| == |ops|
    && (forall i | 0 <= i < |ops| :: SetAccess.Step(cfg, true, before[i], ops[i], after[i], replies[i]))
    && (forall i | 0 <= i < |ops| :: MeanwhileSets(cfg, after[i], others[i], before[i + 1]))
  }

  lemma MeanwhileKeepsSets<D(!new)>(
      cfg: SetAccess.Config<D>, s: SetAccess.State<D>, others: seq<Sent>, s': SetAccess.State<D>, m: map<Bytes, set<D>>)
    requires SetAccess.Inv(cfg, true, s, m) && MeanwhileSets(cfg, s, others, s')
    ensures SetAccess.Inv(cfg, true, s', m)
  {
    OthersSpare(s.pending, others, cfg.prefix);
    forall r: Bytes | cfg.prefix <= r
      ensures r in s'.pending <==> exists k, d :: SetAccess.Holds(cfg, m, r, k, d)
    {
      assert Access.SameRow(s'.pending, s.pending, r);
    }
  }

  /** So does a set store. */
  lemma {:induction false} SetAnswersAmongOthers<D(!new)>(
      cfg: SetAccess.Config<D>, before: seq<SetAccess.State<D>>, ops: seq<SetAccess.Op<D>>, after: seq<SetAccess.State<D>>,
      replies: seq<SetAccess.Reply<D>>, others: seq<seq<Sent>>, m: map<Bytes, set<D>>, t: nat)
    requires Lossless(cfg.codec)
    requires SetRunAmongOthers(cfg, before, ops, after, replies, others) && SetAccess.Inv(cfg, true, before[0], m) && t <= |ops|
    ensures SetAccess.Inv(cfg, true, before[t], SetAccess.PlainRun(m, ops[..t]).0)
    ensures replies[..t] == SetAccess.PlainRun(m, ops[..t]).1
    decreases t
  {
    if t > 0 {
      SetAnswersAmongOthers(cfg, before, ops, after, replies, others, m, t - 1);
      assert MeanwhileSets(cfg, after[t - 1], others[t - 1], before[t]);
      var mid := SetAccess.PlainRun(m, ops[..t - 1]).0;
      OneSetCallAmongOthers(cfg, before[t - 1], ops[t - 1], after[t - 1], replies[t - 1], others[t - 1], before[t], mid);
      SetAccess.PlainRunNext(m, ops, replies, t, mid, SetAccess.PlainStep(mid, ops[t - 1]).0);
    }
  }

  lemma OneSetCallAmongOthers<D(!new)>(
      cfg: SetAccess.Config<D>, s: SetAccess.State<D>, op: SetAccess.Op<D>, s': SetAccess.State<D>, reply: SetAccess.Reply<D>,
      others: seq<Sent>, t: SetAccess.State<D>, m: map<Bytes, set<D>>)
    requires Lossless(cfg.codec)
    requires SetAccess.Inv(cfg, true, s, m) && SetAccess.Step(cfg, true, s, op, s', reply) && MeanwhileSets(cfg, s', others, t)
    ensures SetAccess.Inv(cfg, true, t, SetAccess.PlainStep(m, op).0)
    ensures reply == SetAccess.PlainStep(m, op).1
  {
    SetAccess.StepRefines(cfg, true, s, op, s', reply, m);
    MeanwhileKeepsSets(cfg, s', others, t, SetAccess.PlainStep(m, op).0);
  }

  /** For `delete_all` the condition on the prefixes is exact: comparable ones have rows to lose. */
  lemma DeleteAllIsolation(p: Bytes, q: Bytes)
    requires Successor(p).Some?
    ensures Incomparable(p, q) <==>
              forall rows: Rows :: Access.Under(Apply(rows, DeleteRange(p, Successor(p).value)), q) == Access.Under(rows, q)
  {
    var op := DeleteRange(p, Successor(p).value);
    if Incomparable(p, q) {
      forall rows: Rows
        ensures Access.Under(Apply(rows, op), q) == Access.Under(rows, q)
      {
        WriteSpares(rows, p, op, q);
        UnderSame(Apply(rows, op), rows, q);
      }
    } else {
      var rows := RowToLose(p, q);
      assert Access.Under(Apply(rows, op), q) != Access.Under(rows, q);
    }
  }

  lemma RowToLose(p: Bytes, q: Bytes) returns (rows: Rows)
    requires Successor(p).Some? && (p <= q || q <= p)
    ensures Access.Under(Apply(rows, DeleteRange(p, Successor(p).value)), q) != Access.Under(rows, q)
  {
    var longer := if p <= q then q else p;
    rows := map[longer := []];
    DeletePrefixRange(rows, p);
    assert longer == q + longer[|q|..];
    assert longer[|q|..] in Access.Under(rows, q);
    assert longer[|q|..] !in Access.Under(Apply(rows, DeleteRange(p, Successor(p).value)), q);
  }
}
