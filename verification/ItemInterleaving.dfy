/** `CachedDbItem` under concurrent callers. Clones share one cached cell; a read checks it, fetches the row
    and fills it in separate sections, and a write or removal changes first the cell and then the row. Only
    an update holds the cell's lock until its row is written. */
module ItemInterleaving {
  import opened Options
  import opened ByteOrder
  import opened Database
  import opened Codecs
  import opened Item

  datatype Config<!T> = Config(key: Bytes, codec: Codec<T>)

  datatype Op<!T> = Read | Write(item: T) | Remove | Update(edit: T -> T)

  /** Where a call is; an update that holds the lock knows the item it will store. */
  datatype Phase<T> = Idle | Missed | Fetched(item: T) | Part | Holding(item: T) | Over

  datatype Shared<!T> = Shared(cached: Option<T>, rows: Rows, holder: Option<nat>, phases: seq<Phase<T>>)

  function Row<T>(cfg: Config<T>, rows: Rows): ItemReply<T> {
    Stored(cfg.codec, rows, cfg.key)
  }

  function RowAfter<T>(cfg: Config<T>, rows: Rows, op: Op<T>): Rows {
    match op
    case Write(item) => rows[cfg.key := cfg.codec.ser(item)]
    case Remove => rows - {cfg.key}
    case _ => rows
  }

  /** A section on the cell waits for the lock. */
  ghost predicate ReadSection<T>(cfg: Config<T>, s: Shared<T>, p: Phase<T>, s': Shared<T>, p': Phase<T>) {
    && s'.rows == s.rows && s'.holder == s.holder
    && match p
       case Idle => s.holder.None? && s'.cached == s.cached && p' == if s.cached.Some? then Over else Missed
       case Missed =>
         var found := Row(cfg, s.rows);
         s'.cached == s.cached && p' == if found.Found? then Fetched(found.item) else Over
       case Fetched(item) => s.holder.None? && s'.cached == Some(item) && p' == Over
       case _ => false
  }

  ghost predicate ChangeSection<T>(cfg: Config<T>, op: Op<T>, s: Shared<T>, p: Phase<T>, s': Shared<T>, p': Phase<T>) {
    && s'.holder == s.holder
    && match p
       case Idle => s.holder.None? && s'.cached == (if op.Write? then Some(op.item) else None) && s'.rows == s.rows && p' == Part
       case Part => s'.cached == s.cached && s'.rows == RowAfter(cfg, s.rows, op) && p' == Over
       case _ => false
  }

  /** What an update starts from. */
  function Taken<T>(cfg: Config<T>, s: Shared<T>): ItemReply<T> {
    if s.cached.Some? then Found(s.cached.value) else Row(cfg, s.rows)
  }

  ghost predicate UpdateSection<T>(cfg: Config<T>, edit: T -> T, c: nat, s: Shared<T>, p: Phase<T>, s': Shared<T>, p': Phase<T>) {
    match p
    case Idle =>
      var taken := Taken(cfg, s);
      && s.holder.None? && s'.rows == s.rows
      && if taken.Found?
         then s'.cached == Some(edit(taken.item)) && s'.holder == Some(c) && p' == Holding(edit(taken.item))
         else s'.cached == None && s'.holder == None && p' == Over
    case Holding(item) =>
      s'.cached == s.cached && s'.rows == s.rows[cfg.key := cfg.codec.ser(item)] && s'.holder == None && p' == Over
    case _ => false
  }

  ghost predicate Section<T>(cfg: Config<T>, ops: seq<Op<T>>, s: Shared<T>, c: nat, s': Shared<T>) {
    && |s.phases| == |s'.phases| == |ops| && c < |ops|
    && (forall d | 0 <= d < |ops| && d != c :: s'.phases[d] == s.phases[d])
    && match ops[c]
       case Read => ReadSection(cfg, s, s.phases[c], s', s'.phases[c])
       case Update(edit) => UpdateSection(cfg, edit, c, s, s.phases[c], s', s'.phases[c])
       case _ => ChangeSection(cfg, ops[c], s, s.phases[c], s', s'.phases[c])
  }

  ghost predicate Run<T>(cfg: Config<T>, ops: seq<Op<T>>, states: seq<Shared<T>>, callers: seq<nat>) {
    && |states| == |callers| + 1
    && forall i | 0 <= i < |callers| :: Section(cfg, ops, states[i], callers[i], states[i + 1])
  }

  /** A cached item is the stored one. */
  predicate Fresh<T(==)>(cfg: Config<T>, s: Shared<T>) {
    s.cached.Some? ==> Row(cfg, s.rows) == Found(s.cached.value)
  }

  ghost predicate Started<T>(cfg: Config<T>, ops: seq<Op<T>>, s: Shared<T>) {
    |s.phases| == |ops| && (forall d | 0 <= d < |ops| :: s.phases[d] == Idle) && s.holder.None? && Fresh(cfg, s)
  }

  // Kinds of calls

  datatype Kind = Reading | Writing | Removing | Updating

  function KindOf<T>(op: Op<T>): Kind {
    match op
    case Read => Reading
    case Write(_) => Writing
    case Remove => Removing
    case Update(_) => Updating
  }

  /** Calls of different kinds, and two writes. */
  predicate KindsClash(a: Kind, b: Kind) {
    a != b || a.Writing?
  }

  // Calls of one kind that does not clash with itself

  ghost predicate Inv<T>(cfg: Config<T>, ops: seq<Op<T>>, s: Shared<T>, kind: Kind) {
    && |s.phases| == |ops|
    && (s.holder.None? ==> Fresh(cfg, s))
    && (forall d | 0 <= d < |ops| :: CallInv(cfg, s, d, s.phases[d], kind))
    && (kind != Updating ==> s.holder.None?)
    && (s.holder.Some? ==> s.holder.value < |ops| && s.phases[s.holder.value].Holding?)
  }

  ghost predicate CallInv<T>(cfg: Config<T>, s: Shared<T>, d: nat, p: Phase<T>, kind: Kind) {
    match p
    case Idle => true
    case Missed => kind.Reading?
    case Fetched(item) => kind.Reading? && Row(cfg, s.rows) == Found(item)
    case Part => kind.Removing? && s.cached.None?
    case Holding(item) => kind.Updating? && s.holder == Some(d) && s.cached == Some(item)
    case Over => true
  }

  lemma SectionKeepsInv<T(!new)>(cfg: Config<T>, ops: seq<Op<T>>, s: Shared<T>, c: nat, s': Shared<T>, kind: Kind)
    requires Lossless(cfg.codec) && Inv(cfg, ops, s, kind) && Section(cfg, ops, s, c, s')
    requires KindOf(ops[c]) == kind && !kind.Writing?
    ensures Inv(cfg, ops, s', kind)
  {
    assert CallInv(cfg, s, c, s.phases[c], kind);
    forall d | 0 <= d < |ops|
      ensures CallInv(cfg, s', d, s'.phases[d], kind)
    {
      assert CallInv(cfg, s, d, s.phases[d], kind);
    }
  }

  lemma {:induction false} SameKindRun<T(!new)>(
      cfg: Config<T>, ops: seq<Op<T>>, states: seq<Shared<T>>, callers: seq<nat>, kind: Kind, t: nat)
    requires Lossless(cfg.codec) && Run(cfg, ops, states, callers) && Started(cfg, ops, states[0]) && t <= |callers|
    requires !kind.Writing? && forall d | 0 <= d < |ops| :: KindOf(ops[d]) == kind
    ensures Inv(cfg, ops, states[t], kind)
    decreases t
  {
    if t > 0 {
      SameKindRun(cfg, ops, states, callers, kind, t - 1);
      SectionKeepsInv(cfg, ops, states[t - 1], callers[t - 1], states[t], kind);
    }
  }

  /** Any number of reads, of removals or of updates, however they interleave: whenever the lock is free a
      cached item is the stored one. */
  lemma SameKindIsFresh<T(!new)>(cfg: Config<T>, ops: seq<Op<T>>, states: seq<Shared<T>>, callers: seq<nat>, kind: Kind, t: nat)
    requires Lossless(cfg.codec) && Run(cfg, ops, states, callers) && Started(cfg, ops, states[0]) && t <= |callers|
    requires !kind.Writing? && forall d | 0 <= d < |ops| :: KindOf(ops[d]) == kind
    ensures states[t].holder.None? ==> Fresh(cfg, states[t])
    ensures |states[t].phases| == |ops|
    ensures (forall d | 0 <= d < |ops| :: states[t].phases[d].Over?) ==> states[t].holder.None?
  {
    SameKindRun(cfg, ops, states, callers, kind, t);
  }

  // Calls that clash

  ghost predicate EndsStale<T>(cfg: Config<T>, ops: seq<Op<T>>, states: seq<Shared<T>>, callers: seq<nat>) {
    && Run(cfg, ops, states, callers) && Started(cfg, ops, states[0])
    && var s := states[|callers|];
       |s.phases| == |ops| && (forall d | 0 <= d < |ops| :: s.phases[d].Over?) && !Fresh(cfg, s)
  }

  ghost predicate CanEndStale<T(!new)>(cfg: Config<T>, a: Kind, b: Kind) {
    exists x, y, states, callers :: KindOf(x) == a && KindOf(y) == b && EndsStale(cfg, [x, y], states, callers)
  }

  /** A call of the kind that stores the item, if it stores any. */
  function Sample<T>(a: Kind, item: T): (op: Op<T>)
    ensures KindOf(op) == a
  {
    match a
    case Reading => Read
    case Writing => Write(item)
    case Removing => Remove
    case Updating => Update(_ => item)
  }

  /** The rows such a call leaves. */
  function SampleRows<T>(cfg: Config<T>, a: Kind, item: T, rows: Rows): Rows {
    if a.Removing? then rows - {cfg.key} else rows[cfg.key := cfg.codec.ser(item)]
  }

  /** A cell section and a row section of a change, one after the other; an update needs an item to edit. */
  lemma TakesBoth<T>(cfg: Config<T>, ops: seq<Op<T>>, s: Shared<T>, c: nat, a: Kind, item: T) returns (mid: Shared<T>, s': Shared<T>)
    requires |s.phases| == |ops| && c < |ops| && ops[c] == Sample(a, item) && !a.Reading?
    requires s.phases[c] == Idle && s.holder.None? && Taken(cfg, s).Found?
    ensures Section(cfg, ops, s, c, mid) && Section(cfg, ops, mid, c, s')
    ensures s' == Shared(if a.Removing? then None else Some(item), SampleRows(cfg, a, item, s.rows), None, s.phases[c := Over])
  {
    var cached := if a.Removing? then None else Some(item);
    if a.Updating? {
      mid := Shared(cached, s.rows, Some(c), s.phases[c := Holding(item)]);
    } else {
      mid := Shared(cached, s.rows, None, s.phases[c := Part]);
    }
    s' := Shared(cached, SampleRows(cfg, a, item, s.rows), None, s.phases[c := Over]);
  }

  lemma OneMore<T>(cfg: Config<T>, ops: seq<Op<T>>, states: seq<Shared<T>>, callers: seq<nat>, c: nat, s': Shared<T>)
    requires Run(cfg, ops, states, callers) && Section(cfg, ops, states[|callers|], c, s')
    ensures Run(cfg, ops, states + [s'], callers + [c])
  {
    var all, who := states + [s'], callers + [c];
    forall i | 0 <= i < |who|
      ensures Section(cfg, ops, all[i], who[i], all[i + 1])
    {
      if i < |callers| {
        assert all[i] == states[i] && all[i + 1] == states[i + 1] && who[i] == callers[i];
      }
    }
  }

  lemma RunOfFive<T>(
      cfg: Config<T>, ops: seq<Op<T>>, i: nat, j: nat, s0: Shared<T>, s1: Shared<T>, s2: Shared<T>, s3: Shared<T>, s4: Shared<T>, s5: Shared<T>)
    requires Section(cfg, ops, s0, i, s1) && Section(cfg, ops, s1, i, s2)
    requires Section(cfg, ops, s2, j, s3) && Section(cfg, ops, s3, j, s4) && Section(cfg, ops, s4, i, s5)
    ensures Run(cfg, ops, [s0, s1, s2, s3, s4, s5], [i, i, j, j, i])
  {
    OneMore(cfg, ops, [s0], [], i, s1);
    OneMore(cfg, ops, [s0, s1], [i], i, s2);
    OneMore(cfg, ops, [s0, s1, s2], [i, i], j, s3);
    OneMore(cfg, ops, [s0, s1, s2, s3], [i, i, j], j, s4);
    OneMore(cfg, ops, [s0, s1, s2, s3, s4], [i, i, j, j], i, s5);
  }

  lemma RunOfFour<T>(
      cfg: Config<T>, ops: seq<Op<T>>, i: nat, j: nat, s0: Shared<T>, s1: Shared<T>, s2: Shared<T>, s3: Shared<T>, s4: Shared<T>)
    requires Section(cfg, ops, s0, i, s1) && Section(cfg, ops, s1, j, s2)
    requires Section(cfg, ops, s2, j, s3) && Section(cfg, ops, s3, i, s4)
    ensures Run(cfg, ops, [s0, s1, s2, s3, s4], [i, j, j, i])
  {
    OneMore(cfg, ops, [s0], [], i, s1);
    OneMore(cfg, ops, [s0, s1], [i], j, s2);
    OneMore(cfg, ops, [s0, s1, s2], [i, j], j, s3);
    OneMore(cfg, ops, [s0, s1, s2, s3], [i, j, j], i, s4);
  }

  /** Calls `i` and `j` are the two calls. */
  predicate Two<T>(ops: seq<Op<T>>, i: nat, j: nat) {
    |ops| == 2 && i < 2 && j < 2 && i != j
  }

  /** Fetch, change, fill: the reader caches the old item after the row was changed. */
  lemma FetchChangeFill<T(!new)>(cfg: Config<T>, ops: seq<Op<T>>, i: nat, j: nat, a: Kind, was: T, now: T)
      returns (states: seq<Shared<T>>, callers: seq<nat>)
    requires Lossless(cfg.codec) && was != now && Two(ops, i, j) && ops[i] == Read && ops[j] == Sample(a, now) && !a.Reading?
    ensures EndsStale(cfg, ops, states, callers)
  {
    var s0: Shared<T> := Shared(None, map[cfg.key := cfg.codec.ser(was)], None, [Idle, Idle]);
    var s1 := s0.(phases := s0.phases[i := Missed]);
    var s2 := s1.(phases := s1.phases[i := Fetched(was)]);
    var s3, s4 := TakesBoth(cfg, ops, s2, j, a, now);
    var s5 := s4.(cached := Some(was), phases := s4.phases[i := Over]);
    RunOfFive(cfg, ops, i, j, s0, s1, s2, s3, s4, s5);
    states, callers := [s0, s1, s2, s3, s4, s5], [i, i, j, j, i];
  }

  /** A whole write or update between the two sections of a write or removal: its item stays cached and its
      row does not stay. */
  lemma ChangeInside<T(!new)>(cfg: Config<T>, ops: seq<Op<T>>, i: nat, j: nat, a: Kind, b: Kind, va: T, vb: T)
      returns (states: seq<Shared<T>>, callers: seq<nat>)
    requires Lossless(cfg.codec) && va != vb && Two(ops, i, j)
    requires ops[i] == Sample(a, va) && (a.Writing? || a.Removing?) && ops[j] == Sample(b, vb) && (b.Writing? || b.Updating?)
    ensures EndsStale(cfg, ops, states, callers)
  {
    var s0: Shared<T> := Shared(None, map[cfg.key := cfg.codec.ser(va)], None, [Idle, Idle]);
    var s1 := s0.(cached := if a.Writing? then Some(va) else None, phases := s0.phases[i := Part]);
    var s2, s3 := TakesBoth(cfg, ops, s1, j, b, vb);
    var s4 := s3.(rows := SampleRows(cfg, a, va, s3.rows), phases := s3.phases[i := Over]);
    RunOfFour(cfg, ops, i, j, s0, s1, s2, s3, s4);
    states, callers := [s0, s1, s2, s3, s4], [i, j, j, i];
  }

  lemma ClashingEndsStale<T(!new)>(cfg: Config<T>, a: Kind, b: Kind, v: T, w: T)
    requires Lossless(cfg.codec) && v != w && KindsClash(a, b)
    ensures CanEndStale(cfg, a, b)
  {
    var x, y := Sample(a, v), Sample(b, w);
    var states, callers;
    if a.Reading? {
      states, callers := FetchChangeFill(cfg, [x, y], 0, 1, b, v, w);
    } else if b.Reading? {
      states, callers := FetchChangeFill(cfg, [x, y], 1, 0, a, w, v);
    } else if !a.Updating? && !b.Removing? {
      states, callers := ChangeInside(cfg, [x, y], 0, 1, a, b, v, w);
    } else {
      states, callers := ChangeInside(cfg, [x, y], 1, 0, b, a, w, v);
    }
    assert KindOf(x) == a && KindOf(y) == b && EndsStale(cfg, [x, y], states, callers);
  }

  lemma SameKindEndsFresh<T(!new)>(cfg: Config<T>, x: Op<T>, y: Op<T>, states: seq<Shared<T>>, callers: seq<nat>)
    requires Lossless(cfg.codec) && !KindsClash(KindOf(x), KindOf(y))
    ensures !EndsStale(cfg, [x, y], states, callers)
  {
    var ops := [x, y];
    if Run(cfg, ops, states, callers) && Started(cfg, ops, states[0]) {
      SameKindIsFresh(cfg, ops, states, callers, KindOf(x), |callers|);
    }
  }

  /** Two calls of given kinds can leave a cached item that is not stored, for some items, rows and
      interleaving, if and only if the kinds differ or both are writes. */
  lemma StaleIffKindsClash<T(!new)>(cfg: Config<T>, a: Kind, b: Kind, v: T, w: T)
    requires Lossless(cfg.codec) && v != w
    ensures CanEndStale(cfg, a, b) <==> KindsClash(a, b)
  {
    if KindsClash(a, b) {
      ClashingEndsStale(cfg, a, b, v, w);
    } else {
      forall x: Op<T>, y: Op<T>, states, callers | KindOf(x) == a && KindOf(y) == b
        ensures !EndsStale(cfg, [x, y], states, callers)
      {
        SameKindEndsFresh(cfg, x, y, states, callers);
      }
    }
  }
}
