/** The life of submitted shares in `handle_submit`, as interleaved atomic steps: admission through
    the duplicate guard, the verdict of the validation loop, the counters of the worker and of the
    whole bridge, and the outcome written back to the guard. */
module SharePipeline {
  import opened Options
  import opened Guards
  import opened DuplicateGuard
  import opened Sums

  // Counters

  datatype Kind = Shares | StaleShares | InvalidShares

  datatype Counters = Counters(shares: nat, stale: nat, invalid: nat, blocks: nat)

  const NoCounts := Counters(0, 0, 0, 0)

  /** The one counter a verdict bumps. */
  function KindOf(verdict: Outcome): Kind {
    match verdict
    case Accepted => Shares
    case Stale => StaleShares
    case LowDiff => InvalidShares
    case Bad => InvalidShares
    case InFlight => Shares
  }

  function Bump(c: Counters, kind: Kind): Counters {
    match kind
    case Shares => c.(shares := c.shares + 1)
    case StaleShares => c.(stale := c.stale + 1)
    case InvalidShares => c.(invalid := c.invalid + 1)
  }

  function Part(c: Counters, kind: Kind): nat {
    match kind
    case Shares => c.shares
    case StaleShares => c.stale
    case InvalidShares => c.invalid
  }

  /** A `WorkStats`, with the worker it was created for. */
  datatype Record = Record(worker: string, counts: Counters)

  // State

  /** An admitted submission; its position in the list of submissions numbers its insertion into the
      guard. It holds on to the record it last fetched. */
  datatype Sub = Sub(
    key: string, worker: string, at: nat, verdict: Option<Outcome>,
    record: Option<nat>, workerBumped: bool, overallBumped: bool, outcomeSet: bool)

  function NewSub(key: string, worker: string, at: nat): Sub {
    Sub(key, worker, at, None, None, false, false, false)
  }

  /** A task that waits for a submitted block to turn blue; it holds on to its worker's record. */
  datatype Confirm = Confirm(worker: string, record: nat, workerBumped: bool, overallBumped: bool)

  datatype State = State(
    guard: SubmitGuard,
    subs: seq<Sub>,
    born: map<string, nat>,       // the insertion that began each key's current residency
    records: seq<Record>,         // every WorkStats ever created, pruned ones included
    current: map<string, nat>,    // the stats map: worker to record
    overall: Counters,
    confirms: seq<Confirm>)

  function Init(ttl: nat, maxEntries: nat): State {
    State(Guard(ttl, maxEntries, map[], []), [], map[], [], map[], NoCounts, [])
  }

  /** The lock-protected sections of the submissions and of the background tasks. */
  datatype Event =
    | Arrive(key: string, worker: string, now: nat)
    | Decide(n: nat, verdict: Outcome)
    | GetStats(n: nat)
    | BumpWorker(n: nat)
    | BumpOverall(n: nat)
    | WriteOutcome(n: nat, now: nat)
    | PruneStats(gone: set<string>)
    | StartConfirm(worker: string)
    | ConfirmWorker(c: nat)
    | ConfirmOverall(c: nat)

  /** `get_create_stats`. */
  function GetCreate(s: State, worker: string): (State, nat) {
    if worker in s.current then (s, s.current[worker])
    else (s.(records := s.records + [Record(worker, NoCounts)], current := s.current[worker := |s.records|]), |s.records|)
  }

  /** A stale verdict is written to the guard before it is counted, every other one after. A record
      may be fetched more than once before it is used. */
  predicate Enabled(s: State, e: Event) {
    match e
    case Arrive(_, _, _) => true
    case Decide(n, v) => n < |s.subs| && s.subs[n].verdict.None? && v != InFlight
    case GetStats(n) =>
      && n < |s.subs| && s.subs[n].verdict.Some? && !s.subs[n].workerBumped
      && (s.subs[n].verdict == Some(Stale) ==> s.subs[n].outcomeSet)
    case BumpWorker(n) => n < |s.subs| && s.subs[n].record.Some? && !s.subs[n].workerBumped
    case BumpOverall(n) => n < |s.subs| && s.subs[n].workerBumped && !s.subs[n].overallBumped
    case WriteOutcome(n, _) =>
      && n < |s.subs| && s.subs[n].verdict.Some? && !s.subs[n].outcomeSet
      && (s.subs[n].verdict != Some(Stale) ==> s.subs[n].overallBumped)
    case PruneStats(_) => true
    case StartConfirm(_) => true
    case ConfirmWorker(c) => c < |s.confirms| && !s.confirms[c].workerBumped
    case ConfirmOverall(c) => c < |s.confirms| && s.confirms[c].workerBumped && !s.confirms[c].overallBumped
  }

  predicate SubOk(sub: Sub, records: seq<Record>) {
    && (sub.overallBumped ==> sub.workerBumped)
    && (sub.workerBumped ==> sub.record.Some?)
    && (sub.record.Some? || sub.outcomeSet ==> sub.verdict.Some?)
    && (sub.record.Some? ==> sub.record.value < |records| && records[sub.record.value].worker == sub.worker)
    && sub.verdict != Some(InFlight)
  }

  predicate ConfirmOk(c: Confirm, records: seq<Record>) {
    && c.record < |records| && records[c.record].worker == c.worker
    && (c.overallBumped ==> c.workerBumped)
  }

  /** Whatever holds on to a record holds one of its own worker. */
  predicate WellFormed(s: State) {
    && (forall w | w in s.current :: s.current[w] < |s.records| && s.records[s.current[w]].worker == w)
    && (forall i | 0 <= i < |s.subs| :: SubOk(s.subs[i], s.records))
    && (forall i | 0 <= i < |s.confirms| :: ConfirmOk(s.confirms[i], s.records))
  }

  function Counted(records: seq<Record>, r: nat, counts: Counters): seq<Record>
    requires r < |records|
  {
    records[r := records[r].(counts := counts)]
  }

  function Next(s: State, e: Event): State
    requires WellFormed(s) && Enabled(s, e)
  {
    match e
    case Arrive(key, worker, now) =>
      var (guard, duplicate) := Admit(s.guard, key, now);
      if duplicate.Some? then s.(guard := guard)
      else s.(guard := guard, born := s.born[key := |s.subs|], subs := s.subs + [NewSub(key, worker, now)])
    case Decide(n, v) => s.(subs := s.subs[n := s.subs[n].(verdict := Some(v))])
    case GetStats(n) =>
      var (t, r) := GetCreate(s, s.subs[n].worker);
      t.(subs := s.subs[n := s.subs[n].(record := Some(r))])
    case BumpWorker(n) =>
      assert SubOk(s.subs[n], s.records);
      var r := s.subs[n].record.value;
      s.(records := Counted(s.records, r, Bump(s.records[r].counts, KindOf(s.subs[n].verdict.value))),
         subs := s.subs[n := s.subs[n].(workerBumped := true)])
    case BumpOverall(n) =>
      assert SubOk(s.subs[n], s.records);
      s.(overall := Bump(s.overall, KindOf(s.subs[n].verdict.value)),
         subs := s.subs[n := s.subs[n].(overallBumped := true)])
    case WriteOutcome(n, now) =>
      s.(guard := SetOutcome(s.guard, s.subs[n].key, now, s.subs[n].verdict.value),
         subs := s.subs[n := s.subs[n].(outcomeSet := true)])
    case PruneStats(gone) => s.(current := s.current - gone)
    case StartConfirm(worker) =>
      var (t, r) := GetCreate(s, worker);
      t.(confirms := t.confirms + [Confirm(worker, r, false, false)])
    case ConfirmWorker(c) =>
      assert ConfirmOk(s.confirms[c], s.records);
      var r := s.confirms[c].record;
      var counts := s.records[r].counts;
      s.(records := Counted(s.records, r, counts.(blocks := counts.blocks + 1)),
         confirms := s.confirms[c := s.confirms[c].(workerBumped := true)])
    case ConfirmOverall(c) =>
      s.(overall := s.overall.(blocks := s.overall.blocks + 1),
         confirms := s.confirms[c := s.confirms[c].(overallBumped := true)])
  }

  // Records are only added, and keep their workers

  predicate SameWorkers(a: seq<Record>, b: seq<Record>) {
    |a| <= |b| && forall i | 0 <= i < |a| :: a[i].worker == b[i].worker
  }

  /** What a step may do for the state to stay well formed. */
  lemma StaysWellFormed(s: State, s': State)
    requires WellFormed(s) && SameWorkers(s.records, s'.records)
    requires forall w | w in s'.current :: s'.current[w] < |s'.records| && s'.records[s'.current[w]].worker == w
    requires forall i | 0 <= i < |s'.subs| :: (i < |s.subs| && s'.subs[i] == s.subs[i]) || SubOk(s'.subs[i], s'.records)
    requires forall i | 0 <= i < |s'.confirms| ::
               (i < |s.confirms| && s'.confirms[i] == s.confirms[i]) || ConfirmOk(s'.confirms[i], s'.records)
    ensures WellFormed(s')
  {
    forall i | 0 <= i < |s'.subs|
      ensures SubOk(s'.subs[i], s'.records)
    {
      if i < |s.subs| && s'.subs[i] == s.subs[i] {
        assert SubOk(s.subs[i], s.records);
      }
    }
    forall i | 0 <= i < |s'.confirms|
      ensures ConfirmOk(s'.confirms[i], s'.records)
    {
      if i < |s.confirms| && s'.confirms[i] == s.confirms[i] {
        assert ConfirmOk(s.confirms[i], s.records);
      }
    }
  }

  lemma GetCreateGives(s: State, worker: string)
    requires WellFormed(s)
    ensures var (t, r) := GetCreate(s, worker);
            && WellFormed(t) && SameWorkers(s.records, t.records)
            && r < |t.records| && t.records[r].worker == worker
  {
    var (t, r) := GetCreate(s, worker);
    StaysWellFormed(s, t);
  }

  lemma SubStepWellFormed(s: State, n: nat, sub: Sub, s': State)
    requires WellFormed(s) && n < |s.subs| && SameWorkers(s.records, s'.records)
    requires SubOk(sub, s'.records)
    requires s'.subs == s.subs[n := sub] && s'.confirms == s.confirms && s'.current == s.current
    ensures WellFormed(s')
  {
    StaysWellFormed(s, s');
  }

  lemma NextWellFormed(s: State, e: Event)
    requires WellFormed(s) && Enabled(s, e)
    ensures WellFormed(Next(s, e))
  {
    var s' := Next(s, e);
    match e
    case GetStats(n) => GetStatsWellFormed(s, n);
    case BumpWorker(n) => BumpWorkerWellFormed(s, n);
    case PruneStats(_) => StaysWellFormed(s, s');
    case StartConfirm(worker) => StartConfirmWellFormed(s, worker);
    case ConfirmWorker(c) => ConfirmWorkerWellFormed(s, c);
    case ConfirmOverall(c) =>
      assert ConfirmOk(s.confirms[c], s.records);
      StaysWellFormed(s, s');
    case Arrive(_, _, _) => StaysWellFormed(s, s');
    case _ =>
      assert SubOk(s.subs[e.n], s.records);
      SubStepWellFormed(s, e.n, s'.subs[e.n], s');
  }

  lemma GetStatsWellFormed(s: State, n: nat)
    requires WellFormed(s) && Enabled(s, GetStats(n))
    ensures WellFormed(Next(s, GetStats(n)))
  {
    var s' := Next(s, GetStats(n));
    GetCreateGives(s, s.subs[n].worker);
    assert SubOk(s.subs[n], s.records);
    SubStepWellFormed(GetCreate(s, s.subs[n].worker).0, n, s'.subs[n], s');
  }

  lemma BumpWorkerWellFormed(s: State, n: nat)
    requires WellFormed(s) && Enabled(s, BumpWorker(n))
    ensures WellFormed(Next(s, BumpWorker(n)))
  {
    var s' := Next(s, BumpWorker(n));
    assert SubOk(s.subs[n], s.records);
    SubStepWellFormed(s, n, s'.subs[n], s');
  }

  lemma StartConfirmWellFormed(s: State, worker: string)
    requires WellFormed(s)
    ensures WellFormed(Next(s, StartConfirm(worker)))
  {
    GetCreateGives(s, worker);
    StaysWellFormed(GetCreate(s, worker).0, Next(s, StartConfirm(worker)));
  }

  lemma ConfirmWorkerWellFormed(s: State, c: nat)
    requires WellFormed(s) && Enabled(s, ConfirmWorker(c))
    ensures WellFormed(Next(s, ConfirmWorker(c)))
  {
    assert ConfirmOk(s.confirms[c], s.records);
    StaysWellFormed(s, Next(s, ConfirmWorker(c)));
  }

  ghost predicate Run(ttl: nat, maxEntries: nat, states: seq<State>, events: seq<Event>) {
    && |states| == |events| + 1
    && states[0] == Init(ttl, maxEntries)
    && forall i | 0 <= i < |events| ::
         WellFormed(states[i]) && Enabled(states[i], events[i]) && states[i + 1] == Next(states[i], events[i])
  }

  // Conservation, for one worker or for all of them

  /** `None` stands for every worker. */
  predicate Of(who: Option<string>, worker: string) {
    who == None || who == Some(worker)
  }

  function PartFor(who: Option<string>, kind: Kind): Record -> nat {
    (r: Record) => if Of(who, r.worker) then Part(r.counts, kind) else 0
  }

  function BlocksFor(who: Option<string>): Record -> nat {
    (r: Record) => if Of(who, r.worker) then r.counts.blocks else 0
  }

  predicate Verdict(sub: Sub, kind: Kind) {
    sub.verdict.Some? && KindOf(sub.verdict.value) == kind
  }

  function WorkerScored(who: Option<string>, kind: Kind): Sub -> nat {
    (sub: Sub) => if sub.workerBumped && Of(who, sub.worker) && Verdict(sub, kind) then 1 else 0
  }

  function OverallScored(kind: Kind): Sub -> nat {
    (sub: Sub) => if sub.overallBumped && Verdict(sub, kind) then 1 else 0
  }

  function WorkerConfirmed(who: Option<string>): Confirm -> nat {
    (c: Confirm) => if c.workerBumped && Of(who, c.worker) then 1 else 0
  }

  function OverallConfirmed(): Confirm -> nat {
    (c: Confirm) => if c.overallBumped then 1 else 0
  }

  ghost predicate Conserved(s: State, who: Option<string>, kind: Kind) {
    && Sum(s.records, PartFor(who, kind)) == Sum(s.subs, WorkerScored(who, kind))
    && Part(s.overall, kind) == Sum(s.subs, OverallScored(kind))
  }

  ghost predicate BlocksConserved(s: State, who: Option<string>) {
    && Sum(s.records, BlocksFor(who)) == Sum(s.confirms, WorkerConfirmed(who))
    && s.overall.blocks == Sum(s.confirms, OverallConfirmed())
  }

  lemma GetCreateKeepsSums(s: State, worker: string, f: Record -> nat)
    requires f(Record(worker, NoCounts)) == 0
    ensures Sum(GetCreate(s, worker).0.records, f) == Sum(s.records, f)
  {
    SumAppend(s.records, Record(worker, NoCounts), f);
  }

  lemma SubChanged(subs: seq<Sub>, n: nat, sub: Sub, who: Option<string>, kind: Kind)
    requires n < |subs|
    ensures Sum(subs[n := sub], WorkerScored(who, kind)) + WorkerScored(who, kind)(subs[n])
            == Sum(subs, WorkerScored(who, kind)) + WorkerScored(who, kind)(sub)
    ensures Sum(subs[n := sub], OverallScored(kind)) + OverallScored(kind)(subs[n])
            == Sum(subs, OverallScored(kind)) + OverallScored(kind)(sub)
  {
    SumUpdate(subs, n, sub, WorkerScored(who, kind));
    SumUpdate(subs, n, sub, OverallScored(kind));
  }

  /** One increment in one record adds one to that worker's sum of that counter, and nothing to any
      other worker's or counter's. */
  lemma WorkerBumped(records: seq<Record>, r: nat, bumped: Kind, who: Option<string>, kind: Kind)
    requires r < |records|
    ensures Sum(Counted(records, r, Bump(records[r].counts, bumped)), PartFor(who, kind))
            == Sum(records, PartFor(who, kind)) + if Of(who, records[r].worker) && bumped == kind then 1 else 0
    ensures Sum(Counted(records, r, Bump(records[r].counts, bumped)), BlocksFor(who)) == Sum(records, BlocksFor(who))
  {
    var record := records[r].(counts := Bump(records[r].counts, bumped));
    SumUpdate(records, r, record, PartFor(who, kind));
    SumUpdate(records, r, record, BlocksFor(who));
  }

  lemma BlockCounted(records: seq<Record>, r: nat, who: Option<string>, kind: Kind)
    requires r < |records|
    ensures var counts := records[r].counts;
            var counted := Counted(records, r, counts.(blocks := counts.blocks + 1));
            && Sum(counted, BlocksFor(who)) == Sum(records, BlocksFor(who)) + (if Of(who, records[r].worker) then 1 else 0)
            && Sum(counted, PartFor(who, kind)) == Sum(records, PartFor(who, kind))
  {
    var counts := records[r].counts;
    var record := records[r].(counts := counts.(blocks := counts.blocks + 1));
    SumUpdate(records, r, record, PartFor(who, kind));
    SumUpdate(records, r, record, BlocksFor(who));
  }

  lemma NextConserves(s: State, e: Event, who: Option<string>, kind: Kind)
    requires WellFormed(s) && Enabled(s, e) && Conserved(s, who, kind)
    ensures Conserved(Next(s, e), who, kind)
  {
    match e
    case Arrive(key, worker, now) => NewSubUnscored(s.subs, NewSub(key, worker, now), who, kind);
    case Decide(n, v) => DecideConserves(s, n, v, who, kind);
    case GetStats(n) => GetStatsConserves(s, n, who, kind);
    case BumpWorker(n) => BumpWorkerConserves(s, n, who, kind);
    case BumpOverall(n) => BumpOverallConserves(s, n, who, kind);
    case WriteOutcome(n, now) => WriteOutcomeConserves(s, n, now, who, kind);
    case PruneStats(gone) =>
    case StartConfirm(worker) => GetCreateKeepsSums(s, worker, PartFor(who, kind));
    case ConfirmWorker(c) => ConfirmKeepsShares(s, c, who, kind);
    case ConfirmOverall(c) =>
  }

  lemma NewSubUnscored(subs: seq<Sub>, sub: Sub, who: Option<string>, kind: Kind)
    requires !sub.workerBumped && !sub.overallBumped
    ensures Sum(subs + [sub], WorkerScored(who, kind)) == Sum(subs, WorkerScored(who, kind))
    ensures Sum(subs + [sub], OverallScored(kind)) == Sum(subs, OverallScored(kind))
  {
    SumAppend(subs, sub, WorkerScored(who, kind));
    SumAppend(subs, sub, OverallScored(kind));
  }

  lemma GetStatsConserves(s: State, n: nat, who: Option<string>, kind: Kind)
    requires WellFormed(s) && Enabled(s, GetStats(n)) && Conserved(s, who, kind)
    ensures Conserved(Next(s, GetStats(n)), who, kind)
  {
    GetCreateKeepsSums(s, s.subs[n].worker, PartFor(who, kind));
    SubChanged(s.subs, n, s.subs[n].(record := Some(GetCreate(s, s.subs[n].worker).1)), who, kind);
  }

  lemma ConfirmKeepsShares(s: State, c: nat, who: Option<string>, kind: Kind)
    requires WellFormed(s) && Enabled(s, ConfirmWorker(c)) && Conserved(s, who, kind)
    ensures Conserved(Next(s, ConfirmWorker(c)), who, kind)
  {
    assert ConfirmOk(s.confirms[c], s.records);
    BlockCounted(s.records, s.confirms[c].record, who, kind);
  }

  lemma WriteOutcomeConserves(s: State, n: nat, now: nat, who: Option<string>, kind: Kind)
    requires WellFormed(s) && Enabled(s, WriteOutcome(n, now)) && Conserved(s, who, kind)
    ensures Conserved(Next(s, WriteOutcome(n, now)), who, kind)
  {
    SubChanged(s.subs, n, s.subs[n].(outcomeSet := true), who, kind);
  }

  lemma DecideConserves(s: State, n: nat, v: Outcome, who: Option<string>, kind: Kind)
    requires WellFormed(s) && Enabled(s, Decide(n, v)) && Conserved(s, who, kind)
    ensures Conserved(Next(s, Decide(n, v)), who, kind)
  {
    assert SubOk(s.subs[n], s.records);
    SubChanged(s.subs, n, s.subs[n].(verdict := Some(v)), who, kind);
  }

  lemma BumpWorkerConserves(s: State, n: nat, who: Option<string>, kind: Kind)
    requires WellFormed(s) && Enabled(s, BumpWorker(n)) && Conserved(s, who, kind)
    ensures Conserved(Next(s, BumpWorker(n)), who, kind)
  {
    assert SubOk(s.subs[n], s.records);
    SubChanged(s.subs, n, s.subs[n].(workerBumped := true), who, kind);
    WorkerBumped(s.records, s.subs[n].record.value, KindOf(s.subs[n].verdict.value), who, kind);
  }

  lemma BumpOverallConserves(s: State, n: nat, who: Option<string>, kind: Kind)
    requires WellFormed(s) && Enabled(s, BumpOverall(n)) && Conserved(s, who, kind)
    ensures Conserved(Next(s, BumpOverall(n)), who, kind)
  {
    assert SubOk(s.subs[n], s.records);
    SubChanged(s.subs, n, s.subs[n].(overallBumped := true), who, kind);
  }

  lemma NextConservesBlocks(s: State, e: Event, who: Option<string>)
    requires WellFormed(s) && Enabled(s, e) && BlocksConserved(s, who)
    ensures BlocksConserved(Next(s, e), who)
  {
    match e
    case Arrive(_, _, _) =>
    case Decide(_, _) =>
    case GetStats(n) => GetCreateKeepsSums(s, s.subs[n].worker, BlocksFor(who));
    case BumpWorker(n) =>
      assert SubOk(s.subs[n], s.records);
      WorkerBumped(s.records, s.subs[n].record.value, KindOf(s.subs[n].verdict.value), who, Shares);
    case BumpOverall(_) =>
    case WriteOutcome(_, _) =>
    case PruneStats(_) =>
    case StartConfirm(worker) => StartConfirmConserves(s, worker, who);
    case ConfirmWorker(c) =>
      assert ConfirmOk(s.confirms[c], s.records);
      ConfirmWorkerConserves(s, c, Next(s, e), who);
    case ConfirmOverall(c) => ConfirmOverallConserves(s, c, who);
  }

  lemma StartConfirmConserves(s: State, worker: string, who: Option<string>)
    requires WellFormed(s) && BlocksConserved(s, who)
    ensures BlocksConserved(Next(s, StartConfirm(worker)), who)
  {
    GetCreateKeepsSums(s, worker, BlocksFor(who));
    var c := Confirm(worker, GetCreate(s, worker).1, false, false);
    SumAppend(s.confirms, c, WorkerConfirmed(who));
    SumAppend(s.confirms, c, OverallConfirmed());
  }

  lemma ConfirmChanged(confirms: seq<Confirm>, c: nat, confirm: Confirm, who: Option<string>)
    requires c < |confirms|
    ensures Sum(confirms[c := confirm], WorkerConfirmed(who)) + WorkerConfirmed(who)(confirms[c])
            == Sum(confirms, WorkerConfirmed(who)) + WorkerConfirmed(who)(confirm)
    ensures Sum(confirms[c := confirm], OverallConfirmed()) + OverallConfirmed()(confirms[c])
            == Sum(confirms, OverallConfirmed()) + OverallConfirmed()(confirm)
  {
    SumUpdate(confirms, c, confirm, WorkerConfirmed(who));
    SumUpdate(confirms, c, confirm, OverallConfirmed());
  }

  lemma ConfirmWorkerConserves(s: State, c: nat, s': State, who: Option<string>)
    requires c < |s.confirms| && !s.confirms[c].workerBumped && ConfirmOk(s.confirms[c], s.records) && BlocksConserved(s, who)
    requires s'.overall == s.overall && s'.confirms == s.confirms[c := s.confirms[c].(workerBumped := true)]
    requires var r := s.confirms[c].record;
             s'.records == Counted(s.records, r, s.records[r].counts.(blocks := s.records[r].counts.blocks + 1))
    ensures BlocksConserved(s', who)
  {
    BlockCounted(s.records, s.confirms[c].record, who, Shares);
    ConfirmChanged(s.confirms, c, s.confirms[c].(workerBumped := true), who);
  }

  lemma ConfirmOverallConserves(s: State, c: nat, who: Option<string>)
    requires WellFormed(s) && Enabled(s, ConfirmOverall(c)) && BlocksConserved(s, who)
    ensures BlocksConserved(Next(s, ConfirmOverall(c)), who)
  {
    ConfirmChanged(s.confirms, c, s.confirms[c].(overallBumped := true), who);
  }

  lemma {:induction false} RunInvariant(ttl: nat, maxEntries: nat, states: seq<State>, events: seq<Event>, who: Option<string>, kind: Kind)
    requires Run(ttl, maxEntries, states, events)
    ensures var s := states[|events|]; WellFormed(s) && Conserved(s, who, kind) && BlocksConserved(s, who)
    decreases |events|
  {
    if events != [] {
      var n := |events| - 1;
      RunInvariant(ttl, maxEntries, states[..n + 1], events[..n], who, kind);
      NextWellFormed(states[n], events[n]);
      NextConserves(states[n], events[n], who, kind);
      NextConservesBlocks(states[n], events[n], who);
    }
  }

  /** A submission counted for its worker and not yet overall. */
  function HalfScored(kind: Kind): Sub -> nat {
    (sub: Sub) => if sub.workerBumped && !sub.overallBumped && Verdict(sub, kind) then 1 else 0
  }

  function HalfConfirmed(): Confirm -> nat {
    (c: Confirm) => if c.workerBumped && !c.overallBumped then 1 else 0
  }

  /** In every reachable state, whatever was pruned meanwhile: the records ever created for a worker
      together hold that worker's counted submissions and confirmed blocks and no one else's; and the
      bridge's totals, with what is between its two increments, are the sums over all records. */
  lemma CountersAreConserved(ttl: nat, maxEntries: nat, states: seq<State>, events: seq<Event>, worker: string, kind: Kind)
    requires Run(ttl, maxEntries, states, events)
    ensures var s := states[|events|];
            && Sum(s.records, PartFor(Some(worker), kind)) == Sum(s.subs, WorkerScored(Some(worker), kind))
            && Sum(s.records, BlocksFor(Some(worker))) == Sum(s.confirms, WorkerConfirmed(Some(worker)))
            && Part(s.overall, kind) + Sum(s.subs, HalfScored(kind)) == Sum(s.records, PartFor(None, kind))
            && s.overall.blocks + Sum(s.confirms, HalfConfirmed()) == Sum(s.records, BlocksFor(None))
  {
    RunInvariant(ttl, maxEntries, states, events, Some(worker), kind);
    RunInvariant(ttl, maxEntries, states, events, None, kind);
    var s := states[|events|];
    assert forall i | 0 <= i < |s.subs| :: SubOk(s.subs[i], s.records);
    assert forall i | 0 <= i < |s.confirms| :: ConfirmOk(s.confirms[i], s.records);
    SumAdds(s.subs, OverallScored(kind), HalfScored(kind), WorkerScored(None, kind));
    SumAdds(s.confirms, OverallConfirmed(), HalfConfirmed(), WorkerConfirmed(None));
  }

  // The counters by the outcomes they count

  /** A submission of the worker that ended so and was counted in the worker's record. */
  function CountedFor(worker: string, outcomes: set<Outcome>): Sub -> nat {
    (sub: Sub) => if sub.workerBumped && sub.worker == worker && sub.verdict.Some? && sub.verdict.value in outcomes then 1 else 0
  }

  function CountedOverall(outcomes: set<Outcome>): Sub -> nat {
    (sub: Sub) => if sub.overallBumped && sub.verdict.Some? && sub.verdict.value in outcomes then 1 else 0
  }

  function SharesIn(worker: string): Record -> nat {
    (r: Record) => if r.worker == worker then r.counts.shares else 0
  }

  function StaleIn(worker: string): Record -> nat {
    (r: Record) => if r.worker == worker then r.counts.stale else 0
  }

  function InvalidIn(worker: string): Record -> nat {
    (r: Record) => if r.worker == worker then r.counts.invalid else 0
  }

  lemma SameSum<T>(xs: seq<T>, f: T -> nat, g: T -> nat)
    requires forall i | 0 <= i < |xs| :: f(xs[i]) == g(xs[i])
    ensures Sum(xs, f) == Sum(xs, g)
  {
    SumLeq(xs, f, g);
    SumLeq(xs, g, f);
  }

  lemma CountedByOutcome(s: State, worker: string, kind: Kind, outcomes: set<Outcome>)
    requires WellFormed(s) && Conserved(s, Some(worker), kind)
    requires forall v | v != InFlight :: KindOf(v) == kind <==> v in outcomes
    ensures Sum(s.records, PartFor(Some(worker), kind)) == Sum(s.subs, CountedFor(worker, outcomes))
    ensures Part(s.overall, kind) == Sum(s.subs, CountedOverall(outcomes))
  {
    assert forall i | 0 <= i < |s.subs| :: SubOk(s.subs[i], s.records);
    SameSum(s.subs, CountedFor(worker, outcomes), WorkerScored(Some(worker), kind));
    SameSum(s.subs, CountedOverall(outcomes), OverallScored(kind));
  }

  /** In every reachable state a worker's records together count: as shares found, that worker's accepted
      submissions; as stale shares, the stale ones; as invalid shares, those of low difficulty and the bad
      ones. So do the bridge's totals for all workers. */
  lemma OutcomesAreCounted(ttl: nat, maxEntries: nat, states: seq<State>, events: seq<Event>, worker: string)
    requires Run(ttl, maxEntries, states, events)
    ensures var s := states[|events|];
            && Sum(s.records, SharesIn(worker)) == Sum(s.subs, CountedFor(worker, {Accepted}))
            && Sum(s.records, StaleIn(worker)) == Sum(s.subs, CountedFor(worker, {Stale}))
            && Sum(s.records, InvalidIn(worker)) == Sum(s.subs, CountedFor(worker, {LowDiff, Bad}))
            && s.overall.shares == Sum(s.subs, CountedOverall({Accepted}))
            && s.overall.stale == Sum(s.subs, CountedOverall({Stale}))
            && s.overall.invalid == Sum(s.subs, CountedOverall({LowDiff, Bad}))
  {
    var s := states[|events|];
    RunInvariant(ttl, maxEntries, states, events, Some(worker), Shares);
    RunInvariant(ttl, maxEntries, states, events, Some(worker), StaleShares);
    RunInvariant(ttl, maxEntries, states, events, Some(worker), InvalidShares);
    CountedByOutcome(s, worker, Shares, {Accepted});
    CountedByOutcome(s, worker, StaleShares, {Stale});
    CountedByOutcome(s, worker, InvalidShares, {LowDiff, Bad});
    SameSum(s.records, SharesIn(worker), PartFor(Some(worker), Shares));
    SameSum(s.records, StaleIn(worker), PartFor(Some(worker), StaleShares));
    SameSum(s.records, InvalidIn(worker), PartFor(Some(worker), InvalidShares));
  }

  // The order of the steps of one submission

  predicate InOrder(sub: Sub) {
    && (sub.outcomeSet && sub.verdict != Some(Stale) ==> sub.overallBumped)
    && (sub.workerBumped && sub.verdict == Some(Stale) ==> sub.outcomeSet)
    && (sub.record.Some? && sub.verdict == Some(Stale) ==> sub.outcomeSet)
  }

  /** In every reachable state an outcome other than stale stands in the guard only once both counters have
      it, and a stale one is counted only once it stands there. */
  lemma {:induction false} StepsInOrder(ttl: nat, maxEntries: nat, states: seq<State>, events: seq<Event>, t: nat, n: nat)
    requires Run(ttl, maxEntries, states, events) && t <= |events| && n < |states[t].subs|
    ensures InOrder(states[t].subs[n])
    decreases t
  {
    if t > 0 {
      var s := states[t - 1];
      assert states[t] == Next(s, events[t - 1]);
      if n < |s.subs| {
        StepsInOrder(ttl, maxEntries, states, events, t - 1, n);
        assert SubOk(s.subs[n], s.records);
      }
    }
  }

  // Which steps there are

  /** A share whose key has no entry is admitted, whatever else is in flight; one whose key is held within its
      time is not, while the entries are within the capacity. */
  lemma ArriveAdmits(s: State, key: string, worker: string, now: nat)
    requires WellFormed(s)
    ensures key !in s.guard.entries ==>
              && Next(s, Arrive(key, worker, now)).subs == s.subs + [Sub(key, worker, now, None, None, false, false, false)]
              && key in Next(s, Arrive(key, worker, now)).guard.entries
    ensures key in s.guard.entries && now <= s.guard.entries[key].ts + s.guard.ttl
            && |s.guard.entries| <= s.guard.maxEntries ==>
              Next(s, Arrive(key, worker, now)).subs == s.subs
  {
    AdmitReplies(s.guard, key, now);
  }

  /** No submission and no confirmation gets stuck: until it is counted and its outcome is written, it has a next step. */
  lemma SubmissionsMove(s: State, n: nat, verdict: Outcome, now: nat)
    requires WellFormed(s) && n < |s.subs| && verdict != InFlight
    ensures var sub := s.subs[n];
            if sub.verdict.None? then Enabled(s, Decide(n, verdict))
            else if sub.verdict == Some(Stale) && !sub.outcomeSet then Enabled(s, WriteOutcome(n, now))
            else if sub.record.None? then Enabled(s, GetStats(n))
            else if !sub.workerBumped then Enabled(s, BumpWorker(n))
            else if !sub.overallBumped then Enabled(s, BumpOverall(n))
            else sub.outcomeSet || Enabled(s, WriteOutcome(n, now))
  {
    assert SubOk(s.subs[n], s.records);
  }

  lemma ConfirmationsMove(s: State, c: nat)
    requires WellFormed(s) && c < |s.confirms| && !s.confirms[c].overallBumped
    ensures if s.confirms[c].workerBumped then Enabled(s, ConfirmOverall(c)) else Enabled(s, ConfirmWorker(c))
  {
  }

  /** A worker that was pruned gets a new record of zeros, any other the record it had. */
  lemma PrunedStartAnew(s: State, gone: set<string>, n: nat)
    requires WellFormed(s) && Enabled(s, GetStats(n))
    ensures var p, w := Next(s, PruneStats(gone)), s.subs[n].worker;
            && WellFormed(p) && Enabled(p, GetStats(n))
            && p.records == s.records && p.subs == s.subs
            && var t := Next(p, GetStats(n));
               if w in s.current && w !in gone then t.subs[n].record == Some(s.current[w]) && t.records == s.records
               else t.subs[n].record == Some(|s.records|) && t.records == s.records + [Record(w, Counters(0, 0, 0, 0))]
  {
    NextWellFormed(s, PruneStats(gone));
  }
}
