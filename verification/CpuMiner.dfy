/** The hand-off of block templates to the threads of the internal CPU miner: a shared slot with a
    version, and threads that test nonces on the template they last picked up. */
module CpuMiner {
  import opened Options
  import opened Arith
  import opened NonceStriding

  /** `version.wrapping_add(1)` after `count` publications. */
  function Version(count: nat): nat {
    count % Pow2(64)
  }

  class SharedWork<Work> {
    var work: Option<Work>
    var version: nat
    ghost var published: seq<Work>

    ghost predicate Valid()
      reads this
    {
      && version == Version(|published|)
      && work == if published == [] then None else Some(published[|published| - 1])
    }

    constructor ()
      ensures Valid() && published == []
    {
      work := None;
      version := 0;
      published := [];
      new;
      SmallVersion(0);
    }

    method Publish(w: Work)
      requires Valid()
      modifies this
      ensures Valid() && published == old(published) + [w]
    {
      version := (version + 1) % Pow2(64);
      work := Some(w);
      published := published + [w];
      NextVersion(|old(published)|);
    }

    /** `wait_for_update` without its sleep: it goes on waiting while the version is the last seen and
        there is no shutdown; a shutdown returns the version seen and no work. */
    method TakeUpdate(lastSeen: nat, shutdown: bool) returns (update: Option<(nat, Option<Work>)>)
      requires Valid()
      ensures update.None? <==> Version(|published|) == lastSeen && !shutdown
      ensures update.Some? ==> update.value.0 == Version(|published|)
      ensures update.Some? && Version(|published|) == lastSeen ==> update.value.1 == None
      ensures update.Some? && Version(|published|) != lastSeen ==>
                update.value.1 == if published == [] then None else Some(published[|published| - 1])
    {
      if version == lastSeen && !shutdown {
        return None;
      }
      if shutdown && version == lastSeen {
        return Some((lastSeen, None));
      }
      update := Some((version, work));
    }
  }

  lemma SmallVersion(count: nat)
    requires count < Pow2(64)
    ensures Version(count) == count
  {
    SmallResidue(count, Pow2(64));
  }

  lemma NextVersion(count: nat)
    ensures Version(count + 1) == (Version(count) + 1) % Pow2(64)
  {
    var m := Pow2(64);
    assert count + 1 == (count % m + 1) + count / m * m;
    SameResidue(m, count + 1, count % m + 1, count / m);
  }

  lemma VersionsEqual(seen: nat, count: nat)
    requires seen <= count
    ensures Version(seen) == Version(count) && seen < count ==> count - seen >= Pow2(64)
  {
    if Version(seen) == Version(count) && seen < count {
      EqualResidues(Pow2(64), count, seen);
      var q: int :| count - seen == q * Pow2(64);
      MultipleSize(q, Pow2(64));
      assert q != 0;
    }
  }

  // The threads

  datatype Phase =
    | Waiting      // in wait_for_update
    | Testing      // about to call check_pow
    | Comparing    // failed, nonce advanced, about to compare versions

  datatype Thread<Work> = Thread(
    phase: Phase, lastVersion: nat, work: Option<Work>, nonce: nat,
    seen: nat,       // publications at the last pick-up
    fails: nat,      // failed tests so far
    lateTests: nat)  // tests of the current template after it was superseded

  /** A mined block: by which thread, under which publication, and with which nonce. */
  datatype Mined = Mined(thread: nat, publication: nat, nonce: nat)

  datatype State<Work> = State(published: seq<Work>, threads: seq<Thread<Work>>, mined: seq<Mined>)

  datatype Event<Work> = Publish(work: Work) | PickUp(t: nat) | Test(t: nat) | Compare(t: nat)

  function Start<Work>(count: nat, i: nat): Thread<Work> {
    Thread(Waiting, 0, None, Nonce(count, i, 0), 0, 0, 0)
  }

  function Init<Work>(count: nat): State<Work> {
    State([], seq(count, i requires 0 <= i < count => Start(count, i)), [])
  }

  predicate Enabled<Work>(s: State<Work>, e: Event<Work>) {
    match e
    case Publish(_) => true
    case PickUp(t) => t < |s.threads| && s.threads[t].phase.Waiting? && Version(|s.published|) != s.threads[t].lastVersion
    case Test(t) => t < |s.threads| && s.threads[t].phase.Testing? && s.threads[t].work.Some?
    case Compare(t) => t < |s.threads| && s.threads[t].phase.Comparing?
  }

  predicate Superseded<Work>(s: State<Work>, th: Thread<Work>) {
    th.seen < |s.published|
  }

  /** `nonce.wrapping_add(threads)`. */
  function Advance(nonce: nat, threads: nat): nat {
    (nonce + threads) % Pow2(64)
  }

  /** `passes` is the proof-of-work check of a template with a nonce. */
  function Next<Work>(s: State<Work>, e: Event<Work>, passes: (Work, nat) -> bool): State<Work>
    requires Enabled(s, e)
  {
    match e
    case Publish(w) => s.(published := s.published + [w])
    case PickUp(t) =>
      var th := s.threads[t];
      var n := |s.published|;
      s.(threads := s.threads[t := th.(
           lastVersion := Version(n), seen := n, lateTests := 0,
           work := if n == 0 then None else Some(s.published[n - 1]),
           phase := if n == 0 then Waiting else Testing)])
    case Test(t) =>
      var th := s.threads[t];
      var late := th.lateTests + if Superseded(s, th) then 1 else 0;
      if passes(th.work.value, th.nonce)
      then s.(threads := s.threads[t := th.(phase := Waiting, lateTests := late)],
              mined := s.mined + [Mined(t, th.seen, th.nonce)])
      else s.(threads := s.threads[t := th.(
                phase := Comparing, lateTests := late, fails := th.fails + 1,
                nonce := Advance(th.nonce, |s.threads|))])
    case Compare(t) =>
      var th := s.threads[t];
      s.(threads := s.threads[t := th.(phase := if Version(|s.published|) != th.lastVersion then Waiting else Testing)])
  }

  ghost predicate Run<Work>(count: nat, passes: (Work, nat) -> bool, states: seq<State<Work>>, events: seq<Event<Work>>) {
    && |states| == |events| + 1
    && states[0] == Init(count)
    && forall i | 0 <= i < |events| :: Enabled(states[i], events[i]) && states[i + 1] == Next(states[i], events[i], passes)
  }

  // Invariant

  ghost predicate ThreadInv<Work>(s: State<Work>, i: nat)
    requires i < |s.threads|
  {
    var th := s.threads[i];
    && th.seen <= |s.published| && th.lastVersion == Version(th.seen)
    && (!th.phase.Waiting? ==> th.seen >= 1)
    && (th.seen >= 1 ==> th.work == Some(s.published[th.seen - 1]))
    && th.nonce == Nonce(|s.threads|, i, th.fails)
    && LateInv(th, |s.published|)
  }

  /** Unless the thread was lapped by a full turn of the version counter, it tests a superseded
      template at most once, and not at all once it has. */
  ghost predicate LateInv<Work>(th: Thread<Work>, count: nat) {
    count - th.seen < Pow2(64) ==>
      && th.lateTests <= 1
      && (th.phase.Testing? || count == th.seen ==> th.lateTests == 0)
  }

  ghost predicate MinedInv<Work>(s: State<Work>) {
    && (forall j | 0 <= j < |s.mined| ::
          && s.mined[j].thread < |s.threads|
          && var th := s.threads[s.mined[j].thread];
             s.mined[j].publication <= th.seen && (s.mined[j].publication == th.seen ==> th.phase.Waiting?))
    && (forall i, j | 0 <= i < j < |s.mined| :: OtherWork(s.mined[i], s.mined[j]))
  }

  /** By another thread or under another publication. */
  predicate OtherWork(a: Mined, b: Mined) {
    a.thread != b.thread || a.publication != b.publication
  }

  ghost predicate Inv<Work>(s: State<Work>) {
    && (forall i | 0 <= i < |s.threads| :: ThreadInv(s, i))
    && MinedInv(s)
  }

  lemma NonceAdvances(count: nat, i: nat, fails: nat)
    ensures Nonce(count, i, fails + 1) == Advance(Nonce(count, i, fails), count)
  {
    var m, x := Pow2(64), RawNonce(count, i, fails);
    assert RawNonce(count, i, fails + 1) == x + count;
    assert x == x / m * m + x % m;
    SameResidue(m, x + count, x % m + count, x / m);
  }

  lemma PublishKeepsInv<Work>(s: State<Work>, w: Work)
    requires Inv(s)
    ensures Inv(s.(published := s.published + [w]))
  {
    var s' := s.(published := s.published + [w]);
    forall i | 0 <= i < |s.threads|
      ensures ThreadInv(s', i)
    {
      assert ThreadInv(s, i);
    }
  }

  /** What a step by thread `t` must bring about for the others' invariants to carry over. */
  lemma ThreadStepKeepsInv<Work>(s: State<Work>, t: nat, s': State<Work>)
    requires Inv(s) && t < |s.threads|
    requires s'.published == s.published && |s'.threads| == |s.threads|
    requires forall i | 0 <= i < |s.threads| && i != t :: s'.threads[i] == s.threads[i]
    requires ThreadInv(s', t) && MinedInv(s')
    ensures Inv(s')
  {
    forall i | 0 <= i < |s.threads|
      ensures ThreadInv(s', i)
    {
      assert ThreadInv(s, i);
    }
  }

  lemma PickUpKeepsInv<Work>(s: State<Work>, t: nat, passes: (Work, nat) -> bool)
    requires Inv(s) && Enabled(s, PickUp(t))
    ensures Inv(Next(s, PickUp(t), passes))
  {
    assert ThreadInv(s, t);
    ThreadStepKeepsInv(s, t, Next(s, PickUp(t), passes));
  }

  lemma TestKeepsInv<Work>(s: State<Work>, t: nat, passes: (Work, nat) -> bool)
    requires Inv(s) && Enabled(s, Test(t))
    ensures Inv(Next(s, Test(t), passes))
  {
    var th := s.threads[t];
    var late := th.lateTests + if Superseded(s, th) then 1 else 0;
    if passes(th.work.value, th.nonce) {
      PassKeepsInv(s, t, late);
    } else {
      FailKeepsInv(s, t, late);
    }
  }

  lemma PassKeepsInv<Work>(s: State<Work>, t: nat, late: nat)
    requires Inv(s) && t < |s.threads| && s.threads[t].phase.Testing?
    requires late == s.threads[t].lateTests + if Superseded(s, s.threads[t]) then 1 else 0
    ensures Inv(s.(threads := s.threads[t := s.threads[t].(phase := Waiting, lateTests := late)],
                   mined := s.mined + [Mined(t, s.threads[t].seen, s.threads[t].nonce)]))
  {
    assert ThreadInv(s, t);
    var th := s.threads[t];
    var s' := s.(threads := s.threads[t := th.(phase := Waiting, lateTests := late)],
                 mined := s.mined + [Mined(t, th.seen, th.nonce)]);
    SubmitKeepsMined(s, t, late);
    assert ThreadInv(s', t);
    ThreadStepKeepsInv(s, t, s');
  }

  lemma FailKeepsInv<Work>(s: State<Work>, t: nat, late: nat)
    requires Inv(s) && t < |s.threads| && s.threads[t].phase.Testing?
    requires late == s.threads[t].lateTests + if Superseded(s, s.threads[t]) then 1 else 0
    ensures var th := s.threads[t];
            Inv(s.(threads := s.threads[t := th.(
                     phase := Comparing, lateTests := late, fails := th.fails + 1, nonce := Advance(th.nonce, |s.threads|))]))
  {
    assert ThreadInv(s, t);
    var th := s.threads[t];
    var s' := s.(threads := s.threads[t := th.(
                   phase := Comparing, lateTests := late, fails := th.fails + 1, nonce := Advance(th.nonce, |s.threads|))]);
    NonceAdvances(|s.threads|, t, th.fails);
    assert ThreadInv(s', t);
    ThreadStepKeepsInv(s, t, s');
  }

  lemma SubmitKeepsMined<Work>(s: State<Work>, t: nat, late: nat)
    requires MinedInv(s) && t < |s.threads| && s.threads[t].phase.Testing?
    ensures MinedInv(s.(threads := s.threads[t := s.threads[t].(phase := Waiting, lateTests := late)],
                        mined := s.mined + [Mined(t, s.threads[t].seen, s.threads[t].nonce)]))
  {
  }

  lemma CompareKeepsInv<Work>(s: State<Work>, t: nat, passes: (Work, nat) -> bool)
    requires Inv(s) && Enabled(s, Compare(t))
    ensures Inv(Next(s, Compare(t), passes))
  {
    assert ThreadInv(s, t);
    VersionsEqual(s.threads[t].seen, |s.published|);
    ThreadStepKeepsInv(s, t, Next(s, Compare(t), passes));
  }

  lemma NextKeepsInv<Work>(s: State<Work>, e: Event<Work>, passes: (Work, nat) -> bool)
    requires Inv(s) && Enabled(s, e)
    ensures Inv(Next(s, e, passes))
  {
    match e
    case Publish(w) => PublishKeepsInv(s, w);
    case PickUp(t) => PickUpKeepsInv(s, t, passes);
    case Test(t) => TestKeepsInv(s, t, passes);
    case Compare(t) => CompareKeepsInv(s, t, passes);
  }

  lemma InitInv<Work>(count: nat)
    ensures Inv(Init<Work>(count)) && |Init<Work>(count).threads| == count
  {
    SmallVersion(0);
  }

  lemma {:induction false} RunKeepsInv<Work>(count: nat, passes: (Work, nat) -> bool, states: seq<State<Work>>, events: seq<Event<Work>>, t: nat)
    requires Run(count, passes, states, events) && t <= |events|
    ensures Inv(states[t]) && |states[t].threads| == count
    decreases t
  {
    if t == 0 {
      InitInv<Work>(count);
    } else {
      var n := t - 1;
      RunKeepsInv(count, passes, states, events, n);
      assert Enabled(states[n], events[n]) && states[n + 1] == Next(states[n], events[n], passes);
      NextKeepsInv(states[n], events[n], passes);
      NextKeepsCount(states[n], events[n], passes);
    }
  }

  lemma NextKeepsCount<Work>(s: State<Work>, e: Event<Work>, passes: (Work, nat) -> bool)
    requires Enabled(s, e)
    ensures |Next(s, e, passes).threads| == |s.threads|
  {
  }

  /** In every run: what a thread works on is what was published under its version; it tests a
      superseded template at most once, unless 2^64 publications passed it by; and no thread submits
      two blocks under one publication. */
  lemma ThreadsFollowPublications<Work>(count: nat, passes: (Work, nat) -> bool, states: seq<State<Work>>, events: seq<Event<Work>>, t: nat)
    requires Run(count, passes, states, events) && t < count
    ensures var s := states[|events|];
            && |s.threads| == count
            && var th := s.threads[t];
               && th.seen <= |s.published| && th.lastVersion == Version(th.seen)
               && (!th.phase.Waiting? ==> th.seen >= 1 && th.work == Some(s.published[th.seen - 1]))
               && (th.lateTests <= 1 || |s.published| - th.seen >= Pow2(64))
               && forall i, j | 0 <= i < j < |s.mined| :: OtherWork(s.mined[i], s.mined[j])
  {
    RunKeepsInv(count, passes, states, events, |events|);
    assert ThreadInv(states[|events|], t);
  }

  /** In every run with a power-of-two number of threads, no two threads ever stand at the same nonce,
      whatever states of the run they are taken from. */
  lemma ThreadsNeverShareNonces<Work>(
      count: nat, passes: (Work, nat) -> bool, states: seq<State<Work>>, events: seq<Event<Work>>,
      a: nat, b: nat, i: nat, k: nat)
    requires Run(count, passes, states, events) && IsPow2(count) && count < Pow2(64)
    requires a <= |events| && b <= |events| && i < k < count
    ensures |states[a].threads| == |states[b].threads| == count
    ensures states[a].threads[i].nonce != states[b].threads[k].nonce
  {
    ThreadAt(count, passes, states, events, a, i);
    ThreadAt(count, passes, states, events, b, k);
    DistinctNonces(count, i, k, states[a].threads[i].fails, states[b].threads[k].fails);
  }

  lemma ThreadAt<Work>(
      count: nat, passes: (Work, nat) -> bool, states: seq<State<Work>>, events: seq<Event<Work>>, a: nat, i: nat)
    requires Run(count, passes, states, events)
    requires a <= |events| && i < count
    ensures |states[a].threads| == count
    ensures states[a].threads[i].nonce == Nonce(count, i, states[a].threads[i].fails)
  {
    RunKeepsInv(count, passes, states, events, a);
    assert ThreadInv(states[a], i);
  }

  /** In every run: thread i starts at i * 1_000_000_007 and goes on by the number of threads, in 64 bits. */
  lemma ThreadStandsAt<Work>(
      count: nat, passes: (Work, nat) -> bool, states: seq<State<Work>>, events: seq<Event<Work>>, a: nat, i: nat)
    requires Run(count, passes, states, events)
    requires a <= |events| && i < count
    ensures |states[a].threads| == count
    ensures var th := states[a].threads[i];
            th.nonce == (i * 1_000_000_007 + th.fails * count) % 0x1_0000_0000_0000_0000
  {
    ThreadAt(count, passes, states, events, a, i);
    TwoTo64();
  }

  // What is submitted

  /** The nonce passes on the template published then. */
  ghost predicate Proven<Work>(s: State<Work>, m: Mined, passes: (Work, nat) -> bool) {
    1 <= m.publication <= |s.published| && passes(s.published[m.publication - 1], m.nonce)
  }

  lemma StepProven<Work>(s: State<Work>, e: Event<Work>, passes: (Work, nat) -> bool)
    requires Inv(s) && Enabled(s, e) && forall j | 0 <= j < |s.mined| :: Proven(s, s.mined[j], passes)
    ensures forall j | 0 <= j < |Next(s, e, passes).mined| :: Proven(Next(s, e, passes), Next(s, e, passes).mined[j], passes)
  {
    var s' := Next(s, e, passes);
    if e.Test? {
      assert ThreadInv(s, e.t);
    }
    forall j | 0 <= j < |s'.mined|
      ensures Proven(s', s'.mined[j], passes)
    {
      if j < |s.mined| {
        assert Proven(s, s.mined[j], passes);
      }
    }
  }

  /** In every run each block that is submitted passes the proof-of-work check of its template. */
  lemma {:induction false} MinedBlocksPass<Work>(
      count: nat, passes: (Work, nat) -> bool, states: seq<State<Work>>, events: seq<Event<Work>>, t: nat, j: nat)
    requires Run(count, passes, states, events) && t <= |events| && j < |states[t].mined|
    ensures var m := states[t].mined[j];
            1 <= m.publication <= |states[t].published| && passes(states[t].published[m.publication - 1], m.nonce)
    decreases t
  {
    AllProven(count, passes, states, events, t);
    assert Proven(states[t], states[t].mined[j], passes);
  }

  lemma {:induction false} AllProven<Work>(
      count: nat, passes: (Work, nat) -> bool, states: seq<State<Work>>, events: seq<Event<Work>>, t: nat)
    requires Run(count, passes, states, events) && t <= |events|
    ensures forall j | 0 <= j < |states[t].mined| :: Proven(states[t], states[t].mined[j], passes)
    decreases t
  {
    if t > 0 {
      var n := t - 1;
      AllProven(count, passes, states, events, n);
      RunKeepsInv(count, passes, states, events, n);
      assert Enabled(states[n], events[n]) && states[n + 1] == Next(states[n], events[n], passes);
      StepProven(states[n], events[n], passes);
    }
  }

  /** A test that passes submits the block, with its nonce and its template; one that fails
      submits nothing. */
  lemma TestSubmits<Work>(s: State<Work>, t: nat, passes: (Work, nat) -> bool)
    requires Inv(s) && Enabled(s, Test(t))
    ensures var th, s' := s.threads[t], Next(s, Test(t), passes);
            && 1 <= th.seen <= |s.published| && th.work == Some(s.published[th.seen - 1])
            && (passes(s.published[th.seen - 1], th.nonce) ==> s'.mined == s.mined + [Mined(t, th.seen, th.nonce)])
            && (!passes(s.published[th.seen - 1], th.nonce) ==> s'.mined == s.mined)
  {
    assert ThreadInv(s, t);
  }

  lemma {:induction false} MinedStays<Work>(
      count: nat, passes: (Work, nat) -> bool, states: seq<State<Work>>, events: seq<Event<Work>>, n: nat, t: nat, m: Mined)
    requires Run(count, passes, states, events) && n <= t <= |events| && m in states[n].mined
    ensures m in states[t].mined
    decreases t
  {
    if n < t {
      MinedStays(count, passes, states, events, n, t - 1, m);
      assert Enabled(states[t - 1], events[t - 1]) && states[t] == Next(states[t - 1], events[t - 1], passes);
    }
  }

  /** In every run the nonce of a test that passes is among the submitted ones from then on. */
  lemma PassedTestsAreMined<Work>(
      count: nat, passes: (Work, nat) -> bool, states: seq<State<Work>>, events: seq<Event<Work>>, n: nat, t: nat)
    requires Run(count, passes, states, events) && n < t <= |events| && events[n].Test?
    ensures events[n].t < |states[n].threads|
    ensures var th := states[n].threads[events[n].t];
            && 1 <= th.seen <= |states[n].published|
            && (passes(states[n].published[th.seen - 1], th.nonce) ==> Mined(events[n].t, th.seen, th.nonce) in states[t].mined)
  {
    RunKeepsInv(count, passes, states, events, n);
    assert Enabled(states[n], events[n]) && states[n + 1] == Next(states[n], events[n], passes);
    TestSubmits(states[n], events[n].t, passes);
    var th := states[n].threads[events[n].t];
    assert ThreadInv(states[n], events[n].t);
    if passes(states[n].published[th.seen - 1], th.nonce) {
      MinedStays(count, passes, states, events, n + 1, t, Mined(events[n].t, th.seen, th.nonce));
    }
  }

  /** A pick-up gets the newest template. */
  lemma PicksNewest<Work>(s: State<Work>, t: nat, passes: (Work, nat) -> bool)
    requires Inv(s) && Enabled(s, PickUp(t)) && s.published != []
    ensures var th := Next(s, PickUp(t), passes).threads[t];
            th.phase == Testing && th.work == Some(s.published[|s.published| - 1]) && th.nonce == s.threads[t].nonce
  {
  }

  /** After a failed test a thread goes on with the same template at the nonce as many further on as there
      are threads, unless another template was published meanwhile. */
  lemma FailedTestGoesOn<Work>(s: State<Work>, t: nat, passes: (Work, nat) -> bool)
    requires Inv(s) && Enabled(s, Test(t)) && !passes(s.threads[t].work.value, s.threads[t].nonce)
    requires s.threads[t].seen == |s.published|
    ensures var s1 := Next(s, Test(t), passes);
            && Enabled(s1, Compare(t))
            && var th, th' := s.threads[t], Next(s1, Compare(t), passes).threads[t];
               && th'.phase == Testing && th'.work == th.work
               && th'.nonce == (th.nonce + |s.threads|) % 0x1_0000_0000_0000_0000
  {
    assert ThreadInv(s, t);
    TwoTo64();
  }

  lemma TwoTo64()
    ensures Pow2(64) == 0x1_0000_0000_0000_0000
  {
    Doubling(16);
    Doubling(32);
    assert Pow2(4) == 16 && Pow2(8) == 256 && Pow2(12) == 4096 && Pow2(16) == 65536;
  }

  lemma {:induction false} Doubling(n: nat)
    ensures Pow2(2 * n) == Pow2(n) * Pow2(n)
  {
    if n > 0 {
      Doubling(n - 1);
      assert Pow2(2 * n) == 4 * Pow2(2 * (n - 1));
    }
  }

  /** One that was superseded goes back to wait, unless 2^64 publications passed it by. */
  lemma SupersededGoesBack<Work>(s: State<Work>, t: nat, passes: (Work, nat) -> bool)
    requires Inv(s) && Enabled(s, Compare(t)) && s.threads[t].seen < |s.published| < s.threads[t].seen + Pow2(64)
    ensures Next(s, Compare(t), passes).threads[t].phase == Waiting
  {
    assert ThreadInv(s, t);
    VersionsEqual(s.threads[t].seen, |s.published|);
  }

  /** Templates can be published at any time, and every thread can take its next step: a waiting one as soon as
      the version differs from its own. */
  lemma ThreadsMove<Work>(s: State<Work>, t: nat, work: Work, passes: (Work, nat) -> bool)
    requires Inv(s) && t < |s.threads|
    ensures Enabled(s, Publish(work)) && Next(s, Publish(work), passes) == s.(published := s.published + [work])
    ensures match s.threads[t].phase
            case Waiting => Enabled(s, PickUp(t)) <==> Version(|s.published|) != s.threads[t].lastVersion
            case Testing => Enabled(s, Test(t))
            case Comparing => Enabled(s, Compare(t))
  {
    assert ThreadInv(s, t);
  }
}
