/** How long the duplicate guard remembers a share, and what it answers meanwhile, over whole runs of
    interleaved submissions. */
module Residency {
  import opened Options
  import opened Guards
  import opened DuplicateGuard
  import opened SharePipeline
  import opened Sums

  /** The guard's queue follows the order of insertion. */
  ghost predicate GuardInv(s: State) {
    && Exact(s.guard)
    && (forall k | k in s.guard.entries :: k in s.born && s.born[k] < |s.subs| && s.subs[s.born[k]].key == k)
    && (forall i, j | 0 <= i < j < |s.guard.order| :: s.guard.order[j] in s.born && s.guard.order[i] in s.born
                                                      && s.born[s.guard.order[i]] < s.born[s.guard.order[j]])
    && (forall n | 0 <= n < |s.subs| :: s.subs[n].key in s.born && n <= s.born[s.subs[n].key] < |s.subs|)
  }

  /** The guard still holds what insertion `n` put there. */
  ghost predicate Live(s: State, n: nat) {
    n < |s.subs| && s.subs[n].key in s.guard.entries && s.subs[n].key in s.born && s.born[s.subs[n].key] == n
  }

  /** The two reasons for which a residency may end: its age passed the time to live, or at least
      `maxEntries` insertions came after it. */
  ghost predicate MayEnd(s: State, now: nat, n: nat)
    requires n < |s.subs|
  {
    Expired(s.guard, s.subs[n].key, now) || |s.subs| - 1 - n >= s.guard.maxEntries
  }

  lemma {:induction false} InsertionsBehind(s: State, i: nat)
    requires GuardInv(s) && i < |s.guard.order|
    ensures s.guard.order[i] in s.born && s.born[s.guard.order[i]] + (|s.guard.order| - 1 - i) <= |s.subs| - 1
    decreases |s.guard.order| - i
  {
    assert s.guard.order[i] in s.guard.order;
    if i + 1 < |s.guard.order| {
      InsertionsBehind(s, i + 1);
    }
  }

  lemma PruneKeepsInv(s: State, now: nat)
    requires GuardInv(s)
    ensures GuardInv(s.(guard := Pruned(s.guard, now)))
  {
    var n := PrunedSuffix(s.guard, now);
    var order := Pruned(s.guard, now).order;
    forall i, j | 0 <= i < j < |order|
      ensures order[j] in s.born && order[i] in s.born && s.born[order[i]] < s.born[order[j]]
    {
      assert order[i] == s.guard.order[n + i] && order[j] == s.guard.order[n + j];
    }
  }

  lemma PruneEnds(s: State, now: nat, n: nat)
    requires GuardInv(s) && Live(s, n)
    requires s.subs[n].key !in Pruned(s.guard, now).entries
    ensures MayEnd(s, now, n)
  {
    var dropped := PrunedSuffix(s.guard, now);
    var key := s.subs[n].key;
    var i :| 0 <= i < |s.guard.order| && s.guard.order[i] == key;
    assert MayDrop(s.guard, now, i);
    InsertionsBehind(s, i);
  }

  ghost predicate SameKeys(a: seq<Sub>, b: seq<Sub>) {
    |a| == |b| && forall i | 0 <= i < |a| :: a[i].key == b[i].key
  }

  lemma SameKeysKeepInv(s: State, s': State)
    requires GuardInv(s)
    requires SameKeys(s.subs, s'.subs) && s'.born == s.born
    requires s'.guard.order == s.guard.order && s'.guard.entries.Keys == s.guard.entries.Keys
    ensures GuardInv(s')
    ensures forall n | 0 <= n < |s.subs| :: Live(s, n) <==> Live(s', n)
  {
    assert forall k :: k in s'.guard.entries <==> k in s.guard.entries;
  }

  lemma AppendKeepsInv(s: State, sub: Sub, e: Entry<Outcome>)
    requires GuardInv(s) && sub.key !in s.guard.entries
    ensures GuardInv(s.(guard := s.guard.(entries := s.guard.entries[sub.key := e], order := s.guard.order + [sub.key]),
                        born := s.born[sub.key := |s.subs|], subs := s.subs + [sub]))
  {
    AppendExact(s.guard, sub.key, e);
    forall i | 0 <= i < |s.guard.order|
      ensures s.guard.order[i] != sub.key && s.guard.order[i] in s.born && s.born[s.guard.order[i]] < |s.subs|
    {
      assert s.guard.order[i] in s.guard.order;
    }
  }

  lemma ArriveKeepsInv(s: State, key: string, worker: string, now: nat)
    requires WellFormed(s) && GuardInv(s)
    ensures GuardInv(Next(s, Arrive(key, worker, now)))
  {
    PruneKeepsInv(s, now);
    var s1 := s.(guard := Pruned(s.guard, now));
    if key !in s1.guard.entries {
      PruneKeepsInv(s1, now);
      PrunedShrinks(s1.guard, now);
      var s2 := s1.(guard := Pruned(s1.guard, now));
      AppendKeepsInv(s2, NewSub(key, worker, now), Entry(now, InFlight));
    }
  }

  /** What writing an outcome does to the pruned guard. */
  lemma OutcomeWritten(s: State, n: nat, now: nat)
    requires WellFormed(s) && Enabled(s, WriteOutcome(n, now))
    ensures var p, s' := Pruned(s.guard, now), Next(s, WriteOutcome(n, now));
            var key, e := s.subs[n].key, Entry(now, s.subs[n].verdict.value);
            && s'.guard.entries == (if key in p.entries then p.entries[key := e] else p.entries)
            && s'.guard.entries.Keys == p.entries.Keys
            && s'.guard.order == p.order && s'.born == s.born && SameKeys(s.subs, s'.subs)
  {
  }

  lemma WriteKeepsInv(s: State, n: nat, now: nat)
    requires WellFormed(s) && GuardInv(s) && Enabled(s, WriteOutcome(n, now))
    ensures GuardInv(Next(s, WriteOutcome(n, now)))
    ensures var s' := Next(s, WriteOutcome(n, now));
            forall m | 0 <= m < |s.subs| :: Live(s.(guard := Pruned(s.guard, now)), m) <==> Live(s', m)
  {
    PruneKeepsInv(s, now);
    OutcomeWritten(s, n, now);
    SameKeysKeepInv(s.(guard := Pruned(s.guard, now)), Next(s, WriteOutcome(n, now)));
  }

  lemma NextKeepsInv(s: State, e: Event)
    requires WellFormed(s) && Enabled(s, e) && GuardInv(s)
    ensures GuardInv(Next(s, e))
  {
    match e
    case Arrive(key, worker, now) => ArriveKeepsInv(s, key, worker, now);
    case WriteOutcome(n, now) => WriteKeepsInv(s, n, now);
    case _ => SameKeysKeepInv(s, Next(s, e));
  }

  ghost predicate Ends(s: State, e: Event, s': State, n: nat) {
    && Live(s, n) && !Live(s', n)
    && (e.Arrive? || e.WriteOutcome?)
    && MayEnd(s, e.now, n)
  }

  /** A residency ends for one of the two reasons only. */
  lemma ResidencyEnds(s: State, e: Event, n: nat)
    requires WellFormed(s) && Enabled(s, e) && GuardInv(s)
    requires Live(s, n) && !Live(Next(s, e), n)
    ensures Ends(s, e, Next(s, e), n)
  {
    match e
    case Arrive(key, worker, now) => ArriveEnds(s, key, worker, now, n);
    case WriteOutcome(m, now) =>
      WriteKeepsInv(s, m, now);
      PruneEnds(s, now, n);
    case _ =>
  }

  lemma ArriveEnds(s: State, key: string, worker: string, now: nat, n: nat)
    requires WellFormed(s) && GuardInv(s)
    requires Live(s, n) && !Live(Next(s, Arrive(key, worker, now)), n)
    ensures MayEnd(s, now, n)
  {
    var p := Pruned(s.guard, now);
    if s.subs[n].key !in p.entries {
      PruneEnds(s, now, n);
    } else {
      if s.subs[n].key in Pruned(p, now).entries {
        StillLive(s, key, worker, now, n);
      }
      PruneKeepsInv(s, now);
      PrunedShrinks(s.guard, now);
      PrunedWithinLimits(s.guard, now);
      assert Live(s.(guard := p), n);
      PruneEnds(s.(guard := p), now, n);
    }
  }

  lemma StillLive(s: State, key: string, worker: string, now: nat, n: nat)
    requires WellFormed(s) && Live(s, n)
    requires s.subs[n].key in Pruned(Pruned(s.guard, now), now).entries
    ensures Live(Next(s, Arrive(key, worker, now)), n)
  {
    PrunedShrinks(Pruned(s.guard, now), now);
  }

  lemma PrunedWithinLimits(g: SubmitGuard, now: nat)
    requires Exact(g)
    ensures SameLimits(g, Pruned(g, now))
  {
    var _ := PrunedSuffix(g, now);
  }

  lemma {:induction false} RunKeepsInv(ttl: nat, maxEntries: nat, states: seq<State>, events: seq<Event>)
    requires Run(ttl, maxEntries, states, events)
    ensures WellFormed(states[|events|]) && GuardInv(states[|events|])
    decreases |events|
  {
    if events != [] {
      var n := |events| - 1;
      RunKeepsInv(ttl, maxEntries, states[..n + 1], events[..n]);
      NextWellFormed(states[n], events[n]);
      NextKeepsInv(states[n], events[n]);
    }
  }

  lemma {:induction false} EndedSomewhere(ttl: nat, maxEntries: nat, states: seq<State>, events: seq<Event>, n: nat) returns (i: nat)
    requires Run(ttl, maxEntries, states, events)
    requires n < |states[|events|].subs| && !Live(states[|events|], n)
    ensures i < |events| && Ends(states[i], events[i], states[i + 1], n)
    decreases |events|
  {
    var t := |events| - 1;
    RunKeepsInv(ttl, maxEntries, states[..t + 1], events[..t]);
    if Live(states[t], n) {
      i := t;
      ResidencyEnds(states[t], events[t], n);
    } else {
      JustInserted(states[t], events[t], n);
      i := EndedSomewhere(ttl, maxEntries, states[..t + 1], events[..t], n);
    }
  }

  /** A submission that is new after a step is live after it. */
  lemma JustInserted(s: State, e: Event, n: nat)
    requires WellFormed(s) && Enabled(s, e)
    requires n < |Next(s, e).subs| && !Live(Next(s, e), n)
    ensures n < |s.subs|
  {
    if e.Arrive? {
      var p := Pruned(s.guard, e.now);
      PrunedShrinks(p, e.now);
    }
  }

  /** A key is inserted again only after its earlier residency ended: at some step of the run it was
      dropped because its age passed the time to live or because at least `maxEntries` insertions had
      come after it. */
  lemma ReinsertedOnlyAfterEnd(ttl: nat, maxEntries: nat, states: seq<State>, events: seq<Event>, n: nat, m: nat) returns (i: nat)
    requires Run(ttl, maxEntries, states, events)
    requires n < m < |states[|events|].subs|
    requires states[|events|].subs[n].key == states[|events|].subs[m].key
    ensures i < |events| && Ends(states[i], events[i], states[i + 1], n) && |states[i].subs| <= m
    decreases |events|
  {
    var t := |events| - 1;
    RunKeepsInv(ttl, maxEntries, states, events);
    if m < |states[t].subs| {
      SubsOnlyGrow(states[t], events[t]);
      i := ReinsertedOnlyAfterEnd(ttl, maxEntries, states[..t + 1], events[..t], n, m);
    } else {
      i := EndedSomewhere(ttl, maxEntries, states, events, n);
      RunGrows(ttl, maxEntries, states, events, i, t);
    }
  }

  /** Submissions keep their numbers and keys, and at most one is added by a step. */
  lemma SubsOnlyGrow(s: State, e: Event)
    requires WellFormed(s) && Enabled(s, e)
    ensures |s.subs| <= |Next(s, e).subs| <= |s.subs| + 1
    ensures forall n | 0 <= n < |s.subs| :: Next(s, e).subs[n].key == s.subs[n].key
  {
  }

  lemma {:induction false} RunGrows(ttl: nat, maxEntries: nat, states: seq<State>, events: seq<Event>, i: nat, j: nat)
    requires Run(ttl, maxEntries, states, events) && i <= j <= |events|
    ensures |states[i].subs| <= |states[j].subs|
    decreases j
  {
    if i < j {
      RunGrows(ttl, maxEntries, states, events, i, j - 1);
      SubsOnlyGrow(states[j - 1], events[j - 1]);
    }
  }

  // One verdict per residency

  /** No submission is in flight past the time to live, or with `maxEntries` insertions behind it,
      when the step prunes the guard. */
  ghost predicate Timely(s: State, e: Event) {
    e.Arrive? || e.WriteOutcome? ==>
      forall n | 0 <= n < |s.subs| && !s.subs[n].outcomeSet ::
        Elapsed(e.now, s.subs[n].at) <= s.guard.ttl && |s.subs| - 1 - n < s.guard.maxEntries
  }

  /** What the guard answers for insertion `n`: in flight until its verdict is written, the verdict
      from then on. */
  ghost predicate Answers(s: State, n: nat)
    requires n < |s.subs| && s.subs[n].key in s.guard.entries
  {
    var e := s.guard.entries[s.subs[n].key];
    if s.subs[n].outcomeSet then Some(e.value) == s.subs[n].verdict else e == Entry(s.subs[n].at, InFlight)
  }

  /** A submission without written verdict is live, and every live residency answers for itself. */
  ghost predicate Faithful(s: State) {
    forall n | 0 <= n < |s.subs| :: (!s.subs[n].outcomeSet ==> Live(s, n)) && (Live(s, n) ==> Answers(s, n))
  }

  lemma PruneKeepsInFlight(s: State, now: nat, n: nat)
    requires GuardInv(s) && n < |s.subs| && Live(s, n)
    requires s.guard.entries[s.subs[n].key].ts == s.subs[n].at
    requires Elapsed(now, s.subs[n].at) <= s.guard.ttl && |s.subs| - 1 - n < s.guard.maxEntries
    ensures Live(s.(guard := Pruned(s.guard, now)), n)
  {
    if s.subs[n].key !in Pruned(s.guard, now).entries {
      PruneEnds(s, now, n);
    }
  }

  lemma PruneKeepsFaithful(s: State, now: nat)
    requires GuardInv(s) && Faithful(s)
    requires forall n | 0 <= n < |s.subs| && !s.subs[n].outcomeSet ::
               Elapsed(now, s.subs[n].at) <= s.guard.ttl && |s.subs| - 1 - n < s.guard.maxEntries
    ensures Faithful(s.(guard := Pruned(s.guard, now)))
    ensures SameLimits(s.guard, Pruned(s.guard, now))
  {
    var s' := s.(guard := Pruned(s.guard, now));
    PrunedShrinks(s.guard, now);
    PrunedWithinLimits(s.guard, now);
    forall n | 0 <= n < |s.subs|
      ensures (!s.subs[n].outcomeSet ==> Live(s', n)) && (Live(s', n) ==> Answers(s', n))
    {
      if !s.subs[n].outcomeSet {
        PruneKeepsInFlight(s, now, n);
      }
    }
  }

  lemma AppendKeepsFaithful(s: State, sub: Sub, e: Entry<Outcome>)
    requires GuardInv(s) && Faithful(s) && sub.key !in s.guard.entries
    requires !sub.outcomeSet && e == Entry(sub.at, InFlight)
    ensures Faithful(s.(guard := s.guard.(entries := s.guard.entries[sub.key := e], order := s.guard.order + [sub.key]),
                        born := s.born[sub.key := |s.subs|], subs := s.subs + [sub]))
  {
  }

  lemma ArriveKeepsFaithful(s: State, key: string, worker: string, now: nat)
    requires WellFormed(s) && GuardInv(s) && Faithful(s) && Timely(s, Arrive(key, worker, now))
    ensures Faithful(Next(s, Arrive(key, worker, now)))
  {
    PruneKeepsInv(s, now);
    PruneKeepsFaithful(s, now);
    var s1 := s.(guard := Pruned(s.guard, now));
    if key !in s1.guard.entries {
      PruneKeepsInv(s1, now);
      PruneKeepsFaithful(s1, now);
      PrunedShrinks(s1.guard, now);
      var s2 := s1.(guard := Pruned(s1.guard, now));
      AppendKeepsFaithful(s2, NewSub(key, worker, now), Entry(now, InFlight));
    }
  }

  /** A verdict written in time reaches the residency it is for. */
  lemma WriteReachesOwnResidency(s: State, n: nat, now: nat)
    requires WellFormed(s) && GuardInv(s) && Faithful(s)
    requires Enabled(s, WriteOutcome(n, now)) && Timely(s, WriteOutcome(n, now))
    ensures var s' := Next(s, WriteOutcome(n, now));
            Faithful(s') && Live(s', n) && s'.guard.entries[s.subs[n].key] == Entry(now, s.subs[n].verdict.value)
  {
    PruneKeepsInv(s, now);
    PruneKeepsFaithful(s, now);
    var s1 := s.(guard := Pruned(s.guard, now));
    assert Live(s1, n);
    FaithfulAfterWrite(s1, Next(s, WriteOutcome(n, now)), n, Entry(now, s.subs[n].verdict.value));
  }

  lemma FaithfulAfterWrite(s: State, s': State, n: nat, e: Entry<Outcome>)
    requires Faithful(s) && Live(s, n)
    requires s.subs[n].verdict == Some(e.value)
    requires s'.subs == s.subs[n := s.subs[n].(outcomeSet := true)] && s'.born == s.born
    requires s'.guard.entries == s.guard.entries[s.subs[n].key := e]
    ensures Faithful(s') && Live(s', n)
  {
    forall m | 0 <= m < |s'.subs|
      ensures (!s'.subs[m].outcomeSet ==> Live(s', m)) && (Live(s', m) ==> Answers(s', m))
    {
      if Live(s, m) {
        AnswersAfterWrite(s, s', n, m, e);
      }
    }
    AnswersAfterWrite(s, s', n, n, e);
  }

  lemma AnswersAfterWrite(s: State, s': State, n: nat, m: nat, e: Entry<Outcome>)
    requires Live(s, n) && Live(s, m) && Answers(s, m)
    requires s.subs[n].verdict == Some(e.value)
    requires s'.subs == s.subs[n := s.subs[n].(outcomeSet := true)] && s'.born == s.born
    requires s'.guard.entries == s.guard.entries[s.subs[n].key := e]
    ensures Live(s', m) && Answers(s', m)
  {
    assert m != n ==> s.subs[m].key != s.subs[n].key;
  }

  lemma OtherKeepsFaithful(s: State, e: Event)
    requires WellFormed(s) && Enabled(s, e) && GuardInv(s) && Faithful(s)
    requires !e.Arrive? && !e.WriteOutcome?
    ensures Faithful(Next(s, e))
  {
    var s' := Next(s, e);
    forall n | 0 <= n < |s'.subs|
      ensures (!s'.subs[n].outcomeSet ==> Live(s', n)) && (Live(s', n) ==> Answers(s', n))
    {
      OtherKeepsSub(s, e, n);
      assert Live(s', n) == Live(s, n);
    }
  }

  /** Between admission and the writing of the verdict no step touches what a residency answers. */
  lemma OtherKeepsSub(s: State, e: Event, n: nat)
    requires WellFormed(s) && Enabled(s, e)
    requires !e.Arrive? && !e.WriteOutcome?
    ensures Next(s, e).guard == s.guard && Next(s, e).born == s.born && |Next(s, e).subs| == |s.subs|
    ensures n < |s.subs| ==>
              var sub, sub' := s.subs[n], Next(s, e).subs[n];
              && sub'.outcomeSet == sub.outcomeSet && sub'.at == sub.at && sub'.key == sub.key
              && (sub.outcomeSet ==> sub'.verdict == sub.verdict)
  {
    if n < |s.subs| {
      assert SubOk(s.subs[n], s.records);
    }
  }

  ghost predicate TimelyRun(states: seq<State>, events: seq<Event>)
    requires |states| == |events| + 1
  {
    forall i | 0 <= i < |events| :: Timely(states[i], events[i])
  }

  /** If no submission stays in flight too long or is displaced, then in every reachable state each
      residency answers duplicates with its own submission's verdict once that is written, and as in
      flight before. */
  lemma {:induction false} RunIsFaithful(ttl: nat, maxEntries: nat, states: seq<State>, events: seq<Event>)
    requires Run(ttl, maxEntries, states, events) && TimelyRun(states, events)
    ensures Faithful(states[|events|])
    decreases |events|
  {
    if events != [] {
      var n := |events| - 1;
      RunIsFaithful(ttl, maxEntries, states[..n + 1], events[..n]);
      RunKeepsInv(ttl, maxEntries, states[..n + 1], events[..n]);
      assert Timely(states[n], events[n]);
      match events[n]
      case Arrive(key, worker, now) => ArriveKeepsFaithful(states[n], key, worker, now);
      case WriteOutcome(m, now) => WriteReachesOwnResidency(states[n], m, now);
      case _ => OtherKeepsFaithful(states[n], events[n]);
    }
  }

  /** The reply to a duplicate, in such a run. */
  lemma DuplicateReply(ttl: nat, maxEntries: nat, states: seq<State>, events: seq<Event>, key: string, worker: string, now: nat)
    requires Run(ttl, maxEntries, states, events) && TimelyRun(states, events)
    requires Timely(states[|events|], Arrive(key, worker, now))
    requires Admit(states[|events|].guard, key, now).1.Some?
    ensures var s := states[|events|];
            && key in s.born && s.born[key] < |s.subs| && s.subs[s.born[key]].key == key
            && var first := s.subs[s.born[key]];
               Admit(s.guard, key, now).1 == if first.outcomeSet then first.verdict else Some(InFlight)
  {
    var s := states[|events|];
    RunIsFaithful(ttl, maxEntries, states, events);
    RunKeepsInv(ttl, maxEntries, states, events);
    PrunedShrinks(s.guard, now);
    assert Live(s, s.born[key]);
  }

  /** Every residency but `n` answers as before. */
  ghost predicate OthersKeepAnswers(s: State, s': State, n: nat) {
    forall m | 0 <= m < |s.subs| && m != n && Live(s, m) :: SameAnswer(s, s', s.subs[m].key)
  }

  predicate SameAnswer(s: State, s': State, key: string) {
    key in s.guard.entries && key in s'.guard.entries && s'.guard.entries[key].value == s.guard.entries[key].value
  }

  /** The residency of a key in the guard began with some submission of it. */
  ghost predicate Owned(s: State, key: string) {
    key in s.guard.entries ==> key in s.born && s.born[key] < |s.subs| && s.subs[s.born[key]].key == key
  }

  lemma LateWrite(s: State, s': State, n: nat, e: Entry<Outcome>)
    requires n < |s.subs| && Owned(s, s.subs[n].key)
    requires s'.guard.entries == if s.subs[n].key in s.guard.entries then s.guard.entries[s.subs[n].key := e] else s.guard.entries
    ensures OthersKeepAnswers(s, s', n) <==>
            s.subs[n].key !in s.guard.entries || Live(s, n) || s.guard.entries[s.subs[n].key].value == e.value
  {
    var key := s.subs[n].key;
    if key in s.guard.entries && !Live(s, n) {
      var m := s.born[key];
      assert m != n && Live(s, m) && s.subs[m].key == key;
      assert SameAnswer(s, s', s.subs[m].key) <==> s.guard.entries[key].value == e.value;
    }
  }

  /** Without the hypothesis: a verdict that comes after its residency ended is written to the
      residency that replaced it. Every other residency keeps its answer if and only if the key is
      gone, is still the submission's own, or already carries that verdict. */
  lemma LateVerdict(s: State, n: nat, now: nat)
    requires WellFormed(s) && GuardInv(s) && Enabled(s, WriteOutcome(n, now))
    ensures var s1, s' := s.(guard := Pruned(s.guard, now)), Next(s, WriteOutcome(n, now));
            var key := s.subs[n].key;
            OthersKeepAnswers(s1, s', n) <==>
              key !in s1.guard.entries || Live(s1, n) || s1.guard.entries[key].value == s.subs[n].verdict.value
  {
    PruneKeepsInv(s, now);
    OutcomeWritten(s, n, now);
    assert Owned(s.(guard := Pruned(s.guard, now)), s.subs[n].key);
    LateWrite(s.(guard := Pruned(s.guard, now)), Next(s, WriteOutcome(n, now)), n, Entry(now, s.subs[n].verdict.value));
  }

  /** An instance: admitted at 0 with a time to live of 10, admitted again at 20, and the first
      verdict at 21 answers for the second submission, which has none yet. */
  lemma LateVerdictExample()
    ensures var g := Guard(10, 10, map["w|1|ff" := Entry(0, InFlight)], ["w|1|ff"]);
            var (g', duplicate) := Admit(g, "w|1|ff", 20);
            && duplicate == None
            && g'.entries == map["w|1|ff" := Entry(20, InFlight)]
            && SetOutcome(g', "w|1|ff", 21, Accepted).entries == map["w|1|ff" := Entry(21, Accepted)]
  {
    var g := Guard(10, 10, map["w|1|ff" := Entry(0, InFlight)], ["w|1|ff"]);
    var p := Guard(10, 10, map[], []);
    assert PopFront(g) == p;
    assert Pruned(g, 20) == p;
    assert Pruned(p, 20) == p;
  }

  // Scored submissions and insertions

  /** Step `e` puts `key` into the guard, at the back of its queue. */
  predicate Inserts(s: State, e: Event, key: string) {
    e.Arrive? && e.key == key && Admit(s.guard, key, e.now).1.None?
  }

  /** Step `e` adds a submission of `key` to the bridge's totals. */
  predicate Scores(s: State, e: Event, key: string) {
    e.BumpOverall? && e.n < |s.subs| && s.subs[e.n].key == key
  }

  /** How many of the first `t` steps insert the key, and how many score a submission of it. */
  function Insertions(states: seq<State>, events: seq<Event>, key: string, t: nat): nat
    requires t <= |events| <= |states|
  {
    if t == 0 then 0
    else Insertions(states, events, key, t - 1) + if Inserts(states[t - 1], events[t - 1], key) then 1 else 0
  }

  function Scorings(states: seq<State>, events: seq<Event>, key: string, t: nat): nat
    requires t <= |events| <= |states|
  {
    if t == 0 then 0
    else Scorings(states, events, key, t - 1) + if Scores(states[t - 1], events[t - 1], key) then 1 else 0
  }

  function IsKey(key: string): Sub -> nat {
    (sub: Sub) => if sub.key == key then 1 else 0
  }

  function ScoredKey(key: string): Sub -> nat {
    (sub: Sub) => if sub.key == key && sub.overallBumped then 1 else 0
  }

  function Scored(): Sub -> nat {
    (sub: Sub) => if sub.overallBumped then 1 else 0
  }

  lemma SubChangedFor(subs: seq<Sub>, n: nat, sub: Sub, key: string)
    requires n < |subs| && sub.key == subs[n].key
    ensures Sum(subs[n := sub], IsKey(key)) == Sum(subs, IsKey(key))
    ensures Sum(subs[n := sub], ScoredKey(key)) + ScoredKey(key)(subs[n]) == Sum(subs, ScoredKey(key)) + ScoredKey(key)(sub)
  {
    SumUpdate(subs, n, sub, IsKey(key));
    SumUpdate(subs, n, sub, ScoredKey(key));
  }

  /** Each step moves the two counts of the state as it moves the two counts of the run. */
  lemma StepCounts(s: State, e: Event, key: string)
    requires WellFormed(s) && Enabled(s, e)
    ensures var s' := Next(s, e);
            && Sum(s'.subs, IsKey(key)) == Sum(s.subs, IsKey(key)) + (if Inserts(s, e, key) then 1 else 0)
            && Sum(s'.subs, ScoredKey(key)) == Sum(s.subs, ScoredKey(key)) + (if Scores(s, e, key) then 1 else 0)
  {
    var s' := Next(s, e);
    match e
    case Arrive(k, worker, now) =>
      SumAppend(s.subs, NewSub(k, worker, now), IsKey(key));
      SumAppend(s.subs, NewSub(k, worker, now), ScoredKey(key));
    case Decide(n, _) => SubChangedFor(s.subs, n, s'.subs[n], key);
    case GetStats(n) => SubChangedFor(s.subs, n, s'.subs[n], key);
    case BumpWorker(n) => SubChangedFor(s.subs, n, s'.subs[n], key);
    case BumpOverall(n) => SubChangedFor(s.subs, n, s'.subs[n], key);
    case WriteOutcome(n, _) => SubChangedFor(s.subs, n, s'.subs[n], key);
    case _ =>
  }

  lemma {:induction false} RunCounts(ttl: nat, maxEntries: nat, states: seq<State>, events: seq<Event>, key: string, t: nat)
    requires Run(ttl, maxEntries, states, events) && t <= |events|
    ensures Insertions(states, events, key, t) == Sum(states[t].subs, IsKey(key))
    ensures Scorings(states, events, key, t) == Sum(states[t].subs, ScoredKey(key))
    decreases t
  {
    if t > 0 {
      RunCounts(ttl, maxEntries, states, events, key, t - 1);
      StepCounts(states[t - 1], events[t - 1], key);
    }
  }

  /** At every point of every run, the steps that scored a submission of a key are no more than the
      steps that inserted the key into the guard, and the three totals of the bridge together count
      each scored submission once. */
  lemma ScoredAtMostInserted(ttl: nat, maxEntries: nat, states: seq<State>, events: seq<Event>, key: string, t: nat)
    requires Run(ttl, maxEntries, states, events) && t <= |events|
    ensures Scorings(states, events, key, t) <= Insertions(states, events, key, t)
    ensures var s := states[|events|];
            s.overall.shares + s.overall.stale + s.overall.invalid == Sum(s.subs, Scored())
  {
    RunCounts(ttl, maxEntries, states, events, key, t);
    SumLeq(states[t].subs, ScoredKey(key), IsKey(key));
    TotalsCountScored(ttl, maxEntries, states, events);
  }

  lemma TotalsCountScored(ttl: nat, maxEntries: nat, states: seq<State>, events: seq<Event>)
    requires Run(ttl, maxEntries, states, events)
    ensures var s := states[|events|];
            s.overall.shares + s.overall.stale + s.overall.invalid == Sum(s.subs, Scored())
  {
    var s := states[|events|];
    RunInvariant(ttl, maxEntries, states, events, None, Shares);
    RunInvariant(ttl, maxEntries, states, events, None, StaleShares);
    RunInvariant(ttl, maxEntries, states, events, None, InvalidShares);
    var rest := (sub: Sub) => OverallScored(StaleShares)(sub) + OverallScored(InvalidShares)(sub);
    SumAdds(s.subs, OverallScored(StaleShares), OverallScored(InvalidShares), rest);
    forall i | 0 <= i < |s.subs|
      ensures OverallScored(Shares)(s.subs[i]) + rest(s.subs[i]) == Scored()(s.subs[i])
    {
      assert SubOk(s.subs[i], s.records);
    }
    SumAdds(s.subs, OverallScored(Shares), rest, Scored());
  }
}
