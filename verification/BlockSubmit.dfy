/** `BlockSubmitGuard` and the mark / RPC / unmark protocol of `submit_block`. */
module BlockSubmit {
  import opened Options
  import opened Guards

  type BlockGuard = Guard<()>

  function TryMark(g: BlockGuard, hash: string, now: nat): (BlockGuard, bool) {
    var p := Pruned(g, now);
    if hash in p.entries then (p, false)
    else (p.(entries := p.entries[hash := Entry(now, ())], order := p.order + [hash]), true)
  }

  /** Unmarking leaves the hash in the queue. */
  function Unmark(g: BlockGuard, hash: string, now: nat): BlockGuard {
    var p := Pruned(g, now);
    p.(entries := p.entries - {hash})
  }

  class BlockSubmitGuard {
    var state: BlockGuard

    constructor (ttl: nat, maxEntries: nat)
      ensures state == Guard(ttl, maxEntries, map[], [])
    {
      state := Guard(ttl, maxEntries, map[], []);
    }

    method Mark(hash: string, now: nat) returns (ok: bool)
      modifies this
      ensures (state, ok) == TryMark(old(state), hash, now)
    {
      state := Prune(state, now);
      if hash in state.entries {
        return false;
      }
      state := state.(entries := state.entries[hash := Entry(now, ())], order := state.order + [hash]);
      ok := true;
    }

    method Remove(hash: string, now: nat)
      modifies this
      ensures state == Unmark(old(state), hash, now)
    {
      state := Prune(state, now);
      state := state.(entries := state.entries - {hash});
    }
  }

  // The protocol

  /** What the RPC came to: only an accepted block and an error that names a duplicate keep the mark. */
  datatype Answer = AcceptedByNode | DuplicateError | RejectedByNode | OtherError

  predicate KeepsMark(a: Answer) {
    a.AcceptedByNode? || a.DuplicateError?
  }

  datatype Call = Call(hash: string, at: nat, answer: Option<Answer>)

  datatype State = State(
    guard: BlockGuard,
    calls: seq<Call>,            // every RPC made, in the order of their marks
    owner: map<string, nat>)     // the call that set each hash's current mark

  datatype Event =
    | Submit(hash: string, now: nat)
    | Finish(n: nat, answer: Answer, now: nat)

  function Init(ttl: nat, maxEntries: nat): State {
    State(Guard(ttl, maxEntries, map[], []), [], map[])
  }

  predicate Outstanding(s: State, n: nat) {
    n < |s.calls| && s.calls[n].answer.None?
  }

  predicate Enabled(s: State, e: Event) {
    e.Finish? ==> Outstanding(s, e.n)
  }

  /** The step takes the guard's lock, and so prunes it. */
  predicate Prunes(e: Event) {
    e.Submit? || !KeepsMark(e.answer)
  }

  function Next(s: State, e: Event): State
    requires Enabled(s, e)
  {
    match e
    case Submit(hash, now) =>
      var (guard, ok) := TryMark(s.guard, hash, now);
      if ok then State(guard, s.calls + [Call(hash, now, None)], s.owner[hash := |s.calls|])
      else s.(guard := guard)
    case Finish(n, answer, now) =>
      var t := s.(calls := s.calls[n := s.calls[n].(answer := Some(answer))]);
      if KeepsMark(answer) then t else t.(guard := Unmark(s.guard, s.calls[n].hash, now))
  }

  ghost predicate Run(ttl: nat, maxEntries: nat, states: seq<State>, events: seq<Event>) {
    && |states| == |events| + 1
    && states[0] == Init(ttl, maxEntries)
    && forall i | 0 <= i < |events| :: Enabled(states[i], events[i]) && states[i + 1] == Next(states[i], events[i])
  }

  // Every run

  ghost predicate Bounded(s: State, ttl: nat, maxEntries: nat) {
    && Covered(s.guard)
    && s.guard.ttl == ttl && s.guard.maxEntries == maxEntries
    && |s.guard.entries| <= maxEntries + 1
  }

  lemma NextBounded(s: State, e: Event, ttl: nat, maxEntries: nat)
    requires Enabled(s, e) && Bounded(s, ttl, maxEntries)
    ensures Bounded(Next(s, e), ttl, maxEntries)
  {
    PrunedWithinCapacity(s.guard, e.now);
    var p := Pruned(s.guard, e.now);
    match e
    case Submit(hash, now) =>
      if hash !in p.entries {
        assert p.entries[hash := Entry(now, ())].Keys == p.entries.Keys + {hash};
        assert forall k | k in p.entries :: k in p.order + [hash];
      }
    case Finish(n, answer, now) =>
      var left := p.entries - {s.calls[n].hash};
      assert left.Keys == p.entries.Keys - {s.calls[n].hash};
  }

  /** In every run, despite unmarking and marking again, the queue covers the marks; so pruning always
      brings them within the capacity, and there is never more than one above it. */
  lemma {:induction false} RunBounded(ttl: nat, maxEntries: nat, states: seq<State>, events: seq<Event>, now: nat)
    requires Run(ttl, maxEntries, states, events)
    ensures var s := states[|events|];
            Bounded(s, ttl, maxEntries) && |Pruned(s.guard, now).entries| <= maxEntries
    decreases |events|
  {
    if events != [] {
      var n := |events| - 1;
      RunBounded(ttl, maxEntries, states[..n + 1], events[..n], now);
      NextBounded(states[n], events[n], ttl, maxEntries);
    }
    PrunedWithinCapacity(states[|events|].guard, now);
  }

  // Timely runs

  /** Whenever the guard is pruned, no RPC is outstanding past the time to live and the marks are
      within the capacity. */
  ghost predicate Timely(s: State, e: Event) {
    Prunes(e) ==>
      && |s.guard.entries| <= s.guard.maxEntries
      && forall n | 0 <= n < |s.calls| && Outstanding(s, n) :: Elapsed(e.now, s.calls[n].at) <= s.guard.ttl
  }

  /** The mark set for call `n` is in the guard. */
  ghost predicate Marked(s: State, n: nat) {
    && n < |s.calls|
    && var hash := s.calls[n].hash;
       && hash in s.guard.entries && s.guard.entries[hash].ts == s.calls[n].at
       && hash in s.owner && s.owner[hash] == n
  }

  ghost predicate Inv(s: State) {
    && (forall n | 0 <= n < |s.calls| && Outstanding(s, n) :: Marked(s, n))
    && (forall k | k in s.guard.entries :: k in s.owner && s.owner[k] < |s.calls| && s.calls[s.owner[k]].hash == k)
    && (forall n | 0 <= n < |s.calls| :: s.calls[n].hash in s.owner && n <= s.owner[s.calls[n].hash] < |s.calls|)
  }

  lemma PruneKeepsMarks(s: State, e: Event, n: nat)
    requires Prunes(e) && Timely(s, e)
    requires Marked(s, n) && Elapsed(e.now, s.calls[n].at) <= s.guard.ttl
    ensures Marked(s.(guard := Pruned(s.guard, e.now)), n)
  {
    PrunedKeepsFresh(s.guard, e.now, s.calls[n].hash);
  }

  lemma PruneKeepsInv(s: State, e: Event)
    requires Prunes(e) && Timely(s, e) && Inv(s)
    ensures Inv(s.(guard := Pruned(s.guard, e.now)))
  {
    PrunedShrinks(s.guard, e.now);
    forall n | 0 <= n < |s.calls| && Outstanding(s, n)
      ensures Marked(s.(guard := Pruned(s.guard, e.now)), n)
    {
      PruneKeepsMarks(s, e, n);
    }
  }

  lemma SubmitKeepsInv(s: State, hash: string, now: nat)
    requires Timely(s, Submit(hash, now)) && Inv(s)
    ensures Inv(Next(s, Submit(hash, now)))
  {
    PruneKeepsInv(s, Submit(hash, now));
    var s1, s' := s.(guard := Pruned(s.guard, now)), Next(s, Submit(hash, now));
    if hash !in s1.guard.entries {
      forall m | 0 <= m < |s'.calls| && Outstanding(s', m)
        ensures Marked(s', m)
      {
        if m < |s.calls| {
          assert Outstanding(s1, m) && Marked(s1, m);
        }
      }
    }
  }

  function Answered(s: State, n: nat, answer: Answer): State
    requires n < |s.calls|
  {
    s.(calls := s.calls[n := s.calls[n].(answer := Some(answer))])
  }

  lemma AnswerKeepsInv(s: State, n: nat, answer: Answer)
    requires Outstanding(s, n) && Inv(s)
    ensures Inv(Answered(s, n, answer))
  {
    var s' := Answered(s, n, answer);
    forall m | 0 <= m < |s'.calls| && Outstanding(s', m)
      ensures Marked(s', m)
    {
      assert Outstanding(s, m) && Marked(s, m);
    }
  }

  lemma UnmarkKeepsInv(s: State, n: nat, answer: Answer)
    requires Outstanding(s, n) && Inv(s)
    ensures Inv(Answered(s, n, answer).(guard := s.guard.(entries := s.guard.entries - {s.calls[n].hash})))
  {
    AnswerKeepsInv(s, n, answer);
    assert Marked(s, n);
    var s1 := Answered(s, n, answer);
    forall m | 0 <= m < |s1.calls| && Outstanding(s1, m)
      ensures Marked(s1.(guard := s.guard.(entries := s.guard.entries - {s.calls[n].hash})), m)
    {
      assert Marked(s1, m);
    }
  }

  lemma FinishKeepsInv(s: State, n: nat, answer: Answer, now: nat)
    requires Outstanding(s, n) && Timely(s, Finish(n, answer, now)) && Inv(s)
    ensures Inv(Next(s, Finish(n, answer, now)))
  {
    if KeepsMark(answer) {
      AnswerKeepsInv(s, n, answer);
    } else {
      PruneKeepsInv(s, Finish(n, answer, now));
      UnmarkKeepsInv(s.(guard := Pruned(s.guard, now)), n, answer);
    }
  }

  lemma NextKeepsInv(s: State, e: Event)
    requires Enabled(s, e) && Timely(s, e) && Inv(s)
    ensures Inv(Next(s, e))
  {
    match e
    case Submit(hash, now) => SubmitKeepsInv(s, hash, now);
    case Finish(n, answer, now) => FinishKeepsInv(s, n, answer, now);
  }

  ghost predicate TimelyRun(states: seq<State>, events: seq<Event>)
    requires |states| == |events| + 1
  {
    forall i | 0 <= i < |events| :: Timely(states[i], events[i])
  }

  lemma {:induction false} RunKeepsInv(ttl: nat, maxEntries: nat, states: seq<State>, events: seq<Event>)
    requires Run(ttl, maxEntries, states, events) && TimelyRun(states, events)
    ensures Inv(states[|events|])
    decreases |events|
  {
    if events != [] {
      var n := |events| - 1;
      RunKeepsInv(ttl, maxEntries, states[..n + 1], events[..n]);
      assert Timely(states[n], events[n]);
      NextKeepsInv(states[n], events[n]);
    }
  }

  /** If RPCs finish within the time to live and the capacity is not exceeded, at most one RPC per
      block hash is outstanding at any time. */
  lemma AtMostOneOutstanding(ttl: nat, maxEntries: nat, states: seq<State>, events: seq<Event>, n: nat, m: nat)
    requires Run(ttl, maxEntries, states, events) && TimelyRun(states, events)
    requires Outstanding(states[|events|], n) && Outstanding(states[|events|], m)
    requires states[|events|].calls[n].hash == states[|events|].calls[m].hash
    ensures n == m
  {
    RunKeepsInv(ttl, maxEntries, states, events);
    assert Marked(states[|events|], n) && Marked(states[|events|], m);
  }

  /** Why the mark of call `n` goes away in a timely run: the call itself failed, or it expired. */
  ghost predicate MarkEnds(s: State, e: Event, s': State, n: nat) {
    && Marked(s, n) && !Marked(s', n)
    && ((e.Finish? && e.n == n && (e.answer.RejectedByNode? || e.answer.OtherError?)) || Elapsed(e.now, s.calls[n].at) > s.guard.ttl)
  }

  lemma MarkEndsFor(s: State, e: Event, n: nat)
    requires Enabled(s, e) && Timely(s, e) && Inv(s)
    requires Marked(s, n) && !Marked(Next(s, e), n)
    ensures MarkEnds(s, e, Next(s, e), n)
  {
    assert e.Finish? ==> Marked(s, e.n);
    if Prunes(e) && Elapsed(e.now, s.calls[n].at) <= s.guard.ttl {
      PruneKeepsMarks(s, e, n);
    }
  }

  lemma NewCallIsMarked(s: State, e: Event, n: nat)
    requires Enabled(s, e)
    requires n < |Next(s, e).calls| && !Marked(Next(s, e), n)
    ensures n < |s.calls|
  {
  }

  lemma {:induction false} MarkEndedSomewhere(ttl: nat, maxEntries: nat, states: seq<State>, events: seq<Event>, n: nat) returns (i: nat)
    requires Run(ttl, maxEntries, states, events) && TimelyRun(states, events)
    requires n < |states[|events|].calls| && !Marked(states[|events|], n)
    ensures i < |events| && MarkEnds(states[i], events[i], states[i + 1], n)
    decreases |events|
  {
    var t := |events| - 1;
    RunKeepsInv(ttl, maxEntries, states[..t + 1], events[..t]);
    assert Timely(states[t], events[t]);
    if Marked(states[t], n) {
      i := t;
      MarkEndsFor(states[t], events[t], n);
    } else {
      NewCallIsMarked(states[t], events[t], n);
      i := MarkEndedSomewhere(ttl, maxEntries, states[..t + 1], events[..t], n);
    }
  }

  /** In a timely run a block is sent to the node a second time only after the first call failed or its
      mark expired: a block the node took is not sent again within the time to live. */
  lemma ResentOnlyAfterEnd(ttl: nat, maxEntries: nat, states: seq<State>, events: seq<Event>, n: nat, m: nat) returns (i: nat)
    requires Run(ttl, maxEntries, states, events) && TimelyRun(states, events)
    requires n < m < |states[|events|].calls|
    requires states[|events|].calls[n].hash == states[|events|].calls[m].hash
    ensures i < |events| && MarkEnds(states[i], events[i], states[i + 1], n) && |states[i].calls| <= m
    decreases |events|
  {
    var t := |events| - 1;
    RunKeepsInv(ttl, maxEntries, states, events);
    CallsOnlyGrow(states[t], events[t]);
    if m < |states[t].calls| {
      i := ResentOnlyAfterEnd(ttl, maxEntries, states[..t + 1], events[..t], n, m);
    } else {
      i := MarkEndedSomewhere(ttl, maxEntries, states, events, n);
      RunGrows(ttl, maxEntries, states, events, i, t);
    }
  }

  /** Calls keep their numbers and hashes, and at most one is added by a step. */
  lemma CallsOnlyGrow(s: State, e: Event)
    requires Enabled(s, e)
    ensures |s.calls| <= |Next(s, e).calls| <= |s.calls| + 1
    ensures forall n | 0 <= n < |s.calls| :: Next(s, e).calls[n].hash == s.calls[n].hash
  {
  }

  lemma {:induction false} RunGrows(ttl: nat, maxEntries: nat, states: seq<State>, events: seq<Event>, i: nat, j: nat)
    requires Run(ttl, maxEntries, states, events) && i <= j <= |events|
    ensures |states[i].calls| <= |states[j].calls|
    decreases j
  {
    if i < j {
      RunGrows(ttl, maxEntries, states, events, i, j - 1);
      CallsOnlyGrow(states[j - 1], events[j - 1]);
    }
  }

  // By the answer

  /** A block that the node rejected, or that failed to reach it, is not marked afterwards and can be sent
      again at once. */
  lemma FailureUnmarks(s: State, n: nat, answer: Answer, now: nat)
    requires Outstanding(s, n) && (answer == RejectedByNode || answer == OtherError)
    ensures s.calls[n].hash !in Next(s, Finish(n, answer, now)).guard.entries
    ensures TryMark(Next(s, Finish(n, answer, now)).guard, s.calls[n].hash, now).1
  {
    var g := Next(s, Finish(n, answer, now)).guard;
    PrunedShrinks(g, now);
  }

  /** An accepted block, and one the node already has, leaves the guard alone. */
  lemma SuccessKeepsMarks(s: State, n: nat, answer: Answer, now: nat)
    requires Outstanding(s, n) && (answer == AcceptedByNode || answer == DuplicateError)
    ensures Next(s, Finish(n, answer, now)).guard == s.guard
  {
  }

  /** A call that was answered keeps its answer. */
  lemma {:induction false} AnswersStay(
      ttl: nat, maxEntries: nat, states: seq<State>, events: seq<Event>, i: nat, t: nat, n: nat)
    requires Run(ttl, maxEntries, states, events) && i <= t <= |events|
    requires n < |states[i].calls| && states[i].calls[n].answer.Some?
    ensures n < |states[t].calls| && states[t].calls[n].answer == states[i].calls[n].answer
    decreases t
  {
    if i < t {
      AnswersStay(ttl, maxEntries, states, events, i, t - 1, n);
      assert Enabled(states[t - 1], events[t - 1]) && states[t] == Next(states[t - 1], events[t - 1]);
    }
  }

  /** In a timely run the mark of a call that was answered with acceptance, or with the block being known,
      goes away only by age: at that step it was older than the time to live. */
  lemma TakenBlockEndsByAge(ttl: nat, maxEntries: nat, states: seq<State>, events: seq<Event>, n: nat) returns (i: nat)
    requires Run(ttl, maxEntries, states, events) && TimelyRun(states, events)
    requires n < |states[|events|].calls| && !Marked(states[|events|], n)
    requires states[|events|].calls[n].answer == Some(AcceptedByNode) || states[|events|].calls[n].answer == Some(DuplicateError)
    ensures i < |events| && Marked(states[i], n) && !Marked(states[i + 1], n)
    ensures Elapsed(events[i].now, states[i].calls[n].at) > states[i].guard.ttl
  {
    i := MarkEndedSomewhere(ttl, maxEntries, states, events, n);
    assert Enabled(states[i], events[i]) && states[i + 1] == Next(states[i], events[i]);
    if events[i].Finish? && events[i].n == n {
      AnswersStay(ttl, maxEntries, states, events, i + 1, |events|, n);
    }
  }

  // A mark that goes early

  function Marks(entries: map<string, Entry<()>>, order: seq<string>): BlockGuard {
    Guard(100, 2, entries, order)
  }

  lemma PruneNothing(g: BlockGuard, now: nat)
    requires g.order != [] && !Expired(g, g.order[0], now) && |g.entries| <= g.maxEntries
    ensures Pruned(g, now) == g
  {
  }

  lemma PruneOne(g: BlockGuard, now: nat)
    requires g.order != [] && !Expired(g, g.order[0], now) && |g.entries| > g.maxEntries
    requires |PopFront(g).entries| <= g.maxEntries
    ensures Pruned(g, now) == PopFront(g)
  {
    assert DropExcess(PopFront(g)) == PopFront(g);
  }

  lemma MarkOne(g: BlockGuard, hash: string, now: nat)
    requires Pruned(g, now) == g && hash !in g.entries
    ensures TryMark(g, hash, now) == (g.(entries := g.entries[hash := Entry(now, ())], order := g.order + [hash]), true)
  {
  }

  /** Unmarking leaves the hash in the queue. With room for two marks: z and x are marked, x is
      unmarked, y and x are marked and then w. The next pruning drops x by its stale position, although
      only w was marked after it, and keeps the older y. */
  lemma StalePositionDropsLaterMark(x: string, y: string, z: string, w: string)
    requires x != y && x != z && x != w && y != z && y != w && z != w
    ensures Unmark(Marks(map[z := Entry(0, ()), x := Entry(1, ())], [z, x]), x, 2) == Marks(map[z := Entry(0, ())], [z, x])
    ensures TryMark(Marks(map[z := Entry(0, ())], [z, x]), y, 3).0 == Marks(map[z := Entry(0, ()), y := Entry(3, ())], [z, x, y])
    ensures TryMark(Marks(map[z := Entry(0, ()), y := Entry(3, ())], [z, x, y]), x, 4).0
            == Marks(map[z := Entry(0, ()), y := Entry(3, ()), x := Entry(4, ())], [z, x, y, x])
    ensures TryMark(Marks(map[z := Entry(0, ()), y := Entry(3, ()), x := Entry(4, ())], [z, x, y, x]), w, 5).0
            == Marks(map[y := Entry(3, ()), x := Entry(4, ()), w := Entry(5, ())], [x, y, x, w])
    ensures Pruned(Marks(map[y := Entry(3, ()), x := Entry(4, ()), w := Entry(5, ())], [x, y, x, w]), 6).entries
            == map[y := Entry(3, ()), w := Entry(5, ())]
  {
    StaleFirst(x, z);
    StaleSecond(x, y, z);
    StaleThird(x, y, z, w);
    StaleLast(x, y, w);
  }

  lemma StaleFirst(x: string, z: string)
    requires x != z
    ensures Unmark(Marks(map[z := Entry(0, ()), x := Entry(1, ())], [z, x]), x, 2) == Marks(map[z := Entry(0, ())], [z, x])
  {
    var g := Marks(map[z := Entry(0, ()), x := Entry(1, ())], [z, x]);
    assert g.entries.Keys == {z, x};
    PruneNothing(g, 2);
    assert g.entries - {x} == map[z := Entry(0, ())];
  }

  lemma StaleSecond(x: string, y: string, z: string)
    requires x != y && x != z && y != z
    ensures TryMark(Marks(map[z := Entry(0, ())], [z, x]), y, 3).0 == Marks(map[z := Entry(0, ()), y := Entry(3, ())], [z, x, y])
    ensures TryMark(Marks(map[z := Entry(0, ()), y := Entry(3, ())], [z, x, y]), x, 4).0
            == Marks(map[z := Entry(0, ()), y := Entry(3, ()), x := Entry(4, ())], [z, x, y, x])
  {
    var g1 := Marks(map[z := Entry(0, ())], [z, x]);
    assert g1.entries.Keys == {z};
    PruneNothing(g1, 3);
    MarkOne(g1, y, 3);
    var g2 := Marks(map[z := Entry(0, ()), y := Entry(3, ())], [z, x, y]);
    assert g2.entries.Keys == {z, y};
    PruneNothing(g2, 4);
    MarkOne(g2, x, 4);
  }

  lemma StaleThird(x: string, y: string, z: string, w: string)
    requires x != y && x != z && x != w && y != z && y != w && z != w
    ensures TryMark(Marks(map[z := Entry(0, ()), y := Entry(3, ()), x := Entry(4, ())], [z, x, y, x]), w, 5).0
            == Marks(map[y := Entry(3, ()), x := Entry(4, ()), w := Entry(5, ())], [x, y, x, w])
  {
    var g := Marks(map[z := Entry(0, ()), y := Entry(3, ()), x := Entry(4, ())], [z, x, y, x]);
    assert g.entries.Keys == {z, y, x};
    assert PopFront(g).entries == map[y := Entry(3, ()), x := Entry(4, ())];
    assert PopFront(g).entries.Keys == {y, x};
    PruneOne(g, 5);
  }

  lemma StaleLast(x: string, y: string, w: string)
    requires x != y && x != w && y != w
    ensures Pruned(Marks(map[y := Entry(3, ()), x := Entry(4, ()), w := Entry(5, ())], [x, y, x, w]), 6).entries
            == map[y := Entry(3, ()), w := Entry(5, ())]
  {
    var g := Marks(map[y := Entry(3, ()), x := Entry(4, ()), w := Entry(5, ())], [x, y, x, w]);
    assert g.entries.Keys == {y, x, w};
    assert PopFront(g).entries == map[y := Entry(3, ()), w := Entry(5, ())];
    assert PopFront(g).entries.Keys == {y, w};
    PruneOne(g, 6);
  }

  /** A block without mark is sent and marked; one whose mark is no older than the time to live is not
      sent, while the marks are within the capacity. */
  lemma SubmitSends(s: State, hash: string, now: nat)
    ensures hash !in s.guard.entries ==>
              && Next(s, Submit(hash, now)).calls == s.calls + [Call(hash, now, None)]
              && hash in Next(s, Submit(hash, now)).guard.entries
              && Next(s, Submit(hash, now)).guard.entries[hash].ts == now
    ensures hash in s.guard.entries && now <= s.guard.entries[hash].ts + s.guard.ttl
            && |s.guard.entries| <= s.guard.maxEntries ==>
              Next(s, Submit(hash, now)) == s.(guard := Pruned(s.guard, now))
  {
    PrunedShrinks(s.guard, now);
    if hash in s.guard.entries && now <= s.guard.entries[hash].ts + s.guard.ttl && |s.guard.entries| <= s.guard.maxEntries {
      PrunedKeepsFresh(s.guard, now, hash);
    }
  }
}
