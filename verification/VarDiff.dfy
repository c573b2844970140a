/** VarDiff: the controller that adjusts a worker's share difficulty towards a target rate of shares
    per minute. Square roots are passed in as any number with the right square. */
module VarDiff {
  import opened Options

  const MIN_ELAPSED := 30.0
  const MAX_ELAPSED_NO_SHARES := 90.0
  const MIN_SHARES := 3.0
  const LOWER_RATIO := 0.75
  const UPPER_RATIO := 1.25
  const MAX_STEP_UP := 2.0
  const MAX_STEP_DOWN := 0.5
  const EPSILON := 1.0 / 4503599627370496.0

  function Abs(x: real): real {
    if x < 0.0 then -x else x
  }

  function Max(x: real, y: real): real {
    if x < y then y else x
  }

  function Clamp(x: real, lo: real, hi: real): real {
    if x < lo then lo else if x > hi then hi else x
  }

  // Powers of two

  function Pow2(e: nat): real {
    if e == 0 then 1.0 else 2.0 * Pow2(e - 1)
  }

  /** `log2(x).ceil()` and `log2(x).floor()`. */
  function CeilLog2(x: real): nat
    requires x >= 1.0
    decreases x.Floor
  {
    if x == 1.0 then 0 else if x <= 2.0 then 1 else 1 + CeilLog2(x / 2.0)
  }

  function FloorLog2(x: real): nat
    requires x >= 1.0
    decreases x.Floor
  {
    if x < 2.0 then 0 else 1 + FloorLog2(x / 2.0)
  }

  lemma {:induction false} Pow2AtLeastOne(e: nat)
    ensures Pow2(e) >= 1.0
  {
    if e > 0 {
      Pow2AtLeastOne(e - 1);
    }
  }

  lemma {:induction false} CeilLog2Exact(x: real, e: nat)
    requires x >= 1.0
    ensures CeilLog2(x) == e <==> x <= Pow2(e) && (e == 0 || Pow2(e - 1) < x)
    decreases e
  {
    if e >= 2 {
      Pow2AtLeastOne(e - 2);
      if x > 2.0 {
        CeilLog2Exact(x / 2.0, e - 1);
      }
    } else if x > 2.0 {
      assert Pow2(1) == 2.0;
    }
  }

  lemma {:induction false} FloorLog2Exact(x: real, e: nat)
    requires x >= 1.0
    ensures FloorLog2(x) == e <==> Pow2(e) <= x < Pow2(e + 1)
    decreases e
  {
    assert Pow2(e + 1) == 2.0 * Pow2(e);
    if e > 0 {
      Pow2AtLeastOne(e - 1);
      if x >= 2.0 {
        FloorLog2Exact(x / 2.0, e - 1);
      }
    }
  }

  // The controller

  function Pow2ClampTowards(current: real, next: real): real {
    if next < 1.0 then 1.0
    else if next >= current then Pow2(CeilLog2(next))
    else Pow2(FloorLog2(next))
  }

  function AtLeastOne(x: real): real {
    if x < 1.0 then 1.0 else x
  }

  function Ratio(shares: real, elapsed: real, expectedSpm: real): real
    requires elapsed > 0.0
  {
    shares / elapsed * 60.0 / Max(expectedSpm, 1.0)
  }

  /** The candidate for a relative step: never below 1, and a power of two if clamped. */
  function Adjusted(current: real, step: real, clampPow2: bool): real {
    var floored := AtLeastOne(current * step);
    if clampPow2 then Pow2ClampTowards(current, floored) else floored
  }

  /** `root` stands for the square root of the ratio. */
  function ComputeNextDiff(current: real, shares: real, elapsed: real, expectedSpm: real, clampPow2: bool, root: real): Option<real> {
    if current <= 0.0 || elapsed <= 0.0 then None
    else if shares == 0.0 && elapsed >= MAX_ELAPSED_NO_SHARES then
      var next := Adjusted(current, MAX_STEP_DOWN, clampPow2);
      if Abs(next - current) > EPSILON then Some(next) else None
    else if elapsed < MIN_ELAPSED || shares < MIN_SHARES then None
    else
      var ratio := Ratio(shares, elapsed, expectedSpm);
      if ratio <= 0.0 then None
      else if LOWER_RATIO < ratio < UPPER_RATIO then None
      else
        var next := Adjusted(current, Clamp(root, MAX_STEP_DOWN, MAX_STEP_UP), clampPow2);
        if Abs(next - current) / Max(current, 1.0) < 0.10 then None
        else if Abs(next - current) > EPSILON then Some(next) else None
  }

  /** The VarDiff part of a worker's statistics. `change` is a change the VarDiff thread has decided on and
      not yet written: it reads the fields in one section and writes them in another, and in between a
      share may be counted or the difficulty set. */
  datatype Stats = Stats(minDiff: real, shares: nat, start: Option<real>, change: Option<Change>)

  datatype Change = Change(diff: real, now: real)

  datatype Event =
    | ShareFound
    | SetTo(diff: real, now: real)   // `set_client_vardiff`
    | Look(now: real, root: real)    // the worker's turn in a tick of the VarDiff thread: it decides
    | Write                          // and then writes, if it decided on a change

  /** What a turn sees. */
  datatype Window = Window(shares: real, elapsed: real, root: real)

  function Seen(s: Stats, now: real, root: real): Window
    requires s.start.Some?
  {
    Window(s.shares as real, Max(now - s.start.value, 0.0), root)
  }

  function Decided(current: real, w: Window, expectedSpm: real, clampPow2: bool): Option<real> {
    ComputeNextDiff(current, w.shares, w.elapsed, expectedSpm, clampPow2, w.root)
  }

  /** The thread writes a change before it looks again. */
  predicate Enabled(s: Stats, e: Event) {
    (e.Look? ==> s.change.None?) && (e.Write? ==> s.change.Some?)
  }

  /** A change restarts the window, and so does setting the difficulty. */
  function Next(s: Stats, e: Event, expectedSpm: real, clampPow2: bool): Stats
    requires Enabled(s, e)
  {
    match e
    case ShareFound => s.(shares := s.shares + 1)
    case SetTo(diff, now) => s.(minDiff := diff, shares := 0, start := Some(now))
    case Look(now, root) =>
      if s.start.None? then s
      else
        var next := Decided(s.minDiff, Seen(s, now, root), expectedSpm, clampPow2);
        if next.None? then s else s.(change := Some(Change(next.value, now)))
    case Write => Stats(s.change.value.diff, 0, Some(s.change.value.now), None)
  }

  class VarDiffStats {
    var minDiff: real
    var sharesFound: nat
    var startTime: Option<real>

    ghost function Value(change: Option<Change>): Stats
      reads this
    {
      Stats(minDiff, sharesFound, startTime, change)
    }

    constructor ()
      ensures Value(None) == Stats(0.0, 0, None, None)
    {
      minDiff, sharesFound, startTime := 0.0, 0, None;
    }

    /** `set_client_vardiff`. */
    method SetDiff(diff: real, now: real) returns (previous: real)
      modifies this
      ensures forall c, spm, clamp :: Value(c) == Next(old(Value(c)), SetTo(diff, now), spm, clamp)
      ensures previous == old(minDiff) && minDiff == diff && sharesFound == 0 && startTime == Some(now)
    {
      previous := minDiff;
      minDiff, startTime, sharesFound := diff, Some(now), 0;
    }

    /** `start_client_vardiff`: a window that is already open stays. */
    method Start(now: real)
      modifies this
      ensures Value(None) == if old(startTime).None? then Stats(old(minDiff), 0, Some(now), None) else old(Value(None))
    {
      if startTime.None? {
        startTime, sharesFound := Some(now), 0;
      }
    }

    method CountShare()
      modifies this
      ensures forall c, spm, clamp :: Value(c) == Next(old(Value(c)), ShareFound, spm, clamp)
      ensures sharesFound == old(sharesFound) + 1
    {
      sharesFound := sharesFound + 1;
    }

    /** The first half of a turn. */
    method Decide(now: real, expectedSpm: real, clampPow2: bool, root: real) returns (change: Option<Change>)
      ensures Value(change) == Next(Value(None), Look(now, root), expectedSpm, clampPow2)
    {
      if startTime.None? {
        return None;
      }
      var elapsed := Max(now - startTime.value, 0.0);
      var next := ComputeNextDiff(minDiff, sharesFound as real, elapsed, expectedSpm, clampPow2, root);
      change := if next.None? then None else Some(Change(next.value, now));
    }

    /** The second half. */
    method Apply(change: Change)
      modifies this
      ensures forall spm, clamp :: Value(None) == Next(old(Value(Some(change))), Write, spm, clamp)
      ensures minDiff == change.diff && sharesFound == 0 && startTime == Some(change.now)
    {
      minDiff := change.diff;
      startTime := Some(change.now);
      sharesFound := 0;
    }

    /** One worker's turn, when nothing comes in between. */
    method Tick(now: real, expectedSpm: real, clampPow2: bool, root: real)
      modifies this
      ensures var s := Next(old(Value(None)), Look(now, root), expectedSpm, clampPow2);
              Value(None) == if s.change.None? then s else Next(s, Write, expectedSpm, clampPow2)
    {
      var change := Decide(now, expectedSpm, clampPow2, root);
      if change.Some? {
        Apply(change.value);
      }
    }
  }

  // Runs: shares, turns and settings in any order

  ghost predicate History(states: seq<Stats>, events: seq<Event>, expectedSpm: real, clampPow2: bool) {
    && |states| == |events| + 1
    && states[0].start.Some? && states[0].change.None?
    && forall i | 0 <= i < |events| ::
         Enabled(states[i], events[i]) && states[i + 1] == Next(states[i], events[i], expectedSpm, clampPow2)
  }

  lemma {:induction false} StaysOpen(states: seq<Stats>, events: seq<Event>, expectedSpm: real, clampPow2: bool, t: nat)
    requires History(states, events, expectedSpm, clampPow2) && t <= |events|
    ensures states[t].start.Some?
  {
    if t > 0 {
      StaysOpen(states, events, expectedSpm, clampPow2, t - 1);
      assert states[t] == Next(states[t - 1], events[t - 1], expectedSpm, clampPow2);
    }
  }

  function After(current: real, w: Window, expectedSpm: real, clampPow2: bool): real {
    var next := Decided(current, w, expectedSpm, clampPow2);
    if next.Some? then next.value else current
  }

  /** The difficulties of a run, with the window each change or decision against one saw. */
  ghost predicate Run(diffs: seq<real>, windows: seq<Window>, expectedSpm: real, clampPow2: bool) {
    && |diffs| == |windows| + 1
    && forall i | 0 <= i < |windows| :: diffs[i + 1] == After(diffs[i], windows[i], expectedSpm, clampPow2)
  }

  /** The windows seen by the turns among the first t events. */
  ghost function WindowsSeen(states: seq<Stats>, events: seq<Event>, t: nat): seq<Window>
    requires t <= |events| && |states| == |events| + 1
  {
    if t == 0 then []
    else
      var before, s, e := WindowsSeen(states, events, t - 1), states[t - 1], events[t - 1];
      if e.Look? && s.start.Some? then before + [Seen(s, e.now, e.root)] else before
  }

  /** The difficulty a turn has decided on, or leaves. */
  function Decision(s: Stats): real {
    if s.change.Some? then s.change.value.diff else s.minDiff
  }

  /** The difficulty at first and as decided by each of these turns. */
  ghost function DiffsSet(states: seq<Stats>, events: seq<Event>, t: nat): seq<real>
    requires t <= |events| && |states| == |events| + 1
  {
    if t == 0 then [states[0].minDiff]
    else if events[t - 1].Look? then DiffsSet(states, events, t - 1) + [Decision(states[t])]
    else DiffsSet(states, events, t - 1)
  }

  /** Between two settings: however shares and turns alternate, the turns form a run of the controller on
      the windows they see. */
  lemma {:induction false} TurnsFormRun(states: seq<Stats>, events: seq<Event>, expectedSpm: real, clampPow2: bool, t: nat)
    requires History(states, events, expectedSpm, clampPow2) && t <= |events|
    requires forall i | 0 <= i < t :: !events[i].SetTo?
    ensures var diffs, windows := DiffsSet(states, events, t), WindowsSeen(states, events, t);
            Run(diffs, windows, expectedSpm, clampPow2) && diffs[|windows|] == Decision(states[t])
    decreases t
  {
    if t > 0 {
      TurnsFormRun(states, events, expectedSpm, clampPow2, t - 1);
      StaysOpen(states, events, expectedSpm, clampPow2, t - 1);
      assert states[t] == Next(states[t - 1], events[t - 1], expectedSpm, clampPow2);
    }
  }

  // What a window holds

  /** The number of events after which the present window was opened, 0 if it is the first. */
  ghost function Opened(events: seq<Event>, t: nat): (c: nat)
    requires t <= |events|
    ensures c <= t && (c > 0 ==> events[c - 1].SetTo? || events[c - 1].Write?)
  {
    if t == 0 then 0 else if events[t - 1].SetTo? || events[t - 1].Write? then t else Opened(events, t - 1)
  }

  /** The number of the last look among the first t events, 0 if there is none. */
  ghost function LastLook(events: seq<Event>, t: nat): (c: nat)
    requires t <= |events|
    ensures c <= t && (c > 0 ==> events[c - 1].Look?)
  {
    if t == 0 then 0 else if events[t - 1].Look? then t else LastLook(events, t - 1)
  }

  ghost function SharesAmong(events: seq<Event>, from: nat, t: nat): nat
    requires from <= t <= |events|
    decreases t
  {
    if t == from then 0 else SharesAmong(events, from, t - 1) + if events[t - 1].ShareFound? then 1 else 0
  }

  lemma {:induction false} SharesAdd(events: seq<Event>, a: nat, b: nat, t: nat)
    requires a <= b <= t <= |events|
    ensures SharesAmong(events, a, t) == SharesAmong(events, a, b) + SharesAmong(events, b, t)
    decreases t
  {
    if b < t {
      SharesAdd(events, a, b, t - 1);
    }
  }

  /** A change under way is the one the last look decided on. */
  lemma {:induction false} ChangeOfLastLook(states: seq<Stats>, events: seq<Event>, expectedSpm: real, clampPow2: bool, t: nat)
    requires History(states, events, expectedSpm, clampPow2) && t <= |events|
    ensures states[t].change.Some? ==>
              var l := LastLook(events, t);
              l > 0 && states[t].change == states[l].change && states[t].change.value.now == events[l - 1].now
    decreases t
  {
    if t > 0 {
      ChangeOfLastLook(states, events, expectedSpm, clampPow2, t - 1);
      assert states[t] == Next(states[t - 1], events[t - 1], expectedSpm, clampPow2);
    }
  }

  /** A window holds exactly the shares found since it was opened, by a setting or by a change. */
  lemma {:induction false} WindowSinceOpened(states: seq<Stats>, events: seq<Event>, expectedSpm: real, clampPow2: bool, t: nat)
    requires History(states, events, expectedSpm, clampPow2) && t <= |events|
    ensures var c := Opened(events, t);
            && states[t].shares == (if c == 0 then states[0].shares else 0) + SharesAmong(events, c, t)
            && (c == 0 ==> states[t].start == states[0].start)
            && (c > 0 ==> states[t].start == states[c].start)
    decreases t
  {
    if t > 0 {
      WindowSinceOpened(states, events, expectedSpm, clampPow2, t - 1);
      assert states[t] == Next(states[t - 1], events[t - 1], expectedSpm, clampPow2);
    }
  }

  /** A window opened by a change starts at the look that decided on it. It holds exactly the shares found
      since then if and only if none was found between that look and its write; and the difficulty is the
      one decided on, whatever was set in between. */
  lemma WindowSinceLookIff(states: seq<Stats>, events: seq<Event>, expectedSpm: real, clampPow2: bool, t: nat)
    requires History(states, events, expectedSpm, clampPow2) && t <= |events|
    requires Opened(events, t) > 0 && events[Opened(events, t) - 1].Write?
    ensures var c := Opened(events, t);
            var l := LastLook(events, c - 1);
            && 0 < l < c && states[t].start == Some(events[l - 1].now) && states[c].minDiff == Decision(states[l])
            && (states[t].shares == SharesAmong(events, l, t) <==> SharesAmong(events, l, c) == 0)
  {
    var c := Opened(events, t);
    var l := LastLook(events, c - 1);
    WindowSinceOpened(states, events, expectedSpm, clampPow2, t);
    assert Enabled(states[c - 1], events[c - 1]);
    assert states[c] == Next(states[c - 1], events[c - 1], expectedSpm, clampPow2);
    ChangeOfLastLook(states, events, expectedSpm, clampPow2, c - 1);
    SharesAdd(events, l, c, t);
  }

  // With the power-of-two clamp

  /** The initial difficulty of `listen_and_serve`. */
  function StartDiff(minShareDiff: nat, clampPow2: bool): real {
    if minShareDiff == 0 then 4.0
    else if clampPow2 then Pow2(FloorLog2(minShareDiff as real))
    else minShareDiff as real
  }

  ghost predicate IsPow2(d: real) {
    exists e: nat :: d == Pow2(e)
  }

  lemma StartIsPow2(minShareDiff: nat)
    ensures IsPow2(StartDiff(minShareDiff, true))
    ensures StartDiff(minShareDiff, false) == if minShareDiff == 0 then 4.0 else minShareDiff as real
    ensures minShareDiff == 0 ==> StartDiff(minShareDiff, true) == 4.0
    ensures minShareDiff >= 1 ==> StartDiff(minShareDiff, true) <= minShareDiff as real < 2.0 * StartDiff(minShareDiff, true)
  {
    assert Pow2(2) == 2.0 * Pow2(1) && Pow2(1) == 2.0;
    if minShareDiff >= 1 {
      FloorLog2Exact(minShareDiff as real, FloorLog2(minShareDiff as real));
    }
  }

  lemma ClampTowardsNeighbour(a: nat, next: real)
    requires 1.0 <= next && Pow2(a) <= 2.0 * next && next <= 2.0 * Pow2(a)
    ensures var r := Pow2ClampTowards(Pow2(a), next);
            r == Pow2(a) || r == 2.0 * Pow2(a) || (a > 0 && 2.0 * r == Pow2(a))
  {
    if next >= Pow2(a) {
      CeilLog2Exact(next, a);
      CeilLog2Exact(next, a + 1);
    } else {
      Pow2AtLeastOne(a);
      assert a > 0;
      FloorLog2Exact(next, a - 1);
    }
  }

  lemma ScaleMonotone(x: real, a: real, scaled: real)
    requires x >= 0.0 && 0.5 <= a <= 2.0 && scaled == x * a
    ensures x <= 2.0 * scaled && scaled <= 2.0 * x
  {
    assert x * (a - 0.5) >= 0.0;
    assert x * (2.0 - a) >= 0.0;
  }

  lemma AdjustedFrom(current: real, step: real) returns (floored: real)
    requires current >= 1.0 && MAX_STEP_DOWN <= step <= MAX_STEP_UP
    ensures Adjusted(current, step, true) == Pow2ClampTowards(current, floored)
    ensures 1.0 <= floored && current <= 2.0 * floored && floored <= 2.0 * current
  {
    floored := AtLeastOne(current * step);
    ScaleMonotone(current, step, current * step);
  }

  lemma AdjustedPow2(a: nat, step: real)
    requires MAX_STEP_DOWN <= step <= MAX_STEP_UP
    ensures var r := Adjusted(Pow2(a), step, true);
            r == Pow2(a) || r == Pow2(a + 1) || (a > 0 && r == Pow2(a - 1))
  {
    Pow2AtLeastOne(a);
    var floored := AdjustedFrom(Pow2(a), step);
    ClampTowardsNeighbour(a, floored);
  }

  /** With the clamp on, every change is exactly a doubling or a halving and stays at 1 or above. */
  lemma ClampedChange(current: real, shares: real, elapsed: real, expectedSpm: real, root: real)
    requires IsPow2(current)
    ensures var next := ComputeNextDiff(current, shares, elapsed, expectedSpm, true, root);
            next.Some? ==> IsPow2(next.value) && next.value >= 1.0
                           && (next.value == 2.0 * current || 2.0 * next.value == current)
  {
    var a: nat :| current == Pow2(a);
    var next := ComputeNextDiff(current, shares, elapsed, expectedSpm, true, root);
    AdjustedPow2(a, MAX_STEP_DOWN);
    AdjustedPow2(a, Clamp(root, MAX_STEP_DOWN, MAX_STEP_UP));
    if next.Some? {
      assert next.value != current;
      Pow2AtLeastOne(a + 1);
      if a > 0 {
        Pow2AtLeastOne(a - 1);
      }
    }
  }

  // The decision by its window, in numbers

  function RatePerTarget(shares: real, elapsed: real, expectedSpm: real): real
    requires elapsed > 0.0
  {
    shares * 60.0 / elapsed / if expectedSpm < 1.0 then 1.0 else expectedSpm
  }

  lemma RateIsRatio(shares: real, elapsed: real, expectedSpm: real)
    requires elapsed > 0.0
    ensures RatePerTarget(shares, elapsed, expectedSpm) == Ratio(shares, elapsed, expectedSpm)
  {
    assert shares * 60.0 / elapsed == shares / elapsed * 60.0;
  }

  /** Too early, or a rate within a quarter of the target: no change. */
  lemma NoDecision(current: real, shares: real, elapsed: real, expectedSpm: real, clampPow2: bool, root: real)
    requires || current <= 0.0 || elapsed <= 0.0
             || (shares == 0.0 && elapsed < 90.0)
             || (shares > 0.0 && (elapsed < 30.0 || shares < 3.0))
             || (shares > 0.0 && 0.75 < RatePerTarget(shares, elapsed, expectedSpm) < 1.25)
    ensures ComputeNextDiff(current, shares, elapsed, expectedSpm, clampPow2, root) == None
  {
    if shares > 0.0 && elapsed > 0.0 {
      RateIsRatio(shares, elapsed, expectedSpm);
    }
  }

  /** No share for 90 seconds: half the difficulty, but not below 1. */
  lemma SilentDecision(current: real, elapsed: real, expectedSpm: real, root: real)
    requires current >= 1.0 && elapsed >= 90.0
    ensures var next := if current < 2.0 then 1.0 else current / 2.0;
            ComputeNextDiff(current, 0.0, elapsed, expectedSpm, false, root)
            == if current - next > 1.0 / 4503599627370496.0 then Some(next) else None
    ensures IsPow2(current) ==>
              ComputeNextDiff(current, 0.0, elapsed, expectedSpm, true, root) == if current > 1.0 then Some(current / 2.0) else None
  {
    if IsPow2(current) {
      var a: nat :| current == Pow2(a);
      ClampedDown(current, a, 0.5);
      PowerAboveOne(a);
    }
  }

  lemma PowerAboveOne(a: nat)
    ensures Pow2(a) > 1.0 <==> a > 0
    ensures a > 0 ==> Pow2(a - 1) == Pow2(a) / 2.0 && Pow2(a) >= 2.0
  {
    if a > 0 {
      Pow2AtLeastOne(a - 1);
    }
  }

  lemma ClampToHalf(a: nat, x: real)
    requires a > 0 && Pow2(a - 1) <= x < Pow2(a)
    ensures Pow2ClampTowards(Pow2(a), x) == Pow2(a - 1)
  {
    Pow2AtLeastOne(a - 1);
    FloorLog2Exact(x, a - 1);
  }

  lemma ClampToDouble(a: nat, x: real)
    requires Pow2(a) < x <= Pow2(a + 1)
    ensures Pow2ClampTowards(Pow2(a), x) == Pow2(a + 1)
  {
    Pow2AtLeastOne(a);
    CeilLog2Exact(x, a + 1);
  }

  lemma ScaledDown(x: real, step: real, scaled: real)
    requires x > 0.0 && 0.5 <= step < 1.0 && scaled == x * step
    ensures x / 2.0 <= scaled < x
  {
    assert x * (step - 0.5) >= 0.0;
    assert x * (1.0 - step) > 0.0;
  }

  lemma ScaledUp(x: real, step: real, scaled: real)
    requires x > 0.0 && 1.0 < step <= 2.0 && scaled == x * step
    ensures x < scaled <= 2.0 * x
  {
    assert x * (step - 1.0) > 0.0;
    assert x * (2.0 - step) >= 0.0;
  }

  lemma DownFrom(a: nat, scaled: real)
    requires Pow2(a) / 2.0 <= scaled < Pow2(a)
    ensures Pow2ClampTowards(Pow2(a), AtLeastOne(scaled)) == if a == 0 then 1.0 else Pow2(a - 1)
  {
    if a > 0 {
      PowerAboveOne(a);
      ClampToHalf(a, scaled);
    } else {
      assert CeilLog2(1.0) == 0 && Pow2(0) == 1.0;
    }
  }

  lemma AdjustedDown(current: real, step: real) returns (scaled: real)
    requires current > 0.0 && 0.5 <= step < 1.0
    ensures Adjusted(current, step, true) == Pow2ClampTowards(current, AtLeastOne(scaled)) && current / 2.0 <= scaled < current
  {
    scaled := current * step;
    ScaledDown(current, step, scaled);
  }

  lemma AdjustedUp(current: real, step: real) returns (scaled: real)
    requires current > 0.0 && 1.0 < step <= 2.0
    ensures Adjusted(current, step, true) == Pow2ClampTowards(current, AtLeastOne(scaled)) && current < scaled <= 2.0 * current
  {
    scaled := current * step;
    ScaledUp(current, step, scaled);
  }

  lemma ClampedDown(current: real, a: nat, step: real)
    requires current == Pow2(a) && 0.5 <= step < 1.0
    ensures Adjusted(current, step, true) == if a == 0 then 1.0 else Pow2(a - 1)
  {
    Pow2AtLeastOne(a);
    var scaled := AdjustedDown(current, step);
    DownFrom(a, scaled);
  }

  lemma ClampedUp(current: real, a: nat, step: real)
    requires current == Pow2(a) && 1.0 < step <= 2.0
    ensures Adjusted(current, step, true) == Pow2(a + 1)
  {
    Pow2AtLeastOne(a);
    var scaled := AdjustedUp(current, step);
    ClampToDouble(a, scaled);
  }

  /** A square root outside the band is on the same side of 1. */
  lemma RootSide(ratio: real, root: real)
    requires root >= 0.0 && root * root == ratio > 0.0
    ensures ratio >= 1.25 ==> root > 1.1
    ensures ratio <= 0.75 ==> 0.0 < root < 0.9
  {
    if ratio >= 1.25 && root <= 1.1 {
      SquaresUp(root, 1.1);
    }
    if ratio <= 0.75 && root >= 0.9 {
      SquaresUp(0.9, root);
    }
  }

  lemma SquaresUp(a: real, b: real)
    requires 0.0 <= a <= b
    ensures a * a <= b * b
  {
    assert (b - a) * (b + a) >= 0.0;
    assert (b - a) * (b + a) == b * b - a * a;
  }

  /** With the clamp, for a full window: a doubling from a rate of a quarter above the target on, a halving
      from a quarter below it, at 1 no change. */
  lemma ClampedDecision(current: real, shares: real, elapsed: real, expectedSpm: real, root: real)
    requires IsPow2(current) && shares >= 3.0 && elapsed >= 30.0
    requires root >= 0.0 && root * root == RatePerTarget(shares, elapsed, expectedSpm)
    ensures var rate := RatePerTarget(shares, elapsed, expectedSpm);
            ComputeNextDiff(current, shares, elapsed, expectedSpm, true, root)
            == if rate >= 1.25 then Some(2.0 * current)
               else if rate <= 0.75 && current > 1.0 then Some(current / 2.0)
               else None
  {
    var a: nat :| current == Pow2(a);
    var rate := RatePerTarget(shares, elapsed, expectedSpm);
    RateIsRatio(shares, elapsed, expectedSpm);
    RatePositive(shares, elapsed, expectedSpm);
    RootSide(rate, root);
    if rate >= 1.25 {
      StepUp(current, a, root);
    } else if rate <= 0.75 {
      StepDown(current, a, root);
    }
  }

  /** The part after the ratio is known. */
  function Stepped(current: real, root: real): Option<real> {
    var next := Adjusted(current, Clamp(root, MAX_STEP_DOWN, MAX_STEP_UP), true);
    if Abs(next - current) / Max(current, 1.0) < 0.10 then None
    else if Abs(next - current) > EPSILON then Some(next) else None
  }

  lemma StepUp(current: real, a: nat, root: real)
    requires current == Pow2(a) && root > 1.1
    ensures Stepped(current, root) == Some(2.0 * current)
  {
    Pow2AtLeastOne(a);
    ClampedUp(current, a, Clamp(root, MAX_STEP_DOWN, MAX_STEP_UP));
    SteppedTo(current, root, Pow2(a + 1));
  }

  lemma StepDown(current: real, a: nat, root: real)
    requires current == Pow2(a) && 0.0 < root < 0.9
    ensures Stepped(current, root) == if current > 1.0 then Some(current / 2.0) else None
  {
    Pow2AtLeastOne(a);
    PowerAboveOne(a);
    ClampedDown(current, a, Clamp(root, MAX_STEP_DOWN, MAX_STEP_UP));
    SteppedTo(current, root, if a == 0 then 1.0 else Pow2(a - 1));
  }

  lemma SteppedTo(current: real, root: real, next: real)
    requires current >= 1.0 && Adjusted(current, Clamp(root, MAX_STEP_DOWN, MAX_STEP_UP), true) == next
    ensures Abs(next - current) >= 0.5 * current ==> Stepped(current, root) == Some(next)
    ensures next == current ==> Stepped(current, root) == None
  {
    RelativeChange(current, Abs(next - current));
  }

  lemma RatePositive(shares: real, elapsed: real, expectedSpm: real)
    requires shares > 0.0 && elapsed > 0.0
    ensures RatePerTarget(shares, elapsed, expectedSpm) > 0.0
  {
    PositiveQuotient(shares * 60.0, elapsed);
    PositiveQuotient(shares * 60.0 / elapsed, if expectedSpm < 1.0 then 1.0 else expectedSpm);
  }

  /** Without the clamp, for a full window outside the band: the difficulty times the square root of the
      rate, held between half and double, not below 1, and only if that is a tenth away. */
  lemma PlainDecision(current: real, shares: real, elapsed: real, expectedSpm: real, root: real)
    requires current >= 1.0 && shares >= 3.0 && elapsed >= 30.0
    requires root >= 0.0 && root * root == RatePerTarget(shares, elapsed, expectedSpm)
    requires root * root <= 0.75 || root * root >= 1.25
    ensures var scaled := if root < 0.5 then current / 2.0 else if root > 2.0 then 2.0 * current else current * root;
            var next := if scaled < 1.0 then 1.0 else scaled;
            ComputeNextDiff(current, shares, elapsed, expectedSpm, false, root)
            == if next >= 1.1 * current || next <= 0.9 * current then Some(next) else None
  {
    RateIsRatio(shares, elapsed, expectedSpm);
    RatePositive(shares, elapsed, expectedSpm);
    var next := Adjusted(current, Clamp(root, MAX_STEP_DOWN, MAX_STEP_UP), false);
    ScaledAdjusted(current, root);
    RelativeChange(current, Abs(next - current));
  }

  lemma ScaledAdjusted(current: real, root: real)
    ensures var scaled := if root < 0.5 then current / 2.0 else if root > 2.0 then 2.0 * current else current * root;
            Adjusted(current, Clamp(root, MAX_STEP_DOWN, MAX_STEP_UP), false) == if scaled < 1.0 then 1.0 else scaled
  {
    if root < 0.5 {
      AdjustedPlain(current, 0.5, current / 2.0);
    } else if root > 2.0 {
      AdjustedPlain(current, 2.0, 2.0 * current);
    } else {
      AdjustedPlain(current, root, current * root);
    }
  }

  lemma AdjustedPlain(current: real, step: real, scaled: real)
    requires scaled == current * step
    ensures Adjusted(current, step, false) == if scaled < 1.0 then 1.0 else scaled
  {
  }

  /** With the clamp on, the difficulty is a power of two, at least 1, in every reachable state. */
  lemma {:induction false} ClampedRun(minShareDiff: nat, diffs: seq<real>, windows: seq<Window>, expectedSpm: real)
    requires Run(diffs, windows, expectedSpm, true) && diffs[0] == StartDiff(minShareDiff, true)
    ensures IsPow2(diffs[|windows|]) && diffs[|windows|] >= 1.0
    decreases |windows|
  {
    if windows == [] {
      StartIsPow2(minShareDiff);
      var e: nat :| diffs[0] == Pow2(e);
      Pow2AtLeastOne(e);
    } else {
      var n := |windows| - 1;
      ClampedRun(minShareDiff, diffs[..n + 1], windows[..n], expectedSpm);
      ClampedChange(diffs[n], windows[n].shares, windows[n].elapsed, expectedSpm, windows[n].root);
    }
  }

  // Convergence without the clamp, for a miner whose share rate is inversely proportional to the
  // difficulty: `capacity` shares per minute at difficulty 1

  /** The difficulty at which the miner meets the target rate. */
  function Ideal(capacity: real, expectedSpm: real): real {
    capacity / Max(expectedSpm, 1.0)
  }

  ghost predicate Steady(capacity: real, d: real, w: Window, expectedSpm: real)
    requires d > 0.0
  {
    && w.elapsed > 0.0
    && w.shares == capacity / d * w.elapsed / 60.0
    && w.root >= 0.0 && w.root * w.root == Ratio(w.shares, w.elapsed, expectedSpm)
  }

  predicate InBand(r: real) {
    LOWER_RATIO < r < UPPER_RATIO
  }

  /** Distance of a ratio from 1, the same for a ratio and its inverse. */
  function Excess(r: real): real
    requires r > 0.0
  {
    if r >= 1.0 then r - 1.0 else 1.0 / r - 1.0
  }

  lemma SteadyRatio(capacity: real, d: real, w: Window, expectedSpm: real)
    requires capacity > 0.0 && d > 0.0 && Steady(capacity, d, w, expectedSpm)
    ensures Ratio(w.shares, w.elapsed, expectedSpm) == Ideal(capacity, expectedSpm) / d > 0.0
    ensures w.shares > 0.0
  {
    var rate, e := capacity / d, Max(expectedSpm, 1.0);
    assert rate > 0.0;
    assert w.shares / w.elapsed * 60.0 == rate by {
      var t := w.elapsed;
      assert w.shares == rate * t / 60.0;
      assert w.shares / t == rate / 60.0;
    }
    assert rate / e == capacity / e / d;
  }

  /** Above 1, dividing by the clamped root goes down towards 1 and at least halves the excess. */
  lemma RootStepDown(r: real, root: real)
    requires r >= UPPER_RATIO && root >= 0.0 && root * root == r
    ensures var step := Clamp(root, MAX_STEP_DOWN, MAX_STEP_UP);
            1.1 <= step <= 2.0 && 1.0 < r / step < r && 2.0 * Excess(r / step) <= Excess(r)
  {
    if root < 1.1 {
      SquareLess(root, 1.1);
    }
    if root <= 2.0 {
      DivideByRoot(r, root);
      SquareAboveTangent(root);
    } else {
      SquareLess(2.0, root);
    }
  }

  /** Below 1 it goes up towards 1 likewise. */
  lemma RootStepUp(r: real, root: real)
    requires 0.0 < r <= LOWER_RATIO && root >= 0.0 && root * root == r
    ensures var step := Clamp(root, MAX_STEP_DOWN, MAX_STEP_UP);
            0.5 <= step <= 0.9 && r < r / step < 1.0 && 2.0 * Excess(r / step) <= Excess(r)
  {
    if root > 0.9 {
      SquareLess(0.9, root);
    }
    assert root > 0.0;
    if root >= 0.5 {
      DivideByRoot(r, root);
      InverseSquare(root);
    } else {
      SquareLess(root, 0.5);
      assert 2.0 * (1.0 / (2.0 * r)) == 1.0 / r;
    }
  }

  lemma DivideByRoot(r: real, root: real)
    requires root > 0.0 && root * root == r
    ensures r / root == root
  {
    var q := r / root;
    assert q * root == r;
    assert (q - root) * root == 0.0;
  }

  lemma SquareLess(a: real, b: real)
    requires 0.0 <= a < b
    ensures a * a < b * b
  {
    var aa, ab, bb := a * a, a * b, b * b;
    assert aa <= ab < bb;
  }

  lemma InverseSquare(root: real)
    requires root > 0.0
    ensures 2.0 * (1.0 / root - 1.0) <= 1.0 / (root * root) - 1.0
  {
    var q := 1.0 / root;
    assert q * root == 1.0;
    assert q * q * (root * root) == q * root * (q * root) == 1.0;
    assert 1.0 / (root * root) == q * q;
    SquareAboveTangent(q);
  }

  lemma SquareAboveTangent(x: real)
    ensures x * x >= 2.0 * x - 1.0
  {
    var y := x - 1.0;
    assert y * y >= 0.0;
    assert x * x == y * y + 2.0 * y + 1.0;
  }

  lemma RatioAfter(ideal: real, d: real, step: real)
    requires d > 0.0 && step > 0.0
    ensures ideal / (d * step) == ideal / d / step
  {
    assert d * step > 0.0;
    var r := ideal / d;
    assert ideal == r * d;
    assert r / step * (d * step) == r * d by {
      var q := r / step;
      assert q * step == r;
      assert q * (d * step) == q * step * d;
    }
  }

  /** What the controller does when it looks at a full window. */
  function Candidate(d: real, root: real): real {
    AtLeastOne(d * Clamp(root, MAX_STEP_DOWN, MAX_STEP_UP))
  }

  predicate FullWindow(w: Window) {
    w.elapsed >= MIN_ELAPSED && w.shares >= MIN_SHARES
  }

  lemma RelativeChange(d: real, change: real)
    requires d >= 1.0 && change >= 0.0
    ensures change / d < 0.10 <==> change < 0.10 * d
    ensures Max(d, 1.0) == d
  {
    var q := change / d;
    assert q * d == change;
    var tenth := 0.10 * d;
    if q < 0.10 {
      assert q * d < tenth;
    } else {
      assert q * d >= tenth;
    }
  }

  lemma SteadyDecision(capacity: real, d: real, w: Window, expectedSpm: real)
    requires capacity > 0.0 && d >= 1.0 && Steady(capacity, d, w, expectedSpm)
    ensures var r := Ideal(capacity, expectedSpm) / d;
            var next := ComputeNextDiff(d, w.shares, w.elapsed, expectedSpm, false, w.root);
            && r > 0.0 && w.root * w.root == r
            && (next.Some? ==> !InBand(r) && next.value == Candidate(d, w.root) && next.value != d)
            && (FullWindow(w) && !InBand(r) ==> (next.None? <==> Abs(Candidate(d, w.root) - d) < 0.10 * d))
  {
    SteadyRatio(capacity, d, w, expectedSpm);
    RelativeChange(d, Abs(Candidate(d, w.root) - d));
  }

  /** From one ratio to another: closer to 1 on the same side, with at most half the excess. */
  ghost predicate Towards(r: real, r': real) {
    && r > 0.0 && r' > 0.0
    && (r > 1.0 ==> 1.0 < r' < r)
    && (r < 1.0 ==> r < r' < 1.0)
    && 2.0 * Excess(r') <= Excess(r)
  }

  lemma StepTowards(r: real, root: real)
    requires r > 0.0 && !InBand(r) && root >= 0.0 && root * root == r
    ensures var step := Clamp(root, MAX_STEP_DOWN, MAX_STEP_UP);
            && (if r > 1.0 then 1.1 <= step <= 2.0 else 0.5 <= step <= 0.9)
            && Towards(r, r / step)
  {
    if r >= UPPER_RATIO {
      RootStepDown(r, root);
    } else {
      RootStepUp(r, root);
    }
  }

  lemma ScaledByStep(d: real, step: real, scaled: real)
    requires d >= 1.0 && scaled == d * step && (step >= 1.1 || 0.5 <= step <= 0.9)
    ensures scaled > 0.0 && Abs(scaled - d) >= 0.10 * d && (step >= 1.1 ==> scaled >= 1.0)
  {
    if step >= 1.1 {
      ScaledAbove(d, 1.1, step, scaled);
    } else {
      ScaledAbove(d, 0.5, step, scaled);
      ScaledAbove(d, step, 0.9, d * 0.9);
    }
  }

  lemma ScaledAbove(c: real, x: real, y: real, scaled: real)
    requires c >= 0.0 && x <= y && scaled == c * y
    ensures scaled >= x * c
  {
    ScaleLeq(c, x, y);
    var xc := c * x;
    assert scaled >= xc;
  }

  lemma ScaleLeq(c: real, x: real, y: real)
    requires c >= 0.0 && x <= y
    ensures c * x <= c * y
  {
    var gap := y - x;
    assert c * gap >= 0.0;
  }

  lemma CandidateTowards(ideal: real, d: real, root: real)
    requires ideal >= 1.0 && d >= 1.0 && ideal / d > 0.0 && !InBand(ideal / d)
    requires root >= 0.0 && root * root == ideal / d
    ensures var c := Candidate(d, root);
            c >= 1.0 && Abs(c - d) >= 0.10 * d && Towards(ideal / d, ideal / c)
  {
    var r, step := ideal / d, Clamp(root, MAX_STEP_DOWN, MAX_STEP_UP);
    StepTowards(r, root);
    var scaled := d * step;
    ScaledByStep(d, step, scaled);
    RatioAfter(ideal, d, step);
    var r' := ideal / scaled;
    assert r' * scaled == ideal;
    if r < 1.0 {
      assert scaled > ideal;
    }
    assert Candidate(d, root) == scaled;
  }

  /** With the ideal difficulty at 1 or above, a tick that changes the difficulty moves the ratio
      towards 1 without crossing it and at least halves its excess; a full window outside the dead
      band always makes such a change. */
  lemma TickTowardsIdeal(capacity: real, d: real, w: Window, expectedSpm: real)
    requires capacity > 0.0 && d >= 1.0 && Ideal(capacity, expectedSpm) >= 1.0
    requires Steady(capacity, d, w, expectedSpm)
    ensures var ideal := Ideal(capacity, expectedSpm);
            var d' := After(d, w, expectedSpm, false);
            && d' >= 1.0
            && (InBand(ideal / d) ==> d' == d)
            && (d' != d ==> !InBand(ideal / d) && Towards(ideal / d, ideal / d'))
            && (FullWindow(w) && !InBand(ideal / d) ==> d' != d)
  {
    SteadyDecision(capacity, d, w, expectedSpm);
    var ideal := Ideal(capacity, expectedSpm);
    if !InBand(ideal / d) {
      CandidateTowards(ideal, d, w.root);
    }
  }

  function Changes(diffs: seq<real>): nat {
    if |diffs| <= 1 then 0
    else
      var n := |diffs| - 1;
      Changes(diffs[..n]) + if diffs[n] != diffs[n - 1] then 1 else 0
  }

  ghost predicate SteadyRun(capacity: real, diffs: seq<real>, windows: seq<Window>, expectedSpm: real) {
    && capacity > 0.0 && Ideal(capacity, expectedSpm) >= 1.0
    && Run(diffs, windows, expectedSpm, false)
    && diffs[0] >= 1.0
    && forall i | 0 <= i < |windows| :: diffs[i] > 0.0 && Steady(capacity, diffs[i], windows[i], expectedSpm)
  }

  /** The excess after `k` changes, and how many there can have been. */
  ghost predicate Halved(k: nat, initial: real, r: real) {
    && r > 0.0
    && Pow2(k) * Excess(r) <= initial
    && (k >= 1 ==> Pow2(k - 1) <= 4.0 * initial)
  }

  lemma HalvedAgain(k: nat, initial: real, r: real, r': real)
    requires Halved(k, initial, r) && !InBand(r) && Towards(r, r')
    ensures Halved(k + 1, initial, r')
  {
    Pow2AtLeastOne(k);
    var p, e, e' := Pow2(k), Excess(r), Excess(r');
    OutsideBandExcess(r);
    var pe := p * e;
    ScaleLeq(p, 0.25, e);
    ScaleLeq(p, 2.0 * e', e);
  }

  lemma OutsideBandExcess(r: real)
    requires r > 0.0 && !InBand(r)
    ensures Excess(r) >= 0.25
  {
    if r < 1.0 {
      var q := 1.0 / r;
      assert q * r == 1.0;
      if q < 1.25 {
        assert q * r <= 1.25 * r;
      }
    }
  }

  /** Every change halves the excess, and no change happens below a quarter: in any run, however
      long, the number of changes is bounded by the logarithm of the initial excess. */
  lemma {:induction false} ChangesAreBounded(capacity: real, diffs: seq<real>, windows: seq<Window>, expectedSpm: real)
    requires SteadyRun(capacity, diffs, windows, expectedSpm)
    ensures var n, ideal := |windows|, Ideal(capacity, expectedSpm);
            && diffs[n] >= 1.0 && ideal / diffs[0] > 0.0
            && Halved(Changes(diffs), Excess(ideal / diffs[0]), ideal / diffs[n])
    decreases |windows|
  {
    var ideal := Ideal(capacity, expectedSpm);
    PositiveQuotient(ideal, diffs[0]);
    if windows != [] {
      var n := |windows| - 1;
      ChangesAreBounded(capacity, diffs[..n + 1], windows[..n], expectedSpm);
      TickTowardsIdeal(capacity, diffs[n], windows[n], expectedSpm);
      assert diffs[..n + 1][0] == diffs[0];
      if diffs[n + 1] != diffs[n] {
        HalvedAgain(Changes(diffs[..n + 1]), Excess(ideal / diffs[0]), ideal / diffs[n], ideal / diffs[n + 1]);
      }
    }
  }

  lemma PositiveQuotient(x: real, d: real)
    requires x > 0.0 && d > 0.0
    ensures x / d > 0.0
  {
  }

  /** Once in the dead band the difficulty is never changed again. */
  lemma {:induction false} BandIsFinal(capacity: real, diffs: seq<real>, windows: seq<Window>, expectedSpm: real, i: nat)
    requires SteadyRun(capacity, diffs, windows, expectedSpm) && i <= |windows|
    requires diffs[i] > 0.0 && InBand(Ideal(capacity, expectedSpm) / diffs[i])
    ensures diffs[|windows|] == diffs[i]
    decreases |windows|
  {
    if i < |windows| {
      var n := |windows| - 1;
      BandIsFinal(capacity, diffs[..n + 1], windows[..n], expectedSpm, i);
      ChangesAreBounded(capacity, diffs[..n + 1], windows[..n], expectedSpm);
      TickTowardsIdeal(capacity, diffs[n], windows[n], expectedSpm);
    }
  }

  lemma {:induction false} OutsideBandChanges(capacity: real, diffs: seq<real>, windows: seq<Window>, expectedSpm: real)
    requires SteadyRun(capacity, diffs, windows, expectedSpm)
    requires forall i | 0 <= i < |windows| :: FullWindow(windows[i])
    requires diffs[|windows|] > 0.0 && !InBand(Ideal(capacity, expectedSpm) / diffs[|windows|])
    ensures Changes(diffs) == |windows|
    decreases |windows|
  {
    if windows != [] {
      var n := |windows| - 1;
      ChangesAreBounded(capacity, diffs[..n + 1], windows[..n], expectedSpm);
      TickTowardsIdeal(capacity, diffs[n], windows[n], expectedSpm);
      OutsideBandChanges(capacity, diffs[..n + 1], windows[..n], expectedSpm);
    }
  }

  /** The dead band is reached after as many full windows as the initial excess asks for. */
  lemma ReachesBand(capacity: real, diffs: seq<real>, windows: seq<Window>, expectedSpm: real)
    requires SteadyRun(capacity, diffs, windows, expectedSpm)
    requires forall i | 0 <= i < |windows| :: FullWindow(windows[i])
    requires |windows| >= 1 && Ideal(capacity, expectedSpm) / diffs[0] > 0.0
    requires Pow2(|windows| - 1) > 4.0 * Excess(Ideal(capacity, expectedSpm) / diffs[0])
    ensures diffs[|windows|] > 0.0 && InBand(Ideal(capacity, expectedSpm) / diffs[|windows|])
  {
    ChangesAreBounded(capacity, diffs, windows, expectedSpm);
    if !InBand(Ideal(capacity, expectedSpm) / diffs[|windows|]) {
      OutsideBandChanges(capacity, diffs, windows, expectedSpm);
    }
  }

  /** The wanted step goes below the floor of 1, and 1 is within a tenth of where it is. */
  predicate FloorTakesStep(d: real, root: real)
    requires d >= 1.0
  {
    d * Clamp(root, MAX_STEP_DOWN, MAX_STEP_UP) < 1.0 && (d - 1.0) / d < 0.10
  }

  /** Any ideal difficulty, also below 1: a full window outside the dead band leaves the difficulty
      alone if and only if the floor of 1 takes away all but a tenth of the step. */
  lemma StuckAtFloorIff(capacity: real, d: real, w: Window, expectedSpm: real)
    requires capacity > 0.0 && d >= 1.0 && Steady(capacity, d, w, expectedSpm)
    requires FullWindow(w) && !InBand(Ideal(capacity, expectedSpm) / d)
    ensures After(d, w, expectedSpm, false) == d <==> FloorTakesStep(d, w.root)
  {
    var small := Abs(Candidate(d, w.root) - d) < 0.10 * d;
    assert After(d, w, expectedSpm, false) == d <==> small by {
      StaysIff(capacity, d, w, expectedSpm);
    }
    assert small <==> FloorTakesStep(d, w.root) by {
      SteadyStep(capacity, d, w, expectedSpm);
      CandidateStays(d, w.root);
    }
  }

  lemma StaysIff(capacity: real, d: real, w: Window, expectedSpm: real)
    requires capacity > 0.0 && d >= 1.0 && Steady(capacity, d, w, expectedSpm)
    requires FullWindow(w) && !InBand(Ideal(capacity, expectedSpm) / d)
    ensures After(d, w, expectedSpm, false) == d <==> Abs(Candidate(d, w.root) - d) < 0.10 * d
  {
    SteadyDecision(capacity, d, w, expectedSpm);
  }

  lemma SteadyStep(capacity: real, d: real, w: Window, expectedSpm: real)
    requires capacity > 0.0 && d >= 1.0 && Steady(capacity, d, w, expectedSpm)
    requires !InBand(Ideal(capacity, expectedSpm) / d)
    ensures var step := Clamp(w.root, MAX_STEP_DOWN, MAX_STEP_UP); step >= 1.1 || step <= 0.9
  {
    SteadyDecision(capacity, d, w, expectedSpm);
    StepTowards(Ideal(capacity, expectedSpm) / d, w.root);
  }

  lemma CandidateStays(d: real, root: real)
    requires d >= 1.0
    requires var step := Clamp(root, MAX_STEP_DOWN, MAX_STEP_UP); step >= 1.1 || step <= 0.9
    ensures Abs(Candidate(d, root) - d) < 0.10 * d <==> FloorTakesStep(d, root)
  {
    var step := Clamp(root, MAX_STEP_DOWN, MAX_STEP_UP);
    var scaled := d * step;
    FlooredChange(d, step, scaled);
    assert Candidate(d, root) == AtLeastOne(scaled);
    assert FloorTakesStep(d, root) <==> scaled < 1.0 && (d - 1.0) / d < 0.10;
  }

  lemma FlooredChange(d: real, step: real, scaled: real)
    requires d >= 1.0 && scaled == d * step && (step >= 1.1 || 0.5 <= step <= 0.9)
    ensures Abs(AtLeastOne(scaled) - d) < 0.10 * d <==> scaled < 1.0 && (d - 1.0) / d < 0.10
  {
    ScaledByStep(d, step, scaled);
    RelativeChange(d, d - 1.0);
  }

  /** An instance: 20 shares a minute wanted of a miner that makes 5 at the floor. */
  lemma StuckAtFloorInstance()
    ensures var w := Window(5.0, 60.0, 0.5);
            && Steady(5.0, 1.0, w, 20.0) && FullWindow(w) && !InBand(Ideal(5.0, 20.0) / 1.0)
            && After(1.0, w, 20.0, false) == 1.0
  {
    var w := Window(5.0, 60.0, 0.5);
    assert Ratio(w.shares, w.elapsed, 20.0) == 0.25;
    StuckAtFloorIff(5.0, 1.0, w, 20.0);
  }

  // An ideal below the floor

  /** Where a run can rest when the ideal is below 1: in the band, or so close above the floor that the
      step to it is below a tenth. */
  predicate AtRest(ideal: real, d: real)
    requires d >= 1.0
  {
    InBand(ideal / d) || 0.9 * d < 1.0
  }

  lemma BelowOne(ideal: real, d: real)
    requires 0.0 < ideal < 1.0 && d >= 1.0
    ensures 0.0 < ideal / d < 1.0
  {
    var r := ideal / d;
    assert r * d == ideal;
    if r >= 1.0 {
      ScaleLeq(d, 1.0, r);
    }
  }

  lemma LowCandidate(ideal: real, d: real, root: real)
    requires 0.0 < ideal < 1.0 && d >= 1.0 && ideal / d > 0.0 && !InBand(ideal / d)
    requires root >= 0.0 && root * root == ideal / d
    ensures var c := Candidate(d, root);
            && 1.0 <= c <= d
            && (Abs(c - d) < 0.10 * d <==> 0.9 * d < 1.0)
            && (0.9 * d >= 1.0 ==> c <= 0.9 * d)
  {
    BelowOne(ideal, d);
    StepTowards(ideal / d, root);
    var step := Clamp(root, MAX_STEP_DOWN, MAX_STEP_UP);
    var scaled := d * step;
    ScaleLeq(d, step, 0.9);
    assert Candidate(d, root) == AtLeastOne(scaled);
  }

  /** One tick: nothing moves at rest, whatever the window; elsewhere a full window brings the difficulty
      down by at least a tenth, never below 1. */
  lemma LowTick(capacity: real, d: real, w: Window, expectedSpm: real)
    requires capacity > 0.0 && d >= 1.0 && Ideal(capacity, expectedSpm) < 1.0
    requires Steady(capacity, d, w, expectedSpm)
    ensures var ideal, d' := Ideal(capacity, expectedSpm), After(d, w, expectedSpm, false);
            && d' >= 1.0
            && (d' != d ==> !AtRest(ideal, d) && d' <= 0.9 * d)
            && (FullWindow(w) ==> (d' == d <==> AtRest(ideal, d)))
  {
    SteadyDecision(capacity, d, w, expectedSpm);
    var ideal := Ideal(capacity, expectedSpm);
    assert ideal > 0.0;
    if !InBand(ideal / d) {
      LowCandidate(ideal, d, w.root);
      DecidedChange(capacity, d, w, expectedSpm);
    }
  }

  /** A change is at least a tenth of the difficulty. */
  lemma DecidedChange(capacity: real, d: real, w: Window, expectedSpm: real)
    requires capacity > 0.0 && d >= 1.0 && Steady(capacity, d, w, expectedSpm)
    ensures var next := ComputeNextDiff(d, w.shares, w.elapsed, expectedSpm, false, w.root);
            next.Some? ==> Abs(Candidate(d, w.root) - d) >= 0.10 * d
  {
    SteadyRatio(capacity, d, w, expectedSpm);
    RelativeChange(d, Abs(Candidate(d, w.root) - d));
  }

  ghost predicate LowRun(capacity: real, diffs: seq<real>, windows: seq<Window>, expectedSpm: real) {
    && capacity > 0.0 && Ideal(capacity, expectedSpm) < 1.0
    && Run(diffs, windows, expectedSpm, false)
    && diffs[0] >= 1.0
    && forall i | 0 <= i < |windows| :: diffs[i] > 0.0 && Steady(capacity, diffs[i], windows[i], expectedSpm)
  }

  /** Ten ninths to the power of `n`. */
  function TenNinths(n: nat): real {
    if n == 0 then 1.0 else 10.0 / 9.0 * TenNinths(n - 1)
  }

  lemma TenthLess(d: real, d': real, p: real, bound: real)
    requires d' <= 0.9 * d && p > 0.0 && d * p <= bound
    ensures d' * (10.0 / 9.0 * p) <= bound
  {
    var q := 10.0 / 9.0 * p;
    ScaleLeq(q, d', 0.9 * d);
    assert q * (0.9 * d) == d * p;
    assert d' * q == q * d';
  }

  lemma {:induction false} TenNinthsPositive(n: nat)
    ensures TenNinths(n) > 0.0
  {
    if n > 0 {
      TenNinthsPositive(n - 1);
    }
  }

  lemma {:induction false} LowProgress(capacity: real, diffs: seq<real>, windows: seq<Window>, expectedSpm: real, i: nat)
    requires LowRun(capacity, diffs, windows, expectedSpm) && i <= |windows|
    requires forall j | 0 <= j < |windows| :: FullWindow(windows[j])
    ensures diffs[i] >= 1.0
    ensures AtRest(Ideal(capacity, expectedSpm), diffs[i]) || diffs[i] * TenNinths(i) <= diffs[0]
    decreases i
  {
    if i > 0 {
      LowProgress(capacity, diffs, windows, expectedSpm, i - 1);
      LowTick(capacity, diffs[i - 1], windows[i - 1], expectedSpm);
      TenNinthsPositive(i - 1);
      if !AtRest(Ideal(capacity, expectedSpm), diffs[i - 1]) {
        TenthLess(diffs[i - 1], diffs[i], TenNinths(i - 1), diffs[0]);
      }
    }
  }

  /** With an ideal below 1 every run of enough full windows comes to rest. */
  lemma LowRunsEnd(capacity: real, diffs: seq<real>, windows: seq<Window>, expectedSpm: real)
    requires LowRun(capacity, diffs, windows, expectedSpm)
    requires forall j | 0 <= j < |windows| :: FullWindow(windows[j])
    requires TenNinths(|windows|) > diffs[0]
    ensures diffs[|windows|] >= 1.0 && AtRest(Ideal(capacity, expectedSpm), diffs[|windows|])
  {
    var n := |windows|;
    LowProgress(capacity, diffs, windows, expectedSpm, n);
    TenNinthsPositive(n);
    ScaleLeq(TenNinths(n), 1.0, diffs[n]);
  }

  /** And stays there, whatever windows follow. */
  lemma {:induction false} RestIsFinal(capacity: real, diffs: seq<real>, windows: seq<Window>, expectedSpm: real, i: nat, j: nat)
    requires LowRun(capacity, diffs, windows, expectedSpm) && i <= j <= |windows|
    requires diffs[i] >= 1.0 && AtRest(Ideal(capacity, expectedSpm), diffs[i])
    ensures diffs[j] == diffs[i]
    decreases j
  {
    if i < j {
      RestIsFinal(capacity, diffs, windows, expectedSpm, i, j - 1);
      LowTick(capacity, diffs[j - 1], windows[j - 1], expectedSpm);
    }
  }

  // Whole turns

  /** Both halves of a turn, with nothing in between. */
  function Turn(s: Stats, now: real, root: real, expectedSpm: real, clampPow2: bool): Stats
    requires s.change.None?
  {
    var looked := Next(s, Look(now, root), expectedSpm, clampPow2);
    if looked.change.Some? then Next(looked, Write, expectedSpm, clampPow2) else looked
  }

  /** A turn so long after the window was opened, with so many shares, at a difficulty that is a power of two,
      and with the clamp: what the difficulty becomes, and that a change opens a window at the turn. */
  lemma ClampedTurn(d: real, shares: nat, since: real, elapsed: real, expectedSpm: real, root: real)
    requires IsPow2(d) && elapsed >= 0.0
    requires shares >= 3 && elapsed >= 30.0 ==>
               root >= 0.0 && root * root == RatePerTarget(shares as real, elapsed, expectedSpm)
    ensures var s := Stats(d, shares, Some(since), None);
            var fast := shares >= 3 && elapsed >= 30.0 && RatePerTarget(shares as real, elapsed, expectedSpm) >= 1.25;
            var slow := shares >= 3 && elapsed >= 30.0 && RatePerTarget(shares as real, elapsed, expectedSpm) <= 0.75;
            var silent := shares == 0 && elapsed >= 90.0;
            Turn(s, since + elapsed, root, expectedSpm, true)
            == if fast then Stats(2.0 * d, 0, Some(since + elapsed), None)
               else if (slow || silent) && d > 1.0 then Stats(d / 2.0, 0, Some(since + elapsed), None)
               else s
  {
    var s := Stats(d, shares, Some(since), None);
    assert Seen(s, since + elapsed, root) == Window(shares as real, elapsed, root);
    var e: nat :| d == Pow2(e);
    Pow2AtLeastOne(e);
    if shares == 0 && elapsed >= 90.0 {
      SilentDecision(d, elapsed, expectedSpm, root);
    } else if shares >= 3 && elapsed >= 30.0 {
      ClampedDecision(d, shares as real, elapsed, expectedSpm, root);
    } else {
      NoDecision(d, shares as real, elapsed, expectedSpm, true, root);
    }
  }

  /** Without an open window a turn does nothing. */
  lemma ClosedTurn(d: real, shares: nat, now: real, expectedSpm: real, clampPow2: bool, root: real)
    ensures Turn(Stats(d, shares, None, None), now, root, expectedSpm, clampPow2) == Stats(d, shares, None, None)
  {
  }
}
