/** The ring of the last 300 jobs of a client, and the search that walks it backwards from a
    submitted job id. */
module JobRing {
  import opened Options

  const MAX_JOBS := 300

  /** Largest id up to `count` that falls into `slot`; below 1 when there is none. */
  function NewestId(count: nat, slot: nat): int {
    count - (count - slot) % MAX_JOBS
  }

  lemma NewestIdIsNewest(count: nat, slot: nat, id: nat)
    requires slot < MAX_JOBS
    ensures NewestId(count, slot) <= count && NewestId(count, slot) % MAX_JOBS == slot
    ensures NewestId(count, slot) < id <= count ==> id % MAX_JOBS != slot
  {
  }

  lemma NewestIdAfterAdd(count: nat, slot: nat)
    requires slot < MAX_JOBS
    ensures (count + 1) % MAX_JOBS == slot ==> NewestId(count + 1, slot) == count + 1
    ensures (count + 1) % MAX_JOBS != slot ==> NewestId(count + 1, slot) == NewestId(count, slot)
  {
  }

  /** The job a slot holds after issuing `issued`, whose i-th job got id i + 1. */
  function Stored<Job>(issued: seq<Job>, slot: nat): Option<Job> {
    var id := NewestId(|issued|, slot);
    if 1 <= id <= |issued| then Some(issued[id - 1]) else None
  }

  /** A recent id finds its own job. An older one finds the recent job that took its slot. */
  lemma LookupFinds<Job>(issued: seq<Job>, id: nat) returns (found: nat)
    requires 1 <= id <= |issued|
    ensures id <= found <= |issued| && |issued| - 300 < found && (found - id) % 300 == 0
    ensures Stored(issued, id % 300) == Some(issued[found - 1])
    ensures id > |issued| - 300 ==> found == id
  {
    found := NewestId(|issued|, id % 300);
    NewestIdIsNewest(|issued|, id % 300, id);
  }

  class MiningState<Job> {
    var jobs: map<nat, Job>
    var jobIds: map<nat, nat>
    var jobCounter: nat
    ghost var issued: seq<Job>

    ghost predicate Valid()
      reads this
    {
      && jobCounter == |issued|
      && (forall slot: nat | slot < MAX_JOBS :: SlotHolds(slot))
      && (forall slot | slot in jobs || slot in jobIds :: slot < MAX_JOBS)
    }

    ghost predicate SlotHolds(slot: nat)
      reads this
    {
      && (slot in jobs <==> Stored(issued, slot).Some?)
      && (slot in jobs ==> jobs[slot] == Stored(issued, slot).value)
      && (slot in jobIds <==> slot in jobs)
      && (slot in jobIds ==> jobIds[slot] == NewestId(|issued|, slot))
    }

    constructor ()
      ensures Valid() && issued == []
    {
      jobs := map[];
      jobIds := map[];
      jobCounter := 0;
      issued := [];
    }

    method AddJob(job: Job) returns (id: nat)
      requires Valid()
      modifies this
      ensures Valid()
      ensures issued == old(issued) + [job] && id == |issued|
    {
      jobCounter := jobCounter + 1;
      id := jobCounter;
      var slot := id % MAX_JOBS;
      jobs := jobs[slot := job];
      jobIds := jobIds[slot := id];
      issued := issued + [job];
      forall s: nat | s < MAX_JOBS
        ensures SlotHolds(s)
      {
        NewestIdAfterAdd(|old(issued)|, s);
        assert old(SlotHolds(s));
      }
    }

    /** Whatever is in the slot: the id itself is not checked. */
    method GetJob(id: nat) returns (job: Option<Job>)
      requires Valid()
      ensures job == Stored(issued, id % MAX_JOBS)
    {
      var slot := id % MAX_JOBS;
      assert SlotHolds(slot);
      if slot in jobs {
        job := Some(jobs[slot]);
      } else {
        job := None;
      }
    }

    /** What the k-th step of a walk from `jobId` finds. */
    function Lookup(jobId: nat): (found: nat -> Option<Job>)
      requires Valid()
      reads this
      ensures forall k: nat :: found(k) == Stored(issued, SlotAt(jobId, k))
    {
      var ring := jobs;
      assert forall k: nat :: SlotHolds(SlotAt(jobId, k));
      (k: nat) => if SlotAt(jobId, k) in ring then Some(ring[SlotAt(jobId, k)]) else None
    }

    /** The validation loop of `handle_submit`. `examined` lists the ids it looked at. */
    method WalkBack(env: Env<Job>, jobId: nat) returns (stop: Stop, ghost examined: seq<int>)
      requires Valid()
      ensures stop.NoJob? <==> Stored(issued, jobId % MAX_JOBS).None?
      ensures stop.Overflow? <==> jobId == 0 && Stored(issued, 0).Some? && Misses(env, Stored(issued, 0).value)
      ensures jobId >= 1 && !stop.NoJob? ==>
                && stop == Search(issued, env, jobId, 0)
                && (forall k | 0 <= k < |examined| :: examined[k] == jobId - k)
                && |examined| <= Reach(|issued|, jobId) <= MAX_JOBS
                && (stop.LowDiff? ==> |examined| == Reach(|issued|, jobId))
    {
      var found, envs := Lookup(jobId), (k: nat) => env;
      var steps;
      stop, steps := WalkOver(found, envs, jobId);
      examined := Downward(jobId, steps);
      assert found(0) == Stored(issued, jobId % MAX_JOBS);
      if jobId >= 1 && !stop.NoJob? {
        WalkIsSearch(issued, env, found, envs, jobId, stop, steps);
      }
    }
  }

  // The walk

  datatype Env<!Job> = Env(pow: Job -> nat, networkTarget: Job -> nat, poolTarget: nat)

  datatype Stop =
    | NoJob
    | NetworkHit(id: nat)
    | PoolHit(id: nat)
    | LowDiff
    | Overflow

  predicate Misses<Job>(env: Env<Job>, job: Job) {
    env.pow(job) > env.networkTarget(job) && env.pow(job) >= env.poolTarget
  }

  function Downward(id: nat, n: nat): seq<int> {
    seq(n, k => id - k)
  }

  /** How many ids, counting down from `jobId`, the walk can look at when nothing hits. */
  function Reach(count: nat, jobId: nat): nat {
    if count < MAX_JOBS then jobId % MAX_JOBS
    else if jobId < MAX_JOBS then jobId else MAX_JOBS
  }

  lemma FilledSlots<Job>(issued: seq<Job>, slot: nat)
    requires slot < MAX_JOBS
    ensures Stored(issued, slot).Some? <==> (|issued| >= MAX_JOBS || 1 <= slot <= |issued|)
  {
  }

  /** Every id within reach is at least 1 and in a filled slot. */
  lemma WithinReach<Job>(issued: seq<Job>, jobId: nat, k: nat)
    requires jobId >= 1 && Stored(issued, jobId % MAX_JOBS).Some? && k < Reach(|issued|, jobId)
    ensures jobId - k >= 1 && Stored(issued, (jobId - k) % MAX_JOBS).Some?
  {
    FilledSlots(issued, jobId % MAX_JOBS);
    FilledSlots(issued, (jobId - k) % MAX_JOBS);
    if |issued| < MAX_JOBS {
      assert (jobId - k) % MAX_JOBS == jobId % MAX_JOBS - k;
    }
  }

  lemma WalkEnds(count: nat, jobId: nat, k: nat)
    requires jobId >= 1 ==> k < Reach(count, jobId)
    requires k <= jobId
    requires LastStep(jobId, k)
    requires jobId == 0 ==> k == 0
    ensures jobId >= 1 && Reach(count, jobId) == k + 1
  {
  }

  lemma WalkGoesOn<Job>(issued: seq<Job>, jobId: nat, k: nat)
    requires jobId >= 1 && Stored(issued, jobId % MAX_JOBS).Some? && k < Reach(|issued|, jobId)
    requires k < jobId && !LastStep(jobId, k)
    ensures Stored(issued, (jobId - k - 1) % MAX_JOBS).Some? <==> k + 1 < Reach(|issued|, jobId)
  {
    FilledSlots(issued, jobId % MAX_JOBS);
    FilledSlots(issued, (jobId - k - 1) % MAX_JOBS);
    if |issued| < MAX_JOBS {
      SlotBelow(jobId, k + 1);
    } else {
      RoundIn300(jobId);
    }
  }

  lemma SlotBelow(jobId: nat, k: nat)
    requires k <= jobId % MAX_JOBS
    ensures (jobId - k) % MAX_JOBS == jobId % MAX_JOBS - k
  {
  }

  /** The exit test at the k-th step. */
  predicate LastStep(jobId: nat, k: nat) {
    jobId - k == 1 || (jobId - k) % MAX_JOBS == (jobId % MAX_JOBS + 1) % MAX_JOBS
  }

  /** After 300 steps the walk has come round, whatever the ring holds. */
  lemma RoundIn300(jobId: nat)
    ensures LastStep(jobId, MAX_JOBS - 1)
  {
  }

  /** The first hit among the ids within reach, from the k-th on. */
  ghost function Search<Job>(issued: seq<Job>, env: Env<Job>, jobId: nat, k: nat): Stop
    requires jobId >= 1 && Stored(issued, jobId % MAX_JOBS).Some? && k <= Reach(|issued|, jobId)
    decreases Reach(|issued|, jobId) - k
  {
    if k == Reach(|issued|, jobId) then LowDiff
    else
      WithinReach(issued, jobId, k);
      var job := Stored(issued, (jobId - k) % MAX_JOBS).value;
      if env.pow(job) <= env.networkTarget(job) then NetworkHit(jobId - k)
      else if env.pow(job) < env.poolTarget then PoolHit(jobId - k)
      else Search(issued, env, jobId, k + 1)
  }

  /** The job the k-th step of the walk examines. */
  ghost function Candidate<Job>(issued: seq<Job>, jobId: nat, k: nat): Job
    requires jobId >= 1 && Stored(issued, jobId % MAX_JOBS).Some? && k < Reach(|issued|, jobId)
  {
    WithinReach(issued, jobId, k);
    Stored(issued, (jobId - k) % MAX_JOBS).value
  }

  ghost predicate MissesBefore<Job>(issued: seq<Job>, env: Env<Job>, jobId: nat, from: nat, k: nat)
    requires jobId >= 1 && Stored(issued, jobId % MAX_JOBS).Some? && k <= Reach(|issued|, jobId)
  {
    forall i | from <= i < k :: Misses(env, Candidate(issued, jobId, i))
  }

  /** The search stops at the first job, in the order id, id - 1, ..., that meets the network target
      or else the pool target, and reports a low-difficulty share exactly when none does. */
  lemma {:induction false} SearchIsFirstHit<Job>(issued: seq<Job>, env: Env<Job>, jobId: nat, from: nat)
    requires jobId >= 1 && Stored(issued, jobId % MAX_JOBS).Some? && from <= Reach(|issued|, jobId)
    ensures var stop, reach := Search(issued, env, jobId, from), Reach(|issued|, jobId);
            match stop
            case NetworkHit(id) =>
              && jobId - reach < id <= jobId - from && MissesBefore(issued, env, jobId, from, jobId - id)
              && var job := Candidate(issued, jobId, jobId - id); env.pow(job) <= env.networkTarget(job)
            case PoolHit(id) =>
              && jobId - reach < id <= jobId - from && MissesBefore(issued, env, jobId, from, jobId - id)
              && var job := Candidate(issued, jobId, jobId - id); env.networkTarget(job) < env.pow(job) < env.poolTarget
            case LowDiff => MissesBefore(issued, env, jobId, from, reach)
            case _ => false
    decreases Reach(|issued|, jobId) - from
  {
    if from < Reach(|issued|, jobId) && Misses(env, Candidate(issued, jobId, from)) {
      SearchIsFirstHit(issued, env, jobId, from + 1);
    }
  }

  /** No slot is visited twice. */
  lemma SlotsAreDistinct(count: nat, jobId: nat, i: nat, j: nat)
    requires i < j < Reach(count, jobId)
    ensures (jobId - i) % MAX_JOBS != (jobId - j) % MAX_JOBS
  {
  }

  function SlotAt(jobId: nat, k: nat): (slot: nat)
    ensures slot < MAX_JOBS
  {
    (jobId - k) % MAX_JOBS
  }

  lemma StepReaches(jobId: nat, id: nat, k: nat, q: int)
    requires jobId - id == MAX_JOBS * q + k
    ensures SlotAt(jobId, k) == id % MAX_JOBS
  {
  }

  /** The only step of a full walk that reaches the slot of `id`. */
  lemma StepOfSlot(count: nat, jobId: nat, id: nat) returns (k: nat)
    requires count >= MAX_JOBS && jobId >= MAX_JOBS
    ensures k < MAX_JOBS && SlotAt(jobId, k) == id % MAX_JOBS
    ensures forall j: nat | j < MAX_JOBS && SlotAt(jobId, j) == id % MAX_JOBS :: j == k
  {
    k := (jobId - id) % MAX_JOBS;
    StepReaches(jobId, id, k, (jobId - id) / MAX_JOBS);
    forall j: nat | j < MAX_JOBS && SlotAt(jobId, j) == id % MAX_JOBS
      ensures j == k
    {
      if j < k {
        SlotsAreDistinct(count, jobId, j, k);
      } else if k < j {
        SlotsAreDistinct(count, jobId, k, j);
      }
    }
  }

  /** On a full ring and from id 300 on, a walk without a hit meets each of the last 300 issued jobs
      in exactly one step. */
  lemma FullSweep<Job>(issued: seq<Job>, jobId: nat, id: nat) returns (k: nat)
    requires |issued| >= MAX_JOBS && jobId >= MAX_JOBS
    requires |issued| - MAX_JOBS < id <= |issued|
    ensures Reach(|issued|, jobId) == MAX_JOBS && Stored(issued, jobId % MAX_JOBS).Some?
    ensures k < MAX_JOBS && Candidate(issued, jobId, k) == issued[id - 1]
    ensures forall j: nat | j < MAX_JOBS && SlotAt(jobId, j) == id % MAX_JOBS :: j == k
  {
    k := StepOfSlot(|issued|, jobId, id);
    FilledSlots(issued, jobId % MAX_JOBS);
    NewestIdIsNewest(|issued|, id % MAX_JOBS, id);
    assert NewestId(|issued|, id % MAX_JOBS) == id;
  }

  // The walk while jobs are added and the pool's target moves

  /** What the k-th step of a walk finds in the ring as it is at that moment. */
  function FoundIn<Job>(rings: nat -> seq<Job>, jobId: nat): nat -> Option<Job> {
    (k: nat) => Stored(rings(k), (jobId - k) % MAX_JOBS)
  }

  ghost predicate MissedBefore<Job>(found: nat -> Option<Job>, env: nat -> Env<Job>, n: nat) {
    forall k: nat | k < n :: found(k).Some? && Misses(env(k), found(k).value)
  }

  ghost predicate HitAt<Job>(found: nat -> Option<Job>, env: nat -> Env<Job>, k: nat, network: bool) {
    && found(k).Some?
    && var e, job := env(k), found(k).value;
       if network then e.pow(job) <= e.networkTarget(job) else e.networkTarget(job) < e.pow(job) < e.poolTarget
  }

  /** How a walk ends: at the first job that meets a target, or after misses only. */
  ghost predicate Ends<Job>(found: nat -> Option<Job>, env: nat -> Env<Job>, jobId: nat, stop: Stop, steps: nat) {
    match stop
    case NoJob => steps == 0 && found(0).None?
    case NetworkHit(id) =>
      steps > 0 && id == jobId - (steps - 1) && MissedBefore(found, env, steps - 1) && HitAt(found, env, steps - 1, true)
    case PoolHit(id) =>
      steps > 0 && id == jobId - (steps - 1) && MissedBefore(found, env, steps - 1) && HitAt(found, env, steps - 1, false)
    case LowDiff => steps > 0 && MissedBefore(found, env, steps) && (LastStep(jobId, steps - 1) || found(steps).None?)
    case Overflow => jobId == 0 && steps == 1 && MissedBefore(found, env, 1)
  }

  lemma {:induction false} SearchSkips<Job>(issued: seq<Job>, env: Env<Job>, jobId: nat, n: nat)
    requires jobId >= 1 && Stored(issued, jobId % MAX_JOBS).Some? && n <= Reach(|issued|, jobId)
    requires MissesBefore(issued, env, jobId, 0, n)
    ensures Search(issued, env, jobId, 0) == Search(issued, env, jobId, n)
  {
    if n > 0 {
      SearchSkips(issued, env, jobId, n - 1);
      assert Misses(env, Candidate(issued, jobId, n - 1));
    }
  }

  /** A walk over misses only stays within reach. */
  lemma MissesWithinReach<Job>(issued: seq<Job>, found: nat -> Option<Job>, jobId: nat, n: nat)
    requires jobId >= 1 && Stored(issued, jobId % MAX_JOBS).Some? && n <= MAX_JOBS && n <= jobId
    requires forall k: nat | k < n :: found(k) == Stored(issued, SlotAt(jobId, k)) && found(k).Some?
    ensures n <= Reach(|issued|, jobId)
  {
    if |issued| < MAX_JOBS && n > jobId % MAX_JOBS {
      var k := jobId % MAX_JOBS;
      SlotBelow(jobId, k);
      FilledSlots(issued, SlotAt(jobId, k));
    }
  }

  lemma WalkIsSearch<Job>(
      issued: seq<Job>, e: Env<Job>, found: nat -> Option<Job>, env: nat -> Env<Job>, jobId: nat, stop: Stop, steps: nat)
    requires jobId >= 1 && Stored(issued, jobId % MAX_JOBS).Some? && !stop.NoJob?
    requires steps <= MAX_JOBS && steps <= jobId && Ends(found, env, jobId, stop, steps)
    requires forall k: nat :: found(k) == Stored(issued, SlotAt(jobId, k)) && env(k) == e
    ensures steps <= Reach(|issued|, jobId) && stop == Search(issued, e, jobId, 0)
    ensures stop.LowDiff? ==> steps == Reach(|issued|, jobId)
  {
    MissesWithinReach(issued, found, jobId, steps);
    var n := if stop.LowDiff? then steps else steps - 1;
    forall i | 0 <= i < n
      ensures Misses(e, Candidate(issued, jobId, i))
    {
      assert found(i).Some? && Misses(env(i), found(i).value);
    }
    SearchSkips(issued, e, jobId, n);
    if stop.LowDiff? {
      LowDiffAtReach(issued, jobId, steps - 1);
    }
  }

  lemma LowDiffAtReach<Job>(issued: seq<Job>, jobId: nat, k: nat)
    requires jobId >= 1 && Stored(issued, jobId % MAX_JOBS).Some? && k < Reach(|issued|, jobId) && k < jobId
    requires LastStep(jobId, k) || Stored(issued, SlotAt(jobId, k + 1)).None?
    ensures k + 1 == Reach(|issued|, jobId)
  {
    if LastStep(jobId, k) {
      WalkEnds(|issued|, jobId, k);
    } else {
      WalkGoesOn(issued, jobId, k);
    }
  }

  /** The loop with an arbitrary ring and arbitrary targets at every step. It ends after at most 300
      steps, at the first job that meets a target as it then stands, or after misses only, at the last
      id or before a slot that is empty when it is looked up. */
  method WalkBackLive<Job>(rings: nat -> seq<Job>, env: nat -> Env<Job>, jobId: nat) returns (stop: Stop, steps: nat)
    ensures steps <= MAX_JOBS && steps <= jobId + 1
    ensures Ends(FoundIn(rings, jobId), env, jobId, stop, steps)
    ensures forall k: nat | k < steps :: Stored(rings(k), (jobId - k) % 300).Some?
    ensures stop.NetworkHit? || stop.PoolHit? ==>
              && steps == jobId - stop.id + 1
              && var e, job := env(jobId - stop.id), Stored(rings(jobId - stop.id), stop.id % 300).value;
                 if stop.NetworkHit? then e.pow(job) <= e.networkTarget(job) else e.networkTarget(job) < e.pow(job) < e.poolTarget
  {
    var found := FoundIn(rings, jobId);
    stop, steps := WalkOver(found, env, jobId);
    forall k: nat | k < steps
      ensures Stored(rings(k), (jobId - k) % 300).Some?
    {
      assert found(k).Some?;
    }
  }

  method WalkOver<Job>(found: nat -> Option<Job>, env: nat -> Env<Job>, jobId: nat) returns (stop: Stop, steps: nat)
    ensures steps <= MAX_JOBS && steps <= jobId + 1
    ensures jobId >= 1 ==> steps <= jobId
    ensures Ends(found, env, jobId, stop, steps)
  {
    var job := found(0);
    if job.None? {
      return NoJob, 0;
    }
    var k, currentJob := 0, job.value;
    while true
      invariant (jobId == 0 ==> k == 0) && (jobId >= 1 ==> k < jobId)
      invariant k < MAX_JOBS && found(k) == Some(currentJob)
      invariant MissedBefore(found, env, k)
      decreases jobId - k
    {
      var e := env(k);
      var powValue := e.pow(currentJob);
      if powValue <= e.networkTarget(currentJob) {
        return NetworkHit(jobId - k), k + 1;
      }
      if powValue < e.poolTarget {
        return PoolHit(jobId - k), k + 1;
      }
      assert MissedBefore(found, env, k + 1);
      if LastStep(jobId, k) {
        return LowDiff, k + 1;
      }
      RoundIn300(jobId);
      if jobId == k {
        return Overflow, k + 1;
      }
      var prevJob := found(k + 1);
      if prevJob.None? {
        return LowDiff, k + 1;
      }
      k, currentJob := k + 1, prevJob.value;
    }
  }

  /** Slot 0, which id 0 is looked up in, is filled from the 300th job on. */
  lemma SlotOfZero<Job>(issued: seq<Job>)
    ensures Stored(issued, 0).Some? <==> |issued| >= MAX_JOBS
  {
    FilledSlots(issued, 0);
  }

  /** An instance of the overflow: 300 jobs issued, and a share for job 0 that misses. */
  method OverflowInstance() returns (stop: Stop)
    ensures stop == Overflow
  {
    var state := new MiningState<nat>();
    var i := 0;
    while i < MAX_JOBS
      invariant 0 <= i <= MAX_JOBS && fresh(state) && state.Valid() && |state.issued| == i
    {
      var _ := state.AddJob(i);
      i := i + 1;
    }
    SlotOfZero(state.issued);
    ghost var examined;
    stop, examined := state.WalkBack(Env((job: nat) => 9, (job: nat) => 5, 7), 0);
  }
}
