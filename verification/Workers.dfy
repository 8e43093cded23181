/**
 The bounded fan-out that reads node records concurrently (cmd/alp/main.go, fetchNodeStatus): one
 goroutine per id, a 16-slot semaphore, a mutex over the result map and the first error, and a
 wait group. A transition system whose every interleaving is considered; fetching is a function of
 the id, standing for what the explorer answers.
 */
module Workers {
  import opened Wrappers

  const SLOTS: nat := 16

  /**
   Where a goroutine is. The defers run last-in first-out: unlock, then the semaphore, then Done.
   Unspawned goroutines have not been started by the loop yet.
   */
  datatype Pc = Unspawned | Waiting | Fetching | Fetched | Locked | Written | Unlocked | Released | Finished

  datatype Main = Spawning | Joining | Returned

  /** mu holds the locking goroutine's index, if any; sem counts taken slots; wg is the wait-group counter. */
  datatype State<S, E> = State(
    pcs: seq<Pc>, main: Main, sem: int, mu: Option<nat>, wg: int,
    status: map<string, S>, firstErr: Option<E>)

  type Fetch<S, E> = string -> Result<S, E>

  function Init<S, E>(ids: seq<string>): State<S, E> {
    State(seq(|ids|, _ => Unspawned), Spawning, 0, None, 0, map[], None)
  }

  /** One step: goroutine i moves, or main does. */
  datatype Step = Worker(i: nat) | MainStep

  function Count(pcs: seq<Pc>, f: Pc -> bool): nat {
    if pcs == [] then 0 else Count(pcs[..|pcs| - 1], f) + if f(pcs[|pcs| - 1]) then 1 else 0
  }

  predicate HoldsSlot(p: Pc) {
    p == Fetching || p == Fetched || p == Locked || p == Written || p == Unlocked
  }

  predicate HoldsLock(p: Pc) {
    p == Locked || p == Written
  }

  /** Counted by the wait group: added before the goroutine starts, released by its last defer. */
  predicate Outstanding(p: Pc) {
    p != Unspawned && p != Finished
  }

  ghost predicate Enabled<S, E>(s: State<S, E>, step: Step) {
    match step
    case MainStep =>
      (match s.main
       case Spawning => true
       case Joining => s.wg == 0
       case Returned => false)
    case Worker(i) =>
      i < |s.pcs| &&
      (match s.pcs[i]
       case Unspawned => false
       case Waiting => s.sem < SLOTS
       case Fetched => s.mu == None
       case Unlocked => s.sem > 0
       case Finished => false
       case _ => true)
  }

  /** The index of the next id the loop starts a goroutine for: they are started in order. */
  function NextSpawn(pcs: seq<Pc>): (n: nat)
    ensures n <= |pcs|
  {
    if pcs == [] then 0
    else if pcs[|pcs| - 1] != Unspawned then |pcs|
    else NextSpawn(pcs[..|pcs| - 1])
  }

  function Next<S, E>(ids: seq<string>, fetch: Fetch<S, E>, s: State<S, E>, step: Step): State<S, E>
    requires |s.pcs| == |ids|
  {
    match step
    case MainStep =>
      (match s.main
       case Spawning =>
         var n := NextSpawn(s.pcs);
         if n < |s.pcs| then s.(pcs := s.pcs[n := Waiting], wg := s.wg + 1) else s.(main := Joining)
       case _ => s.(main := Returned))
    case Worker(i) =>
      if i >= |s.pcs| then s
      else match s.pcs[i]
        case Waiting => s.(pcs := s.pcs[i := Fetching], sem := s.sem + 1)
        case Fetching => s.(pcs := s.pcs[i := Fetched])
        case Fetched => s.(pcs := s.pcs[i := Locked], mu := Some(i))
        case Locked =>
          (match fetch(ids[i])
           case Ok(v) => s.(pcs := s.pcs[i := Written], status := s.status[ids[i] := v])
           case Err(e) => s.(pcs := s.pcs[i := Written], firstErr := if s.firstErr == None then Some(e) else s.firstErr))
        case Written => s.(pcs := s.pcs[i := Unlocked], mu := None)
        case Unlocked => s.(pcs := s.pcs[i := Released], sem := s.sem - 1)
        case Released => s.(pcs := s.pcs[i := Finished], wg := s.wg - 1)
        case _ => s
  }

  /** A schedule: each step enabled when it is taken. */
  ghost predicate Schedule<S(!new), E(!new)>(ids: seq<string>, fetch: Fetch<S, E>, steps: seq<Step>) {
    steps == [] ||
    (Schedule(ids, fetch, steps[..|steps| - 1])
     && |Reached(ids, fetch, steps[..|steps| - 1]).pcs| == |ids|
     && Enabled(Reached(ids, fetch, steps[..|steps| - 1]), steps[|steps| - 1]))
  }

  ghost function Reached<S, E>(ids: seq<string>, fetch: Fetch<S, E>, steps: seq<Step>): (s: State<S, E>)
    ensures |s.pcs| == |ids|
  {
    if steps == [] then Init(ids)
    else Next(ids, fetch, Reached(ids, fetch, steps[..|steps| - 1]), steps[|steps| - 1])
  }

  /** What main returns: the map, or nil with the first error. */
  function Returns<S, E>(s: State<S, E>): Result<map<string, S>, E> {
    match s.firstErr case Some(e) => Err(e) case None => Ok(s.status)
  }

  /** The sequential reading: one fetch after another, in order. */
  function Sequential<S, E>(ids: seq<string>, fetch: Fetch<S, E>): map<string, S> {
    if ids == [] then map[]
    else
      var rest := Sequential(ids[..|ids| - 1], fetch);
      match fetch(ids[|ids| - 1]) case Ok(v) => rest[ids[|ids| - 1] := v] case Err(_) => rest
  }

  // The invariant.

  /** Goroutine i's answer is in the shared data. */
  predicate Reported(p: Pc) {
    p == Written || p == Unlocked || p == Released || p == Finished
  }

  /** The semaphore and the wait group count the goroutines they should. */
  ghost predicate Counted<S, E>(s: State<S, E>) {
    s.sem == Count(s.pcs, HoldsSlot) && s.sem <= SLOTS && s.wg == Count(s.pcs, Outstanding)
  }

  /** The mutex is held exactly by the goroutine inside the critical section. */
  ghost predicate Exclusive<S, E>(s: State<S, E>) {
    && (forall i :: 0 <= i < |s.pcs| ==> (HoldsLock(s.pcs[i]) <==> s.mu == Some(i)))
    && (s.mu.Some? ==> s.mu.value < |s.pcs|)
  }

  /** Goroutines start in order, and main waits only when all have started. */
  ghost predicate SpawnedInOrder<S, E>(s: State<S, E>) {
    && (forall i :: NextSpawn(s.pcs) <= i < |s.pcs| ==> s.pcs[i] == Unspawned)
    && (forall i :: 0 <= i < NextSpawn(s.pcs) ==> s.pcs[i] != Unspawned)
    && (s.main != Spawning ==> NextSpawn(s.pcs) == |s.pcs|)
    && (s.main == Returned ==> s.wg == 0)
  }

  /** The shared data holds real answers, and those of every goroutine that has reported. */
  ghost predicate Truthful<S, E>(ids: seq<string>, fetch: Fetch<S, E>, s: State<S, E>)
    requires |s.pcs| == |ids|
  {
    && (forall k :: k in s.status ==> fetch(k) == Ok(s.status[k]) && k in ids)
    && (forall i :: 0 <= i < |ids| && Reported(s.pcs[i]) && fetch(ids[i]).Ok? ==> ids[i] in s.status)
    && (forall i :: 0 <= i < |ids| && Reported(s.pcs[i]) && fetch(ids[i]).Err? ==> s.firstErr.Some?)
    && (s.firstErr.Some? ==> exists i :: 0 <= i < |ids| && fetch(ids[i]) == Err(s.firstErr.value))
  }

  ghost predicate Inv<S, E>(ids: seq<string>, fetch: Fetch<S, E>, s: State<S, E>) {
    |s.pcs| == |ids| && Counted(s) && Exclusive(s) && SpawnedInOrder(s) && Truthful(ids, fetch, s)
  }

  lemma {:induction false} CountUpdate(pcs: seq<Pc>, i: nat, p: Pc, f: Pc -> bool)
    requires i < |pcs|
    ensures Count(pcs[i := p], f) == Count(pcs, f) - (if f(pcs[i]) then 1 else 0) + (if f(p) then 1 else 0)
  {
    var last := |pcs| - 1;
    if i == last {
      assert pcs[i := p][..last] == pcs[..last];
    } else {
      assert pcs[i := p][..last] == pcs[..last][i := p];
      CountUpdate(pcs[..last], i, p, f);
    }
  }

  lemma {:induction false} CountPositive(pcs: seq<Pc>, i: nat, f: Pc -> bool)
    requires i < |pcs| && f(pcs[i])
    ensures Count(pcs, f) >= 1
  {
    if i < |pcs| - 1 {
      CountPositive(pcs[..|pcs| - 1], i, f);
    }
  }

  lemma {:induction false} CountZero(pcs: seq<Pc>, f: Pc -> bool)
    ensures Count(pcs, f) == 0 <==> forall i :: 0 <= i < |pcs| ==> !f(pcs[i])
  {
    if pcs != [] {
      CountZero(pcs[..|pcs| - 1], f);
      assert forall i :: 0 <= i < |pcs| - 1 ==> pcs[..|pcs| - 1][i] == pcs[i];
    }
  }

  lemma {:induction false} NextSpawnIs(pcs: seq<Pc>, n: nat)
    requires n <= |pcs|
    requires forall i :: 0 <= i < n ==> pcs[i] != Unspawned
    requires forall i :: n <= i < |pcs| ==> pcs[i] == Unspawned
    ensures NextSpawn(pcs) == n
  {
    if n < |pcs| {
      NextSpawnIs(pcs[..|pcs| - 1], n);
    }
  }

  lemma InvInit<S, E>(ids: seq<string>, fetch: Fetch<S, E>)
    ensures Inv(ids, fetch, Init(ids))
  {
    var s: State<S, E> := Init(ids);
    CountZero(s.pcs, HoldsSlot);
    CountZero(s.pcs, Outstanding);
    NextSpawnIs(s.pcs, 0);
  }

  lemma InvSpawn<S, E>(ids: seq<string>, fetch: Fetch<S, E>, s: State<S, E>)
    requires Inv(ids, fetch, s) && Enabled(s, MainStep)
    ensures Inv(ids, fetch, Next(ids, fetch, s, MainStep))
  {
    hide Count;
    var n, s' := NextSpawn(s.pcs), Next(ids, fetch, s, MainStep);
    if s.main == Spawning && n < |ids| {
      CountUpdate(s.pcs, n, Waiting, HoldsSlot);
      CountUpdate(s.pcs, n, Waiting, Outstanding);
      NextSpawnIs(s'.pcs, n + 1);
    }
  }

  lemma WorkerCounted<S, E>(ids: seq<string>, fetch: Fetch<S, E>, s: State<S, E>, i: nat)
    requires |s.pcs| == |ids| && Counted(s) && Enabled(s, Worker(i))
    ensures Counted(Next(ids, fetch, s, Worker(i)))
  {
    hide Count;
    var s' := Next(ids, fetch, s, Worker(i));
    CountUpdate(s.pcs, i, s'.pcs[i], HoldsSlot);
    CountUpdate(s.pcs, i, s'.pcs[i], Outstanding);
  }

  lemma WorkerExclusive<S, E>(ids: seq<string>, fetch: Fetch<S, E>, s: State<S, E>, i: nat)
    requires |s.pcs| == |ids| && Exclusive(s) && Enabled(s, Worker(i))
    ensures Exclusive(Next(ids, fetch, s, Worker(i)))
  {
  }

  lemma WorkerInOrder<S, E>(ids: seq<string>, fetch: Fetch<S, E>, s: State<S, E>, i: nat)
    requires |s.pcs| == |ids| && Counted(s) && SpawnedInOrder(s) && Enabled(s, Worker(i))
    ensures SpawnedInOrder(Next(ids, fetch, s, Worker(i)))
  {
    hide Count;
    NextSpawnIs(Next(ids, fetch, s, Worker(i)).pcs, NextSpawn(s.pcs));
    CountPositive(s.pcs, i, Outstanding);
  }

  lemma WorkerTruthful<S, E>(ids: seq<string>, fetch: Fetch<S, E>, s: State<S, E>, i: nat)
    requires |s.pcs| == |ids| && Truthful(ids, fetch, s) && Enabled(s, Worker(i))
    ensures Truthful(ids, fetch, Next(ids, fetch, s, Worker(i)))
  {
  }

  lemma InvWorker<S, E>(ids: seq<string>, fetch: Fetch<S, E>, s: State<S, E>, i: nat)
    requires Inv(ids, fetch, s) && Enabled(s, Worker(i))
    ensures Inv(ids, fetch, Next(ids, fetch, s, Worker(i)))
  {
    hide Counted, Exclusive, SpawnedInOrder, Truthful;
    WorkerCounted(ids, fetch, s, i);
    WorkerExclusive(ids, fetch, s, i);
    WorkerInOrder(ids, fetch, s, i);
    WorkerTruthful(ids, fetch, s, i);
  }

  lemma {:induction false} InvReached<S(!new), E(!new)>(ids: seq<string>, fetch: Fetch<S, E>, steps: seq<Step>)
    requires Schedule(ids, fetch, steps)
    ensures Inv(ids, fetch, Reached(ids, fetch, steps))
  {
    if steps == [] {
      InvInit(ids, fetch);
    } else {
      var front, last := steps[..|steps| - 1], steps[|steps| - 1];
      InvReached(ids, fetch, front);
      match last
      case MainStep => InvSpawn(ids, fetch, Reached(ids, fetch, front));
      case Worker(i) => InvWorker(ids, fetch, Reached(ids, fetch, front), i);
    }
  }

  // What holds under every schedule.

  predicate InFlight(p: Pc) {
    p == Fetching
  }

  lemma {:induction false} CountMonotone(pcs: seq<Pc>, f: Pc -> bool, g: Pc -> bool)
    requires forall p :: f(p) ==> g(p)
    ensures Count(pcs, f) <= Count(pcs, g)
  {
    if pcs != [] {
      CountMonotone(pcs[..|pcs| - 1], f, g);
    }
  }

  /** At most 16 fetches are ever in flight. */
  lemma AtMostSixteen<S(!new), E(!new)>(ids: seq<string>, fetch: Fetch<S, E>, steps: seq<Step>)
    requires Schedule(ids, fetch, steps)
    ensures Count(Reached(ids, fetch, steps).pcs, InFlight) <= 16
  {
    InvReached(ids, fetch, steps);
    CountMonotone(Reached(ids, fetch, steps).pcs, InFlight, HoldsSlot);
  }

  lemma HolderWrites<S, E>(ids: seq<string>, fetch: Fetch<S, E>, s: State<S, E>, step: Step)
    requires |s.pcs| == |ids| && Exclusive(s) && Enabled(s, step)
    ensures var s' := Next(ids, fetch, s, step);
      s'.status != s.status || s'.firstErr != s.firstErr ==> step.Worker? && s.mu == Some(step.i)
    ensures forall i, j :: 0 <= i < j < |ids| ==> !(HoldsLock(s.pcs[i]) && HoldsLock(s.pcs[j]))
  {
  }

  /** Only the lock holder's step touches the map or the error, and no two goroutines hold the lock. */
  lemma SharedDataLocked<S(!new), E(!new)>(ids: seq<string>, fetch: Fetch<S, E>, steps: seq<Step>, step: Step)
    requires Schedule(ids, fetch, steps + [step])
    ensures var s, s' := Reached(ids, fetch, steps), Reached(ids, fetch, steps + [step]);
      && (s'.status != s.status || s'.firstErr != s.firstErr ==> step.Worker? && s.mu == Some(step.i))
      && (forall i, j :: 0 <= i < j < |ids| ==> !(HoldsLock(s.pcs[i]) && HoldsLock(s.pcs[j])))
  {
    hide Next, Enabled, Counted, Exclusive, SpawnedInOrder, Truthful, HoldsLock;
    assert (steps + [step])[..|steps|] == steps;
    InvReached(ids, fetch, steps);
    HolderWrites(ids, fetch, Reached(ids, fetch, steps), step);
  }

  /** No deadlock: until main has returned, somebody can move. */
  lemma {:induction false} SomebodyCanMove<S(!new), E(!new)>(ids: seq<string>, fetch: Fetch<S, E>, steps: seq<Step>)
    requires Schedule(ids, fetch, steps) && Reached(ids, fetch, steps).main != Returned
    ensures exists step :: Enabled(Reached(ids, fetch, steps), step)
  {
    var s := Reached(ids, fetch, steps);
    InvReached(ids, fetch, steps);
    if s.main == Spawning || s.wg == 0 {
      assert Enabled(s, MainStep);
    } else if s.mu.Some? {
      assert Enabled(s, Worker(s.mu.value));
    } else {
      CountZero(s.pcs, Outstanding);
      var i :| 0 <= i < |ids| && Outstanding(s.pcs[i]);
      if HoldsSlot(s.pcs[i]) {
        CountPositive(s.pcs, i, HoldsSlot);
      }
      if s.pcs[i] != Waiting || s.sem < SLOTS {
        assert Enabled(s, Worker(i));
      } else {
        CountZero(s.pcs, HoldsSlot);
        var j :| 0 <= j < |ids| && HoldsSlot(s.pcs[j]);
        CountPositive(s.pcs, j, HoldsSlot);
        assert Enabled(s, Worker(j));
      }
    }
  }

  function Left(p: Pc): nat {
    match p
    case Unspawned => 8
    case Waiting => 7
    case Fetching => 6
    case Fetched => 5
    case Locked => 4
    case Written => 3
    case Unlocked => 2
    case Released => 1
    case Finished => 0
  }

  function LeftAll(pcs: seq<Pc>): nat {
    if pcs == [] then 0 else LeftAll(pcs[..|pcs| - 1]) + Left(pcs[|pcs| - 1])
  }

  /** Steps still to be taken before main returns. */
  function Remaining<S, E>(s: State<S, E>): nat {
    LeftAll(s.pcs) + (match s.main case Spawning => 2 case Joining => 1 case Returned => 0)
  }

  lemma {:induction false} LeftUpdate(pcs: seq<Pc>, i: nat, p: Pc)
    requires i < |pcs|
    ensures LeftAll(pcs[i := p]) == LeftAll(pcs) - Left(pcs[i]) + Left(p)
  {
    var last := |pcs| - 1;
    if i == last {
      assert pcs[i := p][..last] == pcs[..last];
    } else {
      assert pcs[i := p][..last] == pcs[..last][i := p];
      LeftUpdate(pcs[..last], i, p);
    }
  }

  /** Every step uses up one of the remaining ones. */
  lemma StepUsesOne<S, E>(ids: seq<string>, fetch: Fetch<S, E>, s: State<S, E>, step: Step)
    requires |s.pcs| == |ids| && SpawnedInOrder(s) && Enabled(s, step)
    ensures Remaining(Next(ids, fetch, s, step)) == Remaining(s) - 1
  {
    hide LeftAll;
    match step
    case MainStep =>
      if s.main == Spawning && NextSpawn(s.pcs) < |ids| {
        LeftUpdate(s.pcs, NextSpawn(s.pcs), Waiting);
      }
    case Worker(i) =>
      LeftUpdate(s.pcs, i, Next(ids, fetch, s, step).pcs[i]);
  }

  /** So every schedule ends: it is at most 8 steps per id and 2 for main long. */
  lemma {:induction false} ScheduleBounded<S(!new), E(!new)>(ids: seq<string>, fetch: Fetch<S, E>, steps: seq<Step>)
    requires Schedule(ids, fetch, steps)
    ensures |steps| + Remaining(Reached(ids, fetch, steps)) == 8 * |ids| + 2
  {
    if steps == [] {
      AllLeft(|ids|);
    } else {
      var front := steps[..|steps| - 1];
      assert front + [steps[|steps| - 1]] == steps;
      ScheduleBounded(ids, fetch, front);
      InvReached(ids, fetch, front);
      StepUsesOne(ids, fetch, Reached(ids, fetch, front), steps[|steps| - 1]);
    }
  }

  lemma {:induction false} AllLeft(n: nat)
    ensures LeftAll(seq(n, _ => Unspawned)) == 8 * n
  {
    if n > 0 {
      assert seq(n, _ => Unspawned)[..n - 1] == seq(n - 1, _ => Unspawned);
      AllLeft(n - 1);
    }
  }

  lemma {:induction false} SequentialIs<S, E>(ids: seq<string>, fetch: Fetch<S, E>)
    ensures forall k :: k in Sequential(ids, fetch) <==> k in ids && fetch(k).Ok?
    ensures forall k :: k in Sequential(ids, fetch) ==> fetch(k) == Ok(Sequential(ids, fetch)[k])
  {
    if ids != [] {
      assert ids == ids[..|ids| - 1] + [ids[|ids| - 1]];
      SequentialIs(ids[..|ids| - 1], fetch);
    }
  }

  /**
   Whatever the schedule, when main returns it returns the sequential map if every fetch succeeds,
   and otherwise nil with the error of one of the fetches that failed.
   */
  lemma ScheduleDoesNotMatter<S(!new), E(!new)>(ids: seq<string>, fetch: Fetch<S, E>, steps: seq<Step>)
    requires Schedule(ids, fetch, steps) && Reached(ids, fetch, steps).main == Returned
    ensures var r := Returns(Reached(ids, fetch, steps));
      && (r.Ok? <==> forall i :: 0 <= i < |ids| ==> fetch(ids[i]).Ok?)
      && (r.Ok? ==> r.value == Sequential(ids, fetch))
      && (r.Err? ==> exists i :: 0 <= i < |ids| && fetch(ids[i]) == Err(r.error))
  {
    var s := Reached(ids, fetch, steps);
    InvReached(ids, fetch, steps);
    CountZero(s.pcs, Outstanding);
    SequentialIs(ids, fetch);
    forall i | 0 <= i < |ids| ensures Reported(s.pcs[i]) {
      assert !Outstanding(s.pcs[i]);
    }
    if s.firstErr == None {
      forall k ensures k in s.status <==> k in Sequential(ids, fetch) {
        if k in ids {
          var i :| 0 <= i < |ids| && ids[i] == k;
        }
      }
      assert s.status == Sequential(ids, fetch);
    }
  }

  /** The first error stands: whatever else is scheduled, what main will return as the error never changes. */
  lemma {:induction false} FirstErrorStands<S(!new), E(!new)>(ids: seq<string>, fetch: Fetch<S, E>, steps: seq<Step>, more: seq<Step>)
    requires Reached(ids, fetch, steps).firstErr.Some?
    ensures Reached(ids, fetch, steps + more).firstErr == Reached(ids, fetch, steps).firstErr
  {
    if more == [] {
      assert steps + more == steps;
    } else {
      var front := more[..|more| - 1];
      assert (steps + more)[..|steps + more| - 1] == steps + front;
      FirstErrorStands(ids, fetch, steps, front);
    }
  }

  /** The first k goroutines are fetching, and the others have not started. */
  ghost predicate Fetchers<S, E>(s: State<S, E>, k: nat) {
    && k <= |s.pcs| && s.main == Spawning && s.sem == k
    && (forall i :: 0 <= i < k ==> s.pcs[i] == Fetching)
    && (forall i :: k <= i < |s.pcs| ==> s.pcs[i] == Unspawned)
  }

  lemma OneMoreFetcher<S, E>(ids: seq<string>, fetch: Fetch<S, E>, s: State<S, E>, k: nat)
    requires |s.pcs| == |ids| && k < SLOTS && k < |ids| && Fetchers(s, k)
    ensures var spawned := Next(ids, fetch, s, MainStep);
      && Enabled(s, MainStep) && Enabled(spawned, Worker(k))
      && Fetchers(Next(ids, fetch, spawned, Worker(k)), k + 1)
  {
    NextSpawnIs(s.pcs, k);
  }

  lemma NoFetchers<S(!new), E(!new)>(ids: seq<string>, fetch: Fetch<S, E>)
    ensures Schedule(ids, fetch, []) && Fetchers(Reached(ids, fetch, []), 0)
  {
  }

  lemma FetchersCount(pcs: seq<Pc>, k: nat)
    requires k <= |pcs|
    requires forall i :: 0 <= i < k ==> pcs[i] == Fetching
    requires forall i :: k <= i < |pcs| ==> pcs[i] == Unspawned
    ensures Count(pcs, InFlight) == k
  {
    if pcs != [] {
      FetchersCount(pcs[..|pcs| - 1], if k == |pcs| then k - 1 else k);
    }
  }

  lemma OneMoreStep<S(!new), E(!new)>(ids: seq<string>, fetch: Fetch<S, E>, steps: seq<Step>, step: Step)
    requires Schedule(ids, fetch, steps) && Enabled(Reached(ids, fetch, steps), step)
    ensures Schedule(ids, fetch, steps + [step])
    ensures Reached(ids, fetch, steps + [step]) == Next(ids, fetch, Reached(ids, fetch, steps), step)
  {
    hide Next, Enabled;
    assert (steps + [step])[..|steps|] == steps;
  }

  /** The bound is met: with 16 ids or more, up to 16 fetches can really be in flight at once. */
  lemma {:induction false} SlotsAreUsed<S(!new), E(!new)>(ids: seq<string>, fetch: Fetch<S, E>, k: nat) returns (steps: seq<Step>)
    requires k <= 16 && k <= |ids|
    ensures Schedule(ids, fetch, steps) && Fetchers(Reached(ids, fetch, steps), k)
    ensures Count(Reached(ids, fetch, steps).pcs, InFlight) == k
  {
    hide Count, Next, Enabled, Schedule, Reached;
    if k == 0 {
      NoFetchers(ids, fetch);
      steps := [];
    } else {
      var before := SlotsAreUsed(ids, fetch, k - 1);
      OneMoreFetcher(ids, fetch, Reached(ids, fetch, before), k - 1);
      OneMoreStep(ids, fetch, before, MainStep);
      OneMoreStep(ids, fetch, before + [MainStep], Worker(k - 1));
      steps := before + [MainStep] + [Worker(k - 1)];
    }
    FetchersCount(Reached(ids, fetch, steps).pcs, k);
  }
}
