/** Single-flight preparation of Python worlds: concurrent requests for one key share one build.

    Each mutex-protected section of the source is one atomic step. */
module SingleFlight {
  import opened Wrappers
  import opened ProcessCache

  // ---------------------------------------------------------------- the coordinator

  datatype Coordinator = Coordinator(
    active: set<WorldKey>,
    waiters: map<WorldKey, nat>,
    completed: map<WorldKey, World>)

  datatype Outcome = Shared(world: World) | Owner | Wait | Overflow

  function Waiting(c: Coordinator, key: WorldKey): nat {
    if key in c.waiters then c.waiters[key] else 0
  }

  function Registered(c: Coordinator, key: WorldKey): Coordinator {
    c.(waiters := c.waiters[key := Waiting(c, key) + 1])
  }

  /** One waiter fewer; the last one takes the hand-off slot away with it. */
  function Finished(c: Coordinator, key: WorldKey): Coordinator {
    if key !in c.waiters then c
    else if c.waiters[key] <= 1 then c.(waiters := c.waiters - {key}, completed := c.completed - {key})
    else c.(waiters := c.waiters[key := c.waiters[key] - 1])
  }

  function Published(c: Coordinator, world: World, key: WorldKey): Coordinator {
    if Waiting(c, key) > 0 then c.(completed := c.completed[key := world]) else c
  }

  function Released(c: Coordinator, key: WorldKey): Coordinator {
    c.(active := c.active - {key})
  }

  /** One turn of the loop inside `begin`, from taking the lock to waiting or returning. */
  function Attempt(limit: nat, c: Coordinator, key: WorldKey, registered: bool): (Coordinator, Outcome) {
    if key in c.completed then
      (if registered then Finished(c, key) else c, Shared(c.completed[key]))
    else if key !in c.active && |c.active| < limit then
      var left := if registered then Finished(c, key) else c;
      (left.(active := left.active + {key}), Owner)
    else if registered then (c, Wait)
    else if Waiting(c, key) >= WORD_MAX then (c, Overflow)
    else (Registered(c, key), Wait)
  }

  /** The state behind the source's mutex, changed in place by its methods. */
  class PreparationCoordinator {
    var active: set<WorldKey>
    var waiters: map<WorldKey, nat>
    var completed: map<WorldKey, World>

    constructor ()
      ensures Now() == Coordinator({}, map[], map[])
    {
      active, waiters, completed := {}, map[], map[];
    }

    function Now(): Coordinator
      reads this
    {
      Coordinator(active, waiters, completed)
    }

    method RegisterWait(key: WorldKey) returns (ok: bool)
      modifies this`waiters
      ensures ok <==> old(Waiting(Now(), key)) < WORD_MAX
      ensures ok ==> Now() == old(Registered(Now(), key))
      ensures !ok && key in old(waiters) ==> Now() == old(Now())
    {
      if key !in waiters {
        waiters := waiters[key := 0];
      }
      if waiters[key] >= WORD_MAX {
        return false;
      }
      waiters := waiters[key := waiters[key] + 1];
      return true;
    }

    method FinishWait(key: WorldKey) returns (world: Option<World>)
      modifies this`waiters, this`completed
      ensures world == if key in old(completed) then Some(old(completed)[key]) else None
      ensures Now() == old(Finished(Now(), key))
    {
      world := if key in completed then Some(completed[key]) else None;
      if key in waiters {
        waiters := waiters[key := SaturatingSub(waiters[key], 1)];
        if waiters[key] == 0 {
          waiters := waiters - {key};
          completed := completed - {key};
        }
      }
    }

    method Publish(world: World, key: WorldKey)
      modifies this`completed
      ensures Now() == old(Published(Now(), world, key))
    {
      if key in waiters && waiters[key] > 0 {
        completed := completed[key := world];
      }
    }

    /** The guard's `Drop`. */
    method Release(key: WorldKey)
      modifies this`active
      ensures Now() == old(Released(Now(), key))
    {
      active := active - {key};
    }

    method BeginOnce(limit: nat, key: WorldKey, registered: bool) returns (outcome: Outcome)
      requires registered ==> key in waiters
      modifies this
      ensures (Now(), outcome) == old(Attempt(limit, Now(), key, registered))
    {
      if key in completed {
        var world := completed[key];
        if registered {
          var _ := FinishWait(key);
        }
        return Shared(world);
      }
      if key !in active && |active| < limit {
        if registered {
          var _ := FinishWait(key);
        }
        active := active + {key};
        return Owner;
      }
      if !registered {
        var ok := RegisterWait(key);
        if !ok {
          return Overflow;
        }
      }
      return Wait;
    }
  }

  // ---------------------------------------------------------------- the whole system

  /** Where one call of `prepare_python_layer` stands. */
  datatype Phase =
    | Looking                      // about to look its key up in the process cache
    | Entering                     // missed; about to enter `begin`
    | Registering                  // registered and waiting inside `begin`
    | Owning                       // holds the guard; about to look the key up again
    | Spawning                     // missed again; about to hand the guard to a worker
    | OwnerHit(world: World)       // hit after all; about to drop the guard
    | Awaiting                     // waiting for its worker's result
    | Done(world: World)
    | Stopped                      // cancelled or failed

  /** Where the detached worker of a call stands. */
  datatype Worker =
    | NoWorker
    | Building
    | Inserting(world: World)
    | Publishing(world: World)
    | Releasing(result: Option<World>)
    | Sent(result: Option<World>)

  datatype Call = Call(key: WorldKey, phase: Phase, worker: Worker) {
    /** Does this call, or its worker, own the single-flight guard of its key? */
    predicate HoldsGuard() {
      || phase.Owning? || phase.Spawning? || phase.OwnerHit?
      || worker.Building? || worker.Inserting? || worker.Publishing? || worker.Releasing?
    }

    /** Committed to a build whose world is not in the cache yet. */
    predicate MustBuild() {
      phase.Spawning? || worker.Building? || worker.Inserting?
    }
  }

  /** One finished build: the key inserted into the cache and the keys that insertion evicted. */
  datatype BuildRecord = BuildRecord(built: WorldKey, evicted: set<WorldKey>)

  datatype System = System(
    coordinator: Coordinator,
    cache: seq<World>,
    calls: map<nat, Call>,
    serial: nat,
    builds: seq<BuildRecord>)

  datatype Limits = Limits(concurrent: nat, capacity: nat)

  const PYTHON_LIMITS := Limits(1, 2)

  const INITIAL := System(Coordinator({}, map[], map[]), [], map[], 0, [])

  /** `cancelled` says what the cancellation check of that section answers; `ok` whether the build or
      the thread start succeeds. */
  datatype Step =
    | Start(id: nat, key: WorldKey, current: Option<World>)
    | FirstLookup(id: nat)
    | Enter(id: nat, cancelled: bool)
    | Wake(id: nat, cancelled: bool)
    | SecondLookup(id: nat)
    | Spawn(id: nat, ok: bool)
    | DropGuard(id: nat)
    | Build(id: nat, ok: bool)
    | Insert(id: nat)
    | Publish(id: nat)
    | Release(id: nat)
    | Receive(id: nat, cancelled: bool)
    | Abandon(id: nat)

  function Put(s: System, id: nat, call: Call): System {
    s.(calls := s.calls[id := call])
  }

  function FromOutcome(outcome: Outcome): Phase {
    match outcome
    case Shared(world) => Done(world)
    case Owner => Owning
    case Wait => Registering
    case Overflow => Stopped
  }

  predicate Enabled(s: System, step: Step) {
    if step.Start? then step.id !in s.calls
    else
      && step.id in s.calls
      && var call := s.calls[step.id];
         match step
         case FirstLookup(_) => call.phase.Looking?
         case Enter(_, _) => call.phase.Entering?
         case Wake(_, _) => call.phase.Registering?
         case SecondLookup(_) => call.phase.Owning?
         case Spawn(_, _) => call.phase.Spawning?
         case DropGuard(_) => call.phase.OwnerHit?
         case Build(_, _) => call.worker.Building?
         case Insert(_) => call.worker.Inserting?
         case Publish(_) => call.worker.Publishing?
         case Release(_) => call.worker.Releasing?
         case Receive(_, _) => call.phase.Awaiting? && call.worker.Sent?
         case Abandon(_) => call.phase.Awaiting?
         case Start(_, _, _) => true
  }

  function Apply(limits: Limits, s: System, step: Step): System
    requires limits.capacity >= 1 && Enabled(s, step)
  {
    if step.Start? then
      Put(s, step.id, Call(step.key,
        if step.current.Some? && step.current.value.key == step.key then Done(step.current.value)
        else Looking, NoWorker))
    else
      var id := step.id;
      var call := s.calls[id];
      match step
      case FirstLookup(_) =>
        var found := Find(s.cache, call.key);
        Put(s.(cache := AfterLookup(s.cache, call.key)), id,
            call.(phase := if found.Some? then Done(found.value) else Entering))
      case Enter(_, cancelled) =>
        if cancelled then Put(s, id, call.(phase := Stopped))
        else
          var (coordinator, outcome) := Attempt(limits.concurrent, s.coordinator, call.key, false);
          Put(s.(coordinator := coordinator), id, call.(phase := FromOutcome(outcome)))
      case Wake(_, cancelled) =>
        if cancelled then Put(s.(coordinator := Finished(s.coordinator, call.key)), id, call.(phase := Stopped))
        else
          var (coordinator, outcome) := Attempt(limits.concurrent, s.coordinator, call.key, true);
          Put(s.(coordinator := coordinator), id, call.(phase := FromOutcome(outcome)))
      case SecondLookup(_) =>
        var found := Find(s.cache, call.key);
        Put(s.(cache := AfterLookup(s.cache, call.key)), id,
            call.(phase := if found.Some? then OwnerHit(found.value) else Spawning))
      case Spawn(_, ok) =>
        if ok then Put(s, id, call.(phase := Awaiting, worker := Building))
        else Put(s.(coordinator := Released(s.coordinator, call.key)), id, call.(phase := Stopped))
      case DropGuard(_) =>
        Put(s.(coordinator := Released(s.coordinator, call.key)), id, call.(phase := Done(call.phase.world)))
      case Build(_, ok) =>
        if ok then Put(s.(serial := s.serial + 1), id, call.(worker := Inserting(World(call.key, s.serial))))
        else Put(s, id, call.(worker := Releasing(None)))
      case Insert(_) =>
        var cache := AfterInsert(s.cache, call.worker.world, limits.capacity);
        Put(s.(cache := cache, builds := s.builds + [BuildRecord(call.key, KeysOf(s.cache) - KeysOf(cache))]), id,
            call.(worker := Publishing(call.worker.world)))
      case Publish(_) =>
        Put(s.(coordinator := Published(s.coordinator, call.worker.world, call.key)), id,
            call.(worker := Releasing(Some(call.worker.world))))
      case Release(_) =>
        Put(s.(coordinator := Released(s.coordinator, call.key)), id, call.(worker := Sent(call.worker.result)))
      case Receive(_, cancelled) =>
        Put(s, id, call.(phase :=
          if cancelled || call.worker.result.None? then Stopped else Done(call.worker.result.value)))
      case Abandon(_) => Put(s, id, call.(phase := Stopped))
  }

  /** A run: every step is enabled when it is taken. */
  ghost predicate IsRun(limits: Limits, run: seq<System>, steps: seq<Step>)
    requires limits.capacity >= 1
  {
    && |run| == |steps| + 1
    && run[0] == INITIAL
    && forall i :: 0 <= i < |steps| ==> Enabled(run[i], steps[i]) && run[i + 1] == Apply(limits, run[i], steps[i])
  }

  // ---------------------------------------------------------------- invariants

  /** The calls registered as waiting for `key`. */
  function WaitersOf(calls: map<nat, Call>, key: WorldKey): set<nat> {
    set id | id in calls && calls[id].phase.Registering? && calls[id].key == key
  }

  ghost predicate WaitersCounted(waiters: map<WorldKey, nat>, calls: map<nat, Call>) {
    forall key :: CountedAt(waiters, calls, key)
  }

  ghost predicate CountedAt(waiters: map<WorldKey, nat>, calls: map<nat, Call>, key: WorldKey) {
    if key in waiters then waiters[key] == |WaitersOf(calls, key)| > 0 else WaitersOf(calls, key) == {}
  }

  ghost predicate HandoffsHaveWaiters(c: Coordinator) {
    && c.completed.Keys <= c.waiters.Keys
    && forall key :: key in c.completed ==> c.completed[key].key == key
  }

  /** Active keys and live guards correspond one to one. */
  ghost predicate GuardsMatch(active: set<WorldKey>, calls: map<nat, Call>) {
    && (forall id :: id in calls && calls[id].HoldsGuard() ==> calls[id].key in active)
    && (forall id, other ::
          id in calls && other in calls && id != other && calls[id].HoldsGuard() && calls[other].HoldsGuard()
          ==> calls[id].key != calls[other].key)
    && (forall key :: key in active ==> GuardOf(calls, key))
  }

  ghost predicate GuardOf(calls: map<nat, Call>, key: WorldKey) {
    exists id :: id in calls && calls[id].HoldsGuard() && calls[id].key == key
  }

  /** A hand-off is present under a live guard only between its publication and the guard's release. */
  ghost predicate HandoffsAreLate(completed: map<WorldKey, World>, calls: map<nat, Call>) {
    forall id :: id in calls && calls[id].HoldsGuard() && calls[id].key in completed ==> calls[id].worker.Releasing?
  }

  /** Every world a call has in hand is for its own key; a worker and its call agree on who acts. */
  ghost predicate CallSane(call: Call) {
    && (call.phase.Done? || call.phase.OwnerHit? ==> call.phase.world.key == call.key)
    && (call.worker.Inserting? || call.worker.Publishing? ==> call.worker.world.key == call.key)
    && ((call.worker.Releasing? || call.worker.Sent?) && call.worker.result.Some? ==>
          call.worker.result.value.key == call.key)
    && (!call.worker.NoWorker? ==> call.phase.Awaiting? || call.phase.Done? || call.phase.Stopped?)
    && (call.phase.Awaiting? ==> !call.worker.NoWorker?)
  }

  ghost predicate CallsSane(calls: map<nat, Call>) {
    forall id :: id in calls ==> CallSane(calls[id])
  }

  /** No build is under way for a cached key. */
  ghost predicate BuildsAreNeeded(cache: seq<World>, calls: map<nat, Call>) {
    forall id :: id in calls && calls[id].MustBuild() ==> calls[id].key !in KeysOf(cache)
  }

  /** Was `key` built, and not evicted since? */
  predicate Resident(builds: seq<BuildRecord>, key: WorldKey) {
    if builds == [] then false
    else
      var last := builds[|builds| - 1];
      last.built == key || (key !in last.evicted && Resident(builds[..|builds| - 1], key))
  }

  /** Two builds of one key always have an eviction of that key between them. */
  ghost predicate BuildsSeparated(builds: seq<BuildRecord>) {
    forall i, j :: 0 <= i < j < |builds| && builds[i].built == builds[j].built ==>
      EvictedBetween(builds, i, j, builds[i].built)
  }

  ghost predicate EvictedBetween(builds: seq<BuildRecord>, i: nat, j: nat, key: WorldKey)
    requires j <= |builds|
  {
    exists m :: i < m < j && key in builds[m].evicted
  }

  ghost predicate CacheTracked(s: System) {
    && (forall key :: key in KeysOf(s.cache) <==> Resident(s.builds, key))
    && BuildsSeparated(s.builds)
  }

  ghost predicate CoordinatorInv(limits: Limits, c: Coordinator, calls: map<nat, Call>) {
    && |c.active| <= limits.concurrent
    && WaitersCounted(c.waiters, calls)
    && HandoffsHaveWaiters(c)
    && GuardsMatch(c.active, calls)
    && HandoffsAreLate(c.completed, calls)
  }

  ghost predicate Inv(limits: Limits, s: System) {
    && CoordinatorInv(limits, s.coordinator, s.calls)
    && CallsSane(s.calls)
    && BuildsAreNeeded(s.cache, s.calls)
    && CacheTracked(s)
  }

  // ---------------------------------------------------------------- every step keeps them

  lemma WaitersAfter(calls: map<nat, Call>, id: nat, call: Call, key: WorldKey)
    requires id in calls ==> calls[id].key == call.key
    ensures call.phase.Registering? && call.key == key ==>
              WaitersOf(calls[id := call], key) == WaitersOf(calls, key) + {id}
    ensures !(call.phase.Registering? && call.key == key) ==>
              WaitersOf(calls[id := call], key) == WaitersOf(calls, key) - {id}
  {
  }

  /** Replacing a call without changing whether it waits. */
  lemma CountsKept(waiters: map<WorldKey, nat>, calls: map<nat, Call>, id: nat, call: Call)
    requires WaitersCounted(waiters, calls)
    requires if id in calls then calls[id].key == call.key && calls[id].phase.Registering? == call.phase.Registering?
             else !call.phase.Registering?
    ensures WaitersCounted(waiters, calls[id := call])
  {
    var after := calls[id := call];
    forall key ensures CountedAt(waiters, after, key) {
      assert CountedAt(waiters, calls, key);
      WaitersAfter(calls, id, call, key);
      assert WaitersOf(after, key) == WaitersOf(calls, key);
    }
  }

  lemma CountsOneMore(c: Coordinator, calls: map<nat, Call>, id: nat, call: Call)
    requires WaitersCounted(c.waiters, calls)
    requires id in calls && call.key == calls[id].key && !calls[id].phase.Registering? && call.phase.Registering?
    ensures WaitersCounted(Registered(c, call.key).waiters, calls[id := call])
  {
    var waiters', after := Registered(c, call.key).waiters, calls[id := call];
    forall key ensures CountedAt(waiters', after, key) {
      assert CountedAt(c.waiters, calls, key);
      WaitersAfter(calls, id, call, key);
      assert id !in WaitersOf(calls, key);
    }
  }

  lemma CountsOneLess(c: Coordinator, calls: map<nat, Call>, id: nat, call: Call)
    requires WaitersCounted(c.waiters, calls)
    requires id in calls && call.key == calls[id].key && calls[id].phase.Registering? && !call.phase.Registering?
    ensures WaitersCounted(Finished(c, call.key).waiters, calls[id := call])
  {
    var waiters', after := Finished(c, call.key).waiters, calls[id := call];
    forall key ensures CountedAt(waiters', after, key) {
      assert CountedAt(c.waiters, calls, key);
      WaitersAfter(calls, id, call, key);
      assert key == call.key <==> id in WaitersOf(calls, key);
    }
  }

  /** Replacing a call loses at most that call's own guard. */
  lemma GuardsSurvive(calls: map<nat, Call>, id: nat, call: Call, key: WorldKey)
    requires id in calls ==> calls[id].key == call.key
    requires GuardOf(calls, key) && (id in calls && calls[id].HoldsGuard() && key == call.key ==> call.HoldsGuard())
    ensures GuardOf(calls[id := call], key)
  {
    var holder :| holder in calls && calls[holder].HoldsGuard() && calls[holder].key == key;
    assert holder in calls[id := call] && calls[id := call][holder].HoldsGuard();
  }

  /** Replacing a call without changing whether it holds its guard. */
  lemma GuardsKept(active: set<WorldKey>, calls: map<nat, Call>, id: nat, call: Call)
    requires GuardsMatch(active, calls)
    requires if id in calls then calls[id].key == call.key && calls[id].HoldsGuard() == call.HoldsGuard()
             else !call.HoldsGuard()
    ensures GuardsMatch(active, calls[id := call])
  {
    forall key | key in active ensures GuardOf(calls[id := call], key) {
      GuardsSurvive(calls, id, call, key);
    }
  }

  lemma GuardsOneMore(active: set<WorldKey>, calls: map<nat, Call>, id: nat, call: Call)
    requires GuardsMatch(active, calls) && call.key !in active
    requires id in calls && call.key == calls[id].key && !calls[id].HoldsGuard() && call.HoldsGuard()
    ensures GuardsMatch(active + {call.key}, calls[id := call])
  {
    var after := calls[id := call];
    assert id in after && after[id].HoldsGuard();
    forall key | key in active ensures GuardOf(after, key) {
      GuardsSurvive(calls, id, call, key);
    }
  }

  lemma GuardsOneLess(active: set<WorldKey>, calls: map<nat, Call>, id: nat, call: Call)
    requires GuardsMatch(active, calls)
    requires id in calls && call.key == calls[id].key && calls[id].HoldsGuard() && !call.HoldsGuard()
    ensures GuardsMatch(active - {call.key}, calls[id := call])
  {
    forall key | key in active - {call.key} ensures GuardOf(calls[id := call], key) {
      GuardsSurvive(calls, id, call, key);
    }
  }

  /** Replacing a call without touching guards or registrations. */
  lemma KeepsCoordinator(limits: Limits, c: Coordinator, calls: map<nat, Call>, id: nat, call: Call)
    requires CoordinatorInv(limits, c, calls)
    requires id in calls ==> && calls[id].key == call.key
                             && calls[id].HoldsGuard() == call.HoldsGuard()
                             && calls[id].phase.Registering? == call.phase.Registering?
    requires id !in calls ==> !call.HoldsGuard() && !call.phase.Registering?
    requires call.HoldsGuard() && call.key in c.completed ==> call.worker.Releasing?
    ensures CoordinatorInv(limits, c, calls[id := call])
  {
    CountsKept(c.waiters, calls, id, call);
    GuardsKept(c.active, calls, id, call);
  }

  lemma KeepsRegister(limits: Limits, c: Coordinator, calls: map<nat, Call>, id: nat)
    requires CoordinatorInv(limits, c, calls)
    requires id in calls && !calls[id].HoldsGuard() && !calls[id].phase.Registering?
    requires calls[id].worker.NoWorker?
    ensures CoordinatorInv(limits, Registered(c, calls[id].key), calls[id := calls[id].(phase := Registering)])
  {
    var call := calls[id].(phase := Registering);
    CountsOneMore(c, calls, id, call);
    GuardsKept(c.active, calls, id, call);
  }

  /** A waiter leaves, with the hand-off or without. */
  lemma KeepsFinish(limits: Limits, c: Coordinator, calls: map<nat, Call>, id: nat, phase: Phase)
    requires CoordinatorInv(limits, c, calls)
    requires id in calls && calls[id].phase.Registering? && calls[id].worker.NoWorker?
    requires phase.Done? || phase.Stopped?
    ensures CoordinatorInv(limits, Finished(c, calls[id].key), calls[id := calls[id].(phase := phase)])
    ensures Finished(c, calls[id].key).completed.Keys <= c.completed.Keys
  {
    var call := calls[id].(phase := phase);
    CountsOneLess(c, calls, id, call);
    GuardsKept(c.active, calls, id, call);
  }

  lemma KeepsAcquire(limits: Limits, c: Coordinator, calls: map<nat, Call>, id: nat)
    requires CoordinatorInv(limits, c, calls)
    requires id in calls && !calls[id].HoldsGuard() && !calls[id].phase.Registering? && calls[id].worker.NoWorker?
    requires var key := calls[id].key; key !in c.completed && key !in c.active && |c.active| < limits.concurrent
    ensures CoordinatorInv(limits, c.(active := c.active + {calls[id].key}), calls[id := calls[id].(phase := Owning)])
  {
    var call := calls[id].(phase := Owning);
    CountsKept(c.waiters, calls, id, call);
    GuardsOneMore(c.active, calls, id, call);
  }

  lemma KeepsRelease(limits: Limits, c: Coordinator, calls: map<nat, Call>, id: nat, call: Call)
    requires CoordinatorInv(limits, c, calls)
    requires id in calls && calls[id].HoldsGuard() && !calls[id].phase.Registering?
    requires call.key == calls[id].key && !call.HoldsGuard() && !call.phase.Registering?
    ensures CoordinatorInv(limits, Released(c, call.key), calls[id := call])
  {
    CountsKept(c.waiters, calls, id, call);
    GuardsOneLess(c.active, calls, id, call);
  }

  lemma KeepsPublish(limits: Limits, c: Coordinator, calls: map<nat, Call>, id: nat)
    requires CoordinatorInv(limits, c, calls)
    requires id in calls && calls[id].worker.Publishing? && CallSane(calls[id])
    ensures var world := calls[id].worker.world;
            CoordinatorInv(limits, Published(c, world, calls[id].key),
                           calls[id := calls[id].(worker := Releasing(Some(world)))])
  {
    var call := calls[id].(worker := Releasing(Some(calls[id].worker.world)));
    CountsKept(c.waiters, calls, id, call);
    GuardsKept(c.active, calls, id, call);
  }

  lemma Overwrites(calls: map<nat, Call>, id: nat, call: Call, next: Call)
    ensures calls[id := call][id := next] == calls[id := next]
  {
  }

  /** A waiter becomes an owner: it leaves the waiters and takes the guard. */
  lemma KeepsPromotion(limits: Limits, c: Coordinator, calls: map<nat, Call>, id: nat)
    requires CoordinatorInv(limits, c, calls)
    requires id in calls && calls[id].phase.Registering? && calls[id].worker.NoWorker?
    requires var key := calls[id].key; key !in c.completed && key !in c.active && |c.active| < limits.concurrent
    ensures var left := Finished(c, calls[id].key);
            CoordinatorInv(limits, left.(active := left.active + {calls[id].key}),
                           calls[id := calls[id].(phase := Owning)])
  {
    var call := calls[id];
    var left := calls[id := call.(phase := Stopped)];
    KeepsFinish(limits, c, calls, id, Stopped);
    KeepsAcquire(limits, Finished(c, call.key), left, id);
    Overwrites(calls, id, call.(phase := Stopped), call.(phase := Owning));
  }

  /** One turn of the loop in `begin`, for a call that already waits. */
  lemma KeepsNextAttempt(limits: Limits, c: Coordinator, calls: map<nat, Call>, id: nat)
    requires CoordinatorInv(limits, c, calls)
    requires id in calls && calls[id].worker.NoWorker? && calls[id].phase.Registering?
    ensures var (c', outcome) := Attempt(limits.concurrent, c, calls[id].key, true);
            CoordinatorInv(limits, c', calls[id := calls[id].(phase := FromOutcome(outcome))])
  {
    var key := calls[id].key;
    if key in c.completed {
      KeepsFinish(limits, c, calls, id, Done(c.completed[key]));
    } else if key !in c.active && |c.active| < limits.concurrent {
      KeepsPromotion(limits, c, calls, id);
    } else {
      KeepsCoordinator(limits, c, calls, id, calls[id].(phase := Registering));
    }
  }

  /** The first turn of the loop in `begin`. */
  lemma KeepsFirstAttempt(limits: Limits, c: Coordinator, calls: map<nat, Call>, id: nat)
    requires CoordinatorInv(limits, c, calls)
    requires id in calls && calls[id].worker.NoWorker? && calls[id].phase.Entering?
    ensures var (c', outcome) := Attempt(limits.concurrent, c, calls[id].key, false);
            CoordinatorInv(limits, c', calls[id := calls[id].(phase := FromOutcome(outcome))])
  {
    var call := calls[id];
    if call.key in c.completed {
      KeepsCoordinator(limits, c, calls, id, call.(phase := Done(c.completed[call.key])));
    } else if call.key !in c.active && |c.active| < limits.concurrent {
      KeepsAcquire(limits, c, calls, id);
    } else if Waiting(c, call.key) >= WORD_MAX {
      KeepsCoordinator(limits, c, calls, id, call.(phase := Stopped));
    } else {
      KeepsRegister(limits, c, calls, id);
    }
  }

  /** Every step keeps the coordinator's bookkeeping. */
  lemma StepKeepsCoordinator(limits: Limits, s: System, step: Step)
    requires limits.capacity >= 1 && Inv(limits, s) && Enabled(s, step)
    ensures var s' := Apply(limits, s, step); CoordinatorInv(limits, s'.coordinator, s'.calls)
  {
    if step.Enter? || step.Wake? || step.Spawn? || step.DropGuard? || step.Publish? || step.Release? {
      CoordinatorStepKeeps(limits, s, step);
    } else {
      OtherStepKeeps(limits, s, step);
    }
  }

  lemma CoordinatorStepKeeps(limits: Limits, s: System, step: Step)
    requires limits.capacity >= 1 && CoordinatorInv(limits, s.coordinator, s.calls) && CallsSane(s.calls)
    requires Enabled(s, step)
    requires step.Enter? || step.Wake? || step.Spawn? || step.DropGuard? || step.Publish? || step.Release?
    ensures var s' := Apply(limits, s, step); CoordinatorInv(limits, s'.coordinator, s'.calls)
  {
    var s' := Apply(limits, s, step);
    var c, calls, id := s.coordinator, s.calls, step.id;
    assert CallSane(calls[id]);
    match step
    case Enter(_, cancelled) =>
      if cancelled {
        KeepsCoordinator(limits, c, calls, id, s'.calls[id]);
      } else {
        KeepsFirstAttempt(limits, c, calls, id);
      }
    case Wake(_, cancelled) =>
      if cancelled {
        KeepsFinish(limits, c, calls, id, Stopped);
      } else {
        KeepsNextAttempt(limits, c, calls, id);
      }
    case Spawn(_, ok) =>
      if ok {
        KeepsCoordinator(limits, c, calls, id, s'.calls[id]);
      } else {
        KeepsRelease(limits, c, calls, id, s'.calls[id]);
      }
    case DropGuard(_) => KeepsRelease(limits, c, calls, id, s'.calls[id]);
    case Release(_) => KeepsRelease(limits, c, calls, id, s'.calls[id]);
    case Publish(_) => KeepsPublish(limits, c, calls, id);
  }

  lemma OtherStepKeeps(limits: Limits, s: System, step: Step)
    requires limits.capacity >= 1 && CoordinatorInv(limits, s.coordinator, s.calls) && CallsSane(s.calls)
    requires Enabled(s, step)
    requires !step.Enter? && !step.Wake? && !step.Spawn? && !step.DropGuard? && !step.Publish? && !step.Release?
    ensures var s' := Apply(limits, s, step); CoordinatorInv(limits, s'.coordinator, s'.calls)
  {
    var s' := Apply(limits, s, step);
    StepChangesOneCall(limits, s, step);
    assert !step.Start? ==> CallSane(s.calls[step.id]);
    KeepsCoordinator(limits, s.coordinator, s.calls, step.id, s'.calls[step.id]);
  }

  /** A step replaces the call it is about and no other. */
  lemma StepChangesOneCall(limits: Limits, s: System, step: Step)
    requires limits.capacity >= 1 && Enabled(s, step)
    ensures var s' := Apply(limits, s, step); step.id in s'.calls && s'.calls == s.calls[step.id := s'.calls[step.id]]
    ensures step.id in s.calls ==> Apply(limits, s, step).calls[step.id].key == s.calls[step.id].key
  {
  }

  lemma NewCallIsSane(limits: Limits, s: System, step: Step)
    requires limits.capacity >= 1 && HandoffsHaveWaiters(s.coordinator) && Enabled(s, step)
    requires step.id in s.calls ==> CallSane(s.calls[step.id])
    ensures step.id in Apply(limits, s, step).calls && CallSane(Apply(limits, s, step).calls[step.id])
  {
  }

  lemma StepKeepsCallsSane(limits: Limits, s: System, step: Step)
    requires limits.capacity >= 1 && Inv(limits, s) && Enabled(s, step)
    ensures CallsSane(Apply(limits, s, step).calls)
  {
    StepChangesOneCall(limits, s, step);
    NewCallIsSane(limits, s, step);
    var calls' := Apply(limits, s, step).calls;
    forall id | id in calls' ensures CallSane(calls'[id]) {
      assert id != step.id ==> id in s.calls && CallSane(s.calls[id]);
    }
  }

  /** A call commits to a build only on a miss under its own guard. */
  lemma StepKeepsBuildsNeeded(limits: Limits, s: System, step: Step)
    requires limits.capacity >= 1 && Inv(limits, s) && Enabled(s, step)
    ensures var s' := Apply(limits, s, step); BuildsAreNeeded(s'.cache, s'.calls)
  {
    if step.Insert? {
      InsertKeepsBuildsNeeded(limits, s, step.id);
    } else {
      OthersKeepBuildsNeeded(limits, s, step);
    }
  }

  lemma InsertKeepsBuildsNeeded(limits: Limits, s: System, id: nat)
    requires limits.capacity >= 1 && Inv(limits, s) && Enabled(s, Insert(id))
    ensures var s' := Apply(limits, s, Insert(id)); BuildsAreNeeded(s'.cache, s'.calls)
  {
    var s' := Apply(limits, s, Insert(id));
    assert CallSane(s.calls[id]);
    InsertChangesKeys(s.cache, s.calls[id].worker.world, limits.capacity);
    forall other | other in s'.calls && s'.calls[other].MustBuild() ensures s'.calls[other].key !in KeysOf(s'.cache) {
      assert other != id && s'.calls[other] == s.calls[other];
      assert s.calls[other].HoldsGuard() && s.calls[id].HoldsGuard();
    }
  }

  lemma OthersKeepBuildsNeeded(limits: Limits, s: System, step: Step)
    requires limits.capacity >= 1 && BuildsAreNeeded(s.cache, s.calls) && Enabled(s, step) && !step.Insert?
    ensures var s' := Apply(limits, s, step); BuildsAreNeeded(s'.cache, s'.calls)
  {
    var s' := Apply(limits, s, step);
    StepChangesOneCall(limits, s, step);
    LookupKeepsKeys(s.cache, s'.calls[step.id].key);
    assert KeysOf(s'.cache) == KeysOf(s.cache);
    NewBuildIsNeeded(limits, s, step);
  }

  lemma NewBuildIsNeeded(limits: Limits, s: System, step: Step)
    requires limits.capacity >= 1 && BuildsAreNeeded(s.cache, s.calls) && Enabled(s, step) && !step.Insert?
    ensures var s' := Apply(limits, s, step);
            step.id in s'.calls && (s'.calls[step.id].MustBuild() ==> s'.calls[step.id].key !in KeysOf(s.cache))
  {
    StepChangesOneCall(limits, s, step);
    if step.SecondLookup? {
      LookupKeepsKeys(s.cache, s.calls[step.id].key);
    } else if Apply(limits, s, step).calls[step.id].MustBuild() {
      OnlyLookupsCommit(limits, s, step);
    }
  }

  lemma OnlyLookupsCommit(limits: Limits, s: System, step: Step)
    requires limits.capacity >= 1 && Enabled(s, step) && !step.SecondLookup?
    requires step.id in Apply(limits, s, step).calls && Apply(limits, s, step).calls[step.id].MustBuild()
    ensures step.id in s.calls && s.calls[step.id].MustBuild()
  {
  }

  lemma {:induction false} NotResidentMeansEvicted(builds: seq<BuildRecord>, i: nat, key: WorldKey)
    requires i < |builds| && builds[i].built == key && !Resident(builds, key)
    ensures EvictedBetween(builds, i, |builds|, key)
  {
    var last := |builds| - 1;
    if key !in builds[last].evicted {
      NotResidentMeansEvicted(builds[..last], i, key);
      var m :| i < m < last && key in builds[..last][m].evicted;
      assert key in builds[m].evicted;
    }
  }

  lemma BuildSeparated(builds: seq<BuildRecord>, record: BuildRecord)
    requires BuildsSeparated(builds) && !Resident(builds, record.built)
    ensures BuildsSeparated(builds + [record])
  {
    var longer := builds + [record];
    forall i, j | 0 <= i < j < |longer| && longer[i].built == longer[j].built
      ensures EvictedBetween(longer, i, j, longer[i].built)
    {
      var key := longer[i].built;
      if j < |builds| {
        assert EvictedBetween(builds, i, j, key);
        var m :| i < m < j && key in builds[m].evicted;
        assert key in longer[m].evicted;
      } else {
        NotResidentMeansEvicted(builds, i, key);
        var m :| i < m < |builds| && key in builds[m].evicted;
        assert key in longer[m].evicted;
      }
    }
  }

  lemma StepKeepsCacheTracked(limits: Limits, s: System, step: Step)
    requires limits.capacity >= 1 && Inv(limits, s) && Enabled(s, step)
    ensures CacheTracked(Apply(limits, s, step))
  {
    var s' := Apply(limits, s, step);
    match step
    case FirstLookup(id) => LookupKeepsKeys(s.cache, s.calls[id].key);
    case SecondLookup(id) => LookupKeepsKeys(s.cache, s.calls[id].key);
    case Insert(id) =>
      var call := s.calls[id];
      assert CallSane(call) && call.MustBuild();
      InsertChangesKeys(s.cache, call.worker.world, limits.capacity);
      var record := BuildRecord(call.key, KeysOf(s.cache) - KeysOf(s'.cache));
      BuildSeparated(s.builds, record);
      assert (s.builds + [record])[..|s.builds|] == s.builds;
      forall key ensures key in KeysOf(s'.cache) <==> Resident(s'.builds, key) {
        assert key in KeysOf(s.cache) <==> Resident(s.builds, key);
      }
    case _ =>
  }

  /** The invariants hold in every state of every run, whatever the interleaving. */
  lemma {:induction false} EveryRunKeepsInvariants(limits: Limits, run: seq<System>, steps: seq<Step>, i: nat)
    requires limits.capacity >= 1 && IsRun(limits, run, steps) && i < |run|
    ensures Inv(limits, run[i])
  {
    if i == 0 {
      assert forall key :: WaitersOf(INITIAL.calls, key) == {};
    } else {
      EveryRunKeepsInvariants(limits, run, steps, i - 1);
      StepKeepsCoordinator(limits, run[i - 1], steps[i - 1]);
      StepKeepsCallsSane(limits, run[i - 1], steps[i - 1]);
      StepKeepsBuildsNeeded(limits, run[i - 1], steps[i - 1]);
      StepKeepsCacheTracked(limits, run[i - 1], steps[i - 1]);
    }
  }

  // ---------------------------------------------------------------- what users of the protocol get

  function Guarded(calls: map<nat, Call>): set<nat> {
    set id | id in calls && calls[id].HoldsGuard()
  }

  /** At most `concurrent` guards are live, one per active key. */
  lemma GuardsAreBounded(limits: Limits, run: seq<System>, steps: seq<Step>, i: nat)
    requires limits.capacity >= 1 && IsRun(limits, run, steps) && i < |run|
    ensures |Guarded(run[i].calls)| == |run[i].coordinator.active| <= limits.concurrent
  {
    EveryRunKeepsInvariants(limits, run, steps, i);
    var s := run[i];
    forall key | key in s.coordinator.active
      ensures exists id :: id in Guarded(s.calls) && s.calls[id].key == key
    {
      assert GuardOf(s.calls, key);
      var id :| id in s.calls && s.calls[id].HoldsGuard() && s.calls[id].key == key;
      assert id in Guarded(s.calls);
    }
    GuardsCount(s.coordinator.active, s.calls, Guarded(s.calls));
  }

  /** With the source's limits at most one Python world is being built at any time. */
  lemma PythonBuildsAreSerial(run: seq<System>, steps: seq<Step>, i: nat, id: nat, other: nat)
    requires IsRun(PYTHON_LIMITS, run, steps) && i < |run|
    requires id in run[i].calls && run[i].calls[id].HoldsGuard()
    requires other in run[i].calls && run[i].calls[other].HoldsGuard()
    ensures id == other
  {
    GuardsAreBounded(PYTHON_LIMITS, run, steps, i);
    if id != other {
      TwoMembers(Guarded(run[i].calls), id, other);
    }
  }

  /** The waiter counts are exact, and neither counts nor hand-offs outlive the waiters. */
  lemma WaitersAreExact(limits: Limits, run: seq<System>, steps: seq<Step>, i: nat)
    requires limits.capacity >= 1 && IsRun(limits, run, steps) && i < |run|
    ensures forall key :: Waiting(run[i].coordinator, key) == |WaitersOf(run[i].calls, key)|
    ensures run[i].coordinator.completed.Keys <= run[i].coordinator.waiters.Keys
    ensures forall key :: key in run[i].coordinator.waiters <==> WaitersOf(run[i].calls, key) != {}
  {
    EveryRunKeepsInvariants(limits, run, steps, i);
    forall key
      ensures Waiting(run[i].coordinator, key) == |WaitersOf(run[i].calls, key)|
      ensures key in run[i].coordinator.waiters <==> WaitersOf(run[i].calls, key) != {}
    {
      assert CountedAt(run[i].coordinator.waiters, run[i].calls, key);
      assert |WaitersOf(run[i].calls, key)| == 0 <==> WaitersOf(run[i].calls, key) == {};
    }
  }

  /** A bijection between keys and guards preserves their number. */
  lemma {:induction false} GuardsCount(active: set<WorldKey>, calls: map<nat, Call>, guarded: set<nat>)
    requires guarded <= calls.Keys
    requires forall id :: id in guarded ==> calls[id].key in active
    requires forall id, other :: id in guarded && other in guarded && id != other ==> calls[id].key != calls[other].key
    requires forall key :: key in active ==> exists id :: id in guarded && calls[id].key == key
    ensures |guarded| == |active|
  {
    if guarded == {} {
      assert active == {};
    } else {
      var id :| id in guarded;
      var key := calls[id].key;
      forall k | k in active - {key} ensures exists other :: other in guarded - {id} && calls[other].key == k {
        var other :| other in guarded && calls[other].key == k;
        assert other in guarded - {id};
      }
      GuardsCount(active - {key}, calls, guarded - {id});
    }
  }

  /** `id` waits for a published hand-off, has taken it, or was cancelled. */
  predicate HandedOff(s: System, id: nat, key: WorldKey, world: World) {
    && id in s.calls
    && s.calls[id].key == key
    && match s.calls[id].phase
       case Registering => key in s.coordinator.completed && s.coordinator.completed[key] == world
       case Done(got) => got == world
       case Stopped => true
       case _ => false
  }

  lemma StepKeepsHandoff(limits: Limits, s: System, step: Step, id: nat, key: WorldKey, world: World)
    requires limits.capacity >= 1 && Inv(limits, s) && Enabled(s, step)
    requires HandedOff(s, id, key, world)
    ensures HandedOff(Apply(limits, s, step), id, key, world)
  {
    StepChangesOneCall(limits, s, step);
    assert CallSane(s.calls[id]);
    if s.calls[id].phase.Registering? && step.id != id {
      OthersKeepHandoff(limits, s, step, id);
    }
  }

  /** While `id` waits for a published world, no step of another call withdraws or replaces it. */
  lemma OthersKeepHandoff(limits: Limits, s: System, step: Step, id: nat)
    requires limits.capacity >= 1 && Inv(limits, s) && Enabled(s, step)
    requires id in s.calls && s.calls[id].phase.Registering? && step.id != id
    requires s.calls[id].key in s.coordinator.completed
    ensures var key, c' := s.calls[id].key, Apply(limits, s, step).coordinator;
            key in c'.completed && c'.completed[key] == s.coordinator.completed[key]
  {
    var c, key := s.coordinator, s.calls[id].key;
    match step
    case Enter(other, _) => AttemptKeepsHandoff(limits.concurrent, c, key, s.calls[other].key, false);
    case Wake(other, _) =>
      assert CountedAt(c.waiters, s.calls, key);
      if s.calls[other].key == key {
        TwoMembers(WaitersOf(s.calls, key), id, other);
      }
      AttemptKeepsHandoff(limits.concurrent, c, key, s.calls[other].key, true);
    case Publish(other) =>
      assert s.calls[other].HoldsGuard() && !s.calls[other].worker.Releasing?;
    case _ =>
  }

  /** A hand-off that someone else still waits for survives another waiter's turn. */
  lemma AttemptKeepsHandoff(limit: nat, c: Coordinator, key: WorldKey, other: WorldKey, registered: bool)
    requires key in c.completed && (registered && other == key ==> Waiting(c, key) >= 2)
    ensures var c' := Attempt(limit, c, other, registered).0;
            key in c'.completed && c'.completed[key] == c.completed[key]
    ensures registered ==> var c' := Finished(c, other); key in c'.completed && c'.completed[key] == c.completed[key]
  {
  }

  lemma TwoMembers(s: set<nat>, a: nat, b: nat)
    requires a in s && b in s && a != b
    ensures |s| >= 2
  {
    assert |s - {a}| == |s| - 1 && b in s - {a};
  }

  /** A call that is registered on a key when that key's world is published gets that very world or is
      cancelled, however long it sleeps; it never becomes an owner. */
  lemma {:induction false} WaiterGetsHandoff(
      limits: Limits, run: seq<System>, steps: seq<Step>, i: nat, id: nat, j: nat)
    requires limits.capacity >= 1 && IsRun(limits, run, steps)
    requires i < |steps| && steps[i].Publish? && i < j < |run|
    requires id in run[i].calls && run[i].calls[id].phase.Registering?
    requires run[i].calls[id].key == run[i].calls[steps[i].id].key
    ensures HandedOff(run[j], id, run[i].calls[id].key, run[i].calls[steps[i].id].worker.world)
  {
    var key, world := run[i].calls[id].key, run[i].calls[steps[i].id].worker.world;
    if j == i + 1 {
      EveryRunKeepsInvariants(limits, run, steps, i);
      assert CallSane(run[i].calls[steps[i].id]);
      assert CountedAt(run[i].coordinator.waiters, run[i].calls, key);
      assert id in WaitersOf(run[i].calls, key);
    } else {
      WaiterGetsHandoff(limits, run, steps, i, id, j - 1);
      EveryRunKeepsInvariants(limits, run, steps, j - 1);
      StepKeepsHandoff(limits, run[j - 1], steps[j - 1], id, key, world);
    }
  }

  /** Every successful preparation ends with a world for exactly the requested key. */
  lemma PreparedWorldHasRequestedKey(limits: Limits, run: seq<System>, steps: seq<Step>, i: nat, id: nat)
    requires limits.capacity >= 1 && IsRun(limits, run, steps) && i < |run|
    requires id in run[i].calls && run[i].calls[id].phase.Done?
    ensures run[i].calls[id].phase.world.key == run[i].calls[id].key
  {
    EveryRunKeepsInvariants(limits, run, steps, i);
    assert CallSane(run[i].calls[id]);
  }

  /** In any run two finished builds of one key have an eviction of that key between them. */
  lemma BuildsOfOneKeyAreSeparated(limits: Limits, run: seq<System>, steps: seq<Step>, n: nat, i: nat, j: nat)
    requires limits.capacity >= 1 && IsRun(limits, run, steps) && n < |run|
    requires i < j < |run[n].builds| && run[n].builds[i].built == run[n].builds[j].built
    ensures exists m :: i < m < j && run[n].builds[i].built in run[n].builds[m].evicted
  {
    EveryRunKeepsInvariants(limits, run, steps, n);
    assert EvictedBetween(run[n].builds, i, j, run[n].builds[i].built);
  }

  /** A waiter is never stuck: once no build is under way, its next turn gives it the world or the guard. */
  lemma IdleCoordinatorAdmitsWaiter(limits: Limits, run: seq<System>, steps: seq<Step>, i: nat, id: nat)
    requires limits.capacity >= 1 && limits.concurrent >= 1 && IsRun(limits, run, steps) && i < |run|
    requires id in run[i].calls && run[i].calls[id].phase.Registering?
    requires forall other :: other in run[i].calls ==> !run[i].calls[other].HoldsGuard()
    ensures Apply(limits, run[i], Wake(id, false)).calls[id].phase.Owning?
            || Apply(limits, run[i], Wake(id, false)).calls[id].phase.Done?
  {
    EveryRunKeepsInvariants(limits, run, steps, i);
    forall key ensures key !in run[i].coordinator.active {
      assert key in run[i].coordinator.active ==> GuardOf(run[i].calls, key);
    }
  }
}
