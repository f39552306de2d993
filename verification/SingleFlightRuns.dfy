/** What becomes of calls over whole runs of the single-flight protocol: why a call stops, where the
    world comes from that it ends with, and that every call can still finish. */
module SingleFlightRuns {
  import opened Wrappers
  import opened ProcessCache
  import opened SingleFlight

  lemma RunStep(limits: Limits, run: seq<System>, steps: seq<Step>, i: nat)
    requires limits.capacity >= 1 && IsRun(limits, run, steps) && i < |steps|
    ensures Enabled(run[i], steps[i]) && run[i + 1] == Apply(limits, run[i], steps[i])
    ensures steps[i].id in run[i + 1].calls
    ensures forall x :: x != steps[i].id ==>
              (x in run[i + 1].calls <==> x in run[i].calls)
              && (x in run[i].calls ==> run[i + 1].calls[x] == run[i].calls[x])
    ensures steps[i].id in run[i].calls ==> run[i + 1].calls[steps[i].id].key == run[i].calls[steps[i].id].key
  {
    StepChangesOneCall(limits, run[i], steps[i]);
  }

  // ---------------------------------------------------------------- why a call stops

  /** A call that cannot be served or admitted at once, and whose key no further waiter fits. */
  predicate Overflows(limits: Limits, s: System, key: WorldKey) {
    var c := s.coordinator;
    && key !in c.completed && (key in c.active || |c.active| >= limits.concurrent)
    && key in c.waiters && c.waiters[key] >= WORD_MAX
  }

  ghost predicate BuildFailed(steps: seq<Step>, m: nat, id: nat)
    requires m <= |steps|
  {
    exists l :: 0 <= l < m && steps[l] == Build(id, false)
  }

  /** The `m`th step of the run is one that makes call `id` give up. */
  ghost predicate GivesUp(limits: Limits, run: seq<System>, steps: seq<Step>, m: nat, id: nat)
    requires m < |steps| && m < |run|
  {
    && steps[m].id == id
    && match steps[m]
       case Enter(_, cancelled) => cancelled || (id in run[m].calls && Overflows(limits, run[m], run[m].calls[id].key))
       case Wake(_, cancelled) => cancelled
       case Spawn(_, ok) => !ok
       case Receive(_, cancelled) => cancelled || BuildFailed(steps, m, id)
       case Abandon(_) => true
       case _ => false
  }

  ghost predicate GaveUp(limits: Limits, run: seq<System>, steps: seq<Step>, n: nat, id: nat)
    requires n <= |steps| < |run|
  {
    exists m :: 0 <= m < n && GivesUp(limits, run, steps, m, id)
  }

  predicate ReportsFailure(call: Call) {
    (call.worker.Releasing? || call.worker.Sent?) && call.worker.result.None?
  }

  /** What the `m`th step may do to call `id`, as far as giving up is concerned. */
  ghost predicate Traced(limits: Limits, run: seq<System>, steps: seq<Step>, m: nat, id: nat)
    requires m < |steps| < |run|
  {
    if steps[m].id != id then
      && (id in run[m + 1].calls <==> id in run[m].calls)
      && (id in run[m].calls ==> run[m + 1].calls[id] == run[m].calls[id])
    else
      && id in run[m + 1].calls
      && if id in run[m].calls then TracedCall(limits, run[m], steps[m], run[m].calls[id], run[m + 1].calls[id])
         else steps[m].Start? && run[m + 1].calls[id].worker.NoWorker? && !run[m + 1].calls[id].phase.Stopped?
  }

  ghost predicate TracedCall(limits: Limits, s: System, step: Step, before: Call, after: Call) {
    && (ReportsFailure(after) <==> ReportsFailure(before) || step == Build(step.id, false))
    && (step == Build(step.id, false) || !before.worker.NoWorker? ==> !after.worker.NoWorker?)
    && (after.phase.Stopped? <==> before.phase.Stopped? || StepGivesUp(limits, s, step, before))
  }

  predicate StepGivesUp(limits: Limits, s: System, step: Step, before: Call) {
    match step
    case Enter(_, cancelled) => cancelled || Overflows(limits, s, before.key)
    case Wake(_, cancelled) => cancelled
    case Spawn(_, ok) => !ok
    case Receive(_, cancelled) => cancelled || ReportsFailure(before)
    case Abandon(_) => true
    case _ => false
  }

  ghost predicate AllTraced(limits: Limits, run: seq<System>, steps: seq<Step>, id: nat) {
    |run| == |steps| + 1 && id !in run[0].calls && forall m :: 0 <= m < |steps| ==> Traced(limits, run, steps, m, id)
  }

  lemma CallIsTraced(limits: Limits, s: System, step: Step)
    requires limits.capacity >= 1 && Enabled(s, step) && step.id in s.calls && CallSane(s.calls[step.id])
    ensures step.id in Apply(limits, s, step).calls
    ensures TracedCall(limits, s, step, s.calls[step.id], Apply(limits, s, step).calls[step.id])
  {
  }

  lemma StepIsTraced(limits: Limits, run: seq<System>, steps: seq<Step>, m: nat, id: nat)
    requires limits.capacity >= 1 && IsRun(limits, run, steps) && m < |steps|
    ensures Traced(limits, run, steps, m, id)
  {
    RunStep(limits, run, steps, m);
    if steps[m].id == id && id in run[m].calls {
      EveryRunKeepsInvariants(limits, run, steps, m);
      assert CallSane(run[m].calls[id]);
      CallIsTraced(limits, run[m], steps[m]);
    }
  }

  lemma RunIsTraced(limits: Limits, run: seq<System>, steps: seq<Step>, id: nat)
    requires limits.capacity >= 1 && IsRun(limits, run, steps)
    ensures AllTraced(limits, run, steps, id)
  {
    forall m | 0 <= m < |steps| ensures Traced(limits, run, steps, m, id) {
      StepIsTraced(limits, run, steps, m, id);
    }
  }

  /** Nothing has been done for a call that has not begun. */
  lemma {:induction false} NotStarted(limits: Limits, run: seq<System>, steps: seq<Step>, n: nat, id: nat)
    requires AllTraced(limits, run, steps, id) && n <= |steps| && id !in run[n].calls
    ensures forall l :: 0 <= l < n ==> steps[l].id != id
  {
    if n > 0 {
      assert Traced(limits, run, steps, n - 1, id);
      NotStarted(limits, run, steps, n - 1, id);
    }
  }

  lemma {:induction false} FailureIsOfTheBuild(limits: Limits, run: seq<System>, steps: seq<Step>, n: nat, id: nat)
    requires AllTraced(limits, run, steps, id) && n <= |steps| && id in run[n].calls
    ensures ReportsFailure(run[n].calls[id]) <==> BuildFailed(steps, n, id)
    ensures BuildFailed(steps, n, id) ==> !run[n].calls[id].worker.NoWorker?
  {
    if n > 0 {
      assert Traced(limits, run, steps, n - 1, id);
      if id in run[n - 1].calls {
        FailureIsOfTheBuild(limits, run, steps, n - 1, id);
      } else {
        NotStarted(limits, run, steps, n - 1, id);
      }
      assert BuildFailed(steps, n, id) <==> BuildFailed(steps, n - 1, id) || steps[n - 1] == Build(id, false);
    }
  }

  lemma {:induction false} TracedStoppedIff(limits: Limits, run: seq<System>, steps: seq<Step>, n: nat, id: nat)
    requires AllTraced(limits, run, steps, id) && n <= |steps| && id in run[n].calls
    ensures run[n].calls[id].phase.Stopped? <==> GaveUp(limits, run, steps, n, id)
  {
    if n > 0 {
      assert Traced(limits, run, steps, n - 1, id);
      if id in run[n - 1].calls {
        TracedStoppedIff(limits, run, steps, n - 1, id);
        FailureIsOfTheBuild(limits, run, steps, n - 1, id);
      } else {
        NotStarted(limits, run, steps, n - 1, id);
      }
      assert GaveUp(limits, run, steps, n, id) <==>
             GaveUp(limits, run, steps, n - 1, id) || GivesUp(limits, run, steps, n - 1, id);
    }
  }

  /** A call has stopped if and only if it was cancelled or abandoned, its worker could not be started, it
      received the failure of its own build, or no further waiter fitted. */
  lemma StoppedIff(limits: Limits, run: seq<System>, steps: seq<Step>, n: nat, id: nat)
    requires limits.capacity >= 1 && IsRun(limits, run, steps) && n <= |steps| && id in run[n].calls
    ensures run[n].calls[id].phase.Stopped? <==> GaveUp(limits, run, steps, n, id)
  {
    RunIsTraced(limits, run, steps, id);
    TracedStoppedIff(limits, run, steps, n, id);
  }

  // ---------------------------------------------------------------- where worlds come from

  /** `w` stood in the process cache at some time up to now. */
  ghost predicate WasCached(run: seq<System>, n: nat, w: World)
    requires n < |run|
  {
    exists m :: 0 <= m <= n && w in run[m].cache
  }

  /** Call `id` brought `w` with it as its current world. */
  ghost predicate BroughtAlong(steps: seq<Step>, n: nat, id: nat, w: World)
    requires n <= |steps|
  {
    exists m :: 0 <= m < n && steps[m].Start? && steps[m].id == id && steps[m].current == Some(w)
  }

  /** Call `id`'s own worker put `w` into the cache, as its newest world. */
  ghost predicate InsertedBy(run: seq<System>, steps: seq<Step>, n: nat, id: nat, w: World)
    requires n <= |steps| < |run|
  {
    exists m :: 0 <= m < n && InsertsAt(run, steps, m, id, w)
  }

  ghost predicate InsertsAt(run: seq<System>, steps: seq<Step>, m: nat, id: nat, w: World)
    requires m < |steps| < |run|
  {
    steps[m] == Insert(id) && run[m + 1].cache != [] && run[m + 1].cache[|run[m + 1].cache| - 1] == w
  }

  predicate Carries(call: Call, w: World) {
    || call.worker == Publishing(w)
    || ((call.worker.Releasing? || call.worker.Sent?) && call.worker.result == Some(w))
  }

  lemma {:induction false} CarriedWasInserted(
      limits: Limits, run: seq<System>, steps: seq<Step>, n: nat, id: nat, w: World)
    requires limits.capacity >= 1 && IsRun(limits, run, steps) && n <= |steps|
    requires id in run[n].calls && Carries(run[n].calls[id], w)
    ensures InsertedBy(run, steps, n, id, w)
  {
    if n > 0 {
      RunStep(limits, run, steps, n - 1);
      if id in run[n - 1].calls && Carries(run[n - 1].calls[id], w) {
        CarriedWasInserted(limits, run, steps, n - 1, id, w);
        var m :| 0 <= m < n - 1 && InsertsAt(run, steps, m, id, w);
      } else {
        CarriesAfterInsert(limits, run, steps, n - 1, id, w);
      }
    }
  }

  lemma CarriesAfterInsert(limits: Limits, run: seq<System>, steps: seq<Step>, m: nat, id: nat, w: World)
    requires limits.capacity >= 1 && IsRun(limits, run, steps) && m < |steps|
    requires id in run[m].calls ==> !Carries(run[m].calls[id], w)
    requires id in run[m + 1].calls && Carries(run[m + 1].calls[id], w)
    ensures InsertsAt(run, steps, m, id, w)
  {
    RunStep(limits, run, steps, m);
    assert steps[m].id == id;
  }

  /** A call that receives the result of a successful build, uncancelled, is done with the very world that
      its own worker put into the cache. */
  lemma ReceivedWorldWasBuilt(limits: Limits, run: seq<System>, steps: seq<Step>, j: nat, id: nat, w: World)
    requires limits.capacity >= 1 && IsRun(limits, run, steps) && j < |steps| && steps[j] == Receive(id, false)
    requires id in run[j].calls && run[j].calls[id].worker == Sent(Some(w))
    ensures id in run[j + 1].calls && run[j + 1].calls[id].phase == Done(w)
    ensures InsertedBy(run, steps, j, id, w) && w.key == run[j].calls[id].key
  {
    RunStep(limits, run, steps, j);
    CarriedWasInserted(limits, run, steps, j, id, w);
    EveryRunKeepsInvariants(limits, run, steps, j);
    assert CallSane(run[j].calls[id]);
  }

  lemma {:induction false} SerialsGrow(limits: Limits, run: seq<System>, steps: seq<Step>, i: nat, j: nat)
    requires limits.capacity >= 1 && IsRun(limits, run, steps) && i <= j <= |steps|
    ensures run[i].serial <= run[j].serial
  {
    if i < j {
      SerialsGrow(limits, run, steps, i, j - 1);
      assert Enabled(run[j - 1], steps[j - 1]) && run[j] == Apply(limits, run[j - 1], steps[j - 1]);
    }
  }

  /** No two builds make the same world. */
  lemma BuiltWorldsDiffer(limits: Limits, run: seq<System>, steps: seq<Step>, i: nat, j: nat)
    requires limits.capacity >= 1 && IsRun(limits, run, steps) && i < j < |steps|
    requires steps[i].Build? && steps[i].ok && steps[j].Build? && steps[j].ok
    ensures steps[i].id in run[i + 1].calls && steps[j].id in run[j + 1].calls
    ensures var v, w := run[i + 1].calls[steps[i].id].worker, run[j + 1].calls[steps[j].id].worker;
            v.Inserting? && w.Inserting? && v.world != w.world
  {
    RunStep(limits, run, steps, i);
    RunStep(limits, run, steps, j);
    SerialsGrow(limits, run, steps, i + 1, j);
  }

  /** Every world that someone waits for or has in hand stood in the cache. */
  ghost predicate WorldsWereCached(run: seq<System>, steps: seq<Step>, n: nat)
    requires n <= |steps| < |run|
  {
    && (forall key :: key in run[n].coordinator.completed ==> WasCached(run, n, run[n].coordinator.completed[key]))
    && (forall id :: id in run[n].calls ==> CallsWorldWasCached(run, steps, n, id))
  }

  ghost predicate CallsWorldWasCached(run: seq<System>, steps: seq<Step>, n: nat, id: nat)
    requires n <= |steps| < |run| && id in run[n].calls
  {
    match run[n].calls[id].phase
    case OwnerHit(w) => WasCached(run, n, w)
    case Done(w) => WasCached(run, n, w) || BroughtAlong(steps, n, id, w)
    case _ => true
  }

  lemma CachedStays(run: seq<System>, n: nat, w: World)
    requires n + 1 < |run| && WasCached(run, n, w)
    ensures WasCached(run, n + 1, w)
  {
  }

  lemma InsertedWasCached(run: seq<System>, steps: seq<Step>, n: nat, id: nat, w: World)
    requires n <= |steps| < |run| && InsertedBy(run, steps, n, id, w)
    ensures WasCached(run, n, w)
  {
    var m :| 0 <= m < n && InsertsAt(run, steps, m, id, w);
    assert w in run[m + 1].cache;
  }

  lemma {:induction false} EveryRunKeepsWorldsCached(limits: Limits, run: seq<System>, steps: seq<Step>, n: nat)
    requires limits.capacity >= 1 && IsRun(limits, run, steps) && n <= |steps|
    ensures WorldsWereCached(run, steps, n)
  {
    if n > 0 {
      EveryRunKeepsWorldsCached(limits, run, steps, n - 1);
      RunStep(limits, run, steps, n - 1);
      var c, c' := run[n - 1].coordinator, run[n].coordinator;
      forall key | key in c'.completed ensures WasCached(run, n, c'.completed[key]) {
        HandoffWasCached(limits, run, steps, n - 1, key);
      }
      forall id | id in run[n].calls ensures CallsWorldWasCached(run, steps, n, id) {
        if id == steps[n - 1].id {
          StepsWorldWasCached(limits, run, steps, n - 1);
        } else {
          assert CallsWorldWasCached(run, steps, n - 1, id);
          OthersWorldWasCached(run, steps, n - 1, id);
        }
      }
    }
  }

  lemma OthersWorldWasCached(run: seq<System>, steps: seq<Step>, m: nat, id: nat)
    requires m < |steps| < |run| && id in run[m].calls && id in run[m + 1].calls
    requires run[m + 1].calls[id] == run[m].calls[id]
    requires CallsWorldWasCached(run, steps, m, id)
    ensures CallsWorldWasCached(run, steps, m + 1, id)
  {
  }

  lemma HandoffWasCached(limits: Limits, run: seq<System>, steps: seq<Step>, m: nat, key: WorldKey)
    requires limits.capacity >= 1 && IsRun(limits, run, steps) && m < |steps| && WorldsWereCached(run, steps, m)
    requires key in run[m + 1].coordinator.completed
    ensures WasCached(run, m + 1, run[m + 1].coordinator.completed[key])
  {
    var c, c' := run[m].coordinator, run[m + 1].coordinator;
    RunStep(limits, run, steps, m);
    OnlyPublicationsHandOff(limits, run[m], steps[m], key);
    if key in c.completed && c'.completed[key] == c.completed[key] {
      CachedStays(run, m, c.completed[key]);
    } else {
      var id := steps[m].id;
      var w := run[m].calls[id].worker.world;
      CarriedWasInserted(limits, run, steps, m, id, w);
      InsertedWasCached(run, steps, m, id, w);
      CachedStays(run, m, w);
    }
  }

  lemma OnlyPublicationsHandOff(limits: Limits, s: System, step: Step, key: WorldKey)
    requires limits.capacity >= 1 && Enabled(s, step) && key in Apply(limits, s, step).coordinator.completed
    ensures var completed, world := s.coordinator.completed, Apply(limits, s, step).coordinator.completed[key];
            || (key in completed && world == completed[key])
            || (step.Publish? && s.calls[step.id].worker == Publishing(world))
  {
  }

  lemma StepsWorldWasCached(limits: Limits, run: seq<System>, steps: seq<Step>, m: nat)
    requires limits.capacity >= 1 && IsRun(limits, run, steps) && m < |steps| && WorldsWereCached(run, steps, m)
    ensures steps[m].id in run[m + 1].calls && CallsWorldWasCached(run, steps, m + 1, steps[m].id)
  {
    var id := steps[m].id;
    RunStep(limits, run, steps, m);
    var phase := run[m + 1].calls[id].phase;
    if id in run[m].calls && run[m].calls[id].phase == phase {
      assert CallsWorldWasCached(run, steps, m, id);
      OthersPhaseWasCached(run, steps, m, id);
    } else if phase.Done? || phase.OwnerHit? {
      match steps[m]
      case Start(_, _, _) =>
        assert steps[m].current == Some(phase.world);
      case Receive(_, _) =>
        CarriedWasInserted(limits, run, steps, m, id, phase.world);
        InsertedWasCached(run, steps, m, id, phase.world);
      case DropGuard(_) => assert CallsWorldWasCached(run, steps, m, id);
      case FirstLookup(_) => assert phase.world in run[m].cache;
      case SecondLookup(_) => assert phase.world in run[m].cache;
      case Enter(_, _) => assert phase.world == run[m].coordinator.completed[run[m].calls[id].key];
      case Wake(_, _) => assert phase.world == run[m].coordinator.completed[run[m].calls[id].key];
    }
  }

  lemma OthersPhaseWasCached(run: seq<System>, steps: seq<Step>, m: nat, id: nat)
    requires m < |steps| < |run| && id in run[m].calls && id in run[m + 1].calls
    requires run[m + 1].calls[id].phase == run[m].calls[id].phase && CallsWorldWasCached(run, steps, m, id)
    ensures CallsWorldWasCached(run, steps, m + 1, id)
  {
  }

  /** The world a call ends with is the current one it brought along or one that stood in the cache. */
  lemma DoneWorldHasSource(limits: Limits, run: seq<System>, steps: seq<Step>, n: nat, id: nat)
    requires limits.capacity >= 1 && IsRun(limits, run, steps) && n <= |steps|
    requires id in run[n].calls && run[n].calls[id].phase.Done?
    ensures var w := run[n].calls[id].phase.world; WasCached(run, n, w) || BroughtAlong(steps, n, id, w)
  {
    EveryRunKeepsWorldsCached(limits, run, steps, n);
    assert CallsWorldWasCached(run, steps, n, id);
  }

  /** A request that brings a current world of its key along, or whose key is cached when it first looks,
      is served at once: nothing is built for it. */
  lemma WarmRequestIsServed(limits: Limits, run: seq<System>, steps: seq<Step>, i: nat)
    requires limits.capacity >= 1 && IsRun(limits, run, steps) && i < |steps|
    ensures steps[i].Start? && steps[i].current.Some? && steps[i].current.value.key == steps[i].key ==>
              run[i + 1] == run[i].(calls := run[i].calls[
                steps[i].id := Call(steps[i].key, Done(steps[i].current.value), NoWorker)])
    ensures steps[i].FirstLookup? && steps[i].id in run[i].calls
            && run[i].calls[steps[i].id].key in KeysOf(run[i].cache) ==>
              var call := run[i + 1].calls[steps[i].id];
              call.phase.Done? && call.phase.world in run[i].cache && call.phase.world.key == call.key
  {
    RunStep(limits, run, steps, i);
    if steps[i].FirstLookup? {
      LookupKeepsKeys(run[i].cache, run[i].calls[steps[i].id].key);
    }
  }

  // ---------------------------------------------------------------- every call can finish

  /** A stretch of a run, from any state. */
  ghost predicate Continues(limits: Limits, path: seq<System>, steps: seq<Step>)
    requires limits.capacity >= 1
  {
    && |path| == |steps| + 1
    && forall i :: 0 <= i < |steps| ==> Enabled(path[i], steps[i]) && path[i + 1] == Apply(limits, path[i], steps[i])
  }

  /** A step that neither begins a call nor cancels, abandons or fails anything. */
  predicate Smooth(step: Step) {
    match step
    case Start(_, _, _) => false
    case Enter(_, cancelled) => !cancelled
    case Wake(_, cancelled) => !cancelled
    case Spawn(_, ok) => ok
    case Build(_, ok) => ok
    case Receive(_, cancelled) => !cancelled
    case Abandon(_) => false
    case _ => true
  }

  /** The call has stopped, or waits for the result of a build that has failed. */
  predicate IsLost(call: Call) {
    call.phase.Stopped? || (call.phase.Awaiting? && ReportsFailure(call))
  }

  /** How many steps a call and its worker may still take. */
  function Remaining(call: Call): nat {
    (match call.phase
     case Looking => 10
     case Entering => 9
     case Registering => 8
     case Owning => 7
     case Spawning => 6
     case OwnerHit(_) => 1
     case Awaiting => 1
     case Done(_) => 0
     case Stopped => 0)
    + (match call.worker
       case NoWorker => 0
       case Building => 4
       case Inserting(_) => 3
       case Publishing(_) => 2
       case Releasing(_) => 1
       case Sent(_) => 0)
  }

  ghost function Load(calls: map<nat, Call>): nat
    decreases |calls.Keys|
  {
    if calls.Keys == {} then 0
    else
      var id :| id in calls;
      assert |(calls - {id}).Keys| < |calls.Keys| by { assert (calls - {id}).Keys == calls.Keys - {id}; }
      Remaining(calls[id]) + Load(calls - {id})
  }

  lemma {:induction false} LoadWithout(calls: map<nat, Call>, id: nat)
    requires id in calls
    ensures Load(calls) == Remaining(calls[id]) + Load(calls - {id})
    decreases |calls.Keys|
  {
    var first :| first in calls && Load(calls) == Remaining(calls[first]) + Load(calls - {first});
    if first != id {
      assert (calls - {first}).Keys == calls.Keys - {first} && (calls - {id}).Keys == calls.Keys - {id};
      LoadWithout(calls - {first}, id);
      LoadWithout(calls - {id}, first);
      assert calls - {first} - {id} == calls - {id} - {first};
    }
  }

  lemma LoadFalls(calls: map<nat, Call>, id: nat, call: Call)
    requires id in calls && Remaining(call) < Remaining(calls[id])
    ensures Load(calls[id := call]) < Load(calls)
  {
    LoadWithout(calls, id);
    LoadWithout(calls[id := call], id);
    assert calls[id := call] - {id} == calls - {id};
  }

  lemma StepKeepsInv(limits: Limits, s: System, step: Step)
    requires limits.capacity >= 1 && Inv(limits, s) && Enabled(s, step)
    ensures Inv(limits, Apply(limits, s, step))
  {
    StepKeepsCoordinator(limits, s, step);
    StepKeepsCallsSane(limits, s, step);
    StepKeepsBuildsNeeded(limits, s, step);
    StepKeepsCacheTracked(limits, s, step);
  }

  /** A smooth step that gets its call further and loses nothing. */
  ghost predicate Advances(limits: Limits, s: System, step: Step)
    requires limits.capacity >= 1
  {
    && Enabled(s, step) && Smooth(step)
    && var before, calls := s.calls[step.id], Apply(limits, s, step).calls;
       && step.id in calls && calls == s.calls[step.id := calls[step.id]]
       && Remaining(calls[step.id]) < Remaining(before)
       && (IsLost(calls[step.id]) <==> IsLost(before))
       && (before.phase.Done? ==> calls[step.id].phase == before.phase)
  }

  predicate HasTurn(call: Call) {
    || call.worker.Building? || call.worker.Inserting? || call.worker.Publishing? || call.worker.Releasing?
    || call.phase.Owning? || call.phase.Spawning? || call.phase.OwnerHit? || call.phase.Awaiting?
    || call.phase.Looking?
  }

  /** The next step of a call that nobody else can hold up. */
  function TurnOf(call: Call, id: nat): Step
    requires HasTurn(call)
  {
    if call.worker.Building? then Build(id, true)
    else if call.worker.Inserting? then Insert(id)
    else if call.worker.Publishing? then Publish(id)
    else if call.worker.Releasing? then Release(id)
    else if call.phase.Owning? then SecondLookup(id)
    else if call.phase.Spawning? then Spawn(id, true)
    else if call.phase.OwnerHit? then DropGuard(id)
    else if call.phase.Looking? then FirstLookup(id)
    else Receive(id, false)
  }

  lemma TurnAdvances(limits: Limits, s: System, id: nat)
    requires limits.capacity >= 1 && id in s.calls && HasTurn(s.calls[id]) && CallSane(s.calls[id])
    ensures Advances(limits, s, TurnOf(s.calls[id], id))
  {
    StepChangesOneCall(limits, s, TurnOf(s.calls[id], id));
  }

  lemma WaiterAdvances(limits: Limits, s: System, id: nat)
    requires limits.capacity >= 1 && limits.concurrent >= 1 && Inv(limits, s)
    requires id in s.calls && s.calls[id].phase.Registering?
    requires forall other :: other in s.calls ==> !s.calls[other].HoldsGuard()
    ensures Advances(limits, s, Wake(id, false))
  {
    NothingActive(limits, s);
    assert CallSane(s.calls[id]);
    StepChangesOneCall(limits, s, Wake(id, false));
  }

  lemma NothingActive(limits: Limits, s: System)
    requires Inv(limits, s) && forall other :: other in s.calls ==> !s.calls[other].HoldsGuard()
    ensures s.coordinator.active == {}
  {
    forall key ensures key !in s.coordinator.active {
      assert key in s.coordinator.active ==> GuardOf(s.calls, key);
    }
  }

  lemma EntrantAdvances(limits: Limits, s: System, id: nat)
    requires limits.capacity >= 1 && limits.concurrent >= 1 && Inv(limits, s)
    requires id in s.calls && s.calls[id].phase.Entering?
    requires forall other :: other in s.calls ==> !s.calls[other].HoldsGuard() && !s.calls[other].phase.Registering?
    ensures Advances(limits, s, Enter(id, false))
  {
    NothingActive(limits, s);
    var key := s.calls[id].key;
    assert CountedAt(s.coordinator.waiters, s.calls, key);
    assert WaitersOf(s.calls, key) == {};
    assert CallSane(s.calls[id]);
    StepChangesOneCall(limits, s, Enter(id, false));
  }

  /** Some smooth step is always possible while a call or a worker is under way: those that hold guards
      first, then waiters, then entrants. */
  lemma SomeStepAdvances(limits: Limits, s: System, id: nat) returns (step: Step)
    requires limits.capacity >= 1 && limits.concurrent >= 1 && Inv(limits, s)
    requires id in s.calls && Remaining(s.calls[id]) > 0
    ensures Advances(limits, s, step)
  {
    if x :| x in s.calls && HasTurn(s.calls[x]) {
      assert CallSane(s.calls[x]);
      TurnAdvances(limits, s, x);
      step := TurnOf(s.calls[x], x);
    } else if x :| x in s.calls && s.calls[x].phase.Registering? {
      NoTurnNoGuard(s);
      WaiterAdvances(limits, s, x);
      step := Wake(x, false);
    } else {
      NoTurnNoGuard(s);
      assert !HasTurn(s.calls[id]);
      EntrantAdvances(limits, s, id);
      step := Enter(id, false);
    }
  }

  lemma NoTurnNoGuard(s: System)
    requires forall x :: x in s.calls ==> !HasTurn(s.calls[x])
    ensures forall x :: x in s.calls ==> !s.calls[x].HoldsGuard()
  {
    forall x | x in s.calls ensures !s.calls[x].HoldsGuard() {
      assert !HasTurn(s.calls[x]);
    }
  }

  /** How the calls of `s` stand in `last`: finished, in the way that was already sure in `s`. */
  ghost predicate Finishes(s: System, last: System) {
    && last.calls.Keys == s.calls.Keys
    && forall id :: id in s.calls ==> FinishesAs(s.calls[id], last.calls[id])
  }

  ghost predicate FinishesAs(before: Call, after: Call) {
    && (if IsLost(before) then after.phase.Stopped? else after.phase.Done?)
    && (before.phase.Done? ==> after.phase == before.phase)
  }

  lemma FinishesAfter(limits: Limits, s: System, step: Step, last: System)
    requires limits.capacity >= 1 && Advances(limits, s, step) && Finishes(Apply(limits, s, step), last)
    ensures Finishes(s, last)
  {
    var next := Apply(limits, s, step);
    forall id | id in s.calls ensures FinishesAs(s.calls[id], last.calls[id]) {
      assert FinishesAs(next.calls[id], last.calls[id]);
    }
  }

  /** A stretch of smooth steps from `s` at whose end every call has finished. */
  ghost predicate LeadsToEnd(limits: Limits, s: System, path: seq<System>, steps: seq<Step>)
    requires limits.capacity >= 1
  {
    && Continues(limits, path, steps) && path[0] == s && (forall step :: step in steps ==> Smooth(step))
    && Finishes(s, path[|steps|])
  }

  lemma ContinuesWith(limits: Limits, s: System, step: Step, path: seq<System>, steps: seq<Step>)
    requires limits.capacity >= 1 && Continues(limits, path, steps) && Enabled(s, step)
    requires path[0] == Apply(limits, s, step)
    ensures Continues(limits, [s] + path, [step] + steps)
  {
    forall i | 0 <= i < |[step] + steps|
      ensures var p, q := ([s] + path)[i], ([step] + steps)[i];
              Enabled(p, q) && ([s] + path)[i + 1] == Apply(limits, p, q)
    {
      if i > 0 {
        assert Enabled(path[i - 1], steps[i - 1]);
      }
    }
  }

  lemma LeadsThrough(limits: Limits, s: System, step: Step, path: seq<System>, steps: seq<Step>)
    requires limits.capacity >= 1 && Advances(limits, s, step)
    requires LeadsToEnd(limits, Apply(limits, s, step), path, steps)
    ensures LeadsToEnd(limits, s, [s] + path, [step] + steps)
  {
    ContinuesWith(limits, s, step, path, steps);
    FinishesAfter(limits, s, step, path[|steps|]);
    assert ([s] + path)[|[step] + steps|] == path[|steps|];
  }

  lemma HasEnded(limits: Limits, s: System)
    requires limits.capacity >= 1 && forall id :: id in s.calls ==> Remaining(s.calls[id]) == 0
    ensures LeadsToEnd(limits, s, [s], [])
  {
  }

  lemma {:induction false} CanFinish(limits: Limits, s: System) returns (path: seq<System>, steps: seq<Step>)
    requires limits.capacity >= 1 && limits.concurrent >= 1 && Inv(limits, s)
    ensures LeadsToEnd(limits, s, path, steps)
    decreases Load(s.calls)
  {
    if id :| id in s.calls && Remaining(s.calls[id]) > 0 {
      var step := SomeStepAdvances(limits, s, id);
      StepKeepsInv(limits, s, step);
      LoadFallsWith(limits, s, step);
      path, steps := CanFinish(limits, Apply(limits, s, step));
      LeadsThrough(limits, s, step, path, steps);
      path, steps := [s] + path, [step] + steps;
    } else {
      HasEnded(limits, s);
      path, steps := [s], [];
    }
  }

  lemma LoadFallsWith(limits: Limits, s: System, step: Step)
    requires limits.capacity >= 1 && Advances(limits, s, step) && step.id in s.calls
    ensures Load(Apply(limits, s, step).calls) < Load(s.calls)
  {
    LoadFalls(s.calls, step.id, Apply(limits, s, step).calls[step.id]);
  }

  /** From every state of every run some continuation in which nothing is cancelled or fails finishes all
      calls: each ends with a world unless it had stopped, or its build had failed, before. */
  lemma EveryRunCanFinish(limits: Limits, run: seq<System>, steps: seq<Step>, i: nat)
    returns (path: seq<System>, more: seq<Step>)
    requires limits.capacity >= 1 && limits.concurrent >= 1 && IsRun(limits, run, steps) && i < |run|
    ensures Continues(limits, path, more) && path[0] == run[i] && forall step :: step in more ==> Smooth(step)
    ensures Finishes(run[i], path[|more|])
  {
    EveryRunKeepsInvariants(limits, run, steps, i);
    path, more := CanFinish(limits, run[i]);
  }
}
