/** Running a plan: each check is skipped, reused or executed, and the ledger and event log grow. */
module CheckRuntime {
  import opened Wrappers
  import opened Digraph
  import opened Workspace
  import opened CheckEvidence
  import opened CheckPlanner

  datatype Failure = Failure(checkId: string, exitStatus: int, timedOut: bool, output: string,
                             skippedFor: Option<seq<string>>)

  datatype Summary = Summary(
    executed: seq<string>,
    reused: seq<string>,
    failed: seq<string>,
    skipped: seq<string>,
    failures: seq<Failure>)
  {
    predicate AllSucceeded() {
      failed == [] && skipped == []
    }
  }

  const EMPTY_SUMMARY := Summary([], [], [], [], [])

  /** Everything a run reads and changes. */
  datatype RunState<W> = RunState(
    world: W,
    ledger: Ledger,
    started: set<string>,
    events: seq<Event>,
    failed: set<string>,
    summary: Summary,
    error: Option<CheckError>)

  function Begin<W>(world: W, ledger: Ledger, started: set<string>, events: seq<Event>): RunState<W> {
    RunState(world, ledger, started, events, {}, EMPTY_SUMMARY, None)
  }

  // ---------------------------------------------------------------- specification of one run

  function FailedDependencies(dependencies: seq<string>, failed: set<string>): (r: seq<string>)
    ensures forall d :: d in r <==> d in dependencies && d in failed
  {
    if dependencies == [] then []
    else (if dependencies[0] in failed then [dependencies[0]] else []) + FailedDependencies(dependencies[1..], failed)
  }

  function SkipEvent<W>(host: Host<W>, source: EvidenceSource, id: string, check: Check, because: seq<string>): Event {
    CheckResult(
      id, 125, false, false, "", false, 0, "", Some(check.command), Some(check.cwd), Some(check.executor),
      Some(source.AsStr()), Some(CommandFingerprint(host, check)), map[], None, false, Some(because))
  }

  function Skip<W>(
      host: Host<W>, source: EvidenceSource, st: RunState<W>, id: string, check: Check, because: seq<string>)
    : RunState<W>
  {
    st.(failed := st.failed + {id},
        summary := st.summary.(
          skipped := st.summary.skipped + [id],
          failures := st.summary.failures + [Failure(id, 125, false, "", Some(because))]),
        events := st.events + [SkipEvent(host, source, id, check, because)])
  }

  const REUSED_TEXT := "current evidence reused"

  function Reuse<W>(st: RunState<W>, id: string): RunState<W>
    requires id in st.ledger
  {
    st.(summary := st.summary.(reused := st.summary.reused + [id]),
        events := st.events + [ResultEvent(id, st.ledger[id], REUSED_TEXT, false, true)])
  }

  /** Executors start lazily, once each. */
  function EnsureStarted<W>(host: Host<W>, graph: WorkspaceGraph, st: RunState<W>, executor: string): RunState<W> {
    if executor in st.started then st
    else if executor !in graph.executors then st.(error := Some(UnknownExecutor(executor)))
    else
      var (world, ok) := host.startExecutor(st.world, executor);
      var tried := st.(world := world, events := st.events + [ExecutorStarted(executor, ok)]);
      if ok then tried.(started := st.started + {executor})
      else tried.(error := Some(ExecutorFailedToStart(executor)))
  }

  /** The text a missing output appends; its wording is not modelled. */
  function MissingOutputText(output: string, patterns: seq<string>): string {
    output + "\n\nrequired output was not produced: " + Join(patterns)
  }

  function Join(parts: seq<string>): string {
    if parts == [] then "" else if |parts| == 1 then parts[0] else parts[0] + ", " + Join(parts[1..])
  }

  function EvidenceFrom<W>(
      host: Host<W>, source: EvidenceSource, check: Check, input: string, dependencyOutputs: map<string, string>,
      output: CommandOutput, outputFingerprint: Option<string>): Evidence
  {
    var missingOutput := check.outputs != [] && outputFingerprint.None?;
    Evidence(
      check.command, check.cwd, CommandFingerprint(host, check), input, dependencyOutputs, outputFingerprint,
      output.exitStatus, output.exitStatus == 0 && !output.timedOut && !missingOutput, output.timedOut,
      output.durationMs,
      if missingOutput then MissingOutputText(output.output, check.outputs) else output.output, check.executor, source)
  }

  function Record<W>(st: RunState<W>, id: string, evidence: Evidence, truncated: bool): RunState<W> {
    var recorded := st.(
      ledger := st.ledger[id := evidence],
      events := st.events + [ResultEvent(id, evidence, evidence.output, truncated, false)],
      summary := st.summary.(executed := st.summary.executed + [id]));
    if evidence.success then recorded
    else recorded.(
      failed := st.failed + {id},
      summary := recorded.summary.(
        failed := st.summary.failed + [id],
        failures := st.summary.failures + [Failure(id, evidence.exitStatus, evidence.timedOut, evidence.output, None)]))
  }

  function Execute<W>(
      host: Host<W>, graph: WorkspaceGraph, source: EvidenceSource, st: RunState<W>, id: string, check: Check,
      input: string, dependencyOutputs: map<string, string>): RunState<W>
  {
    LaunchIfReady(host, source, EnsureStarted(host, graph, st, check.executor), id, check, input, dependencyOutputs)
  }

  function LaunchIfReady<W>(
      host: Host<W>, source: EvidenceSource, ready: RunState<W>, id: string, check: Check,
      input: string, dependencyOutputs: map<string, string>): RunState<W>
  {
    if ready.error.Some? then ready else Launch(host, source, ready, id, check, input, dependencyOutputs)
  }

  /** Running the command on a started executor and recording what came of it. */
  function Launch<W>(
      host: Host<W>, source: EvidenceSource, ready: RunState<W>, id: string, check: Check,
      input: string, dependencyOutputs: map<string, string>): RunState<W>
  {
    var (world, output) := host.runCommand(ready.world, check);
    var ran := ready.(world := world);
    if output.None? then ran.(error := Some(CommandFailedToRun(id)))
    else
      var outputFingerprint := OutputFingerprint(host, world, check.outputs);
      if outputFingerprint.None? then ran.(error := Some(UnreadableWorkspace))
      else Record(ran, id,
                  EvidenceFrom(host, source, check, input, dependencyOutputs, output.value, outputFingerprint.value),
                  output.value.truncated)
  }

  /** One iteration of the run loop; an error ends the run. */
  function Step<W>(
      host: Host<W>, graph: WorkspaceGraph, source: EvidenceSource, st: RunState<W>, id: string): RunState<W>
  {
    if st.error.Some? then st
    else if id !in graph.checks then st.(error := Some(UnknownCheck(id)))
    else
      var check := graph.checks[id];
      var because := FailedDependencies(check.dependsOn, st.failed);
      if because != [] then Skip(host, source, st, id, check, because)
      else if !Readable(host, check, st.world) then st.(error := Some(UnreadableWorkspace))
      else if Fresh(host, graph, st.ledger, st.world, id) then Reuse(st, id)
      else Execute(host, graph, source, st, id, check, host.captureInput(st.world, check.inputs).value,
                   DependencyOutputs(st.ledger, check.dependsOn))
  }

  function Run<W>(
      host: Host<W>, graph: WorkspaceGraph, source: EvidenceSource, plan: seq<string>, st: RunState<W>): RunState<W>
  {
    if plan == [] then st
    else Step(host, graph, source, Run(host, graph, source, plan[..|plan| - 1], st), plan[|plan| - 1])
  }

  lemma RunNext<W>(
      host: Host<W>, graph: WorkspaceGraph, source: EvidenceSource, plan: seq<string>, n: nat, st: RunState<W>)
    requires n < |plan|
    ensures Run(host, graph, source, plan[..n + 1], st)
            == Step(host, graph, source, Run(host, graph, source, plan[..n], st), plan[n])
  {
    assert plan[..n + 1][..n] == plan[..n];
  }

  /** An error is final: the rest of the plan changes nothing. */
  lemma {:induction false} ErrorIsFinal<W>(
      host: Host<W>, graph: WorkspaceGraph, source: EvidenceSource, plan: seq<string>, n: nat, st: RunState<W>)
    requires n <= |plan| && Run(host, graph, source, plan[..n], st).error.Some?
    ensures Run(host, graph, source, plan, st) == Run(host, graph, source, plan[..n], st)
  {
    if n < |plan| {
      var shorter := plan[..|plan| - 1];
      assert shorter[..n] == plan[..n];
      ErrorIsFinal(host, graph, source, shorter, n, st);
    } else {
      assert plan[..n] == plan;
    }
  }

  // ---------------------------------------------------------------- the runtime

  class WorkspaceCheckRuntime<W(!new)> {
    const host: Host<W>
    const graph: WorkspaceGraph
    var world: W
    var ledger: Ledger
    var started: set<string>
    /** The events emitted so far, as the sink received them. */
    var events: seq<Event>

    constructor (host: Host<W>, graph: WorkspaceGraph, world: W, ledger: Ledger)
      ensures this.host == host && this.graph == graph && this.world == world && this.ledger == ledger
      ensures started == {} && events == []
    {
      this.host, this.graph, this.world, this.ledger := host, graph, world, ledger;
      started, events := {}, [];
    }

    function Now(): RunState<W>
      reads this
    {
      Begin(world, ledger, started, events)
    }

    method EnsureExecutorStarted(executor: string) returns (error: Option<CheckError>)
      modifies this`world, this`started, this`events
      ensures var st := EnsureStarted(host, graph, old(Now()), executor);
              world == st.world && started == st.started && events == st.events && error == st.error
    {
      if executor in started {
        return None;
      }
      if executor !in graph.executors {
        return Some(UnknownExecutor(executor));
      }
      var (after, ok) := host.startExecutor(world, executor);
      world := after;
      events := events + [ExecutorStarted(executor, ok)];
      if !ok {
        return Some(ExecutorFailedToStart(executor));
      }
      started := started + {executor};
      return None;
    }

    /** The run loop does what `Run` specifies: same world, ledger, executors, events and outcome. */
    method RunPlan(plan: seq<string>, source: EvidenceSource) returns (r: Result<Summary, CheckError>)
      modifies this`world, this`ledger, this`started, this`events
      ensures var st := Run(host, graph, source, plan, old(Now()));
              && world == st.world && ledger == st.ledger && started == st.started && events == st.events
              && r == if st.error.Some? then Err(st.error.value) else Ok(st.summary)
    {
      ghost var begin := Now();
      var summary, failed := EMPTY_SUMMARY, {};
      for i := 0 to |plan|
        invariant Run(host, graph, source, plan[..i], begin)
                  == RunState(world, ledger, started, events, failed, summary, None)
      {
        RunNext(host, graph, source, plan, i, begin);
        var error: Option<CheckError>;
        error, summary, failed := RunOne(plan[i], source, summary, failed);
        if error.Some? {
          ErrorIsFinal(host, graph, source, plan, i + 1, begin);
          return Err(error.value);
        }
      }
      assert plan[..|plan|] == plan;
      return Ok(summary);
    }

    /** The body of the run loop, with the loop's local variables passed through. */
    method RunOne(id: string, source: EvidenceSource, summary: Summary, failed: set<string>)
      returns (error: Option<CheckError>, summary': Summary, failed': set<string>)
      modifies this`world, this`ledger, this`started, this`events
      ensures RunState(world, ledger, started, events, failed', summary', error)
              == Step(host, graph, source, old(Now()).(failed := failed, summary := summary), id)
    {
      summary', failed' := summary, failed;
      if id !in graph.checks {
        return Some(UnknownCheck(id)), summary', failed';
      }
      var check := graph.checks[id];
      var because := FailedDependencies(check.dependsOn, failed);
      if because != [] {
        failed' := failed + {id};
        summary' := summary.(
          skipped := summary.skipped + [id],
          failures := summary.failures + [Failure(id, 125, false, "", Some(because))]);
        events := events + [SkipEvent(host, source, id, check, because)];
        return None, summary', failed';
      }
      var dependencyOutputs := DependencyOutputs(ledger, check.dependsOn);
      var input := host.captureInput(world, check.inputs);
      if input.None? {
        return Some(UnreadableWorkspace), summary', failed';
      }
      var currentOutput := OutputFingerprint(host, world, check.outputs);
      if currentOutput.None? {
        return Some(UnreadableWorkspace), summary', failed';
      }
      if id in ledger && Matches(host, check, ledger[id], input.value, dependencyOutputs, currentOutput.value) {
        summary' := summary.(reused := summary.reused + [id]);
        events := events + [ResultEvent(id, ledger[id], REUSED_TEXT, false, true)];
        return None, summary', failed';
      }
      error, summary', failed' := ExecuteOne(id, check, source, input.value, dependencyOutputs, summary, failed);
    }

    method ExecuteOne(
        id: string, check: Check, source: EvidenceSource, input: string, dependencyOutputs: map<string, string>,
        summary: Summary, failed: set<string>)
      returns (error: Option<CheckError>, summary': Summary, failed': set<string>)
      modifies this`world, this`ledger, this`started, this`events
      ensures RunState(world, ledger, started, events, failed', summary', error)
              == Execute(host, graph, source, old(Now()).(failed := failed, summary := summary), id, check, input,
                         dependencyOutputs)
    {
      summary', failed' := summary, failed;
      error := EnsureExecutorStarted(check.executor);
      if error.Some? {
        return;
      }
      error, summary', failed' := LaunchOne(id, check, source, input, dependencyOutputs, summary, failed);
    }

    /** On a started executor. */
    method LaunchOne(
        id: string, check: Check, source: EvidenceSource, input: string, dependencyOutputs: map<string, string>,
        summary: Summary, failed: set<string>)
      returns (error: Option<CheckError>, summary': Summary, failed': set<string>)
      modifies this`world, this`ledger, this`events
      ensures RunState(world, ledger, started, events, failed', summary', error)
              == Launch(host, source, old(Now()).(failed := failed, summary := summary), id, check, input,
                        dependencyOutputs)
    {
      summary', failed' := summary, failed;
      var (after, output) := host.runCommand(world, check);
      world := after;
      if output.None? {
        return Some(CommandFailedToRun(id)), summary', failed';
      }
      var outputFingerprint := OutputFingerprint(host, world, check.outputs);
      if outputFingerprint.None? {
        return Some(UnreadableWorkspace), summary', failed';
      }
      var evidence := EvidenceFrom(host, source, check, input, dependencyOutputs, output.value,
                                   outputFingerprint.value);
      ledger := ledger[id := evidence];
      summary' := summary.(executed := summary.executed + [id]);
      if !evidence.success {
        failed' := failed + {id};
        summary' := summary'.(
          failed := summary.failed + [id],
          failures := summary.failures + [Failure(id, evidence.exitStatus, evidence.timedOut, evidence.output, None)]);
      }
      events := events + [ResultEvent(id, evidence, evidence.output, output.value.truncated, false)];
      return None, summary', failed';
    }

    /** Running one check by name executes nothing exactly when its evidence was current beforehand;
        then its whole dependency closure is reused and nothing but the event log changes. */
    method RunNamed(id: string, source: EvidenceSource) returns (r: Result<Summary, CheckError>)
      modifies this`world, this`ledger, this`started, this`events
      ensures r.Ok? && r.value.executed == [] <==> old(AllFresh(host, graph, ledger, world, id))
      ensures old(AllFresh(host, graph, ledger, world, id)) ==>
                && world == old(world) && ledger == old(ledger) && started == old(started)
                && r.value.AllSucceeded()
                && (forall x :: x in r.value.reused <==> Reaches(graph.CheckEdges(), id, x))
      ensures r.Ok? ==>
                exists plan :: IsSchedule(graph, plan)
                  && (forall x :: x in plan <==> Reaches(graph.CheckEdges(), id, x))
                  && var st := Run(host, graph, source, plan, old(Now()));
                     && st.error.None? && r.value == st.summary
                     && world == st.world && ledger == st.ledger && started == st.started && events == st.events
    {
      ghost var begin := Now();
      ReachesItself(graph.CheckEdges(), id);
      if id !in graph.checks {
        return Err(UnknownCheck(id));
      }
      var selected := AddCheckDependencies(graph, {id});
      if selected.Err? {
        UnknownIsNotFresh(host, graph, begin, id, selected.error.id);
        return Err(selected.error);
      }
      var checks := StableTopologicalChecks(graph, selected.value);
      if checks.Err? {
        CyclicIsNotFresh(host, graph, begin, id, selected.value);
        return Err(checks.error);
      }
      r := RunPlan(checks.value, source);
      ScheduleOfOne(graph, id, selected.value, checks.value);
      NamedRunExecutesNothing(host, graph, source, id, checks.value, begin);
    }
  }

  lemma UnknownIsNotFresh<W(!new)>(host: Host<W>, graph: WorkspaceGraph, st: RunState<W>, id: string, unknown: string)
    requires ReachedFrom(graph.CheckEdges(), {id}, unknown) && unknown !in graph.checks
    ensures !AllFresh(host, graph, st.ledger, st.world, id)
  {
    assert Reaches(graph.CheckEdges(), id, unknown);
  }

  lemma CyclicIsNotFresh<W(!new)>(
      host: Host<W>, graph: WorkspaceGraph, st: RunState<W>, id: string, selected: set<string>)
    requires forall x :: x in selected <==> ReachedFrom(graph.CheckEdges(), {id}, x)
    requires Cyclic(graph.CheckEdges(), selected)
    ensures !AllFresh(host, graph, st.ledger, st.world, id)
  {
    var g := graph.CheckEdges();
    var p :| IsCycle(g, selected, p);
    assert p[0] in p;
    CycleDependsOnItself(g, selected, p);
    assert Reaches(g, id, p[0]);
  }

  lemma ScheduleOfOne(graph: WorkspaceGraph, id: string, selected: set<string>, plan: seq<string>)
    requires forall x :: x in selected <==> ReachedFrom(graph.CheckEdges(), {id}, x)
    requires Elements(plan) == selected
    ensures forall x :: x in plan <==> Reaches(graph.CheckEdges(), id, x)
  {
    forall x ensures x in plan <==> Reaches(graph.CheckEdges(), id, x) {
      assert x in plan <==> x in Elements(plan);
    }
  }

  // ---------------------------------------------------------------- nothing executed

  lemma NamedRunExecutesNothing<W(!new)>(
      host: Host<W>, graph: WorkspaceGraph, source: EvidenceSource, id: string, plan: seq<string>, st: RunState<W>)
    requires IsSchedule(graph, plan)
    requires forall x :: x in plan <==> Reaches(graph.CheckEdges(), id, x)
    requires st == Begin(st.world, st.ledger, st.started, st.events)
    ensures var end := Run(host, graph, source, plan, st);
            && (end.error.None? && end.summary.executed == [] <==> AllFresh(host, graph, st.ledger, st.world, id))
            && (AllFresh(host, graph, st.ledger, st.world, id) ==>
                  && end.world == st.world && end.ledger == st.ledger && end.started == st.started
                  && end.summary == EMPTY_SUMMARY.(reused := plan))
  {
    NothingExecuted(host, graph, source, plan, st);
    forall x | x in plan ensures !DependsOn(graph.CheckEdges(), x, x) {
      ScheduledOffCycles(graph, plan, x);
    }
  }

  /** A run from a given ledger and world executes nothing, without error, exactly when every planned
      check is fresh in them. */
  lemma {:induction false} NothingExecuted<W(!new)>(
      host: Host<W>, graph: WorkspaceGraph, source: EvidenceSource, plan: seq<string>, st: RunState<W>)
    requires st == Begin(st.world, st.ledger, st.started, st.events)
    ensures var end := Run(host, graph, source, plan, st);
            && (end.error.None? && end.summary.executed == [] <==>
                  forall x :: x in plan ==> Fresh(host, graph, st.ledger, st.world, x))
            && (end.error.None? && end.summary.executed == [] ==>
                  && end.world == st.world && end.ledger == st.ledger && end.started == st.started && end.failed == {}
                  && end.summary == EMPTY_SUMMARY.(reused := plan))
  {
    if plan != [] {
      var shorter, last := plan[..|plan| - 1], plan[|plan| - 1];
      assert plan == shorter + [last];
      NothingExecuted(host, graph, source, shorter, st);
      StepExecutesNothing(host, graph, source, Run(host, graph, source, shorter, st), last);
    }
  }

  /** One step ends without error and with nothing executed so far only if that held before it and,
      while nothing has failed, only by reusing fresh evidence. */
  lemma StepExecutesNothing<W>(
      host: Host<W>, graph: WorkspaceGraph, source: EvidenceSource, st: RunState<W>, id: string)
    ensures var end := Step(host, graph, source, st, id);
            && (end.error.None? && end.summary.executed == [] ==> st.error.None? && st.summary.executed == [])
            && (st.error.None? && st.summary.executed == [] && st.failed == {} ==>
                  && (end.error.None? && end.summary.executed == [] <==> Fresh(host, graph, st.ledger, st.world, id))
                  && (Fresh(host, graph, st.ledger, st.world, id) ==> end == Reuse(st, id)))
  {
    if st.error.None? && id in graph.checks {
      var check := graph.checks[id];
      var because := FailedDependencies(check.dependsOn, st.failed);
      assert |because| > 0 ==> because[0] in st.failed;
      if because == [] && Readable(host, check, st.world) && !Fresh(host, graph, st.ledger, st.world, id) {
        ExecuteOutcome(host, graph, source, st, id, check, host.captureInput(st.world, check.inputs).value,
                       DependencyOutputs(st.ledger, check.dependsOn));
      }
    }
  }

  /** What executing a check leaves behind: it fails before recording anything, or records evidence
      of this very run. */
  ghost predicate Executed<W>(
      host: Host<W>, st: RunState<W>, end: RunState<W>, id: string, check: Check,
      input: string, dependencyOutputs: map<string, string>)
  {
    && (end.error.Some? ==> end.summary == st.summary && end.ledger == st.ledger && end.failed == st.failed)
    && (end.error.None? ==>
          && id in end.ledger
          && end.ledger == st.ledger[id := end.ledger[id]]
          && OutputFingerprint(host, end.world, check.outputs) == Some(end.ledger[id].outputFingerprint)
          && EvidenceIsOf(host, check, end.ledger[id], input, dependencyOutputs)
          && Recorded(st, end, id, end.ledger[id].success))
  }

  ghost predicate EvidenceIsOf<W>(
      host: Host<W>, check: Check, evidence: Evidence, input: string, dependencyOutputs: map<string, string>)
  {
    && evidence.commandFingerprint == CommandFingerprint(host, check)
    && evidence.inputFingerprint == input
    && evidence.dependencyOutputs == dependencyOutputs
    && (evidence.success ==> !evidence.timedOut)
  }

  ghost predicate Recorded<W>(st: RunState<W>, end: RunState<W>, id: string, success: bool) {
    && end.failed == st.failed + (if success then {} else {id})
    && end.summary.executed == st.summary.executed + [id]
    && end.summary.failed == st.summary.failed + (if success then [] else [id])
    && end.summary.reused == st.summary.reused
    && end.summary.skipped == st.summary.skipped
  }

  lemma ExecuteOutcome<W>(
      host: Host<W>, graph: WorkspaceGraph, source: EvidenceSource, st: RunState<W>, id: string, check: Check,
      input: string, dependencyOutputs: map<string, string>)
    requires st.error.None?
    ensures Executed(host, st, Execute(host, graph, source, st, id, check, input, dependencyOutputs), id, check,
                     input, dependencyOutputs)
  {
    StartKeepsResults(host, graph, st, check.executor);
    var ready := EnsureStarted(host, graph, st, check.executor);
    if ready.error.None? {
      LaunchOutcome(host, source, ready, id, check, input, dependencyOutputs);
    }
  }

  lemma LaunchOutcome<W>(
      host: Host<W>, source: EvidenceSource, ready: RunState<W>, id: string, check: Check,
      input: string, dependencyOutputs: map<string, string>)
    requires ready.error.None?
    ensures Executed(host, ready, Launch(host, source, ready, id, check, input, dependencyOutputs), id, check, input,
                     dependencyOutputs)
  {
    var (world, output) := host.runCommand(ready.world, check);
    if output.Some? {
      var outputFingerprint := OutputFingerprint(host, world, check.outputs);
      if outputFingerprint.Some? {
        var evidence := EvidenceFrom(host, source, check, input, dependencyOutputs, output.value,
                                     outputFingerprint.value);
        RecordOutcome(ready.(world := world), id, evidence, output.value.truncated);
      }
    }
  }

  lemma StartKeepsResults<W>(host: Host<W>, graph: WorkspaceGraph, st: RunState<W>, executor: string)
    ensures var ready := EnsureStarted(host, graph, st, executor);
            ready.summary == st.summary && ready.ledger == st.ledger && ready.failed == st.failed
  {
  }

  lemma RecordOutcome<W>(st: RunState<W>, id: string, evidence: Evidence, truncated: bool)
    ensures var end := Record(st, id, evidence, truncated);
            && Recorded(st, end, id, evidence.success)
            && end.ledger == st.ledger[id := evidence] && end.world == st.world && end.error == st.error
            && end.started == st.started
  {
  }
}
