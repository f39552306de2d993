/** What a run reports about each check, told by what its command did and by the fields of the ledger:
    when a check has failed, what is recorded and emitted for it, and when a run has succeeded. */
module CheckVerdicts {
  import opened Wrappers
  import opened Digraph
  import opened Workspace
  import opened CheckEvidence
  import opened CheckPlanner
  import opened CheckRuntime
  import opened CheckTheorems

  // ---------------------------------------------------------------- one execution

  /** The world a check's command meets: its executor is started first unless it is up. */
  function LaunchWorld<W>(host: Host<W>, st: RunState<W>, executor: string): W {
    if executor in st.started then st.world else host.startExecutor(st.world, executor).0
  }

  /** The command, run on `world`, comes back and has not done its job: it exits with another status than
      zero, times out, or leaves a declared output missing. */
  ghost predicate CommandFails<W>(host: Host<W>, check: Check, world: W) {
    var (after, result) := host.runCommand(world, check);
    result.Some? && (result.value.exitStatus != 0 || result.value.timedOut || OutputIsMissing(host, check, after))
  }

  ghost predicate OutputIsMissing<W>(host: Host<W>, check: Check, after: W) {
    check.outputs != [] && host.captureOutput(after, check.outputs) == Some(None)
  }

  /** The recorded evidence tells what the command did, from which inputs and to which outputs. */
  ghost predicate TellsOf<W>(
      host: Host<W>, source: EvidenceSource, check: Check, before: W, after: W, out: CommandOutput, e: Evidence)
  {
    && e.exitStatus == out.exitStatus && e.timedOut == out.timedOut && e.durationMs == out.durationMs
    && e.command == check.command && e.cwd == check.cwd && e.executor == check.executor && e.source == source
    && host.captureInput(before, check.inputs) == Some(e.inputFingerprint)
    && (if check.outputs == [] then e.outputFingerprint == None
        else host.captureOutput(after, check.outputs) == Some(e.outputFingerprint))
    && out.output <= e.output && (e.output == out.output <==> !OutputIsMissing(host, check, after))
  }

  /** The last event of `end` and its summary tell of the execution of `id`. */
  ghost predicate Reports<W>(st: RunState<W>, end: RunState<W>, id: string, e: Evidence, truncated: bool, fails: bool) {
    && end.events != []
    && end.events[|end.events| - 1]
       == CheckResult(id, e.exitStatus, !fails, e.timedOut, e.output, truncated, e.durationMs, e.inputFingerprint,
                      Some(e.command), Some(e.cwd), Some(e.executor), Some(e.source.AsStr()),
                      Some(e.commandFingerprint), e.dependencyOutputs, e.outputFingerprint, false, None)
    && end.summary == Summary(
         st.summary.executed + [id], st.summary.reused, st.summary.failed + if fails then [id] else [],
         st.summary.skipped,
         st.summary.failures + if fails then [Failure(id, e.exitStatus, e.timedOut, e.output, None)] else [])
    && end.failed == st.failed + if fails then {id} else {}
  }

  /** `end` comes of executing `check` in `st`. */
  ghost predicate ExecutedFrom<W>(
      host: Host<W>, source: EvidenceSource, st: RunState<W>, end: RunState<W>, id: string, check: Check)
  {
    var (after, result) := host.runCommand(LaunchWorld(host, st, check.executor), check);
    && result.Some? && end.world == after
    && id in end.ledger && end.ledger == st.ledger[id := end.ledger[id]]
    && TellsOf(host, source, check, st.world, after, result.value, end.ledger[id])
    && (end.ledger[id].success <==> !CommandFails(host, check, LaunchWorld(host, st, check.executor)))
    && Reports(st, end, id, end.ledger[id], result.value.truncated, !end.ledger[id].success)
  }

  /** A step that executes its check fails it exactly when the command failed, and records and reports
      what the command did. */
  lemma StepReportsCommand<W>(
      host: Host<W>, graph: WorkspaceGraph, source: EvidenceSource, st: RunState<W>, id: string)
    requires Step(host, graph, source, st, id).error.None?
    requires Step(host, graph, source, st, id).summary.executed != st.summary.executed
    ensures id in graph.checks
    ensures ExecutedFrom(host, source, st, Step(host, graph, source, st, id), id, graph.checks[id])
  {
    var check := graph.checks[id];
    StartKeepsResults(host, graph, st, check.executor);
    LaunchReports(host, source, st, EnsureStarted(host, graph, st, check.executor), id, check,
                  host.captureInput(st.world, check.inputs).value, DependencyOutputs(st.ledger, check.dependsOn));
  }

  lemma LaunchReports<W>(
      host: Host<W>, source: EvidenceSource, st: RunState<W>, ready: RunState<W>, id: string, check: Check,
      input: string, dependencyOutputs: map<string, string>)
    requires ready.error.None? && ready.summary == st.summary && ready.ledger == st.ledger && ready.failed == st.failed
    requires ready.world == LaunchWorld(host, st, check.executor)
    requires host.captureInput(st.world, check.inputs) == Some(input)
    requires Launch(host, source, ready, id, check, input, dependencyOutputs).error.None?
    ensures ExecutedFrom(host, source, st, Launch(host, source, ready, id, check, input, dependencyOutputs), id, check)
  {
    var (after, result) := host.runCommand(ready.world, check);
    var outputFingerprint := OutputFingerprint(host, after, check.outputs).value;
    EvidenceTells(host, source, check, st.world, after, input, dependencyOutputs, result.value, outputFingerprint);
    var e := EvidenceFrom(host, source, check, input, dependencyOutputs, result.value, outputFingerprint);
    RecordReportsIt(ready.(world := after), id, e, result.value.truncated);
  }

  lemma EvidenceTells<W>(
      host: Host<W>, source: EvidenceSource, check: Check, before: W, after: W, input: string,
      dependencyOutputs: map<string, string>, out: CommandOutput, outputFingerprint: Option<string>)
    requires host.captureInput(before, check.inputs) == Some(input)
    requires OutputFingerprint(host, after, check.outputs) == Some(outputFingerprint)
    ensures var e := EvidenceFrom(host, source, check, input, dependencyOutputs, out, outputFingerprint);
            && TellsOf(host, source, check, before, after, out, e)
            && (e.success <==> out.exitStatus == 0 && !out.timedOut && !OutputIsMissing(host, check, after))
  {
  }

  lemma RecordReportsIt<W>(st: RunState<W>, id: string, e: Evidence, truncated: bool)
    ensures var end := Record(st, id, e, truncated);
            && Reports(st, end, id, e, truncated, !e.success)
            && end.ledger == st.ledger[id := e] && end.world == st.world
  {
  }

  // ---------------------------------------------------------------- skips and reuse

  /** A step whose check directly depends on a failed or skipped one runs nothing and says so. */
  lemma StepReportsSkip<W>(
      host: Host<W>, graph: WorkspaceGraph, source: EvidenceSource, st: RunState<W>, id: string, d: string)
    requires st.error.None? && id in graph.checks && d in graph.checks[id].dependsOn && d in st.failed
    ensures var end, check := Step(host, graph, source, st, id), graph.checks[id];
            && end.world == st.world && end.ledger == st.ledger && end.started == st.started && end.error.None?
            && end.failed == st.failed + {id}
            && |end.summary.failures| == |st.summary.failures| + 1
            && var f := end.summary.failures[|st.summary.failures|];
               && f.checkId == id && f.exitStatus == 125 && !f.timedOut && f.output == "" && f.skippedFor.Some?
               && (forall x :: x in f.skippedFor.value <==> x in check.dependsOn && x in st.failed)
               && end.summary == st.summary.(skipped := st.summary.skipped + [id],
                                             failures := st.summary.failures + [f])
               && end.events == st.events + [CheckResult(
                    id, 125, false, false, "", false, 0, "", Some(check.command), Some(check.cwd),
                    Some(check.executor), Some(source.AsStr()),
                    Some(host.commandDigest(check.command, check.cwd, check.executor, check.timeoutSeconds)), map[],
                    None, false, f.skippedFor)]
  {
    assert d in FailedDependencies(graph.checks[id].dependsOn, st.failed);
  }

  /** A step that reuses evidence runs nothing either, and emits that evidence marked as reused. */
  lemma StepReportsReuse<W>(
      host: Host<W>, graph: WorkspaceGraph, source: EvidenceSource, st: RunState<W>, id: string)
    requires st.error.None? && Fresh(host, graph, st.ledger, st.world, id)
    requires forall d :: d in graph.checks[id].dependsOn ==> d !in st.failed
    ensures var end, e := Step(host, graph, source, st, id), st.ledger[id];
            && end.summary == st.summary.(reused := st.summary.reused + [id])
            && |end.events| == |st.events| + 1
            && var event := end.events[|st.events|];
               && event.CheckResult? && event.checkId == id && event.reused && event.skippedFor.None?
               && event.success && event.exitStatus == e.exitStatus && !event.timedOut && !event.truncated
               && event.durationMs == 0 && event.fingerprint == e.inputFingerprint
               && event.outputFingerprint == e.outputFingerprint
               && end == st.(summary := end.summary, events := st.events + [event])
  {
    NoneFailed(graph.checks[id].dependsOn, st.failed);
  }

  lemma NoneFailed(dependencies: seq<string>, failed: set<string>)
    requires forall d :: d in dependencies ==> d !in failed
    ensures FailedDependencies(dependencies, failed) == []
  {
  }

  // ---------------------------------------------------------------- whole runs

  /** A step changes what is said of its own check only. */
  lemma StepLeavesOthers<W>(
      host: Host<W>, graph: WorkspaceGraph, source: EvidenceSource, st: RunState<W>, id: string, x: string)
    requires x != id && Step(host, graph, source, st, id).error.None?
    ensures var end := Step(host, graph, source, st, id);
            && (x in end.summary.executed <==> x in st.summary.executed)
            && (x in end.summary.failed <==> x in st.summary.failed)
            && (x in end.ledger <==> x in st.ledger) && (x in st.ledger ==> end.ledger[x] == st.ledger[x])
  {
    var end := Step(host, graph, source, st, id);
    if end.summary.executed != st.summary.executed {
      StepReportsCommand(host, graph, source, st, id);
    } else {
      StepExecutesOrKeeps(host, graph, source, st, id);
    }
  }

  lemma StepExecutesOrKeeps<W>(
      host: Host<W>, graph: WorkspaceGraph, source: EvidenceSource, st: RunState<W>, id: string)
    requires Step(host, graph, source, st, id).error.None?
    ensures var end := Step(host, graph, source, st, id);
            || end.summary.executed == st.summary.executed + [id]
            || (end.summary.executed == st.summary.executed && end.summary.failed == st.summary.failed
                && end.ledger == st.ledger)
  {
    var check := graph.checks[id];
    if FailedDependencies(check.dependsOn, st.failed) == [] && !Fresh(host, graph, st.ledger, st.world, id) {
      ExecuteOutcome(host, graph, source, st, id, check, host.captureInput(st.world, check.inputs).value,
                     DependencyOutputs(st.ledger, check.dependsOn));
    }
  }

  /** The command of the `i`th check of a plan failed in this run. */
  ghost predicate FailsAt<W>(
      host: Host<W>, graph: WorkspaceGraph, source: EvidenceSource, plan: seq<string>, st: RunState<W>, i: nat)
    requires i < |plan| && plan[i] in graph.checks
  {
    CommandFails(host, graph.checks[plan[i]],
                 LaunchWorld(host, Run(host, graph, source, plan[..i], st), graph.checks[plan[i]].executor))
  }

  /** What `end` says of the `i`th check is what its command did, if it was executed. */
  ghost predicate VerdictAt<W>(
      host: Host<W>, graph: WorkspaceGraph, source: EvidenceSource, plan: seq<string>, st: RunState<W>, i: nat,
      end: RunState<W>)
    requires i < |plan| && plan[i] in graph.checks
  {
    var id, check := plan[i], graph.checks[plan[i]];
    var before := Run(host, graph, source, plan[..i], st);
    var (after, result) := host.runCommand(LaunchWorld(host, before, check.executor), check);
    id in end.summary.executed ==>
      && result.Some? && id in end.ledger
      && TellsOf(host, source, check, before.world, after, result.value, end.ledger[id])
      && (id in end.summary.failed <==> FailsAt(host, graph, source, plan, st, i))
      && (end.ledger[id].success <==> !FailsAt(host, graph, source, plan, st, i))
  }

  /** In an Ok run a check is failed if and only if it was executed and its command failed, and the ledger
      has what that command did. */
  lemma RunVerdict<W>(
      host: Host<W>, graph: WorkspaceGraph, source: EvidenceSource, plan: seq<string>, st: RunState<W>, i: nat)
    requires IsSchedule(graph, plan) && i < |plan|
    requires st == Begin(st.world, st.ledger, st.started, st.events)
    requires Run(host, graph, source, plan, st).error.None?
    ensures plan[i] in graph.checks
    ensures VerdictAt(host, graph, source, plan, st, i, Run(host, graph, source, plan, st))
  {
    assert plan[i] in Elements(plan);
    assert plan[..|plan|] == plan;
    VerdictStays(host, graph, source, plan, st, i, |plan|);
  }

  lemma {:induction false} VerdictStays<W>(
      host: Host<W>, graph: WorkspaceGraph, source: EvidenceSource, plan: seq<string>, st: RunState<W>, i: nat, n: nat)
    requires i < n <= |plan| && IsSchedule(graph, plan[..n]) && plan[i] in graph.checks
    requires st == Begin(st.world, st.ledger, st.started, st.events)
    requires Run(host, graph, source, plan[..n], st).error.None?
    ensures VerdictAt(host, graph, source, plan, st, i, Run(host, graph, source, plan[..n], st))
  {
    var before := Run(host, graph, source, plan[..n - 1], st);
    RunNext(host, graph, source, plan, n - 1, st);
    ScheduleNext(graph, plan, n - 1);
    if i < n - 1 {
      VerdictStays(host, graph, source, plan, st, i, n - 1);
      assert plan[i] in plan[..n - 1];
      StepLeavesOthers(host, graph, source, before, plan[n - 1], plan[i]);
    } else {
      RunAccountsForPlan(host, graph, source, plan[..i], st);
      NotYetExecuted(graph, plan[..i], before.summary, plan[i]);
      StepVerdict(host, graph, source, plan, st, i);
    }
  }

  lemma NotYetExecuted(graph: WorkspaceGraph, done: seq<string>, summary: Summary, id: string)
    requires Accounted(graph, done, summary) && id !in done
    ensures id !in summary.executed && id !in summary.failed
  {
    assert id !in multiset(done);
    assert id in summary.executed ==> id in multiset(summary.executed);
  }

  lemma StepVerdict<W>(
      host: Host<W>, graph: WorkspaceGraph, source: EvidenceSource, plan: seq<string>, st: RunState<W>, i: nat)
    requires i < |plan| && plan[i] in graph.checks
    requires var before := Run(host, graph, source, plan[..i], st);
             plan[i] !in before.summary.executed && plan[i] !in before.summary.failed
    requires Step(host, graph, source, Run(host, graph, source, plan[..i], st), plan[i]).error.None?
    ensures VerdictAt(host, graph, source, plan, st, i,
                      Step(host, graph, source, Run(host, graph, source, plan[..i], st), plan[i]))
  {
    var before := Run(host, graph, source, plan[..i], st);
    if plan[i] in Step(host, graph, source, before, plan[i]).summary.executed {
      StepReportsCommand(host, graph, source, before, plan[i]);
    }
  }

  /** A run without error has succeeded if and only if no command that it executed failed. */
  lemma AllSucceededIff<W>(
      host: Host<W>, graph: WorkspaceGraph, source: EvidenceSource, plan: seq<string>, st: RunState<W>)
    requires IsSchedule(graph, plan)
    requires st == Begin(st.world, st.ledger, st.started, st.events)
    requires Run(host, graph, source, plan, st).error.None?
    ensures forall i :: 0 <= i < |plan| ==> plan[i] in graph.checks
    ensures var end := Run(host, graph, source, plan, st);
            end.summary.AllSucceeded() <==>
            forall i :: 0 <= i < |plan| && plan[i] in end.summary.executed ==>
              !FailsAt(host, graph, source, plan, st, i)
  {
    var end := Run(host, graph, source, plan, st);
    forall i | 0 <= i < |plan| ensures plan[i] in graph.checks &&
        VerdictAt(host, graph, source, plan, st, i, end)
    {
      RunVerdict(host, graph, source, plan, st, i);
    }
    RunAccountsForPlan(host, graph, source, plan, st);
    if !end.summary.AllSucceeded() {
      var f := SomeFailure(graph, plan, end.summary);
      var i :| 0 <= i < |plan| && plan[i] == f;
      assert VerdictAt(host, graph, source, plan, st, i, end);
    }
    if end.summary.AllSucceeded() {
      forall i | 0 <= i < |plan| && plan[i] in end.summary.executed ensures !FailsAt(host, graph, source, plan, st, i) {
        assert VerdictAt(host, graph, source, plan, st, i, end);
      }
    }
  }

  lemma SomeFailure(graph: WorkspaceGraph, plan: seq<string>, summary: Summary) returns (f: string)
    requires Accounted(graph, plan, summary) && !summary.AllSucceeded()
    ensures f in summary.failed && f in summary.executed && f in plan
  {
    if summary.skipped != [] {
      var x := summary.skipped[0];
      assert x in multiset(summary.skipped) && x in multiset(plan);
      assert x in plan && DependsOnFailure(graph, summary, x);
      f :| f in summary.failed && DependsOn(graph.CheckEdges(), x, f);
    } else {
      f := summary.failed[0];
    }
    assert f in multiset(summary.executed) && f in multiset(plan);
  }
}
