/** What whole runs of a scheduled plan guarantee: the fate of every check, idempotence of a
    successful run, and a ledger that its own events restore. */
module CheckTheorems {
  import opened Wrappers
  import opened Digraph
  import opened Workspace
  import opened CheckEvidence
  import opened CheckPlanner
  import opened CheckRuntime

  // ---------------------------------------------------------------- the fate of every check

  ghost predicate DependsOnFailure(graph: WorkspaceGraph, summary: Summary, x: string) {
    exists f :: f in summary.failed && DependsOn(graph.CheckEdges(), x, f)
  }

  /** Every check of `done` was executed, reused or skipped, and just one of these; only executed checks
      fail; the skipped ones are exactly those that depend, at any depth, on a failed one. */
  ghost predicate Accounted(graph: WorkspaceGraph, done: seq<string>, summary: Summary) {
    && multiset(done) == multiset(summary.executed) + multiset(summary.reused) + multiset(summary.skipped)
    && (forall f :: f in summary.failed ==> f in summary.executed)
    && (forall x :: x in done ==> (x in summary.skipped <==> DependsOnFailure(graph, summary, x)))
  }

  ghost predicate FailedTracks<W>(st: RunState<W>) {
    st.failed == Elements(st.summary.failed) + Elements(st.summary.skipped)
  }

  ghost predicate AccountedFor<W>(graph: WorkspaceGraph, done: seq<string>, st: RunState<W>) {
    Accounted(graph, done, st.summary) && FailedTracks(st)
  }

  lemma {:induction false} RunAccountsForPlan<W>(
      host: Host<W>, graph: WorkspaceGraph, source: EvidenceSource, plan: seq<string>, st: RunState<W>)
    requires IsSchedule(graph, plan)
    requires st == Begin(st.world, st.ledger, st.started, st.events)
    requires Run(host, graph, source, plan, st).error.None?
    ensures AccountedFor(graph, plan, Run(host, graph, source, plan, st))
  {
    if plan == [] {
      NothingToAccountFor(graph, st);
    } else {
      var done, id := plan[..|plan| - 1], plan[|plan| - 1];
      assert plan == done + [id];
      ScheduleSnoc(graph, done, id);
      RunAccountsForPlan(host, graph, source, done, st);
      StepAccounts(host, graph, source, done, Run(host, graph, source, done, st), id);
    }
  }

  lemma NothingToAccountFor<W>(graph: WorkspaceGraph, st: RunState<W>)
    requires st.summary == EMPTY_SUMMARY && st.failed == {}
    ensures AccountedFor(graph, [], st)
  {
  }

  /** `id` may run after `done`: it is new and its dependencies are done. */
  ghost predicate Next(graph: WorkspaceGraph, done: seq<string>, id: string) {
    id in graph.checks && id !in done && forall d :: Edge(graph.CheckEdges(), id, d) ==> d in done
  }

  /** All but the last check of a schedule form a schedule after which the last may run. */
  lemma ScheduleSnoc(graph: WorkspaceGraph, done: seq<string>, id: string)
    requires IsSchedule(graph, done + [id])
    ensures IsSchedule(graph, done) && Next(graph, done, id)
  {
    var g, plan := graph.CheckEdges(), done + [id];
    forall i | 0 <= i < |plan| ensures plan[i] in Elements(plan) {}
    forall i, d | 0 <= i < |plan| && Edge(g, plan[i], d) ensures d in done {
      assert plan[|done|] == id;
      assert plan[i] in Elements(plan) && d in Elements(plan);
      var j :| 0 <= j < |plan| && plan[j] == d;
      assert done[j] == d;
    }
    forall j | 0 <= j < |done| ensures done[j] != id {
      assert plan[j] != plan[|done|];
    }
    forall i, j | 0 <= i < j < |done| ensures done[i] != done[j] {
      assert plan[i] != plan[j];
    }
    forall i, j | 0 <= i < |done| && 0 <= j < |done| && Edge(g, done[i], done[j]) ensures j < i {
      assert Edge(g, plan[i], plan[j]);
    }
    forall a, b | a in Elements(done) && Edge(g, a, b) ensures b in Elements(done) {
      var i :| 0 <= i < |done| && done[i] == a;
      assert plan[i] == a;
    }
    forall x | x in Elements(done) ensures x in graph.checks {
      assert x in Elements(plan);
    }
  }

  lemma StepAccounts<W>(
      host: Host<W>, graph: WorkspaceGraph, source: EvidenceSource, done: seq<string>, st: RunState<W>, id: string)
    requires IsSchedule(graph, done) && Next(graph, done, id)
    requires AccountedFor(graph, done, st)
    requires Step(host, graph, source, st, id).error.None?
    ensures AccountedFor(graph, done + [id], Step(host, graph, source, st, id))
  {
    var end := Step(host, graph, source, st, id);
    var check := graph.checks[id];
    var because := FailedDependencies(check.dependsOn, st.failed);
    SkipDecision(graph, done, st, id);
    if because != [] {
      AccountSkipped(graph, done, st, end, id);
    } else if Fresh(host, graph, st.ledger, st.world, id) {
      AccountReused(graph, done, st, end, id);
    } else {
      ExecuteOutcome(host, graph, source, st, id, check, host.captureInput(st.world, check.inputs).value,
                     DependencyOutputs(st.ledger, check.dependsOn));
      AccountExecuted(graph, done, st, end, id, end.ledger[id].success);
    }
  }

  /** A dependency is in the failed set exactly when the check depends on an executed failure. */
  lemma SkipDecision<W>(graph: WorkspaceGraph, done: seq<string>, st: RunState<W>, id: string)
    requires Next(graph, done, id)
    requires Accounted(graph, done, st.summary) && FailedTracks(st)
    ensures FailedDependencies(graph.checks[id].dependsOn, st.failed) != [] <==> DependsOnFailure(graph, st.summary, id)
  {
    var g := graph.CheckEdges();
    var because := FailedDependencies(graph.checks[id].dependsOn, st.failed);
    if because != [] {
      var d := because[0];
      assert d in because && Edge(g, id, d);
      if d in st.summary.failed {
        ReachesItself(g, d);
        assert DependsOn(g, id, d);
      } else {
        assert d in done && d in Elements(st.summary.skipped);
        var f :| f in st.summary.failed && DependsOn(g, d, f);
        DependsOnReaches(g, d, f);
        assert DependsOn(g, id, f);
      }
    }
    if DependsOnFailure(graph, st.summary, id) {
      var f :| f in st.summary.failed && DependsOn(g, id, f);
      var d :| Edge(g, id, d) && Reaches(g, d, f);
      ReachesFirstStep(g, d, f);
      assert d == f || DependsOnFailure(graph, st.summary, d);
      assert d in done ==> d in st.failed;
      assert d in because;
    }
  }

  lemma DependsOnReaches(g: Edges, a: string, b: string)
    requires DependsOn(g, a, b)
    ensures Reaches(g, a, b)
  {
    var d :| Edge(g, a, d) && Reaches(g, d, b);
    EdgeReaches(g, a, d);
    ReachesIsTransitive(g, a, d, b);
  }

  lemma AccountSkipped<W>(graph: WorkspaceGraph, done: seq<string>, st: RunState<W>, end: RunState<W>, id: string)
    requires id !in done && Accounted(graph, done, st.summary) && FailedTracks(st)
    requires DependsOnFailure(graph, st.summary, id)
    requires end.failed == st.failed + {id}
    requires end.summary.executed == st.summary.executed && end.summary.reused == st.summary.reused
    requires end.summary.failed == st.summary.failed && end.summary.skipped == st.summary.skipped + [id]
    ensures Accounted(graph, done + [id], end.summary) && FailedTracks(end)
  {
    assert Elements(end.summary.skipped) == Elements(st.summary.skipped) + {id};
    forall x | x in done + [id] ensures x in end.summary.skipped <==> DependsOnFailure(graph, end.summary, x) {
      assert DependsOnFailure(graph, end.summary, x) == DependsOnFailure(graph, st.summary, x);
    }
  }

  lemma AccountReused<W>(graph: WorkspaceGraph, done: seq<string>, st: RunState<W>, end: RunState<W>, id: string)
    requires id !in done && Accounted(graph, done, st.summary) && FailedTracks(st)
    requires !DependsOnFailure(graph, st.summary, id)
    requires end.failed == st.failed && end.summary == st.summary.(reused := st.summary.reused + [id])
    ensures Accounted(graph, done + [id], end.summary) && FailedTracks(end)
  {
    NotSkippedBefore(graph, done, st.summary, id);
    forall x | x in done + [id] ensures x in end.summary.skipped <==> DependsOnFailure(graph, end.summary, x) {
      assert DependsOnFailure(graph, end.summary, x) == DependsOnFailure(graph, st.summary, x);
    }
  }

  lemma AccountExecuted<W>(
      graph: WorkspaceGraph, done: seq<string>, st: RunState<W>, end: RunState<W>, id: string, success: bool)
    requires IsSchedule(graph, done) && Next(graph, done, id) && Accounted(graph, done, st.summary) && FailedTracks(st)
    requires !DependsOnFailure(graph, st.summary, id)
    requires Recorded(st, end, id, success)
    ensures Accounted(graph, done + [id], end.summary) && FailedTracks(end)
  {
    NotSkippedBefore(graph, done, st.summary, id);
    assert Elements(end.summary.failed) == Elements(st.summary.failed) + (if success then {} else {id});
    forall x | x in done + [id] ensures x in end.summary.skipped <==> DependsOnFailure(graph, end.summary, x) {
      NothingDependsOnTheNext(graph, done, id, x);
      assert DependsOnFailure(graph, end.summary, x) == DependsOnFailure(graph, st.summary, x);
    }
  }

  lemma NotSkippedBefore(graph: WorkspaceGraph, done: seq<string>, summary: Summary, id: string)
    requires id !in done && Accounted(graph, done, summary)
    ensures id !in summary.skipped
  {
    assert id !in multiset(done);
    assert id in summary.skipped ==> id in multiset(summary.skipped);
  }

  /** Neither a scheduled check nor the next one itself depends on the next one. */
  lemma NothingDependsOnTheNext(graph: WorkspaceGraph, done: seq<string>, id: string, x: string)
    requires IsSchedule(graph, done) && Next(graph, done, id) && x in done + [id]
    ensures !DependsOn(graph.CheckEdges(), x, id)
  {
    var g := graph.CheckEdges();
    if DependsOn(g, x, id) {
      var d :| Edge(g, x, d) && Reaches(g, d, id);
      assert x != id ==> x in Elements(done);
      assert d in Elements(done);
      ClosedHoldsReached(g, Elements(done), d, id);
      assert false;
    }
  }

  // ---------------------------------------------------------------- failures and executors

  function FailureIds(failures: seq<Failure>): seq<string> {
    seq(|failures|, i requires 0 <= i < |failures| => failures[i].checkId)
  }

  /** The failure reports are exactly those of the failed and the skipped checks, told apart by their cause. */
  ghost predicate Reported(summary: Summary) {
    && multiset(FailureIds(summary.failures)) == multiset(summary.failed) + multiset(summary.skipped)
    && forall f :: f in summary.failures ==>
         if f.skippedFor.Some? then f.checkId in summary.skipped && f.skippedFor.value != []
         else f.checkId in summary.failed
  }

  lemma ReportOneMore(before: Summary, after: Summary, f: Failure)
    requires Reported(before) && after.failures == before.failures + [f]
    requires if f.skippedFor.Some?
             then
               && f.skippedFor.value != [] && after.failed == before.failed
               && after.skipped == before.skipped + [f.checkId]
             else after.skipped == before.skipped && after.failed == before.failed + [f.checkId]
    ensures Reported(after)
  {
    assert FailureIds(after.failures) == FailureIds(before.failures) + [f.checkId];
  }

  lemma RecordReports<W>(st: RunState<W>, id: string, evidence: Evidence, truncated: bool)
    requires Reported(st.summary)
    ensures Reported(Record(st, id, evidence, truncated).summary)
  {
    var end := Record(st, id, evidence, truncated);
    if !evidence.success {
      ReportOneMore(st.summary, end.summary,
                    Failure(id, evidence.exitStatus, evidence.timedOut, evidence.output, None));
    }
  }

  lemma ExecuteReports<W>(
      host: Host<W>, graph: WorkspaceGraph, source: EvidenceSource, st: RunState<W>, id: string, check: Check,
      input: string, dependencyOutputs: map<string, string>)
    requires Reported(st.summary)
    ensures Reported(Execute(host, graph, source, st, id, check, input, dependencyOutputs).summary)
  {
    StartKeepsResults(host, graph, st, check.executor);
    var ready := EnsureStarted(host, graph, st, check.executor);
    var (world, output) := host.runCommand(ready.world, check);
    if ready.error.None? && output.Some? {
      var outputFingerprint := OutputFingerprint(host, world, check.outputs);
      if outputFingerprint.Some? {
        var evidence := EvidenceFrom(host, source, check, input, dependencyOutputs, output.value,
                                     outputFingerprint.value);
        RecordReports(ready.(world := world), id, evidence, output.value.truncated);
      }
    }
  }

  /** Every run, aborted ones included, reports each failed and each skipped check once and no other. */
  lemma {:induction false} RunReportsFailures<W>(
      host: Host<W>, graph: WorkspaceGraph, source: EvidenceSource, plan: seq<string>, st: RunState<W>)
    requires Reported(st.summary)
    ensures Reported(Run(host, graph, source, plan, st).summary)
  {
    if plan != [] {
      var id, before := plan[|plan| - 1], Run(host, graph, source, plan[..|plan| - 1], st);
      RunReportsFailures(host, graph, source, plan[..|plan| - 1], st);
      if before.error.None? && id in graph.checks {
        var check := graph.checks[id];
        var because := FailedDependencies(check.dependsOn, before.failed);
        if because != [] {
          var skipped := Skip(host, source, before, id, check, because);
          ReportOneMore(before.summary, skipped.summary, Failure(id, 125, false, "", Some(because)));
        } else if Readable(host, check, before.world) && !Fresh(host, graph, before.ledger, before.world, id) {
          ExecuteReports(host, graph, source, before, id, check, host.captureInput(before.world, check.inputs).value,
                         DependencyOutputs(before.ledger, check.dependsOn));
        }
      }
    }
  }

  /** Some executed check runs on `executor`. */
  ghost predicate Needed(graph: WorkspaceGraph, executed: seq<string>, executor: string) {
    exists x :: x in executed && x in graph.checks && graph.checks[x].executor == executor
  }

  /** An Ok run starts the executors of the checks it executes and no others: neither reuse nor a skip
      starts any. */
  lemma {:induction false} RunStartsNeededExecutors<W>(
      host: Host<W>, graph: WorkspaceGraph, source: EvidenceSource, plan: seq<string>, st: RunState<W>)
    requires st == Begin(st.world, st.ledger, st.started, st.events)
    requires Run(host, graph, source, plan, st).error.None?
    ensures var end := Run(host, graph, source, plan, st);
            forall executor :: executor in end.started <==>
              executor in st.started || Needed(graph, end.summary.executed, executor)
  {
    if plan != [] {
      var id, before := plan[|plan| - 1], Run(host, graph, source, plan[..|plan| - 1], st);
      RunStartsNeededExecutors(host, graph, source, plan[..|plan| - 1], st);
      StepStartsNeeded(host, graph, source, before, id);
      var end := Step(host, graph, source, before, id);
      forall executor ensures Needed(graph, end.summary.executed, executor) <==>
          Needed(graph, before.summary.executed, executor)
          || (end.summary.executed != before.summary.executed && graph.checks[id].executor == executor)
      {
        assert end.summary.executed != before.summary.executed ==> id in end.summary.executed;
      }
    }
  }

  lemma StepStartsNeeded<W>(host: Host<W>, graph: WorkspaceGraph, source: EvidenceSource, st: RunState<W>, id: string)
    requires Step(host, graph, source, st, id).error.None?
    ensures id in graph.checks
    ensures var end := Step(host, graph, source, st, id);
            || (end.started == st.started && end.summary.executed == st.summary.executed)
            || (end.started == st.started + {graph.checks[id].executor}
                && end.summary.executed == st.summary.executed + [id])
  {
    var check := graph.checks[id];
    if FailedDependencies(check.dependsOn, st.failed) == [] && !Fresh(host, graph, st.ledger, st.world, id) {
      ExecuteStartsNeeded(host, graph, source, st, id, check, host.captureInput(st.world, check.inputs).value,
                          DependencyOutputs(st.ledger, check.dependsOn));
    }
  }

  lemma ExecuteStartsNeeded<W>(
      host: Host<W>, graph: WorkspaceGraph, source: EvidenceSource, st: RunState<W>, id: string, check: Check,
      input: string, dependencyOutputs: map<string, string>)
    requires Execute(host, graph, source, st, id, check, input, dependencyOutputs).error.None? && st.error.None?
    ensures var end := Execute(host, graph, source, st, id, check, input, dependencyOutputs);
            end.started == st.started + {check.executor} && end.summary.executed == st.summary.executed + [id]
  {
    StartKeepsResults(host, graph, st, check.executor);
    var ready := EnsureStarted(host, graph, st, check.executor);
    assert ready.started == st.started + {check.executor};
    var (world, output) := host.runCommand(ready.world, check);
    var outputFingerprint := OutputFingerprint(host, world, check.outputs);
    var evidence := EvidenceFrom(host, source, check, input, dependencyOutputs, output.value, outputFingerprint.value);
    RecordOutcome(ready.(world := world), id, evidence, output.value.truncated);
  }

  // ---------------------------------------------------------------- a successful run, run again

  /** Everything evidence needs to be fresh except that the workspace still looks as recorded. */
  ghost predicate Evidenced<W>(host: Host<W>, graph: WorkspaceGraph, ledger: Ledger, x: string) {
    && x in graph.checks
    && x in ledger
    && ledger[x].success
    && EvidenceIsOf(host, graph.checks[x], ledger[x], ledger[x].inputFingerprint,
                    DependencyOutputs(ledger, graph.checks[x].dependsOn))
  }

  ghost predicate AllEvidenced<W>(host: Host<W>, graph: WorkspaceGraph, done: seq<string>, ledger: Ledger) {
    forall x :: x in done ==> Evidenced(host, graph, ledger, x)
  }

  /** Ended without error and with every check executed or reused in success. */
  predicate Succeeded<W>(st: RunState<W>) {
    st.error.None? && st.summary.AllSucceeded()
  }

  /** The workspace still has the fingerprints recorded for `x`. */
  ghost predicate UpToDate<W>(host: Host<W>, graph: WorkspaceGraph, ledger: Ledger, world: W, x: string)
    requires x in graph.checks && x in ledger
  {
    && host.captureInput(world, graph.checks[x].inputs) == Some(ledger[x].inputFingerprint)
    && OutputFingerprint(host, world, graph.checks[x].outputs) == Some(ledger[x].outputFingerprint)
  }

  lemma FreshMeansUpToDate<W>(host: Host<W>, graph: WorkspaceGraph, ledger: Ledger, world: W, x: string)
    ensures Fresh(host, graph, ledger, world, x) ==> Evidenced(host, graph, ledger, x)
    ensures Evidenced(host, graph, ledger, x) ==>
              (Fresh(host, graph, ledger, world, x) <==> UpToDate(host, graph, ledger, world, x))
  {
  }

  lemma SuccessOnlyGrowsFrom<W>(
      host: Host<W>, graph: WorkspaceGraph, source: EvidenceSource, st: RunState<W>, id: string)
    requires Succeeded(Step(host, graph, source, st, id))
    ensures Succeeded(st) && id in graph.checks
    ensures var end := Step(host, graph, source, st, id);
            || (Fresh(host, graph, st.ledger, st.world, id) && end == Reuse(st, id))
            || (Readable(host, graph.checks[id], st.world) && end == ExecuteFor(host, graph, source, st, id))
  {
    var end := Step(host, graph, source, st, id);
    var check := graph.checks[id];
    var because := FailedDependencies(check.dependsOn, st.failed);
    assert because != [] ==> |end.summary.skipped| == |st.summary.skipped| + 1;
    if because == [] && !Fresh(host, graph, st.ledger, st.world, id) && Readable(host, check, st.world) {
      ExecuteOutcome(host, graph, source, st, id, check, host.captureInput(st.world, check.inputs).value,
                     DependencyOutputs(st.ledger, check.dependsOn));
      assert |end.summary.failed| >= |st.summary.failed|;
    }
  }

  /** Executing `id` with what the run loop captured for it. */
  function ExecuteFor<W>(
      host: Host<W>, graph: WorkspaceGraph, source: EvidenceSource, st: RunState<W>, id: string): RunState<W>
    requires id in graph.checks && Readable(host, graph.checks[id], st.world)
  {
    Execute(host, graph, source, st, id, graph.checks[id], host.captureInput(st.world, graph.checks[id].inputs).value,
            DependencyOutputs(st.ledger, graph.checks[id].dependsOn))
  }

  /** After an all-succeeded run every planned check has evidence that only the workspace could outdate. */
  lemma {:induction false} SuccessIsEvidenced<W>(
      host: Host<W>, graph: WorkspaceGraph, source: EvidenceSource, plan: seq<string>, st: RunState<W>)
    requires IsSchedule(graph, plan)
    requires Succeeded(Run(host, graph, source, plan, st))
    ensures AllEvidenced(host, graph, plan, Run(host, graph, source, plan, st).ledger)
  {
    if plan != [] {
      var done, id := plan[..|plan| - 1], plan[|plan| - 1];
      assert plan == done + [id];
      ScheduleSnoc(graph, done, id);
      var before := Run(host, graph, source, done, st);
      SuccessOnlyGrowsFrom(host, graph, source, before, id);
      SuccessIsEvidenced(host, graph, source, done, st);
      StepEvidences(host, graph, source, done, before, id);
    }
  }

  lemma StepEvidences<W>(
      host: Host<W>, graph: WorkspaceGraph, source: EvidenceSource, done: seq<string>, st: RunState<W>, id: string)
    requires IsSchedule(graph, done) && Next(graph, done, id)
    requires AllEvidenced(host, graph, done, st.ledger)
    requires Succeeded(Step(host, graph, source, st, id))
    ensures AllEvidenced(host, graph, done + [id], Step(host, graph, source, st, id).ledger)
  {
    var end := Step(host, graph, source, st, id);
    SuccessOnlyGrowsFrom(host, graph, source, st, id);
    if Fresh(host, graph, st.ledger, st.world, id) {
      FreshMeansUpToDate(host, graph, st.ledger, st.world, id);
    } else {
      var check := graph.checks[id];
      ExecuteOutcome(host, graph, source, st, id, check, host.captureInput(st.world, check.inputs).value,
                     DependencyOutputs(st.ledger, check.dependsOn));
      assert |end.summary.failed| == 0;
      RecordingKeepsEvidence(host, graph, done, id, st.ledger, end.ledger[id]);
    }
  }

  /** Recording the next check's evidence disturbs no dependency key recorded so far. */
  lemma RecordingKeepsEvidence<W>(
      host: Host<W>, graph: WorkspaceGraph, done: seq<string>, id: string, ledger: Ledger, evidence: Evidence)
    requires IsSchedule(graph, done) && Next(graph, done, id)
    requires AllEvidenced(host, graph, done, ledger)
    requires evidence.success
    requires EvidenceIsOf(host, graph.checks[id], evidence, evidence.inputFingerprint,
                          DependencyOutputs(ledger, graph.checks[id].dependsOn))
    ensures AllEvidenced(host, graph, done + [id], ledger[id := evidence])
  {
    var grown := ledger[id := evidence];
    forall x | x in done + [id] ensures Evidenced(host, graph, grown, x) {
      NextIsNoDependency(graph, done, id, x);
      assert DependencyOutputs(grown, graph.checks[x].dependsOn)
             == DependencyOutputs(ledger, graph.checks[x].dependsOn);
      assert x != id ==> grown[x] == ledger[x] && Evidenced(host, graph, ledger, x);
    }
  }

  lemma NextIsNoDependency(graph: WorkspaceGraph, done: seq<string>, id: string, x: string)
    requires IsSchedule(graph, done) && Next(graph, done, id) && x in done + [id]
    ensures x in graph.checks && id !in graph.checks[x].dependsOn
  {
    assert x in done ==> x in Elements(done);
    NothingDependsOnTheNext(graph, done, id, x);
    ReachesItself(graph.CheckEdges(), id);
    assert !Edge(graph.CheckEdges(), x, id);
  }

  /** Running a successful plan again, by any later runtime with the same ledger, executes nothing
      exactly when the workspace still has the recorded fingerprints; then every check is reused. */
  lemma SecondRunReusesAll<W(!new)>(
      host: Host<W>, graph: WorkspaceGraph, source: EvidenceSource, plan: seq<string>, st: RunState<W>,
      again: EvidenceSource, started: set<string>, events: seq<Event>)
    requires IsSchedule(graph, plan)
    requires var end := Run(host, graph, source, plan, st); end.error.None? && end.summary.AllSucceeded()
    ensures var end := Run(host, graph, source, plan, st);
            var second := Run(host, graph, again, plan, Begin(end.world, end.ledger, started, events));
            && (forall x :: x in plan ==> x in graph.checks && x in end.ledger)
            && (second.error.None? && second.summary.executed == [] <==>
                  forall x :: x in plan ==> UpToDate(host, graph, end.ledger, end.world, x))
            && (second.error.None? && second.summary.executed == [] ==>
                  && second.summary == EMPTY_SUMMARY.(reused := plan)
                  && second.ledger == end.ledger && second.world == end.world)
  {
    var end := Run(host, graph, source, plan, st);
    SuccessIsEvidenced(host, graph, source, plan, st);
    NothingExecuted(host, graph, again, plan, Begin(end.world, end.ledger, started, events));
    forall x | x in plan
      ensures Fresh(host, graph, end.ledger, end.world, x) <==> UpToDate(host, graph, end.ledger, end.world, x)
    {
      FreshMeansUpToDate(host, graph, end.ledger, end.world, x);
    }
  }

  /** Moving from `w` to `w'` leaves the inputs of `done` and of `id`, and the outputs of `done`, alone. */
  ghost predicate Undisturbed<W>(host: Host<W>, graph: WorkspaceGraph, done: seq<string>, id: string, w: W, w': W) {
    && (forall x :: x in done + [id] && x in graph.checks ==>
          host.captureInput(w', graph.checks[x].inputs) == host.captureInput(w, graph.checks[x].inputs))
    && (forall x :: x in done && x in graph.checks ==>
          OutputFingerprint(host, w', graph.checks[x].outputs) == OutputFingerprint(host, w, graph.checks[x].outputs))
  }

  /** No check this run executes, on the world it then meets, changes its own inputs or what earlier
      checks read and wrote; nor does starting its executor. */
  ghost predicate Gentle<W(!new)>(
      host: Host<W>, graph: WorkspaceGraph, source: EvidenceSource, plan: seq<string>, st: RunState<W>)
  {
    forall i :: 0 <= i < |plan| ==> GentleAt(host, graph, plan, i, Run(host, graph, source, plan[..i], st))
  }

  ghost predicate GentleAt<W>(host: Host<W>, graph: WorkspaceGraph, plan: seq<string>, i: nat, before: RunState<W>)
    requires i < |plan|
  {
    plan[i] in graph.checks && !Fresh(host, graph, before.ledger, before.world, plan[i]) ==>
      var check := graph.checks[plan[i]];
      var ready := EnsureStarted(host, graph, before, check.executor).world;
      && Undisturbed(host, graph, plan[..i], plan[i], before.world, ready)
      && Undisturbed(host, graph, plan[..i], plan[i], ready, host.runCommand(ready, check).0)
  }

  /** A gentle, all-succeeded run leaves every planned check current, so running it again reuses all. */
  lemma GentleRunLeavesAllFresh<W(!new)>(
      host: Host<W>, graph: WorkspaceGraph, source: EvidenceSource, plan: seq<string>, st: RunState<W>)
    requires IsSchedule(graph, plan) && Gentle(host, graph, source, plan, st)
    requires var end := Run(host, graph, source, plan, st); end.error.None? && end.summary.AllSucceeded()
    ensures var end := Run(host, graph, source, plan, st);
            forall x :: x in plan ==> AllFresh(host, graph, end.ledger, end.world, x)
  {
    var end := Run(host, graph, source, plan, st);
    assert plan[..|plan|] == plan;
    SuccessIsEvidenced(host, graph, source, plan, st);
    GentleRunStaysUpToDate(host, graph, source, plan, |plan|, st);
    EvidencedScheduleIsAllFresh(host, graph, plan, end.ledger, end.world);
  }

  lemma EvidencedScheduleIsAllFresh<W>(
      host: Host<W>, graph: WorkspaceGraph, plan: seq<string>, ledger: Ledger, world: W)
    requires IsSchedule(graph, plan)
    requires forall x :: x in plan ==> Evidenced(host, graph, ledger, x)
    requires forall x :: x in plan ==> x in graph.checks && x in ledger && UpToDate(host, graph, ledger, world, x)
    ensures forall x :: x in plan ==> AllFresh(host, graph, ledger, world, x)
  {
    forall x | x in plan ensures Fresh(host, graph, ledger, world, x) {
      FreshMeansUpToDate(host, graph, ledger, world, x);
    }
    forall x | x in plan ensures AllFresh(host, graph, ledger, world, x) {
      FreshScheduleIsAllFresh(host, graph, plan, ledger, world, x);
    }
  }

  lemma FreshScheduleIsAllFresh<W>(
      host: Host<W>, graph: WorkspaceGraph, plan: seq<string>, ledger: Ledger, world: W, x: string)
    requires IsSchedule(graph, plan) && x in plan
    requires forall y :: y in plan ==> Fresh(host, graph, ledger, world, y)
    ensures AllFresh(host, graph, ledger, world, x)
  {
    forall y | Reaches(graph.CheckEdges(), x, y)
      ensures Fresh(host, graph, ledger, world, y) && !DependsOn(graph.CheckEdges(), y, y)
    {
      assert x in Elements(plan);
      ClosedHoldsReached(graph.CheckEdges(), Elements(plan), x, y);
      ScheduledOffCycles(graph, plan, y);
    }
  }

  ghost predicate AllUpToDate<W>(host: Host<W>, graph: WorkspaceGraph, done: seq<string>, st: RunState<W>) {
    forall x :: x in done ==> x in graph.checks && x in st.ledger && UpToDate(host, graph, st.ledger, st.world, x)
  }

  lemma {:induction false} GentleRunStaysUpToDate<W(!new)>(
      host: Host<W>, graph: WorkspaceGraph, source: EvidenceSource, plan: seq<string>, n: nat, st: RunState<W>)
    requires n <= |plan| && IsSchedule(graph, plan[..n]) && Gentle(host, graph, source, plan, st)
    requires Succeeded(Run(host, graph, source, plan[..n], st))
    ensures AllUpToDate(host, graph, plan[..n], Run(host, graph, source, plan[..n], st))
  {
    if n > 0 {
      var before := Run(host, graph, source, plan[..n - 1], st);
      RunNext(host, graph, source, plan, n - 1, st);
      ScheduleNext(graph, plan, n - 1);
      SuccessOnlyGrowsFrom(host, graph, source, before, plan[n - 1]);
      GentleRunStaysUpToDate(host, graph, source, plan, n - 1, st);
      assert GentleAt(host, graph, plan, n - 1, before);
      GentleStep(host, graph, source, plan, n - 1, before);
    }
  }

  lemma ScheduleNext(graph: WorkspaceGraph, plan: seq<string>, n: nat)
    requires n < |plan| && IsSchedule(graph, plan[..n + 1])
    ensures IsSchedule(graph, plan[..n]) && Next(graph, plan[..n], plan[n])
  {
    assert plan[..n + 1] == plan[..n] + [plan[n]];
    ScheduleSnoc(graph, plan[..n], plan[n]);
  }

  lemma GentleStep<W(!new)>(
      host: Host<W>, graph: WorkspaceGraph, source: EvidenceSource, plan: seq<string>, i: nat, st: RunState<W>)
    requires i < |plan| && GentleAt(host, graph, plan, i, st) && Next(graph, plan[..i], plan[i])
    requires AllUpToDate(host, graph, plan[..i], st)
    requires Succeeded(Step(host, graph, source, st, plan[i]))
    ensures AllUpToDate(host, graph, plan[..i + 1], Step(host, graph, source, st, plan[i]))
  {
    var id := plan[i];
    assert plan[..i + 1] == plan[..i] + [id];
    SuccessOnlyGrowsFrom(host, graph, source, st, id);
    if Fresh(host, graph, st.ledger, st.world, id) {
      FreshMeansUpToDate(host, graph, st.ledger, st.world, id);
    } else {
      GentleExecution(host, graph, source, plan, i, st);
    }
  }

  lemma GentleExecution<W(!new)>(
      host: Host<W>, graph: WorkspaceGraph, source: EvidenceSource, plan: seq<string>, i: nat, st: RunState<W>)
    requires i < |plan| && GentleAt(host, graph, plan, i, st) && Next(graph, plan[..i], plan[i])
    requires !Fresh(host, graph, st.ledger, st.world, plan[i]) && AllUpToDate(host, graph, plan[..i], st)
    requires st.error.None? && Readable(host, graph.checks[plan[i]], st.world)
    requires ExecuteFor(host, graph, source, st, plan[i]).error.None?
    ensures AllUpToDate(host, graph, plan[..i] + [plan[i]], ExecuteFor(host, graph, source, st, plan[i]))
  {
    var id := plan[i];
    var check := graph.checks[id];
    var end := ExecuteFor(host, graph, source, st, id);
    ExecuteOutcome(host, graph, source, st, id, check, host.captureInput(st.world, check.inputs).value,
                   DependencyOutputs(st.ledger, check.dependsOn));
    ExecuteWorld(host, graph, source, st, id);
    forall x | x in plan[..i] + [id] ensures x in end.ledger && UpToDate(host, graph, end.ledger, end.world, x) {
      assert x != id ==> end.ledger[x] == st.ledger[x];
    }
  }

  lemma ExecuteWorld<W>(host: Host<W>, graph: WorkspaceGraph, source: EvidenceSource, st: RunState<W>, id: string)
    requires id in graph.checks && Readable(host, graph.checks[id], st.world)
    requires ExecuteFor(host, graph, source, st, id).error.None?
    ensures var check := graph.checks[id];
            ExecuteFor(host, graph, source, st, id).world
            == host.runCommand(EnsureStarted(host, graph, st, check.executor).world, check).0
  {
  }

  // ---------------------------------------------------------------- a formatter

  const FORMATTER := Check("fmt", ".", "local", [], Always, ["src"], [], [], 60)

  const FORMATTING := WorkspaceGraph({"local"}, map[], map["format" := FORMATTER])

  /** A workspace with one source text. The command rewrites it in place and succeeds. */
  function FormattingHost(): Host<string> {
    Host(
      (text, patterns) => Some(text),
      (text, patterns) => Some(None),
      (command, cwd, executor, timeout) => command,
      (text, executor) => (text, true),
      (text, check) => ("formatted", Some(CommandOutput(0, false, false, 1, ""))))
  }

  function Format(source: EvidenceSource, text: string, ledger: Ledger): RunState<string> {
    Run(FormattingHost(), FORMATTING, source, ["format"], Begin(text, ledger, {}, []))
  }

  /** Is this evidence of a successful formatting of `text`? */
  predicate FormatsText(evidence: Evidence, text: string) {
    && evidence.success && !evidence.timedOut
    && evidence.commandFingerprint == "fmt" && evidence.inputFingerprint == text
    && evidence.dependencyOutputs == map[] && evidence.outputFingerprint.None?
  }

  lemma FormatMeaning(source: EvidenceSource, text: string, ledger: Ledger)
    ensures var end := Format(source, text, ledger);
            && end.error.None? && end.summary.AllSucceeded()
            && if "format" in ledger && FormatsText(ledger["format"], text) then
                 end.summary == EMPTY_SUMMARY.(reused := ["format"]) && end.world == text && end.ledger == ledger
               else
                 && end.summary.executed == ["format"] && end.world == "formatted"
                 && "format" in end.ledger && FormatsText(end.ledger["format"], text)
  {
    var host, st := FormattingHost(), Begin(text, ledger, {}, []);
    RunOnly(host, FORMATTING, source, "format", st);
    assert FailedDependencies([], {}) == [];
    assert DependencyOutputs(ledger, []) == map[];
    if !("format" in ledger && FormatsText(ledger["format"], text)) {
      assert Step(host, FORMATTING, source, st, "format")
             == Execute(host, FORMATTING, source, st, "format", FORMATTER, text, map[]);
    }
  }

  /** Success does not by itself mean reuse: a check that rewrites its own input runs again. Once the text
      no longer changes it is reused. */
  lemma FormatterRunsAgain(source: EvidenceSource)
    ensures IsSchedule(FORMATTING, ["format"])
    ensures var first := Format(source, "raw", map[]);
            var second := Format(source, first.world, first.ledger);
            var third := Format(source, second.world, second.ledger);
            && first.error.None? && first.summary.AllSucceeded()
            && second.error.None? && second.summary.executed == ["format"]
            && third.error.None? && third.summary == EMPTY_SUMMARY.(reused := ["format"])
  {
    FormatMeaning(source, "raw", map[]);
    var first := Format(source, "raw", map[]);
    FormatMeaning(source, first.world, first.ledger);
    var second := Format(source, first.world, first.ledger);
    FormatMeaning(source, second.world, second.ledger);
    assert "raw"[0] != "formatted"[0];
    assert !Edge(FORMATTING.CheckEdges(), "format", "format");
  }

  lemma RunOnly<W>(host: Host<W>, graph: WorkspaceGraph, source: EvidenceSource, id: string, st: RunState<W>)
    ensures Run(host, graph, source, [id], st) == Step(host, graph, source, st, id)
  {
    assert [id][..0] == [];
  }

  // ---------------------------------------------------------------- the ledger its events restore

  /** Folding the emitted events gives the live ledger, output texts and durations aside. */
  ghost predicate Mirrored<W>(st: RunState<W>) {
    LedgersAgree(Replay(st.events), st.ledger)
  }

  lemma SilentEvent(events: seq<Event>, event: Event)
    requires EvidenceOf(event).None?
    ensures Replay(events + [event]) == Replay(events)
  {
    ReplaySnoc(events, event);
  }

  lemma ResultMirrors(
      events: seq<Event>, ledger: Ledger, id: string, evidence: Evidence, output: string, truncated: bool,
      reused: bool)
    requires LedgersAgree(Replay(events), ledger)
    ensures LedgersAgree(Replay(events + [ResultEvent(id, evidence, output, truncated, reused)]),
                         ledger[id := evidence])
  {
    ReplaySnoc(events, ResultEvent(id, evidence, output, truncated, reused));
    ResultEventRoundTrip(id, evidence, output, truncated, reused);
  }

  lemma StepMirrors<W>(host: Host<W>, graph: WorkspaceGraph, source: EvidenceSource, st: RunState<W>, id: string)
    requires Mirrored(st)
    ensures Mirrored(Step(host, graph, source, st, id))
  {
    if st.error.None? && id in graph.checks {
      var check := graph.checks[id];
      var because := FailedDependencies(check.dependsOn, st.failed);
      if because != [] {
        SilentEvent(st.events, SkipEvent(host, source, id, check, because));
      } else if Readable(host, check, st.world) {
        if Fresh(host, graph, st.ledger, st.world, id) {
          ResultMirrors(st.events, st.ledger, id, st.ledger[id], REUSED_TEXT, false, true);
          assert st.ledger[id := st.ledger[id]] == st.ledger;
        } else {
          ExecuteMirrors(host, graph, source, st, id, check, host.captureInput(st.world, check.inputs).value,
                         DependencyOutputs(st.ledger, check.dependsOn));
        }
      }
    }
  }

  lemma ExecuteMirrors<W>(
      host: Host<W>, graph: WorkspaceGraph, source: EvidenceSource, st: RunState<W>, id: string, check: Check,
      input: string, dependencyOutputs: map<string, string>)
    requires Mirrored(st)
    ensures Mirrored(Execute(host, graph, source, st, id, check, input, dependencyOutputs))
  {
    StartMirrors(host, graph, st, check.executor);
    ReadyMirrors(host, source, EnsureStarted(host, graph, st, check.executor), id, check, input, dependencyOutputs);
  }

  lemma StartMirrors<W>(host: Host<W>, graph: WorkspaceGraph, st: RunState<W>, executor: string)
    requires Mirrored(st)
    ensures Mirrored(EnsureStarted(host, graph, st, executor))
  {
    var ready := EnsureStarted(host, graph, st, executor);
    var event := ExecutorStarted(executor, host.startExecutor(st.world, executor).1);
    assert ready.ledger == st.ledger && (ready.events == st.events || ready.events == st.events + [event]);
    SilentEvent(st.events, event);
  }

  lemma ReadyMirrors<W>(
      host: Host<W>, source: EvidenceSource, ready: RunState<W>, id: string, check: Check,
      input: string, dependencyOutputs: map<string, string>)
    requires Mirrored(ready)
    ensures Mirrored(LaunchIfReady(host, source, ready, id, check, input, dependencyOutputs))
  {
    if ready.error.None? {
      LaunchMirrors(host, source, ready, id, check, input, dependencyOutputs);
    }
  }

  lemma LaunchMirrors<W>(
      host: Host<W>, source: EvidenceSource, ready: RunState<W>, id: string, check: Check,
      input: string, dependencyOutputs: map<string, string>)
    requires Mirrored(ready)
    ensures Mirrored(Launch(host, source, ready, id, check, input, dependencyOutputs))
  {
    var (world, output) := host.runCommand(ready.world, check);
    if output.Some? {
      var outputFingerprint := OutputFingerprint(host, world, check.outputs);
      if outputFingerprint.Some? {
        var evidence := EvidenceFrom(host, source, check, input, dependencyOutputs, output.value,
                                     outputFingerprint.value);
        ResultMirrors(ready.events, ready.ledger, id, evidence, evidence.output, output.value.truncated, false);
      }
    }
  }

  lemma {:induction false} RunMirrors<W>(
      host: Host<W>, graph: WorkspaceGraph, source: EvidenceSource, plan: seq<string>, st: RunState<W>)
    requires Mirrored(st)
    ensures Mirrored(Run(host, graph, source, plan, st))
  {
    if plan != [] {
      RunMirrors(host, graph, source, plan[..|plan| - 1], st);
      StepMirrors(host, graph, source, Run(host, graph, source, plan[..|plan| - 1], st), plan[|plan| - 1]);
    }
  }

  /** One use of a runtime in a session: any graph, plan and source, on the world as it then is. */
  datatype Request<W> = Request(graph: WorkspaceGraph, source: EvidenceSource, plan: seq<string>, world: W,
                                started: set<string>)

  /** The ledger and event log after a sequence of runs, completed or aborted. */
  function Session<W>(host: Host<W>, requests: seq<Request<W>>): (Ledger, seq<Event>) {
    if requests == [] then (map[], [])
    else
      var (ledger, events) := Session(host, requests[..|requests| - 1]);
      var request := requests[|requests| - 1];
      var end := Run(host, request.graph, request.source, request.plan,
                     Begin(request.world, ledger, request.started, events));
      (end.ledger, end.events)
  }

  /** At any point of any session, however its runs ended, its events restore its ledger. */
  lemma {:induction false} SessionRestores<W>(host: Host<W>, requests: seq<Request<W>>)
    ensures var (ledger, events) := Session(host, requests); LedgersAgree(Replay(events), ledger)
  {
    if requests != [] {
      var (ledger, events) := Session(host, requests[..|requests| - 1]);
      var request := requests[|requests| - 1];
      SessionRestores(host, requests[..|requests| - 1]);
      RunMirrors(host, request.graph, request.source, request.plan,
                 Begin(request.world, ledger, request.started, events));
    }
  }

  /** Equal states, but for what the ledgers remember of output texts and durations. */
  ghost predicate Twins<W>(a: RunState<W>, b: RunState<W>) {
    b == a.(ledger := b.ledger) && LedgersAgree(a.ledger, b.ledger)
  }

  lemma StepKeepsTwins<W>(
      host: Host<W>, graph: WorkspaceGraph, source: EvidenceSource, a: RunState<W>, b: RunState<W>, id: string)
    requires Twins(a, b)
    ensures Twins(Step(host, graph, source, a, id), Step(host, graph, source, b, id))
  {
    if a.error.None? && id in graph.checks {
      var check := graph.checks[id];
      assert id in a.ledger <==> id in b.ledger;
      assert id in a.ledger ==> Strip(a.ledger[id]) == Strip(b.ledger[id]);
      TwinDependencyOutputs(a.ledger, b.ledger, check.dependsOn);
      assert Fresh(host, graph, a.ledger, a.world, id) <==> Fresh(host, graph, b.ledger, b.world, id);
      if FailedDependencies(check.dependsOn, a.failed) == [] && Readable(host, check, a.world)
         && !Fresh(host, graph, a.ledger, a.world, id)
      {
        ExecuteKeepsTwins(host, graph, source, a, b, id, check, host.captureInput(a.world, check.inputs).value,
                          DependencyOutputs(a.ledger, check.dependsOn));
      }
    }
  }

  lemma TwinDependencyOutputs(a: Ledger, b: Ledger, dependencies: seq<string>)
    requires LedgersAgree(a, b)
    ensures DependencyOutputs(a, dependencies) == DependencyOutputs(b, dependencies)
  {
    assert forall d :: d in a ==> Strip(a[d]) == Strip(b[d]);
    assert forall d :: d in a ==>
             OutputKey(a[d]) == OutputKey(Strip(a[d])) && OutputKey(b[d]) == OutputKey(Strip(b[d]));
  }

  lemma ExecuteKeepsTwins<W>(
      host: Host<W>, graph: WorkspaceGraph, source: EvidenceSource, a: RunState<W>, b: RunState<W>,
      id: string, check: Check, input: string, dependencyOutputs: map<string, string>)
    requires Twins(a, b)
    ensures Twins(Execute(host, graph, source, a, id, check, input, dependencyOutputs),
                  Execute(host, graph, source, b, id, check, input, dependencyOutputs))
  {
    StartKeepsTwins(host, graph, a, b, check.executor);
    ReadyKeepsTwins(host, source, EnsureStarted(host, graph, a, check.executor),
                    EnsureStarted(host, graph, b, check.executor),
                    id, check, input, dependencyOutputs);
  }

  lemma ReadyKeepsTwins<W>(
      host: Host<W>, source: EvidenceSource, a: RunState<W>, b: RunState<W>, id: string, check: Check,
      input: string, dependencyOutputs: map<string, string>)
    requires Twins(a, b)
    ensures Twins(LaunchIfReady(host, source, a, id, check, input, dependencyOutputs),
                  LaunchIfReady(host, source, b, id, check, input, dependencyOutputs))
  {
    if a.error.None? {
      LaunchKeepsTwins(host, source, a, b, id, check, input, dependencyOutputs);
    }
  }

  lemma LaunchKeepsTwins<W>(
      host: Host<W>, source: EvidenceSource, a: RunState<W>, b: RunState<W>, id: string, check: Check,
      input: string, dependencyOutputs: map<string, string>)
    requires Twins(a, b)
    ensures Twins(Launch(host, source, a, id, check, input, dependencyOutputs),
                  Launch(host, source, b, id, check, input, dependencyOutputs))
  {
    var (world, output) := host.runCommand(a.world, check);
    if output.Some? {
      var outputFingerprint := OutputFingerprint(host, world, check.outputs);
      if outputFingerprint.Some? {
        var evidence := EvidenceFrom(host, source, check, input, dependencyOutputs, output.value,
                                     outputFingerprint.value);
        RecordKeepsTwins(a.(world := world), b.(world := world), id, evidence, output.value.truncated);
      }
    }
  }

  lemma StartKeepsTwins<W>(host: Host<W>, graph: WorkspaceGraph, a: RunState<W>, b: RunState<W>, executor: string)
    requires Twins(a, b)
    ensures Twins(EnsureStarted(host, graph, a, executor), EnsureStarted(host, graph, b, executor))
    ensures EnsureStarted(host, graph, a, executor).ledger == a.ledger
  {
  }

  lemma RecordKeepsTwins<W>(a: RunState<W>, b: RunState<W>, id: string, evidence: Evidence, truncated: bool)
    requires Twins(a, b)
    ensures Twins(Record(a, id, evidence, truncated), Record(b, id, evidence, truncated))
  {
  }

  /** A runtime resumed from a log behaves as the original would have: same world, same events, same
      summary, same error, and ledgers that go on agreeing. */
  lemma {:induction false} ResumedRunIsTwin<W>(
      host: Host<W>, graph: WorkspaceGraph, source: EvidenceSource, plan: seq<string>, a: RunState<W>, b: RunState<W>)
    requires Twins(a, b)
    ensures Twins(Run(host, graph, source, plan, a), Run(host, graph, source, plan, b))
  {
    if plan != [] {
      var shorter := plan[..|plan| - 1];
      ResumedRunIsTwin(host, graph, source, shorter, a, b);
      StepKeepsTwins(host, graph, source, Run(host, graph, source, shorter, a), Run(host, graph, source, shorter, b),
                     plan[|plan| - 1]);
    }
  }
}
