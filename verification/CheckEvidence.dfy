/** Recorded check results: the ledger, the events it is rebuilt from, and when evidence is current. */
module CheckEvidence {
  import opened Wrappers
  import opened Digraph
  import opened Workspace

  datatype EvidenceSource = AgentTool | ExactGuardCommand | CommitTool | Handoff {
    function AsStr(): string {
      match this
      case AgentTool => "agent_tool"
      case ExactGuardCommand => "exact_guard_command"
      case CommitTool => "commit_tool"
      case Handoff => "handoff"
    }

    static function Parse(value: string): (r: Option<EvidenceSource>)
      ensures r.Some? ==> r.value.AsStr() == value
      ensures forall source: EvidenceSource :: source.AsStr() == value ==> r == Some(source)
    {
      if value == "agent_tool" then Some(AgentTool)
      else if value == "exact_guard_command" then Some(ExactGuardCommand)
      else if value == "commit_tool" then Some(CommitTool)
      else if value == "handoff" then Some(Handoff)
      else None
    }
  }

  datatype Evidence = Evidence(
    command: string,
    cwd: string,
    commandFingerprint: string,
    inputFingerprint: string,
    dependencyOutputs: map<string, string>,
    outputFingerprint: Option<string>,
    exitStatus: int,
    success: bool,
    timedOut: bool,
    durationMs: nat,
    output: string,
    executor: string,
    source: EvidenceSource)

  /** The latest evidence for each check id. */
  type Ledger = map<string, Evidence>

  datatype Event =
    | ExecutorStarted(executorId: string, started: bool)
    | CheckResult(
        checkId: string,
        exitStatus: int,
        success: bool,
        timedOut: bool,
        output: string,
        truncated: bool,
        durationMs: nat,
        fingerprint: string,
        command: Option<string>,
        cwd: Option<string>,
        executor: Option<string>,
        source: Option<string>,
        commandFingerprint: Option<string>,
        dependencyOutputs: map<string, string>,
        outputFingerprint: Option<string>,
        reused: bool,
        skippedFor: Option<seq<string>>)

  // ---------------------------------------------------------------- rebuilding a ledger

  function OrEmpty(s: Option<string>): string {
    if s.Some? then s.value else ""
  }

  /** The evidence an event carries, if it carries any. */
  function EvidenceOf(event: Event): Option<Evidence> {
    if event.CheckResult? && event.executor.Some? && event.source.Some?
       && event.commandFingerprint.Some? && event.skippedFor.None?
    then
      var source := EvidenceSource.Parse(event.source.value);
      if source.None? then None
      else Some(Evidence(
        OrEmpty(event.command), OrEmpty(event.cwd), event.commandFingerprint.value, event.fingerprint,
        event.dependencyOutputs, event.outputFingerprint, event.exitStatus, event.success, event.timedOut,
        event.durationMs, event.output, event.executor.value, source.value))
    else None
  }

  function Absorb(ledger: Ledger, event: Event): Ledger {
    var evidence := EvidenceOf(event);
    if evidence.Some? then ledger[event.checkId := evidence.value] else ledger
  }

  function Replay(events: seq<Event>): Ledger {
    if events == [] then map[]
    else Absorb(Replay(events[..|events| - 1]), events[|events| - 1])
  }

  /** The ledger a session resumes with. */
  method FromEvents(events: seq<Event>) returns (ledger: Ledger)
    ensures ledger == Replay(events)
  {
    ledger := map[];
    for i := 0 to |events|
      invariant ledger == Replay(events[..i])
    {
      assert events[..i + 1][..i] == events[..i];
      var event := events[i];
      if event.CheckResult? && event.executor.Some? && event.source.Some?
         && event.commandFingerprint.Some? && event.skippedFor.None?
      {
        var source := EvidenceSource.Parse(event.source.value);
        if source.None? {
          continue;
        }
        ledger := ledger[event.checkId := Evidence(
          OrEmpty(event.command), OrEmpty(event.cwd), event.commandFingerprint.value, event.fingerprint,
          event.dependencyOutputs, event.outputFingerprint, event.exitStatus, event.success, event.timedOut,
          event.durationMs, event.output, event.executor.value, source.value)];
      }
    }
    assert events[..|events|] == events;
  }

  /** Evidence without the two fields a reused event does not carry over. */
  function Strip(e: Evidence): Evidence {
    e.(durationMs := 0, output := "")
  }

  ghost predicate LedgersAgree(a: Ledger, b: Ledger) {
    a.Keys == b.Keys && forall id :: id in a ==> Strip(a[id]) == Strip(b[id])
  }

  function ResultEvent(checkId: string, evidence: Evidence, output: string, truncated: bool, reused: bool): Event {
    CheckResult(
      checkId, evidence.exitStatus, evidence.success, evidence.timedOut, output, truncated,
      if reused then 0 else evidence.durationMs, evidence.inputFingerprint, Some(evidence.command), Some(evidence.cwd),
      Some(evidence.executor), Some(evidence.source.AsStr()), Some(evidence.commandFingerprint),
      evidence.dependencyOutputs, evidence.outputFingerprint, reused, None)
  }

  /** Reading an emitted result back loses at most its output text and its duration. */
  lemma ResultEventRoundTrip(checkId: string, evidence: Evidence, output: string, truncated: bool, reused: bool)
    ensures var back := EvidenceOf(ResultEvent(checkId, evidence, output, truncated, reused));
            back.Some? && Strip(back.value) == Strip(evidence)
            && (!reused ==> back.value == evidence.(output := output))
  {
    assert EvidenceSource.Parse(evidence.source.AsStr()) == Some(evidence.source);
  }

  lemma ReplaySnoc(events: seq<Event>, event: Event)
    ensures Replay(events + [event]) == Absorb(Replay(events), event)
  {
    assert (events + [event])[..|events|] == events;
  }

  // ---------------------------------------------------------------- current evidence

  datatype CommandOutput = CommandOutput(
    exitStatus: int,
    timedOut: bool,
    truncated: bool,
    durationMs: nat,
    output: string)

  /** What the checks read and run on. `W` is the whole outside world, so a nondeterministic or
      history-dependent executor is covered; `None` stands for a failed read or launch. */
  datatype Host<!W> = Host(
    captureInput: (W, seq<string>) -> Option<string>,
    captureOutput: (W, seq<string>) -> Option<Option<string>>,
    commandDigest: (string, string, string, nat) -> string,
    startExecutor: (W, string) -> (W, bool),
    runCommand: (W, Check) -> (W, Option<CommandOutput>))

  function CommandFingerprint<W>(host: Host<W>, check: Check): string {
    host.commandDigest(check.command, check.cwd, check.executor, check.timeoutSeconds)
  }

  /** A check without declared outputs has no output fingerprint and reads nothing. */
  function OutputFingerprint<W>(host: Host<W>, world: W, patterns: seq<string>): Option<Option<string>> {
    if patterns == [] then Some(None) else host.captureOutput(world, patterns)
  }

  /** What a consumer sees of a dependency: its output, or its input when it has none. */
  function OutputKey(e: Evidence): string {
    if e.outputFingerprint.Some? then e.outputFingerprint.value else e.inputFingerprint
  }

  function DependencyOutputs(ledger: Ledger, dependencies: seq<string>): map<string, string> {
    map d | d in dependencies && d in ledger :: OutputKey(ledger[d])
  }

  predicate Matches<W>(
      host: Host<W>, check: Check, evidence: Evidence,
      input: string, dependencyOutputs: map<string, string>, output: Option<string>)
  {
    && evidence.success
    && !evidence.timedOut
    && evidence.commandFingerprint == CommandFingerprint(host, check)
    && evidence.inputFingerprint == input
    && evidence.dependencyOutputs == dependencyOutputs
    && evidence.outputFingerprint == output
  }

  predicate Readable<W>(host: Host<W>, check: Check, world: W) {
    host.captureInput(world, check.inputs).Some? && OutputFingerprint(host, world, check.outputs).Some?
  }

  /** The ledger holds evidence for `id` that the world and the ledger itself still bear out. */
  predicate Fresh<W>(host: Host<W>, graph: WorkspaceGraph, ledger: Ledger, world: W, id: string) {
    && id in graph.checks
    && id in ledger
    && var check := graph.checks[id];
       && Readable(host, check, world)
       && Matches(host, check, ledger[id], host.captureInput(world, check.inputs).value,
                  DependencyOutputs(ledger, check.dependsOn), OutputFingerprint(host, world, check.outputs).value)
  }

  /** Every check `id` depends on, itself included, is known, fresh and on no cycle. */
  ghost predicate AllFresh<W>(host: Host<W>, graph: WorkspaceGraph, ledger: Ledger, world: W, id: string) {
    forall x :: Reaches(graph.CheckEdges(), id, x) ==>
                  Fresh(host, graph, ledger, world, x) && !DependsOn(graph.CheckEdges(), x, x)
  }

  // ---------------------------------------------------------------- the recursive oracle

  /** Why the oracle answered as it did, for a visit of `id`. */
  ghost predicate Justified<W>(
      host: Host<W>, graph: WorkspaceGraph, ledger: Ledger, world: W, id: string, r: Result<bool, CheckError>)
  {
    var g := graph.CheckEdges();
    match r
    case Ok(true) => AllFresh(host, graph, ledger, world, id)
    case Ok(false) => exists x :: Reaches(g, id, x) && StaleIn(host, graph, ledger, world, x)
    case Err(error) =>
      || (error.UnknownCheck? && Reaches(g, id, error.id) && error.id !in graph.checks)
      || (error.DependencyCycle? && Reaches(g, id, error.id) && DependsOn(g, error.id, error.id))
      || (error.UnreadableWorkspace?
          && exists x :: Reaches(g, id, x) && x in graph.checks && !Readable(host, graph.checks[x], world))
  }

  ghost predicate StaleIn<W>(host: Host<W>, graph: WorkspaceGraph, ledger: Ledger, world: W, x: string) {
    x in graph.checks && Readable(host, graph.checks[x], world) && !Fresh(host, graph, ledger, world, x)
  }

  /** The ids being visited form a dependency path that ends at a dependant of `id`. */
  ghost predicate LeadsTo(g: Edges, visiting: set<string>, stack: seq<string>, id: string) {
    && visiting == Elements(stack)
    && (stack == [] || (IsPath(g, stack) && Edge(g, stack[|stack| - 1], id)))
  }

  lemma ReenteredIsOnCycle(g: Edges, visiting: set<string>, stack: seq<string>, id: string)
    requires LeadsTo(g, visiting, stack, id) && id in visiting
    ensures DependsOn(g, id, id)
  {
    var i :| 0 <= i < |stack| && stack[i] == id;
    var p := stack[i + 1..] + [id];
    forall k | 0 <= k < |p| - 1 ensures Hop(g, p, k) {
      if k < |p| - 2 { assert Hop(g, stack, i + 1 + k); }
    }
    if i + 1 < |stack| { assert Hop(g, stack, i); }
    assert Joins(g, p, p[0], id);
    assert Edge(g, id, p[0]);
  }

  lemma LeadsDeeper(g: Edges, visiting: set<string>, stack: seq<string>, id: string, dependency: string)
    requires LeadsTo(g, visiting, stack, id) && Edge(g, id, dependency)
    ensures LeadsTo(g, visiting + {id}, stack + [id], dependency)
  {
    var deeper := stack + [id];
    forall k | 0 <= k < |deeper| - 1 ensures Hop(g, deeper, k) {
      if k < |stack| - 1 { assert Hop(g, stack, k); }
    }
  }

  /** The recursion inside the oracle. It shrinks the checks that are not being visited, so it ends
      on cyclic graphs too. */
  method VisitCurrent<W>(
      host: Host<W>, graph: WorkspaceGraph, ledger: Ledger, world: W, id: string,
      visiting: set<string>, ghost stack: seq<string>)
    returns (r: Result<bool, CheckError>)
    requires LeadsTo(graph.CheckEdges(), visiting, stack, id)
    ensures Justified(host, graph, ledger, world, id, r)
    ensures r == Ok(true) ==> forall x :: Reaches(graph.CheckEdges(), id, x) ==> x !in visiting
    decreases graph.checks.Keys - visiting
  {
    ghost var g := graph.CheckEdges();
    ReachesItself(g, id);
    if id in visiting {
      ReenteredIsOnCycle(g, visiting, stack, id);
      return Err(DependencyCycle(id));
    }
    if id !in graph.checks {
      return Err(UnknownCheck(id));
    }
    var check := graph.checks[id];
    for i := 0 to |check.dependsOn|
      invariant forall k, x :: 0 <= k < i && Reaches(g, check.dependsOn[k], x) ==>
        Fresh(host, graph, ledger, world, x) && !DependsOn(g, x, x) && x !in visiting + {id}
    {
      var dependency := check.dependsOn[i];
      LeadsDeeper(g, visiting, stack, id, dependency);
      var dependencyIsCurrent := VisitCurrent(host, graph, ledger, world, dependency, visiting + {id}, stack + [id]);
      if dependencyIsCurrent != Ok(true) {
        EdgeReaches(g, id, dependency);
        JustifiedUpwards(host, graph, ledger, world, id, dependency, dependencyIsCurrent);
        return dependencyIsCurrent;
      }
    }
    var dependencyOutputs := DependencyOutputs(ledger, check.dependsOn);
    var input := host.captureInput(world, check.inputs);
    if input.None? {
      return Err(UnreadableWorkspace);
    }
    var output := OutputFingerprint(host, world, check.outputs);
    if output.None? {
      return Err(UnreadableWorkspace);
    }
    var isCurrent := id in ledger && Matches(host, check, ledger[id], input.value, dependencyOutputs, output.value);
    if isCurrent {
      forall x | Reaches(g, id, x)
        ensures Fresh(host, graph, ledger, world, x) && !DependsOn(g, x, x) && x !in visiting
      {
        ReachesFirstStep(g, id, x);
      }
    } else {
      assert StaleIn(host, graph, ledger, world, id);
    }
    return Ok(isCurrent);
  }

  lemma JustifiedUpwards<W>(
      host: Host<W>, graph: WorkspaceGraph, ledger: Ledger, world: W, id: string, dependency: string,
      r: Result<bool, CheckError>)
    requires Reaches(graph.CheckEdges(), id, dependency)
    requires Justified(host, graph, ledger, world, dependency, r) && r != Ok(true)
    ensures Justified(host, graph, ledger, world, id, r)
  {
    var g := graph.CheckEdges();
    forall x | Reaches(g, dependency, x) ensures Reaches(g, id, x) {
      ReachesIsTransitive(g, id, dependency, x);
    }
  }

  /** Is the evidence for `id` current? Yes exactly when its whole dependency closure is fresh, known
      and acyclic; every other answer comes with a witness in that closure. */
  method CheckEvidenceIsCurrent<W>(host: Host<W>, graph: WorkspaceGraph, ledger: Ledger, world: W, id: string)
    returns (r: Result<bool, CheckError>)
    ensures r == Ok(true) <==> AllFresh(host, graph, ledger, world, id)
    ensures Justified(host, graph, ledger, world, id, r)
  {
    r := VisitCurrent(host, graph, ledger, world, id, {}, []);
  }

  // ---------------------------------------------------------------- what outdates evidence

  /** What a dependant compares of a dependency: the output, or the input of one without outputs. */
  ghost predicate Shows(e: Evidence, text: string) {
    match e.outputFingerprint
    case Some(output) => output == text
    case None => e.inputFingerprint == text
  }

  /** The ledger's entry for `x` against the command, the workspace and the entries of its dependencies,
      field by field. */
  ghost predicate BorneOut<W>(host: Host<W>, graph: WorkspaceGraph, ledger: Ledger, world: W, x: string) {
    && x in graph.checks && x in ledger
    && var check, e := graph.checks[x], ledger[x];
       && e.success && !e.timedOut
       && e.commandFingerprint == host.commandDigest(check.command, check.cwd, check.executor, check.timeoutSeconds)
       && host.captureInput(world, check.inputs) == Some(e.inputFingerprint)
       && (if check.outputs == [] then e.outputFingerprint == None
           else host.captureOutput(world, check.outputs) == Some(e.outputFingerprint))
       && (forall d :: d in e.dependencyOutputs <==> d in check.dependsOn && d in ledger)
       && (forall d :: d in e.dependencyOutputs && d in ledger ==> Shows(ledger[d], e.dependencyOutputs[d]))
  }

  lemma FreshIff<W>(host: Host<W>, graph: WorkspaceGraph, ledger: Ledger, world: W, x: string)
    ensures Fresh(host, graph, ledger, world, x) <==> BorneOut(host, graph, ledger, world, x)
  {
    if x in graph.checks && x in ledger {
      var e, known := ledger[x], DependencyOutputs(ledger, graph.checks[x].dependsOn);
      if BorneOut(host, graph, ledger, world, x) {
        assert e.dependencyOutputs.Keys == known.Keys;
        assert forall d :: d in known ==> Shows(ledger[d], e.dependencyOutputs[d]);
        assert e.dependencyOutputs == known;
      }
    }
  }

  /** Evidence for `id` is current if and only if the entry of each check it depends on, itself included,
      is borne out and none of these depends on itself. */
  lemma CurrentIff<W>(host: Host<W>, graph: WorkspaceGraph, ledger: Ledger, world: W, id: string)
    ensures AllFresh(host, graph, ledger, world, id) <==>
              forall x :: Reaches(graph.CheckEdges(), id, x) ==>
                BorneOut(host, graph, ledger, world, x) && !DependsOn(graph.CheckEdges(), x, x)
  {
    forall x ensures Fresh(host, graph, ledger, world, x) <==> BorneOut(host, graph, ledger, world, x) {
      FreshIff(host, graph, ledger, world, x);
    }
  }

  /** Current evidence does not stay current when a dependency of its closure comes to show something
      else, whatever the workspace then looks like: only a new run of the dependant makes it current. */
  lemma ChangedDependencyIsNoticed<W>(
      host: Host<W>, graph: WorkspaceGraph, before: Ledger, world: W, after: Ledger, later: W, id: string,
      x: string, d: string, was: string)
    requires AllFresh(host, graph, before, world, id)
    requires Reaches(graph.CheckEdges(), id, x) && Edge(graph.CheckEdges(), x, d)
    requires x in before && x in after && after[x] == before[x]
    requires d in before && Shows(before[d], was) && (d in after ==> !Shows(after[d], was))
    ensures !AllFresh(host, graph, after, later, id)
  {
    FreshIff(host, graph, before, world, x);
    FreshIff(host, graph, after, later, x);
    assert Fresh(host, graph, before, world, x);
    assert d in before[x].dependencyOutputs && Shows(before[d], before[x].dependencyOutputs[d]);
  }
}
