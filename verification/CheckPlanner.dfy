/** The workspace graph: components own paths, checks guard them. Both maps are keyed by id. */
module Workspace {
  import opened Digraph

  datatype CheckTrigger = Changed | Always | Needed

  datatype Component = Component(
    root: string,
    includes: seq<string>,
    excludes: seq<string>,
    dependsOn: seq<string>)

  datatype Check = Check(
    command: string,
    cwd: string,
    executor: string,
    components: seq<string>,
    trigger: CheckTrigger,
    inputs: seq<string>,
    outputs: seq<string>,
    dependsOn: seq<string>,
    timeoutSeconds: nat)

  datatype WorkspaceGraph = WorkspaceGraph(
    executors: set<string>,
    components: map<string, Component>,
    checks: map<string, Check>)
  {
    function CheckEdges(): Edges {
      map id | id in checks :: checks[id].dependsOn
    }

    function ComponentEdges(): Edges {
      map id | id in components :: components[id].dependsOn
    }
  }

  datatype CheckError =
    | UnknownCheck(id: string)
    | UnknownRequiredCheck(id: string)
    | DependencyCycle(id: string)
    | UnreadableWorkspace
    | UnknownExecutor(id: string)
    | ExecutorFailedToStart(id: string)
    | CommandFailedToRun(id: string)
}

/** Which checks a change calls for, and in which order they run. */
module CheckPlanner {
  import opened Wrappers
  import opened StringOrder
  import opened Digraph
  import opened Workspace

  /** Glob matching: does a list of patterns match a path? */
  type Globs = (seq<string>, string) -> bool

  datatype Reason =
    | RunsAlways
    | AffectedComponent(component: string)
    | ChangedInput(path: string)
    | RequiredByDeliveryPlan
    | DependencyOfSelected

  datatype CheckPlan = CheckPlan(
    changedPaths: seq<string>,
    affectedComponents: set<string>,
    checks: seq<string>,
    reasons: map<string, seq<Reason>>)

  // ---------------------------------------------------------------- specification

  predicate Owns(globs: Globs, component: Component, path: string) {
    var included :=
      if component.includes == [] then
        path == component.root || component.root + "/" <= path
      else
        globs(component.includes, path);
    included && !globs(component.excludes, path)
  }

  /** The names in a path, between its slashes. */
  function Names(path: string): (names: seq<string>)
    ensures names != []
  {
    if path == "" then [""]
    else
      var rest := Names(path[1..]);
      if path[0] == '/' then [""] + rest else [[path[0]] + rest[0]] + rest[1..]
  }

  lemma {:induction false} BelowIff(root: string, path: string)
    ensures path == root || root + "/" <= path <==> Names(root) <= Names(path)
  {
    if root == "" {
      assert root + "/" == "/";
      assert [""] <= Names(path) <==> Names(path)[0] == "";
      assert path != "" ==> ("/" <= path <==> path[0] == '/');
    } else if path != "" && path[0] == root[0] {
      BelowIff(root[1..], path[1..]);
      assert root + "/" == [root[0]] + (root[1..] + "/");
      assert root == [root[0]] + root[1..] && path == [path[0]] + path[1..];
      assert root + "/" <= path <==> root[1..] + "/" <= path[1..];
      NamesBegin(root, path);
    } else {
      assert (root + "/")[0] == root[0];
      NamesDiffer(root, path);
    }
  }

  lemma NamesBegin(root: string, path: string)
    requires root != "" && path != "" && root[0] == path[0]
    ensures Names(root) <= Names(path) <==> Names(root[1..]) <= Names(path[1..])
  {
    var r, p := Names(root[1..]), Names(path[1..]);
    if root[0] == '/' {
      BeginIff("", r, "", p);
    } else {
      var c := [root[0]];
      BeginIff(c + r[0], r[1..], c + p[0], p[1..]);
      BeginIff(r[0], r[1..], p[0], p[1..]);
      assert r == [r[0]] + r[1..] && p == [p[0]] + p[1..];
      assert (c + r[0])[1..] == r[0] && (c + p[0])[1..] == p[0];
    }
  }

  lemma BeginIff(x: string, r: seq<string>, y: string, p: seq<string>)
    ensures [x] + r <= [y] + p <==> x == y && r <= p
  {
    var a, b := [x] + r, [y] + p;
    assert a[1..] == r && b[1..] == p;
    if a <= b {
      assert a[0] == b[0];
      assert r == b[1..|a|] == p[..|r|];
    }
    if x == y && r <= p {
      assert b[..|a|] == [y] + p[..|r|] == a;
    }
  }

  lemma NamesDiffer(root: string, path: string)
    requires root != "" && (path == "" || path[0] != root[0])
    ensures !(Names(root) <= Names(path)) && path != root
  {
    assert Names(root)[0] == "" <==> root[0] == '/';
    assert path != "" ==> (Names(path)[0] == "" <==> path[0] == '/');
    if path != "" && path[0] != '/' && root[0] != '/' {
      assert Names(root)[0][0] == root[0] && Names(path)[0][0] == path[0];
    }
    if path == "" && root[0] == '/' {
      assert |Names(root)| > 1;
    }
  }

  /** A component without include patterns owns its root and everything below it; patterns replace that,
      and what the exclude patterns match is never owned. */
  lemma OwnsIff(globs: Globs, component: Component, path: string)
    ensures Owns(globs, component, path) <==>
              && (if component.includes == [] then Names(component.root) <= Names(path)
                  else globs(component.includes, path))
              && !globs(component.excludes, path)
  {
    BelowIff(component.root, path);
  }

  predicate Owned(graph: WorkspaceGraph, globs: Globs, path: string) {
    exists c :: c in graph.components && Owns(globs, graph.components[c], path)
  }

  /** `c` owns a changed path, or some changed path has no owner at all. */
  ghost predicate DirectlyAffected(graph: WorkspaceGraph, globs: Globs, paths: set<string>, c: string) {
    && c in graph.components
    && exists p :: p in paths && (Owns(globs, graph.components[c], p) || !Owned(graph, globs, p))
  }

  /** `c` reaches a directly affected component through `depends_on`. */
  ghost predicate Affected(graph: WorkspaceGraph, globs: Globs, paths: set<string>, c: string) {
    exists d :: DirectlyAffected(graph, globs, paths, d) && Reaches(graph.ComponentEdges(), c, d)
  }

  ghost predicate Triggered(graph: WorkspaceGraph, globs: Globs, paths: set<string>, id: string) {
    && id in graph.checks
    && var check := graph.checks[id];
       || check.trigger == Always
       || (exists c :: c in check.components && Affected(graph, globs, paths, c))
       || (exists p :: p in paths && globs(check.inputs, p))
  }

  /** `id` is a triggered check or a dependency, at any depth, of one. */
  ghost predicate Planned(graph: WorkspaceGraph, globs: Globs, paths: set<string>, id: string) {
    exists t :: Triggered(graph, globs, paths, t) && Reaches(graph.CheckEdges(), t, id)
  }

  // ---------------------------------------------------------------- dependency closure

  /** The worklist that adds every dependency of `roots`: it returns exactly what they reach,
      or fails because they reach an unknown id. */
  method AddCheckDependencies(graph: WorkspaceGraph, roots: set<string>) returns (r: Result<set<string>, CheckError>)
    ensures r.Ok? ==> forall x :: x in r.value <==> ReachedFrom(graph.CheckEdges(), roots, x)
    ensures r.Ok? ==> Closed(graph.CheckEdges(), r.value) && r.value <= graph.checks.Keys
    ensures r.Err? ==> r.error.UnknownCheck? && r.error.id !in graph.checks
                       && ReachedFrom(graph.CheckEdges(), roots, r.error.id)
  {
    ghost var g := graph.CheckEdges();
    var selected := roots;
    var pending := SetToSeq(roots);
    ghost var universe := WorklistStarts(g, roots, pending);
    while pending != []
      invariant Worklist(g, universe, roots, selected, pending, {})
      decreases universe - selected, |pending|
    {
      var id := pending[|pending| - 1];
      WorklistPops(g, universe, roots, selected, pending);
      pending := pending[..|pending| - 1];
      if id !in graph.checks {
        return Err(UnknownCheck(id));
      }
      var dependencies := graph.checks[id].dependsOn;
      ghost var known, rest := selected, pending;
      for i := 0 to |dependencies|
        invariant known <= selected && (selected == known ==> pending == rest)
        invariant id in selected && Worklist(g, universe, roots, selected, pending, {id})
        invariant forall k :: 0 <= k < i ==> dependencies[k] in selected
      {
        var dependency := dependencies[i];
        if dependency !in selected {
          WorklistGrows(g, universe, roots, selected, pending, id, dependency);
          selected := selected + {dependency};
          pending := pending + [dependency];
        }
      }
      WorklistSettles(g, universe, roots, selected, pending, id);
    }
    WorklistEnds(g, universe, roots, selected);
    return Ok(selected);
  }

  /** What the worklist keeps: everything selected is reached and known to lie in the graph's
      vocabulary, and every dependency of an id that is neither pending nor `open` is selected. */
  ghost predicate Worklist(
      g: Edges, universe: set<string>, roots: set<string>, selected: set<string>, pending: seq<string>,
      open: set<string>)
  {
    && roots <= selected <= universe
    && (forall a, b :: Edge(g, a, b) ==> b in universe)
    && (forall x :: x in pending ==> x in selected)
    && (forall x {:trigger ReachedFrom(g, roots, x)} :: x in selected ==> ReachedFrom(g, roots, x))
    && (forall x :: x in selected && x !in pending && x !in open ==> Settled(g, selected, x))
  }

  ghost predicate Settled(g: Edges, selected: set<string>, x: string) {
    x in g && forall k :: 0 <= k < |g[x]| ==> g[x][k] in selected
  }

  lemma WorklistStarts(g: Edges, roots: set<string>, pending: seq<string>) returns (universe: set<string>)
    requires Elements(pending) == roots
    ensures Worklist(g, universe, roots, roots, pending, {})
  {
    universe := roots + set a, b | a in g && b in g[a] :: b;
    forall x | x in roots ensures ReachedFrom(g, roots, x) && x in pending {
      ReachesItself(g, x);
      assert x in Elements(pending);
    }
    forall x | x in pending ensures x in roots {
      assert x in Elements(pending);
    }
  }

  lemma WorklistPops(g: Edges, universe: set<string>, roots: set<string>, selected: set<string>, pending: seq<string>)
    requires Worklist(g, universe, roots, selected, pending, {}) && pending != []
    ensures var id := pending[|pending| - 1];
            id in selected && Worklist(g, universe, roots, selected, pending[..|pending| - 1], {id})
  {
    assert pending == pending[..|pending| - 1] + [pending[|pending| - 1]];
  }

  lemma WorklistSettles(
      g: Edges, universe: set<string>, roots: set<string>, selected: set<string>, pending: seq<string>, id: string)
    requires Worklist(g, universe, roots, selected, pending, {id})
    requires Settled(g, selected, id)
    ensures Worklist(g, universe, roots, selected, pending, {})
  {
  }

  lemma WorklistGrows(
      g: Edges, universe: set<string>, roots: set<string>, selected: set<string>, pending: seq<string>, id: string,
      dependency: string)
    requires Worklist(g, universe, roots, selected, pending, {id})
    requires id in selected && Edge(g, id, dependency)
    ensures Worklist(g, universe, roots, selected + {dependency}, pending + [dependency], {id})
  {
    assert ReachedFrom(g, roots, id);
    var root :| root in roots && Reaches(g, root, id);
    EdgeReaches(g, id, dependency);
    ReachesIsTransitive(g, root, id, dependency);
    var larger := selected + {dependency};
    forall x | x in larger && x !in pending + [dependency] && x != id ensures Settled(g, larger, x) {
      assert dependency in pending + [dependency];
      assert x !in pending && x in selected;
      assert Settled(g, selected, x);
    }
  }

  lemma WorklistEnds(g: Edges, universe: set<string>, roots: set<string>, selected: set<string>)
    requires Worklist(g, universe, roots, selected, [], {})
    ensures Closed(g, selected) && selected <= g.Keys
    ensures forall x :: x in selected <==> ReachedFrom(g, roots, x)
  {
    forall a, b | a in selected && Edge(g, a, b) ensures b in selected {
      assert Settled(g, selected, a);
    }
    forall x | ReachedFrom(g, roots, x) ensures x in selected {
      var root :| root in roots && Reaches(g, root, x);
      ClosedHoldsReached(g, selected, root, x);
    }
  }

  /** Some enumeration of a set; nothing below depends on which. */
  method SetToSeq(s: set<string>) returns (r: seq<string>)
    ensures NoDuplicates(r) && Elements(r) == s
  {
    r := [];
    var rest := s;
    while rest != {}
      invariant rest <= s && Elements(r) == s - rest && NoDuplicates(r)
      decreases rest
    {
      var x :| x in rest;
      assert x !in Elements(r);
      assert Elements(r + [x]) == Elements(r) + {x};
      r := r + [x];
      rest := rest - {x};
    }
  }

  // ---------------------------------------------------------------- topological order

  /** Everything the depth-first search has finished, in finishing order. */
  ghost predicate Finished(g: Edges, selected: set<string>, visited: set<string>, ordered: seq<string>) {
    && visited == Elements(ordered)
    && visited <= selected
    && visited <= g.Keys
    && NoDuplicates(ordered)
    && Topological(g, ordered)
    && forall a, b :: a in visited && Edge(g, a, b) && b in selected ==> b in visited
  }

  /** The ids being visited form a path inside the selection. */
  ghost predicate Stack(g: Edges, selected: set<string>, visiting: set<string>, stack: seq<string>) {
    && visiting == Elements(stack)
    && visiting <= selected
    && forall i :: 0 <= i < |stack| - 1 ==> Hop(g, stack, i)
  }

  /** The error of a topological sort is justified by the selected subgraph. */
  ghost predicate Unsortable(g: Edges, selected: set<string>, error: CheckError) {
    || (error.UnknownCheck? && error.id in selected && error.id !in g)
    || (error.DependencyCycle? && Cyclic(g, selected))
  }

  lemma ReenteringStackIsCycle(g: Edges, selected: set<string>, stack: seq<string>, id: string)
    requires Stack(g, selected, Elements(stack), stack) && id in stack
    requires Edge(g, stack[|stack| - 1], id)
    ensures Cyclic(g, selected)
  {
    var i :| 0 <= i < |stack| && stack[i] == id;
    var p := stack[i..] + [id];
    forall x | x in p ensures x in selected {
      assert x in Elements(stack);
    }
    forall k | 0 <= k < |p| - 1 ensures Hop(g, p, k) {
      if k < |p| - 2 { assert Hop(g, stack, i + k); }
    }
    assert IsCycle(g, selected, p);
  }

  method Visit(
      graph: WorkspaceGraph, selected: set<string>, id: string,
      visiting: set<string>, visited: set<string>, ordered: seq<string>, ghost stack: seq<string>)
    returns (r: Option<CheckError>, visited': set<string>, ordered': seq<string>)
    requires id in selected
    requires Finished(graph.CheckEdges(), selected, visited, ordered)
    requires Stack(graph.CheckEdges(), selected, visiting, stack)
    requires stack != [] ==> Edge(graph.CheckEdges(), stack[|stack| - 1], id)
    requires visiting !! visited
    ensures r.Some? ==> Unsortable(graph.CheckEdges(), selected, r.value)
    ensures r.None? ==> Finished(graph.CheckEdges(), selected, visited', ordered')
                        && visited + {id} <= visited' && visiting !! visited'
    decreases selected - visiting, 1
  {
    ghost var g := graph.CheckEdges();
    visited', ordered' := visited, ordered;
    if id in visited {
      return None, visited', ordered';
    }
    if id in visiting {
      ReenteringStackIsCycle(g, selected, stack, id);
      return Some(DependencyCycle(id)), visited', ordered';
    }
    if id !in graph.checks {
      return Some(UnknownCheck(id)), visited', ordered';
    }
    var dependencies := graph.checks[id].dependsOn;
    ghost var deeper := stack + [id];
    for i := 0 to |dependencies|
      invariant Finished(g, selected, visited', ordered')
      invariant visited <= visited' && visiting + {id} !! visited'
      invariant forall k :: 0 <= k < i && dependencies[k] in selected ==> dependencies[k] in visited'
    {
      if dependencies[i] in selected {
        assert Edge(g, id, dependencies[i]);
        forall k | 0 <= k < |deeper| - 1 ensures Hop(g, deeper, k) {
          if k < |stack| - 1 { assert Hop(g, stack, k); }
        }
        r, visited', ordered' :=
          Visit(graph, selected, dependencies[i], visiting + {id}, visited', ordered', deeper);
        if r.Some? {
          return;
        }
      }
    }
    ghost var sorted := ordered';
    visited', ordered' := visited' + {id}, ordered' + [id];
    FinishVisit(g, selected, visited' - {id}, sorted, id);
    return None, visited', ordered';
  }

  /** Appending an id after all of its selected dependencies keeps the order sound. */
  lemma FinishVisit(g: Edges, selected: set<string>, visited: set<string>, ordered: seq<string>, id: string)
    requires Finished(g, selected, visited, ordered)
    requires id in selected && id in g && id !in visited
    requires forall b :: b in g[id] && b in selected ==> b in visited
    ensures Finished(g, selected, visited + {id}, ordered + [id])
  {
    var longer := ordered + [id];
    assert forall i :: 0 <= i < |ordered| ==> ordered[i] in Elements(ordered);
    forall i, j | 0 <= i < |longer| && 0 <= j < |longer| && Edge(g, longer[i], longer[j])
      ensures j < i
    {
      if i == |ordered| {
        assert longer[j] in Elements(ordered) + {id};
      } else {
        assert longer[i] in visited;
        assert id !in g[longer[i]];
      }
    }
  }

  /** Depth-first topological sort. It succeeds exactly when every selected id is known and the
      selected subgraph has no cycle; the roots may be tried in any order. */
  method StableTopologicalChecks(
      graph: WorkspaceGraph, selected: set<string>)
      returns (r: Result<seq<string>, CheckError>)
    ensures r.Ok? ==> NoDuplicates(r.value) && Elements(r.value) == selected
                      && Topological(graph.CheckEdges(), r.value)
    ensures r.Ok? <==> selected <= graph.checks.Keys && !Cyclic(graph.CheckEdges(), selected)
    ensures r.Err? ==> Unsortable(graph.CheckEdges(), selected, r.error)
  {
    ghost var g := graph.CheckEdges();
    var selectedIds := SetToSeq(selected);
    var visited, ordered := {}, [];
    for i := 0 to |selectedIds|
      invariant Finished(g, selected, visited, ordered)
      invariant forall k :: 0 <= k < i ==> selectedIds[k] in visited
    {
      assert selectedIds[i] in Elements(selectedIds);
      var failure: Option<CheckError>;
      failure, visited, ordered := Visit(graph, selected, selectedIds[i], {}, visited, ordered, []);
      if failure.Some? {
        return Err(failure.value);
      }
    }
    assert Elements(ordered) == selected by {
      forall x | x in selected ensures x in visited {
        assert x in Elements(selectedIds);
      }
    }
    TopologicalIsAcyclic(g, selected, ordered);
    return Ok(ordered);
  }

  // ---------------------------------------------------------------- affected components

  ghost predicate ClosedBackwards(g: Edges, s: set<string>) {
    forall a :: ClosedBackwardsAt(g, s, a)
  }

  ghost predicate ClosedBackwardsAt(g: Edges, s: set<string>, a: string) {
    forall b :: Edge(g, a, b) && b in s ==> a in s
  }

  lemma {:induction false} ClosedBackwardsHoldsPath(g: Edges, s: set<string>, p: seq<string>, n: nat)
    requires ClosedBackwards(g, s) && IsPath(g, p) && n < |p| && p[|p| - 1] in s
    ensures p[n] in s
    decreases |p| - n
  {
    if n < |p| - 1 {
      ClosedBackwardsHoldsPath(g, s, p, n + 1);
      assert ClosedBackwardsAt(g, s, p[n]);
      assert Hop(g, p, n);
    }
  }

  function OwnersOf(graph: WorkspaceGraph, globs: Globs, path: string): set<string> {
    set c | c in graph.components && Owns(globs, graph.components[c], path)
  }

  /** The owners of the changed paths, or every component once a path has no owner. */
  method DirectOwners(graph: WorkspaceGraph, globs: Globs, changedPaths: seq<string>) returns (owners: set<string>)
    ensures forall c :: c in owners <==> DirectlyAffected(graph, globs, Elements(changedPaths), c)
  {
    owners := {};
    var hasUnownedPath := false;
    for i := 0 to |changedPaths|
      invariant owners <= graph.components.Keys
      invariant hasUnownedPath <==> exists k :: 0 <= k < i && OwnersOf(graph, globs, changedPaths[k]) == {}
      invariant forall c :: c in owners <==> exists k :: 0 <= k < i && c in OwnersOf(graph, globs, changedPaths[k])
    {
      var pathOwners := OwnersOf(graph, globs, changedPaths[i]);
      if pathOwners == {} {
        hasUnownedPath := true;
      } else {
        owners := owners + pathOwners;
      }
    }
    if hasUnownedPath {
      owners := owners + graph.components.Keys;
    }
    forall c ensures c in owners <==> DirectlyAffected(graph, globs, Elements(changedPaths), c) {
      DirectlyAffectedByIndex(graph, globs, changedPaths, c);
    }
  }

  lemma DirectlyAffectedByIndex(graph: WorkspaceGraph, globs: Globs, changedPaths: seq<string>, c: string)
    ensures DirectlyAffected(graph, globs, Elements(changedPaths), c) <==>
              && c in graph.components
              && exists k :: 0 <= k < |changedPaths|
                  && (OwnersOf(graph, globs, changedPaths[k]) == {} || c in OwnersOf(graph, globs, changedPaths[k]))
  {
    forall p ensures Owned(graph, globs, p) <==> OwnersOf(graph, globs, p) != {} {
      assert forall o :: o in graph.components && Owns(globs, graph.components[o], p) <==>
               o in OwnersOf(graph, globs, p);
    }
    if DirectlyAffected(graph, globs, Elements(changedPaths), c) {
      var p :| p in Elements(changedPaths) && (Owns(globs, graph.components[c], p) || !Owned(graph, globs, p));
      var k :| 0 <= k < |changedPaths| && changedPaths[k] == p;
    }
    if k :| 0 <= k < |changedPaths| && c in graph.components
            && (OwnersOf(graph, globs, changedPaths[k]) == {} || c in OwnersOf(graph, globs, changedPaths[k])) {
      assert changedPaths[k] in Elements(changedPaths);
    }
  }

  /** One sweep of the fixpoint loop: a component with an affected dependency becomes affected. */
  method Spread(graph: WorkspaceGraph, affected: set<string>) returns (spread: set<string>, added: bool)
    requires affected <= graph.components.Keys
    ensures affected <= spread <= graph.components.Keys
    ensures added <==> spread != affected
    ensures forall c {:trigger ReachesInto(graph.ComponentEdges(), c, affected)} ::
              c in spread ==> ReachesInto(graph.ComponentEdges(), c, affected)
    ensures !added ==> ClosedBackwards(graph.ComponentEdges(), affected)
  {
    ghost var g := graph.ComponentEdges();
    spread, added := affected, false;
    forall c | c in affected ensures ReachesInto(g, c, affected) {
      ReachesItself(g, c);
    }
    var rest := graph.components.Keys;
    while rest != {}
      invariant rest <= graph.components.Keys
      invariant affected <= spread <= graph.components.Keys
      invariant added <==> spread != affected
      invariant AllReachInto(g, spread, affected)
      invariant !added ==> ClosedBackwardsOff(g, affected, rest)
      decreases rest
    {
      var id :| id in rest;
      rest := rest - {id};
      var dependencies := graph.components[id].dependsOn;
      if id !in spread && exists d :: d in dependencies && d in spread {
        ghost var d :| d in dependencies && d in spread;
        SpreadReaches(g, spread, affected, id, d);
        spread := spread + {id};
        added := true;
      } else if !added {
        ClosedOffOneMore(g, affected, rest, id);
      }
    }
  }

  lemma SpreadReaches(g: Edges, spread: set<string>, s: set<string>, id: string, d: string)
    requires AllReachInto(g, spread, s) && d in spread && Edge(g, id, d)
    ensures AllReachInto(g, spread + {id}, s)
  {
    EdgeReachesInto(g, id, d, s);
  }

  lemma ClosedOffOneMore(g: Edges, s: set<string>, rest: set<string>, id: string)
    requires ClosedBackwardsOff(g, s, rest + {id}) && id in g
    requires id in s || forall d :: d in g[id] ==> d !in s
    ensures ClosedBackwardsOff(g, s, rest)
  {
    assert ClosedBackwardsAt(g, s, id);
  }

  ghost predicate AllReachInto(g: Edges, spread: set<string>, s: set<string>) {
    forall c {:trigger ReachesInto(g, c, s)} :: c in spread ==> ReachesInto(g, c, s)
  }

  /** Nothing outside `rest` has a dependency in `s` without being in `s`. */
  ghost predicate ClosedBackwardsOff(g: Edges, s: set<string>, rest: set<string>) {
    forall a {:trigger ClosedBackwardsAt(g, s, a)} :: a in rest || ClosedBackwardsAt(g, s, a)
  }

  ghost predicate ReachesInto(g: Edges, c: string, s: set<string>) {
    exists d :: d in s && Reaches(g, c, d)
  }

  lemma EdgeReachesInto(g: Edges, c: string, d: string, s: set<string>)
    requires Edge(g, c, d) && ReachesInto(g, d, s)
    ensures ReachesInto(g, c, s)
  {
    var e :| e in s && Reaches(g, d, e);
    EdgeReaches(g, c, d);
    ReachesIsTransitive(g, c, d, e);
  }

  ghost predicate AllAffected(graph: WorkspaceGraph, globs: Globs, paths: set<string>, s: set<string>) {
    forall c {:trigger Affected(graph, globs, paths, c)} :: c in s ==> Affected(graph, globs, paths, c)
  }

  /** The fixpoint that spreads a change to every component depending on an affected one. */
  method AffectedComponents(
      graph: WorkspaceGraph, globs: Globs, changedPaths: seq<string>)
      returns (affected: set<string>)
    ensures forall c :: c in affected <==> Affected(graph, globs, Elements(changedPaths), c)
  {
    ghost var g, paths := graph.ComponentEdges(), Elements(changedPaths);
    affected := DirectOwners(graph, globs, changedPaths);
    ghost var owners := affected;
    forall c | c in affected ensures Affected(graph, globs, paths, c) {
      ReachesItself(g, c);
    }
    var added := true;
    while added
      invariant owners <= affected <= graph.components.Keys
      invariant AllAffected(graph, globs, paths, affected)
      invariant !added ==> ClosedBackwards(g, affected)
      decreases graph.components.Keys - affected, added
    {
      ghost var before := affected;
      affected, added := Spread(graph, affected);
      SpreadIsAffected(graph, globs, paths, before, affected);
    }
    forall c | Affected(graph, globs, paths, c) ensures c in affected {
      var d :| DirectlyAffected(graph, globs, paths, d) && Reaches(g, c, d);
      var p :| Joins(g, p, c, d);
      ClosedBackwardsHoldsPath(g, affected, p, 0);
    }
  }

  lemma SpreadIsAffected(
      graph: WorkspaceGraph, globs: Globs, paths: set<string>, affected: set<string>, spread: set<string>)
    requires AllAffected(graph, globs, paths, affected)
    requires forall c {:trigger ReachesInto(graph.ComponentEdges(), c, affected)} ::
               c in spread ==> ReachesInto(graph.ComponentEdges(), c, affected)
    ensures AllAffected(graph, globs, paths, spread)
  {
    var g := graph.ComponentEdges();
    forall c | c in spread ensures Affected(graph, globs, paths, c) {
      assert ReachesInto(g, c, affected);
      var d :| d in affected && Reaches(g, c, d);
      assert Affected(graph, globs, paths, d);
      var owner :| DirectlyAffected(graph, globs, paths, owner) && Reaches(g, d, owner);
      ReachesIsTransitive(g, c, d, owner);
    }
  }

  // ---------------------------------------------------------------- the plan

  /** A triggered check's reasons name each condition that triggered it, truthfully; a check that is planned
      only as a dependency says just that. */
  ghost predicate Explains(graph: WorkspaceGraph, globs: Globs, paths: set<string>, id: string, reasons: seq<Reason>) {
    && reasons != []
    && id in graph.checks
    && var check := graph.checks[id];
       && (RunsAlways in reasons <==> check.trigger == Always)
       && ((exists c :: AffectedComponent(c) in reasons) <==>
             exists c :: c in check.components && Affected(graph, globs, paths, c))
       && (forall c :: AffectedComponent(c) in reasons ==> c in check.components && Affected(graph, globs, paths, c))
       && ((exists p :: ChangedInput(p) in reasons) <==> exists p :: p in paths && globs(check.inputs, p))
       && (forall p :: ChangedInput(p) in reasons ==> p in paths && globs(check.inputs, p))
       && (DependencyOfSelected in reasons <==> !Triggered(graph, globs, paths, id))
  }

  /** `s` is the set of planned ids. */
  ghost predicate PlannedSet(graph: WorkspaceGraph, globs: Globs, paths: set<string>, s: set<string>) {
    forall x {:trigger Planned(graph, globs, paths, x)} :: x in s <==> Planned(graph, globs, paths, x)
  }

  method FirstAffected(components: seq<string>, affected: set<string>) returns (r: Option<string>)
    ensures r.Some? ==> r.value in components && r.value in affected
    ensures r.None? ==> forall c :: c in components ==> c !in affected
  {
    for i := 0 to |components|
      invariant forall k :: 0 <= k < i ==> components[k] !in affected
    {
      if components[i] in affected {
        return Some(components[i]);
      }
    }
    return None;
  }

  method FirstMatching(globs: Globs, patterns: seq<string>, paths: seq<string>) returns (r: Option<string>)
    ensures r.Some? ==> r.value in paths && globs(patterns, r.value)
    ensures r.None? ==> forall p :: p in paths ==> !globs(patterns, p)
  {
    for i := 0 to |paths|
      invariant forall k :: 0 <= k < i ==> !globs(patterns, paths[k])
    {
      if globs(patterns, paths[i]) {
        return Some(paths[i]);
      }
    }
    return None;
  }

  /** The reasons to run one check; there are some exactly when it is triggered. */
  method ReasonsFor(graph: WorkspaceGraph, globs: Globs, changedPaths: seq<string>, affected: set<string>, id: string)
    returns (reasons: seq<Reason>)
    requires forall c :: c in affected <==> Affected(graph, globs, Elements(changedPaths), c)
    requires id in graph.checks
    ensures reasons != [] <==> Triggered(graph, globs, Elements(changedPaths), id)
    ensures reasons != [] ==> Explains(graph, globs, Elements(changedPaths), id, reasons)
  {
    var check := graph.checks[id];
    var affectedComponent := FirstAffected(check.components, affected);
    var changedInput := FirstMatching(globs, check.inputs, changedPaths);
    reasons := [];
    if check.trigger == Always {
      reasons := reasons + [RunsAlways];
    }
    if affectedComponent.Some? {
      reasons := reasons + [AffectedComponent(affectedComponent.value)];
    }
    if changedInput.Some? {
      reasons := reasons + [ChangedInput(changedInput.value)];
    }
    if reasons != [] {
      ReasonsExplain(graph, globs, Elements(changedPaths), id, affectedComponent, changedInput, reasons);
    }
  }

  method TriggeredChecks(graph: WorkspaceGraph, globs: Globs, changedPaths: seq<string>, affected: set<string>)
    returns (selected: set<string>, reasons: map<string, seq<Reason>>)
    requires forall c :: c in affected <==> Affected(graph, globs, Elements(changedPaths), c)
    ensures forall id :: id in selected <==> Triggered(graph, globs, Elements(changedPaths), id)
    ensures reasons.Keys == selected
    ensures forall id :: id in selected ==> Explains(graph, globs, Elements(changedPaths), id, reasons[id])
  {
    ghost var paths := Elements(changedPaths);
    selected, reasons := {}, map[];
    var ids := SetToSeq(graph.checks.Keys);
    for i := 0 to |ids|
      invariant reasons.Keys == selected
      invariant forall id :: id in selected ==> Explains(graph, globs, paths, id, reasons[id])
      invariant forall id :: id in selected <==> id in ids[..i] && Triggered(graph, globs, paths, id)
    {
      assert ids[i] in Elements(ids);
      assert ids[..i + 1] == ids[..i] + [ids[i]];
      var checkReasons := ReasonsFor(graph, globs, changedPaths, affected, ids[i]);
      if checkReasons != [] {
        selected := selected + {ids[i]};
        reasons := reasons[ids[i] := checkReasons];
      }
    }
    forall id | Triggered(graph, globs, paths, id) ensures id in ids[..|ids|] {
      assert id in Elements(ids);
    }
  }

  lemma ReasonsExplain(
      graph: WorkspaceGraph, globs: Globs, paths: set<string>, id: string,
      affectedComponent: Option<string>, changedInput: Option<string>, reasons: seq<Reason>)
    requires id in graph.checks
    requires var check := graph.checks[id];
             && (affectedComponent.Some? ==>
                   && affectedComponent.value in check.components
                   && Affected(graph, globs, paths, affectedComponent.value))
             && (affectedComponent.None? ==> forall c :: c in check.components ==> !Affected(graph, globs, paths, c))
             && (changedInput.Some? ==> changedInput.value in paths && globs(check.inputs, changedInput.value))
             && (changedInput.None? ==> forall p :: p in paths ==> !globs(check.inputs, p))
             && reasons == (if check.trigger == Always then [RunsAlways] else [])
                           + (if affectedComponent.Some? then [AffectedComponent(affectedComponent.value)] else [])
                           + (if changedInput.Some? then [ChangedInput(changedInput.value)] else [])
    requires reasons != []
    ensures Explains(graph, globs, paths, id, reasons)
  {
    assert affectedComponent.Some? ==> AffectedComponent(affectedComponent.value) in reasons;
    assert changedInput.Some? ==> ChangedInput(changedInput.value) in reasons;
    assert Triggered(graph, globs, paths, id);
  }

  /** What a plan for `paths` promises: least fixpoints end to end, dependencies first, every check
      explained. */
  ghost predicate IsPlanFor(graph: WorkspaceGraph, globs: Globs, paths: seq<string>, plan: CheckPlan) {
    && plan.changedPaths == SortedUnique(paths)
    && (forall c :: c in plan.affectedComponents <==> Affected(graph, globs, Elements(paths), c))
    && PlannedSet(graph, globs, Elements(paths), Elements(plan.checks))
    && IsSchedule(graph, plan.checks)
    && plan.reasons.Keys == Elements(plan.checks)
    && (forall id :: id in plan.reasons ==> Explains(graph, globs, Elements(paths), id, plan.reasons[id]))
  }

  /** A duplicate-free list of known checks, closed under dependencies, dependencies first. */
  ghost predicate IsSchedule(graph: WorkspaceGraph, checks: seq<string>) {
    && Elements(checks) <= graph.checks.Keys
    && NoDuplicates(checks)
    && Closed(graph.CheckEdges(), Elements(checks))
    && Topological(graph.CheckEdges(), checks)
  }

  /** A scheduled check depends only on scheduled checks before it, so never on itself. */
  lemma ScheduledBefore(graph: WorkspaceGraph, checks: seq<string>, i: nat, x: string) returns (j: nat)
    requires IsSchedule(graph, checks) && i < |checks| && DependsOn(graph.CheckEdges(), checks[i], x)
    ensures j < i && checks[j] == x
  {
    var g := graph.CheckEdges();
    var d :| Edge(g, checks[i], d) && Reaches(g, d, x);
    var p :| Joins(g, p, d, x);
    assert checks[i] in Elements(checks) && d in Elements(checks);
    forall k | 0 <= k < |p| ensures p[k] in checks {
      ClosedHoldsPath(g, Elements(checks), p, k);
    }
    var at :| 0 <= at < |checks| && checks[at] == d;
    j := TopologicalPathFalls(g, checks, p, |p| - 1, at);
  }

  lemma ScheduledOffCycles(graph: WorkspaceGraph, checks: seq<string>, x: string)
    requires IsSchedule(graph, checks) && x in checks
    ensures !DependsOn(graph.CheckEdges(), x, x)
  {
    if DependsOn(graph.CheckEdges(), x, x) {
      var i :| 0 <= i < |checks| && checks[i] == x;
      var j := ScheduledBefore(graph, checks, i, x);
      assert false;
    }
  }

  /** Planning fails only because a planned id is unknown or the planned checks form a cycle; both
      exclude a plan, so these are exactly the failures. */
  method PlanChecksForPaths(
      graph: WorkspaceGraph, globs: Globs, paths: seq<string>)
      returns (r: Result<CheckPlan, CheckError>)
    ensures r.Ok? ==> IsPlanFor(graph, globs, paths, r.value)
    ensures r.Err? ==>
      || (r.error.UnknownCheck? && r.error.id !in graph.checks && Planned(graph, globs, Elements(paths), r.error.id))
      || (r.error.DependencyCycle?
          && exists s :: PlannedSet(graph, globs, Elements(paths), s) && Cyclic(graph.CheckEdges(), s))
  {
    var changedPaths := SortedUnique(paths);
    assert Elements(changedPaths) == Elements(paths);
    var affected := AffectedComponents(graph, globs, changedPaths);
    var triggered, reasons := TriggeredChecks(graph, globs, changedPaths, affected);
    var selected := AddCheckDependencies(graph, triggered);
    if selected.Err? {
      return Err(selected.error);
    }
    assert PlannedSet(graph, globs, Elements(paths), selected.value);
    var checks := StableTopologicalChecks(graph, selected.value);
    if checks.Err? {
      return Err(checks.error);
    }
    var allReasons := reasons + map id | id in checks.value && id !in reasons :: [DependencyOfSelected];
    RemainingAreDependencies(graph, globs, Elements(paths), triggered, reasons, checks.value, allReasons);
    return Ok(CheckPlan(changedPaths, affected, checks.value, allReasons));
  }

  lemma RemainingAreDependencies(
      graph: WorkspaceGraph, globs: Globs, paths: set<string>, triggered: set<string>,
      reasons: map<string, seq<Reason>>, checks: seq<string>, allReasons: map<string, seq<Reason>>)
    requires forall id :: id in triggered <==> Triggered(graph, globs, paths, id)
    requires reasons.Keys == triggered
    requires forall id :: id in triggered ==> Explains(graph, globs, paths, id, reasons[id])
    requires PlannedSet(graph, globs, paths, Elements(checks)) && Elements(checks) <= graph.checks.Keys
    requires allReasons == reasons + map id | id in checks && id !in reasons :: [DependencyOfSelected]
    ensures allReasons.Keys == Elements(checks)
    ensures forall id :: id in allReasons ==> Explains(graph, globs, paths, id, allReasons[id])
  {
    forall id | id in triggered ensures id in Elements(checks) {
      ReachesItself(graph.CheckEdges(), id);
      assert Planned(graph, globs, paths, id);
    }
    forall id | id in allReasons ensures Explains(graph, globs, paths, id, allReasons[id]) {
      if id !in triggered {
        assert id in Elements(checks);
        DependencyExplains(graph, globs, paths, id);
      }
    }
  }

  lemma DependencyExplains(graph: WorkspaceGraph, globs: Globs, paths: set<string>, id: string)
    requires id in graph.checks && !Triggered(graph, globs, paths, id)
    ensures Explains(graph, globs, paths, id, [DependencyOfSelected])
  {
  }

  /** A plan excludes both failures, so planning fails exactly when a planned id is unknown or the
      planned checks form a cycle. */
  lemma PlanExcludesFailure(graph: WorkspaceGraph, globs: Globs, paths: seq<string>, plan: CheckPlan, s: set<string>)
    requires IsPlanFor(graph, globs, paths, plan)
    ensures forall id :: Planned(graph, globs, Elements(paths), id) ==> id in graph.checks
    ensures PlannedSet(graph, globs, Elements(paths), s) ==> !Cyclic(graph.CheckEdges(), s)
  {
    forall id | Planned(graph, globs, Elements(paths), id) ensures id in graph.checks {
      assert id in Elements(plan.checks);
    }
    TopologicalIsAcyclic(graph.CheckEdges(), Elements(plan.checks), plan.checks);
    if PlannedSet(graph, globs, Elements(paths), s) {
      forall id ensures id in s <==> id in Elements(plan.checks) {
        assert id in s <==> Planned(graph, globs, Elements(paths), id);
      }
      assert s == Elements(plan.checks);
    }
  }

  /** One reason for every time the delivery plan names the check. */
  function RequirementsOf(required: seq<string>, id: string): seq<Reason> {
    if required == [] then []
    else
      var (init, last) := (required[..|required| - 1], required[|required| - 1]);
      RequirementsOf(init, id) + if last == id then [RequiredByDeliveryPlan] else []
  }

  lemma {:induction false} RequiredHasReasons(required: seq<string>, id: string)
    ensures RequirementsOf(required, id) != [] <==> id in required
  {
    if required != [] {
      RequiredHasReasons(required[..|required| - 1], id);
    }
  }

  function ReasonsSoFar(base: CheckPlan, required: seq<string>, id: string): seq<Reason> {
    (if id in base.reasons then base.reasons[id] else []) + RequirementsOf(required, id)
  }

  /** What the checks required by a delivery plan add to the plan `base`: their dependency closure,
      scheduled anew, and their reasons. */
  ghost predicate ExtendsPlan(graph: WorkspaceGraph, base: CheckPlan, required: seq<string>, plan: CheckPlan) {
    && Elements(required) <= graph.checks.Keys
    && plan.changedPaths == base.changedPaths
    && plan.affectedComponents == base.affectedComponents
    && IsSchedule(graph, plan.checks)
    && (forall id :: id in Elements(plan.checks) <==>
          id in Elements(base.checks) || ReachedFrom(graph.CheckEdges(), Elements(required), id))
    && plan.reasons.Keys == Elements(plan.checks)
    && forall id :: id in plan.reasons ==>
         var reasons := ReasonsSoFar(base, required, id);
         plan.reasons[id] == if reasons != [] then reasons else [DependencyOfSelected]
  }

  ghost predicate CalledFor(
      graph: WorkspaceGraph, globs: Globs, paths: seq<string>, required: seq<string>, id: string)
  {
    Planned(graph, globs, Elements(paths), id) || ReachedFrom(graph.CheckEdges(), Elements(required), id)
  }

  ghost predicate CyclicWhereCalledFor(graph: WorkspaceGraph, globs: Globs, paths: seq<string>, required: seq<string>) {
    exists s :: Cyclic(graph.CheckEdges(), s) && forall x :: x in s ==> CalledFor(graph, globs, paths, required, x)
  }

  lemma RequiredIsCalledFor(
      graph: WorkspaceGraph, globs: Globs, paths: seq<string>, base: CheckPlan, required: seq<string>, id: string)
    requires IsPlanFor(graph, globs, paths, base)
    requires ReachedFrom(graph.CheckEdges(), Elements(base.checks) + Elements(required), id)
    ensures CalledFor(graph, globs, paths, required, id)
  {
    ClosureOfRequired(graph.CheckEdges(), Elements(base.checks), Elements(required), id);
  }

  /** The reasons collected when the checks of `required` have been added. */
  ghost predicate Collected(
      base: CheckPlan, required: seq<string>, selected: set<string>, reasons: map<string, seq<Reason>>)
  {
    && selected == Elements(base.checks) + Elements(required)
    && reasons.Keys == selected
    && forall id :: id in reasons ==> reasons[id] == ReasonsSoFar(base, required, id)
  }

  /** How planning with required checks may fail. */
  ghost predicate RequiredFailure(
      graph: WorkspaceGraph, globs: Globs, paths: seq<string>, required: seq<string>, error: CheckError)
  {
    || (error.UnknownRequiredCheck? && error.id in required && error.id !in graph.checks)
    || (error.UnknownCheck? && error.id !in graph.checks && CalledFor(graph, globs, paths, required, error.id))
    || (error.DependencyCycle? && CyclicWhereCalledFor(graph, globs, paths, required))
  }

  /** Adds the checks an accepted delivery plan requires, with their dependencies; an unchanged
      workspace is left alone. */
  method PlanChecksWithRequired(graph: WorkspaceGraph, globs: Globs, paths: seq<string>, required: seq<string>)
    returns (r: Result<CheckPlan, CheckError>, ghost base: CheckPlan)
    ensures r.Ok? ==> IsPlanFor(graph, globs, paths, base)
    ensures r.Ok? ==> if paths == [] then r.value == base else ExtendsPlan(graph, base, required, r.value)
    ensures r.Err? ==> RequiredFailure(graph, globs, paths, required, r.error)
  {
    var planned := PlanChecksForPaths(graph, globs, paths);
    if planned.Err? {
      PlanningFailureIsCalledFor(graph, globs, paths, required, planned.error);
      return planned, CheckPlan([], {}, [], map[]);
    }
    var plan := planned.value;
    base := plan;
    assert paths != [] ==> paths[0] in SortedUnique(paths);
    if plan.changedPaths == [] {
      return planned, base;
    }
    var unknown, selected, reasons := AddRequired(graph, plan, required);
    if unknown.Some? {
      return Err(UnknownRequiredCheck(unknown.value)), base;
    }
    r := CloseRequired(graph, globs, paths, required, plan, selected, reasons);
  }

  lemma PlanningFailureIsCalledFor(
      graph: WorkspaceGraph, globs: Globs, paths: seq<string>, required: seq<string>, error: CheckError)
    requires
      || (error.UnknownCheck? && error.id !in graph.checks && Planned(graph, globs, Elements(paths), error.id))
      || (error.DependencyCycle?
          && exists s :: PlannedSet(graph, globs, Elements(paths), s) && Cyclic(graph.CheckEdges(), s))
    ensures RequiredFailure(graph, globs, paths, required, error)
  {
    if error.DependencyCycle? {
      var s :| PlannedSet(graph, globs, Elements(paths), s) && Cyclic(graph.CheckEdges(), s);
      assert forall x :: x in s ==> CalledFor(graph, globs, paths, required, x);
    }
  }

  /** One more requirement of a check. */
  function RequireToo(reasons: map<string, seq<Reason>>, id: string): map<string, seq<Reason>> {
    reasons[id := (if id in reasons then reasons[id] else []) + [RequiredByDeliveryPlan]]
  }

  ghost predicate Known(graph: WorkspaceGraph, ids: seq<string>) {
    forall k :: 0 <= k < |ids| ==> ids[k] in graph.checks
  }

  /** The loop over the required checks has added the first `i`. */
  ghost predicate Adding(
      graph: WorkspaceGraph, base: CheckPlan, required: seq<string>, i: nat,
      selected: set<string>, reasons: map<string, seq<Reason>>)
  {
    i <= |required| && Known(graph, required[..i]) && Collected(base, required[..i], selected, reasons)
  }

  /** The loop over the required checks; the first that is unknown ends it. */
  method AddRequired(graph: WorkspaceGraph, base: CheckPlan, required: seq<string>)
    returns (unknown: Option<string>, selected: set<string>, reasons: map<string, seq<Reason>>)
    requires base.reasons.Keys == Elements(base.checks)
    ensures unknown.Some? ==> unknown.value in required && unknown.value !in graph.checks
    ensures unknown.None? ==> Known(graph, required) && Collected(base, required, selected, reasons)
  {
    selected, reasons := Elements(base.checks), base.reasons;
    NothingRequired(graph, base, required);
    for i := 0 to |required|
      invariant Adding(graph, base, required, i, selected, reasons)
    {
      var id := required[i];
      if id !in graph.checks {
        return Some(id), selected, reasons;
      }
      RequiredNext(graph, base, required, i, selected, reasons);
      selected, reasons := selected + {id}, RequireToo(reasons, id);
    }
    assert required[..|required|] == required;
    return None, selected, reasons;
  }

  lemma NothingRequired(graph: WorkspaceGraph, base: CheckPlan, required: seq<string>)
    requires base.reasons.Keys == Elements(base.checks)
    ensures Adding(graph, base, required, 0, Elements(base.checks), base.reasons)
  {
    assert required[..0] == [] && Elements([]) == {};
  }

  lemma RequiredNext(
      graph: WorkspaceGraph, base: CheckPlan, required: seq<string>, i: nat,
      selected: set<string>, reasons: map<string, seq<Reason>>)
    requires i < |required| && required[i] in graph.checks && base.reasons.Keys == Elements(base.checks)
    requires Adding(graph, base, required, i, selected, reasons)
    ensures Adding(graph, base, required, i + 1, selected + {required[i]}, RequireToo(reasons, required[i]))
  {
    assert required[..i + 1] == required[..i] + [required[i]];
    RequiredSnoc(base, required[..i], required[i], selected, reasons);
  }

  /** The second half: dependency closure, a new schedule, and reasons for what it brought in. */
  method CloseRequired(
      graph: WorkspaceGraph, globs: Globs, paths: seq<string>, required: seq<string>, base: CheckPlan,
      selected: set<string>, reasons: map<string, seq<Reason>>)
    returns (r: Result<CheckPlan, CheckError>)
    requires IsPlanFor(graph, globs, paths, base) && Collected(base, required, selected, reasons)
    requires forall k :: 0 <= k < |required| ==> required[k] in graph.checks
    ensures r.Ok? ==> ExtendsPlan(graph, base, required, r.value)
    ensures r.Err? ==> RequiredFailure(graph, globs, paths, required, r.error)
  {
    var closed := AddCheckDependencies(graph, selected);
    if closed.Err? {
      RequiredIsCalledFor(graph, globs, paths, base, required, closed.error.id);
      return Err(closed.error);
    }
    var checks := StableTopologicalChecks(graph, closed.value);
    if checks.Err? {
      forall x | x in closed.value ensures CalledFor(graph, globs, paths, required, x) {
        RequiredIsCalledFor(graph, globs, paths, base, required, x);
      }
      return Err(checks.error);
    }
    var allReasons := reasons + map id | id in checks.value && id !in reasons :: [DependencyOfSelected];
    var plan := base.(checks := checks.value, reasons := allReasons);
    AssembleRequired(graph, base, required, reasons, plan);
    return Ok(plan);
  }

  lemma RequirementsSnoc(base: CheckPlan, required: seq<string>, id: string, x: string)
    ensures ReasonsSoFar(base, required + [id], x) ==
              ReasonsSoFar(base, required, x) + if x == id then [RequiredByDeliveryPlan] else []
  {
    assert (required + [id])[..|required|] == required;
    assert RequirementsOf(required + [id], x)
           == RequirementsOf(required, x) + if x == id then [RequiredByDeliveryPlan] else [];
  }

  lemma RequiredSnoc(
      base: CheckPlan, required: seq<string>, id: string, selected: set<string>, reasons: map<string, seq<Reason>>)
    requires base.reasons.Keys == Elements(base.checks) && Collected(base, required, selected, reasons)
    ensures Collected(base, required + [id], selected + {id}, RequireToo(reasons, id))
  {
    assert Elements(required + [id]) == Elements(required) + {id};
    if id !in selected {
      NotSelectedHasNoReasons(base, required, id);
    }
    var after := RequireToo(reasons, id);
    forall x | x in after ensures after[x] == ReasonsSoFar(base, required + [id], x) {
      RequirementsSnoc(base, required, id, x);
    }
  }

  lemma NotSelectedHasNoReasons(base: CheckPlan, required: seq<string>, id: string)
    requires base.reasons.Keys == Elements(base.checks) && id !in Elements(base.checks) + Elements(required)
    ensures ReasonsSoFar(base, required, id) == []
  {
    RequiredHasReasons(required, id);
  }

  lemma AssembleRequired(
      graph: WorkspaceGraph, base: CheckPlan, required: seq<string>, reasons: map<string, seq<Reason>>,
      plan: CheckPlan)
    requires Elements(required) <= graph.checks.Keys && IsSchedule(graph, plan.checks)
    requires plan.changedPaths == base.changedPaths && plan.affectedComponents == base.affectedComponents
    requires IsSchedule(graph, base.checks) && base.reasons.Keys == Elements(base.checks)
    requires forall id :: id in base.reasons ==> base.reasons[id] != []
    requires forall x {:trigger ReachedFrom(graph.CheckEdges(), Elements(base.checks) + Elements(required), x)} ::
               x in Elements(plan.checks) <==>
                 ReachedFrom(graph.CheckEdges(), Elements(base.checks) + Elements(required), x)
    requires Collected(base, required, Elements(base.checks) + Elements(required), reasons)
    requires plan.reasons == reasons + map id | id in plan.checks && id !in reasons :: [DependencyOfSelected]
    ensures ExtendsPlan(graph, base, required, plan)
  {
    RequiredClosure(graph.CheckEdges(), Elements(base.checks), Elements(required), Elements(plan.checks));
    RequiredReasons(base, required, reasons, plan);
  }

  lemma RequiredClosure(g: Edges, base: set<string>, required: set<string>, all: set<string>)
    requires Closed(g, base)
    requires forall x {:trigger ReachedFrom(g, base + required, x)} :: x in all <==> ReachedFrom(g, base + required, x)
    ensures forall id {:trigger ReachedFrom(g, required, id)} {:trigger id in all} ::
              id in all <==> id in base || ReachedFrom(g, required, id)
    ensures base + required <= all
  {
    forall id ensures id in all <==> id in base || ReachedFrom(g, required, id) {
      ClosureOfRequired(g, base, required, id);
    }
    forall id | id in required ensures id in all {
      ReachesItself(g, id);
      assert ReachedFrom(g, required, id);
    }
  }

  lemma RequiredReasons(base: CheckPlan, required: seq<string>, reasons: map<string, seq<Reason>>, plan: CheckPlan)
    requires base.reasons.Keys == Elements(base.checks) && forall id :: id in base.reasons ==> base.reasons[id] != []
    requires reasons.Keys == Elements(base.checks) + Elements(required) <= Elements(plan.checks)
    requires forall id :: id in reasons ==> reasons[id] == ReasonsSoFar(base, required, id)
    requires plan.reasons == reasons + map id | id in plan.checks && id !in reasons :: [DependencyOfSelected]
    ensures plan.reasons.Keys == Elements(plan.checks)
    ensures forall id :: id in plan.reasons ==>
              var so := ReasonsSoFar(base, required, id);
              plan.reasons[id] == if so != [] then so else [DependencyOfSelected]
  {
    forall id | id in plan.reasons
      ensures var so := ReasonsSoFar(base, required, id);
              plan.reasons[id] == if so != [] then so else [DependencyOfSelected]
    {
      RequiredHasReasons(required, id);
      assert id in required <==> id in Elements(required);
    }
  }

  lemma ClosureOfRequired(g: Edges, base: set<string>, required: set<string>, id: string)
    requires Closed(g, base)
    ensures ReachedFrom(g, base + required, id) <==> id in base || ReachedFrom(g, required, id)
  {
    if ReachedFrom(g, base + required, id) && !ReachedFrom(g, required, id) {
      var root :| root in base + required && Reaches(g, root, id);
      ClosedHoldsReached(g, base, root, id);
    }
    ReachesItself(g, id);
  }

  // ---------------------------------------------------------------- monotonicity

  /** Planning distributes over unions of changed paths: splitting a change loses no check and
      invents none, unowned paths included. */
  lemma PlanOfUnion(graph: WorkspaceGraph, globs: Globs, p: set<string>, q: set<string>, id: string)
    ensures Planned(graph, globs, p + q, id) <==> Planned(graph, globs, p, id) || Planned(graph, globs, q, id)
  {
    forall t
      ensures Triggered(graph, globs, p + q, t) <==> Triggered(graph, globs, p, t) || Triggered(graph, globs, q, t)
    {
      forall c { AffectedByUnion(graph, globs, p, q, c); }
    }
  }

  lemma AffectedByUnion(graph: WorkspaceGraph, globs: Globs, p: set<string>, q: set<string>, c: string)
    ensures Affected(graph, globs, p + q, c) <==> Affected(graph, globs, p, c) || Affected(graph, globs, q, c)
  {
    assert forall d :: DirectlyAffected(graph, globs, p + q, d) <==>
                       DirectlyAffected(graph, globs, p, d) || DirectlyAffected(graph, globs, q, d);
  }
}
