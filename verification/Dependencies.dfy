/**
 The dependency graph of a configuration: the validator that rejects unknown references and cycles
 (dockfleet/cli/config.py, `validate_depends_on`) and the separately written topological sort that `up` and `down` use
 (dockfleet/core/orchestrator.py, `_resolve_service_order`).
 */
module Dependencies {
  import opened Wrappers

  /** The services in configuration order; `dependsOn` has an entry, maybe empty, for each of them. */
  datatype Graph = Graph(names: seq<Name>, dependsOn: map<Name, seq<Name>>) {
    ghost predicate Valid() {
      && Distinct(names)
      && forall name :: name in names <==> name in dependsOn
    }

    predicate Edge(from: Name, to: Name) {
      from in dependsOn && to in dependsOn && to in dependsOn[from]
    }

    ghost predicate AllDefined() {
      forall name, dep | name in dependsOn && dep in dependsOn[name] :: dep in dependsOn
    }

    ghost predicate IsWalk(walk: seq<Name>) {
      |walk| > 1 ==>
        var n := |walk| - 1;
        IsWalk(walk[..n]) && Edge(walk[n - 1], walk[n])
    }

    ghost predicate IsClosedWalk(walk: seq<Name>) {
      |walk| >= 2 && walk[0] == walk[|walk| - 1] && IsWalk(walk)
    }

    ghost predicate Acyclic() {
      forall walk :: !IsClosedWalk(walk)
    }

    /** Nothing twice, and every service after everything it depends on. */
    ghost predicate IsOrdered(order: seq<Name>) {
      order != [] ==>
        var earlier, last := order[..|order| - 1], order[|order| - 1];
        && IsOrdered(earlier)
        && last in dependsOn && last !in earlier
        && forall dep | Edge(last, dep) :: dep in earlier
    }
  }

  ghost predicate Distinct(names: seq<Name>) {
    names != [] ==> Distinct(names[..|names| - 1]) && names[|names| - 1] !in names[..|names| - 1]
  }

  // ---------------------------------------------------------------- orders and cycles

  lemma {:induction false} WalkStep(g: Graph, walk: seq<Name>, i: nat)
    requires g.IsWalk(walk) && 0 < i < |walk|
    ensures g.Edge(walk[i - 1], walk[i])
  {
    if i < |walk| - 1 {
      WalkStep(g, walk[..|walk| - 1], i);
    }
  }

  /** In an order a service comes after what it depends on. */
  lemma {:induction false} DependencyIsEarlier(g: Graph, order: seq<Name>, place: nat, dep: Name) returns (earlier: nat)
    requires g.IsOrdered(order) && place < |order| && g.Edge(order[place], dep)
    ensures earlier < place && order[earlier] == dep
  {
    if place < |order| - 1 {
      earlier := DependencyIsEarlier(g, order[..|order| - 1], place, dep);
    } else {
      earlier :| 0 <= earlier < place && order[..place][earlier] == dep;
    }
  }

  lemma {:induction false} DistinctPlaces(names: seq<Name>, i: nat, j: nat)
    requires Distinct(names) && i < j < |names|
    ensures names[i] != names[j]
  {
    if j < |names| - 1 {
      DistinctPlaces(names[..|names| - 1], i, j);
    }
  }

  lemma {:induction false} OrderedIsDistinct(g: Graph, order: seq<Name>)
    requires g.IsOrdered(order)
    ensures Distinct(order)
  {
    if order != [] {
      OrderedIsDistinct(g, order[..|order| - 1]);
    }
  }

  /** Along a walk through an order, positions go down. */
  lemma {:induction false} WalkGoesDown(g: Graph, order: seq<Name>, walk: seq<Name>, first: nat, i: nat)
    returns (place: nat)
    requires g.IsOrdered(order) && g.IsWalk(walk) && i < |walk|
    requires first < |order| && order[first] == walk[0]
    ensures place < |order| && order[place] == walk[i]
    ensures place <= first && (i > 0 ==> place < first)
  {
    if i == 0 {
      place := first;
    } else {
      var before := WalkGoesDown(g, order, walk, first, i - 1);
      WalkStep(g, walk, i);
      place := DependencyIsEarlier(g, order, before, walk[i]);
    }
  }

  /** When every service can be put after all it depends on, there is no cycle. */
  lemma OrderedMeansAcyclic(g: Graph, order: seq<Name>)
    requires g.IsOrdered(order) && forall name | name in g.dependsOn :: name in order
    ensures g.Acyclic()
  {
    forall walk
      ensures !g.IsClosedWalk(walk)
    {
      if g.IsClosedWalk(walk) {
        WalkStep(g, walk, 1);
        var first :| 0 <= first < |order| && order[first] == walk[0];
        var place := WalkGoesDown(g, order, walk, first, |walk| - 1);
        OrderedIsDistinct(g, order);
        DistinctPlaces(order, place, first);
      }
    }
  }

  lemma {:induction false} WalkEnd(g: Graph, path: seq<Name>, start: nat)
    requires g.IsWalk(path) && start < |path|
    ensures g.IsWalk(path[start..])
  {
    var n := |path| - 1;
    if start < n {
      WalkEnd(g, path[..n], start);
      assert path[start..][..n - start] == path[..n][start..];
    }
  }

  lemma {:induction false} DistinctEnd(names: seq<Name>, start: nat)
    requires Distinct(names) && start <= |names|
    ensures Distinct(names[start..])
  {
    var n := |names| - 1;
    if start <= n {
      DistinctEnd(names[..n], start);
      assert names[start..][..n - start] == names[..n][start..];
    }
  }

  lemma WalkGrows(g: Graph, path: seq<Name>, name: Name)
    requires g.IsWalk(path) && (path != [] ==> g.Edge(path[|path| - 1], name))
    ensures g.IsWalk(path + [name])
  {
    assert (path + [name])[..|path|] == path;
  }

  lemma DistinctGrows(names: seq<Name>, name: Name)
    requires Distinct(names) && name !in names
    ensures Distinct(names + [name])
  {
    assert (names + [name])[..|names|] == names;
  }

  /** The end of a path that comes back to a service on it is a closed walk, and passes no service twice. */
  lemma WalkCloses(g: Graph, path: seq<Name>, start: nat, name: Name)
    requires g.IsWalk(path) && Distinct(path) && start < |path| && path[start] == name && name !in path[..start]
    requires g.Edge(path[|path| - 1], name)
    ensures g.IsClosedWalk(path[start..] + [name]) && Distinct((path[start..] + [name])[1..])
  {
    WalkEnd(g, path, start);
    WalkGrows(g, path[start..], name);
    DistinctEnd(path, start + 1);
    forall j | start < j < |path|
      ensures path[j] != name
    {
      DistinctPlaces(path, start, j);
    }
    DistinctGrows(path[start + 1..], name);
    assert (path[start..] + [name])[1..] == path[start + 1..] + [name];
  }

  function IndexOf(names: seq<Name>, name: Name): (i: nat)
    requires name in names
    ensures i < |names| && names[i] == name
    ensures name !in names[..i]
  {
    if names[0] == name then 0 else 1 + IndexOf(names[1..], name)
  }

  // ---------------------------------------------------------------- what both searches keep

  /** A walk through exactly the services being visited, none twice. */
  ghost predicate IsPath(g: Graph, path: seq<Name>, visiting: set<Name>) {
    if path == [] then visiting == {}
    else
      var n := |path| - 1;
      && path[n] in visiting && (n > 0 ==> g.Edge(path[n - 1], path[n]))
      && IsPath(g, path[..n], visiting - {path[n]})
  }

  /** The finished services, each after all it depends on. */
  ghost predicate IsFinished(g: Graph, order: seq<Name>, visited: set<Name>) {
    if order == [] then visited == {}
    else
      var n := |order| - 1;
      && order[n] in visited && order[n] in g.dependsOn
      && (forall dep | g.Edge(order[n], dep) :: dep in visited - {order[n]})
      && IsFinished(g, order[..n], visited - {order[n]})
  }

  lemma {:induction false} PathIsAWalk(g: Graph, path: seq<Name>, visiting: set<Name>)
    requires IsPath(g, path, visiting)
    ensures g.IsWalk(path) && Distinct(path)
    ensures forall name :: name in path <==> name in visiting
  {
    if path != [] {
      var n := |path| - 1;
      PathIsAWalk(g, path[..n], visiting - {path[n]});
      assert path == path[..n] + [path[n]];
    }
  }

  lemma {:induction false} FinishedIsOrdered(g: Graph, order: seq<Name>, visited: set<Name>)
    requires IsFinished(g, order, visited)
    ensures g.IsOrdered(order)
    ensures forall name :: name in order <==> name in visited
    ensures visited <= g.dependsOn.Keys
  {
    if order != [] {
      var n := |order| - 1;
      FinishedIsOrdered(g, order[..n], visited - {order[n]});
      assert order == order[..n] + [order[n]];
    }
  }

  lemma PathGrows(g: Graph, path: seq<Name>, visiting: set<Name>, name: Name)
    requires IsPath(g, path, visiting) && name !in visiting
    requires path != [] ==> g.Edge(path[|path| - 1], name)
    ensures IsPath(g, path + [name], visiting + {name})
  {
    assert (path + [name])[..|path|] == path && visiting + {name} - {name} == visiting;
  }

  lemma FinishedGrows(g: Graph, order: seq<Name>, visited: set<Name>, name: Name)
    requires IsFinished(g, order, visited) && name in g.dependsOn && name !in visited
    requires forall dep | g.Edge(name, dep) :: dep in visited
    ensures IsFinished(g, order + [name], visited + {name})
  {
    assert (order + [name])[..|order|] == order && visited + {name} - {name} == visited;
  }

  /** Meeting a service of the path again closes a cycle. */
  lemma PathCloses(g: Graph, path: seq<Name>, visiting: set<Name>, name: Name) returns (start: nat)
    requires IsPath(g, path, visiting) && name in visiting && g.Edge(path[|path| - 1], name)
    ensures name in path && start == IndexOf(path, name)
    ensures g.IsClosedWalk(path[start..] + [name]) && Distinct((path[start..] + [name])[1..])
  {
    PathIsAWalk(g, path, visiting);
    start := IndexOf(path, name);
    WalkCloses(g, path, start, name);
  }

  // ---------------------------------------------------------------- the validator

  datatype Rejection = Unknown(service: Name, dep: Name) | Circular(cycle: seq<Name>)

  class CycleFinder {
    const graph: Graph
    var visited: set<Name>
    var visiting: set<Name>
    var path: seq<Name>
    ghost var finished: seq<Name>

    constructor (graph: Graph)
      ensures this.graph == graph && Valid() && path == []
    {
      this.graph := graph;
      visited, visiting, path, finished := {}, {}, [], [];
    }

    /** `visiting` is the path walked so far; `finished` lists `visited` with dependencies first. */
    ghost predicate Valid()
      reads this
    {
      && IsPath(graph, path, visiting) && IsFinished(graph, finished, visited)
      && visited !! visiting
    }

    method Enter(name: Name)
      requires Valid() && name in graph.dependsOn && name !in visiting && name !in visited
      requires path != [] ==> graph.Edge(path[|path| - 1], name)
      modifies this
      ensures Valid()
      ensures path == old(path) + [name] && visiting == old(visiting) + {name} && visited == old(visited)
    {
      PathGrows(graph, path, visiting, name);
      visiting := visiting + {name};
      path := path + [name];
    }

    method Leave(name: Name)
      requires Valid() && path != [] && path[|path| - 1] == name && name in graph.dependsOn
      requires forall dep | dep in graph.dependsOn[name] :: dep in visited
      modifies this
      ensures Valid()
      ensures path == old(path)[..|old(path)| - 1] && visiting == old(visiting) - {name}
          && visited == old(visited) + {name}
    {
      FinishedGrows(graph, finished, visited, name);
      path := path[..|path| - 1];
      visiting := visiting - {name};
      visited := visited + {name};
      finished := finished + [name];
    }

    /** The recursion ends because every nested visit enters one more service. */
    method Visit(name: Name) returns (cycle: Option<seq<Name>>)
      requires Valid() && name in graph.dependsOn && graph.AllDefined()
      requires path != [] ==> graph.Edge(path[|path| - 1], name)
      modifies this
      ensures cycle.Some? ==> graph.IsClosedWalk(cycle.value) && Distinct(cycle.value[1..])
      ensures cycle.None? ==>
                && Valid() && path == old(path) && visiting == old(visiting)
                && old(visited) <= visited && name in visited
      decreases |graph.dependsOn.Keys - visited - visiting|, 0
    {
      if name in visiting {
        ghost var start := PathCloses(graph, path, visiting, name);
        return Some(path[IndexOf(path, name)..] + [name]);
      }
      if name in visited {
        return None;
      }
      OneLeftLess(graph.dependsOn.Keys, visited, visiting, name);
      Enter(name);
      cycle := VisitDependencies(name);
      if cycle.None? {
        Leave(name);
        assert path == old(path) && visiting == old(visiting);
      }
    }

    method VisitDependencies(name: Name) returns (cycle: Option<seq<Name>>)
      requires graph.AllDefined() && Valid() && path != [] && path[|path| - 1] == name && name in graph.dependsOn
      modifies this
      ensures cycle.Some? ==> graph.IsClosedWalk(cycle.value) && Distinct(cycle.value[1..])
      ensures cycle.None? ==>
                && Valid() && path == old(path) && visiting == old(visiting) && old(visited) <= visited
                && forall dep | dep in graph.dependsOn[name] :: dep in visited
      decreases |graph.dependsOn.Keys - visited - visiting|, 1
    {
      var deps := graph.dependsOn[name];
      for i := 0 to |deps|
        invariant Valid() && path == old(path) && visiting == old(visiting) && old(visited) <= visited
        invariant forall k | 0 <= k < i :: deps[k] in visited
      {
        NoMoreLeft(graph.dependsOn.Keys, old(visited), visited, visiting);
        cycle := Visit(deps[i]);
        if cycle.Some? {
          return;
        }
      }
      return None;
    }
  }

  lemma OneLeftLess(all: set<Name>, visited: set<Name>, visiting: set<Name>, name: Name)
    requires name in all - visited - visiting
    ensures |all - visited - (visiting + {name})| < |all - visited - visiting|
  {
    assert all - visited - visiting == all - visited - (visiting + {name}) + {name};
  }

  lemma NoMoreLeft(all: set<Name>, visited: set<Name>, later: set<Name>, visiting: set<Name>)
    requires visited <= later
    ensures |all - later - visiting| <= |all - visited - visiting|
  {
    var a, b := all - later - visiting, all - visited - visiting;
    assert b == a + (b - a);
  }

  /** Accepts exactly the configurations whose dependencies are all defined and whose graph has no cycle. */
  method ValidateDependsOn(graph: Graph) returns (rejection: Option<Rejection>)
    requires graph.Valid()
    ensures rejection.None? <==> graph.AllDefined() && graph.Acyclic()
    ensures rejection.Some? && rejection.value.Unknown? <==> !graph.AllDefined()
    ensures rejection.Some? && rejection.value.Unknown? ==>
              && rejection.value.service in graph.dependsOn && rejection.value.dep !in graph.dependsOn
              && rejection.value.dep in graph.dependsOn[rejection.value.service]
    ensures rejection.Some? && rejection.value.Circular? ==>
              graph.IsClosedWalk(rejection.value.cycle) && Distinct(rejection.value.cycle[1..])
  {
    for i := 0 to |graph.names|
      invariant forall k, dep | 0 <= k < i && dep in graph.dependsOn[graph.names[k]] :: dep in graph.dependsOn
    {
      var name := graph.names[i];
      var deps := graph.dependsOn[name];
      for j := 0 to |deps|
        invariant forall k | 0 <= k < j :: deps[k] in graph.dependsOn
      {
        if deps[j] !in graph.dependsOn {
          return Some(Unknown(name, deps[j]));
        }
      }
    }
    assert graph.AllDefined();
    var finder := new CycleFinder(graph);
    for i := 0 to |graph.names|
      invariant finder.Valid() && finder.graph == graph && finder.path == [] && fresh(finder)
      invariant forall k | 0 <= k < i :: graph.names[k] in finder.visited
    {
      var cycle := finder.Visit(graph.names[i]);
      if cycle.Some? {
        return Some(Circular(cycle.value));
      }
    }
    FinishedIsOrdered(graph, finder.finished, finder.visited);
    OrderedMeansAcyclic(graph, finder.finished);
    return None;
  }

  // ---------------------------------------------------------------- the start order

  class ServiceSorter {
    const graph: Graph
    var visited: set<Name>
    var visiting: set<Name>
    var order: seq<Name>
    ghost var path: seq<Name>

    constructor (graph: Graph)
      ensures this.graph == graph && Valid() && path == []
    {
      this.graph := graph;
      visited, visiting, order, path := {}, {}, [], [];
    }

    ghost predicate Valid()
      reads this
    {
      && IsPath(graph, path, visiting) && IsFinished(graph, order, visited)
      && visited !! visiting
    }

    method Enter(name: Name)
      requires Valid() && name in graph.dependsOn && name !in visiting && name !in visited
      requires path != [] ==> graph.Edge(path[|path| - 1], name)
      modifies this
      ensures Valid()
      ensures path == old(path) + [name] && visiting == old(visiting) + {name} && visited == old(visited)
    {
      PathGrows(graph, path, visiting, name);
      visiting := visiting + {name};
      path := path + [name];
    }

    method Leave(name: Name)
      requires Valid() && path != [] && path[|path| - 1] == name && name in graph.dependsOn
      requires forall dep | graph.Edge(name, dep) :: dep in visited
      modifies this
      ensures Valid()
      ensures path == old(path)[..|old(path)| - 1] && visiting == old(visiting) - {name}
          && visited == old(visited) + {name}
    {
      FinishedGrows(graph, order, visited, name);
      path := path[..|path| - 1];
      visiting := visiting - {name};
      visited := visited + {name};
      order := order + [name];
    }

    /** False stands for the error; then the graph has a cycle. Dependencies that are not services are skipped. */
    method Visit(name: Name) returns (ok: bool)
      requires Valid() && name in graph.dependsOn
      requires path != [] ==> graph.Edge(path[|path| - 1], name)
      modifies this
      ensures !ok ==> !graph.Acyclic()
      ensures ok ==>
                && Valid() && path == old(path) && visiting == old(visiting)
                && old(visited) <= visited && name in visited
      decreases |graph.dependsOn.Keys - visited - visiting|, 0
    {
      if name in visiting {
        ghost var start := PathCloses(graph, path, visiting, name);
        return false;
      }
      if name in visited {
        return true;
      }
      OneLeftLess(graph.dependsOn.Keys, visited, visiting, name);
      Enter(name);
      ok := VisitDependencies(name);
      if ok {
        Leave(name);
        assert path == old(path) && visiting == old(visiting);
      }
    }

    method VisitDependencies(name: Name) returns (ok: bool)
      requires Valid() && path != [] && path[|path| - 1] == name && name in graph.dependsOn
      modifies this
      ensures !ok ==> !graph.Acyclic()
      ensures ok ==>
                && Valid() && path == old(path) && visiting == old(visiting) && old(visited) <= visited
                && forall dep | graph.Edge(name, dep) :: dep in visited
      decreases |graph.dependsOn.Keys - visited - visiting|, 1
    {
      var deps := graph.dependsOn[name];
      for i := 0 to |deps|
        invariant Valid() && path == old(path) && visiting == old(visiting) && old(visited) <= visited
        invariant forall k | 0 <= k < i && deps[k] in graph.dependsOn :: deps[k] in visited
      {
        if deps[i] in graph.dependsOn {
          NoMoreLeft(graph.dependsOn.Keys, old(visited), visited, visiting);
          ok := Visit(deps[i]);
          if !ok {
            return;
          }
        }
      }
      return true;
    }
  }

  /** Fails exactly on cyclic graphs; otherwise every service once, with all its dependencies before it. */
  method ResolveServiceOrder(graph: Graph) returns (order: Option<seq<Name>>)
    requires graph.Valid()
    ensures order.Some? <==> graph.Acyclic()
    ensures order.Some? ==> graph.IsOrdered(order.value) && multiset(order.value) == multiset(graph.names)
  {
    var sorter := new ServiceSorter(graph);
    for i := 0 to |graph.names|
      invariant sorter.Valid() && sorter.graph == graph && sorter.path == [] && fresh(sorter)
      invariant forall k | 0 <= k < i :: graph.names[k] in sorter.visited
    {
      var ok := sorter.Visit(graph.names[i]);
      if !ok {
        return None;
      }
    }
    FinishedIsOrdered(graph, sorter.order, sorter.visited);
    OrderedMeansAcyclic(graph, sorter.order);
    OrderedIsDistinct(graph, sorter.order);
    SameNames(sorter.order, graph.names);
    return Some(sorter.order);
  }

  lemma {:induction false} CountOfDistinct(names: seq<Name>, name: Name)
    requires Distinct(names)
    ensures multiset(names)[name] == if name in names then 1 else 0
  {
    if names != [] {
      var n := |names| - 1;
      CountOfDistinct(names[..n], name);
      assert names == names[..n] + [names[n]];
    }
  }

  lemma SameNames(a: seq<Name>, b: seq<Name>)
    requires Distinct(a) && Distinct(b) && forall name :: name in a <==> name in b
    ensures multiset(a) == multiset(b)
  {
    forall name
      ensures multiset(a)[name] == multiset(b)[name]
    {
      CountOfDistinct(a, name);
      CountOfDistinct(b, name);
    }
  }

  // ---------------------------------------------------------------- up and down

  /** The names, in order, that Docker does not manage to start or stop. */
  function Failures(names: seq<Name>, succeeds: set<Name>): (failed: seq<Name>)
    ensures forall name :: name in failed <==> name in names && name !in succeeds
  {
    if names == [] then []
    else
      var n := |names| - 1;
      Failures(names[..n], succeeds) + if names[n] in succeeds then [] else [names[n]]
  }

  /** A service joins the failures, at their end, exactly when Docker does not manage it. */
  lemma FailuresOfOneMore(names: seq<Name>, name: Name, succeeds: set<Name>)
    ensures Failures(names + [name], succeeds)
         == if name in succeeds then Failures(names, succeeds) else Failures(names, succeeds) + [name]
  {
    assert (names + [name])[..|names|] == names;
  }

  lemma SplitLast(a: seq<Name>, b: seq<Name>) returns (front: seq<Name>, last: Name)
    requires b != []
    ensures b == front + [last] && a + b == (a + front) + [last] && |front| < |b|
  {
    front, last := b[..|b| - 1], b[|b| - 1];
  }

  lemma Appended(a: seq<Name>, b: seq<Name>, name: Name)
    ensures a + b + [name] == a + (b + [name])
  {
  }

  /** The failures of a list are those of its parts, in the same order. */
  lemma {:induction false} FailuresInOrder(a: seq<Name>, b: seq<Name>, succeeds: set<Name>)
    ensures Failures(a + b, succeeds) == Failures(a, succeeds) + Failures(b, succeeds)
    decreases |b|
  {
    if b == [] {
      assert a + b == a && Failures(a, succeeds) + [] == Failures(a, succeeds);
    } else {
      var front, last := SplitLast(a, b);
      FailuresInOrder(a, front, succeeds);
      FailuresOfOneMore(a + front, last, succeeds);
      FailuresOfOneMore(front, last, succeeds);
      Appended(Failures(a, succeeds), Failures(front, succeeds), last);
    }
  }

  function Reversed(names: seq<Name>): (r: seq<Name>)
    ensures |r| == |names| && forall i | 0 <= i < |r| :: r[i] == names[|names| - 1 - i]
  {
    if names == [] then [] else [names[|names| - 1]] + Reversed(names[..|names| - 1])
  }

  /** What is attempted in a row, and what of it failed. */
  datatype Report = Report(attempted: seq<Name>, failed: seq<Name>)

  method AttemptAll(names: seq<Name>, succeeds: set<Name>) returns (report: Report)
    ensures report == Report(names, Failures(names, succeeds))
  {
    var attempted: seq<Name>, failed: seq<Name> := [], [];
    for i := 0 to |names|
      invariant attempted == names[..i] && failed == Failures(names[..i], succeeds)
    {
      attempted := attempted + [names[i]];
      assert names[..i + 1][..i] == names[..i];
      if names[i] !in succeeds {
        failed := failed + [names[i]];
      }
    }
    assert names[..|names|] == names;
    return Report(attempted, failed);
  }

  /**
   Attempts every service once, each after all it depends on, whatever failed before; reports exactly the failures.
   */
  method Up(graph: Graph, succeeds: set<Name>) returns (report: Option<Report>)
    requires graph.Valid()
    ensures report.Some? <==> graph.Acyclic()
    ensures report.Some? ==>
              && graph.IsOrdered(report.value.attempted) && multiset(report.value.attempted) == multiset(graph.names)
              && report.value.failed == Failures(report.value.attempted, succeeds)
  {
    var order := ResolveServiceOrder(graph);
    if order.None? {
      return None;
    }
    var attempts := AttemptAll(order.value, succeeds);
    return Some(attempts);
  }

  /** Every service is stopped before anything it depends on. */
  ghost predicate StopsDependentsFirst(graph: Graph, attempted: seq<Name>) {
    forall i, j | 0 <= i < |attempted| && 0 <= j < |attempted| && graph.Edge(attempted[i], attempted[j]) :: i < j
  }

  lemma ReversedStopsDependentsFirst(graph: Graph, order: seq<Name>)
    requires graph.IsOrdered(order)
    ensures StopsDependentsFirst(graph, Reversed(order))
  {
    var attempted, n := Reversed(order), |order|;
    forall i, j | 0 <= i < n && 0 <= j < n && graph.Edge(attempted[i], attempted[j])
      ensures i < j
    {
      var place := DependencyIsEarlier(graph, order, n - 1 - i, order[n - 1 - j]);
      OrderedIsDistinct(graph, order);
      if place < n - 1 - j {
        DistinctPlaces(order, place, n - 1 - j);
      } else if n - 1 - j < place {
        DistinctPlaces(order, n - 1 - j, place);
      }
    }
  }

  lemma {:induction false} ReversedHasTheSame(names: seq<Name>)
    ensures multiset(Reversed(names)) == multiset(names)
  {
    if names != [] {
      var n := |names| - 1;
      ReversedHasTheSame(names[..n]);
      assert names == names[..n] + [names[n]];
    }
  }

  method Down(graph: Graph, succeeds: set<Name>) returns (report: Option<Report>)
    requires graph.Valid()
    ensures report.Some? <==> graph.Acyclic()
    ensures report.Some? ==>
              && StopsDependentsFirst(graph, report.value.attempted)
              && multiset(report.value.attempted) == multiset(graph.names)
              && report.value.failed == Failures(report.value.attempted, succeeds)
  {
    var order := ResolveServiceOrder(graph);
    if order.None? {
      return None;
    }
    ReversedStopsDependentsFirst(graph, order.value);
    ReversedHasTheSame(order.value);
    var attempts := AttemptAll(Reversed(order.value), succeeds);
    return Some(attempts);
  }

  /**
   An accepted configuration always comes up and goes down: the sort never finds a cycle that the validator missed.
   */
  method AcceptedIsDeployable(graph: Graph, starts: set<Name>, stops: set<Name>)
    returns (rejection: Option<Rejection>, up: Option<Report>, down: Option<Report>)
    requires graph.Valid()
    ensures rejection.None? ==> up.Some? && down.Some?
    ensures rejection.Some? && rejection.value.Circular? ==> up.None? && down.None?
  {
    rejection := ValidateDependsOn(graph);
    up := Up(graph, starts);
    down := Down(graph, stops);
  }
}
