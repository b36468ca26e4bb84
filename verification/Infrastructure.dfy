/** Dependency check of infrastructure resources: `validate_infrastructure_dependencies`. */
module Infrastructure {
  import opened Prelude
  import opened Desired
  import opened Graph

  /** The depth-first search over the enabled resources. */
  class DependencySearch {
    const graph: Graph
    var visiting: set<string>
    var visited: set<string>

    constructor (graph: Graph)
      ensures this.graph == graph && visiting == {} && visited == {}
    {
      this.graph := graph;
      visiting, visited := {}, {};
    }

    /** The finished nodes are closed under dependencies and on no cycle. */
    ghost predicate Valid()
      reads this
    {
      && (forall a, b :: Edge(graph, a, b) ==> b in graph)
      && visiting <= graph.Keys && visited <= graph.Keys && visiting !! visited
      && ClosedUnder(graph, visited)
      && forall a :: a in visited ==> !Leads(graph, a, a)
    }

    method Visit(id: string) returns (ok: bool)
      requires Valid() && id in graph
      requires forall v :: v in visiting ==> Leads(graph, v, id)
      modifies this
      ensures ok ==> Valid() && visiting == old(visiting) && old(visited) <= visited && id in visited
      ensures !ok ==> !Acyclic(graph)
      decreases graph.Keys - visiting
    {
      if id in visited {
        return true;
      }
      if id in visiting {
        return false;
      }
      visiting := visiting + {id};
      var dependencies := graph[id];
      for i := 0 to |dependencies|
        invariant Valid() && visiting == old(visiting) + {id} && old(visited) <= visited
        invariant forall k :: 0 <= k < i ==> dependencies[k] in visited
      {
        assert Edge(graph, id, dependencies[i]);
        EdgeReaches(graph, id, dependencies[i]);
        forall v | v in visiting ensures Leads(graph, v, dependencies[i]) {
          if v != id {
            LeadsThenReaches(graph, v, id, dependencies[i]);
          }
        }
        ok := Visit(dependencies[i]);
        if !ok {
          return false;
        }
      }
      NotOnCycle(id);
      visiting := visiting - {id};
      visited := visited + {id};
      return true;
    }

    lemma NotOnCycle(id: string)
      requires Valid() && id in visiting && forall m :: Edge(graph, id, m) ==> m in visited
      ensures !Leads(graph, id, id)
    {
      if Leads(graph, id, id) {
        var m :| Edge(graph, id, m) && Reaches(graph, m, id);
        ClosedSetConfines(graph, visited, m, id);
      }
    }
  }

  function Enabled(resources: seq<InfrastructureResource>): (r: seq<InfrastructureResource>)
    ensures forall x :: x in r <==> x in resources && x.enabled
  {
    if resources == [] then []
    else
      assert resources == [resources[0]] + resources[1..];
      (if resources[0].enabled then [resources[0]] else []) + Enabled(resources[1..])
  }

  lemma {:induction false} EnabledListed(resources: seq<InfrastructureResource>) returns (at: seq<int>)
    ensures Listed(resources, Enabled(resources), at) && forall i :: i in at <==> 0 <= i < |resources| && resources[i].enabled
  {
    if resources == [] {
      at := [];
    } else {
      var rest := EnabledListed(resources[1..]);
      at := ListedCons(resources[0], resources[1..], Enabled(resources[1..]), rest, resources[0].enabled);
      assert resources == [resources[0]] + resources[1..];
    }
  }

  ghost predicate DistinctIds(resources: seq<InfrastructureResource>) {
    forall i, k :: 0 <= i < k < |resources| ==> resources[i].resourceId != resources[k].resourceId
  }

  ghost predicate DependenciesPresent(resources: seq<InfrastructureResource>) {
    forall r, d :: r in resources && d in r.dependencies ==> exists q :: q in resources && q.resourceId == d
  }

  /** The dependency graph of resources with distinct IDs. */
  function DependencyGraph(resources: seq<InfrastructureResource>): Graph {
    if resources == [] then map[]
    else DependencyGraph(resources[..|resources| - 1])
      [resources[|resources| - 1].resourceId := resources[|resources| - 1].dependencies]
  }

  lemma {:induction false} DependencyGraphKeys(resources: seq<InfrastructureResource>)
    ensures forall r :: r in resources ==> r.resourceId in DependencyGraph(resources)
    ensures forall id :: id in DependencyGraph(resources) ==> exists r :: r in resources && r.resourceId == id
  {
    if resources != [] {
      var n := |resources| - 1;
      DependencyGraphKeys(resources[..n]);
      assert resources == resources[..n] + [resources[n]];
    }
  }

  lemma {:induction false} DependencyGraphEntries(resources: seq<InfrastructureResource>)
    requires DistinctIds(resources)
    ensures forall i :: 0 <= i < |resources| ==>
              resources[i].resourceId in DependencyGraph(resources)
              && DependencyGraph(resources)[resources[i].resourceId] == resources[i].dependencies
    ensures |DependencyGraph(resources)| == |resources|
  {
    if resources != [] {
      var n := |resources| - 1;
      DependencyGraphEntries(resources[..n]);
      NewId(resources);
      var rest := DependencyGraph(resources[..n]);
      assert DependencyGraph(resources).Keys == rest.Keys + {resources[n].resourceId};
    }
  }

  lemma NewId(resources: seq<InfrastructureResource>)
    requires DistinctIds(resources) && resources != []
    ensures resources[|resources| - 1].resourceId !in DependencyGraph(resources[..|resources| - 1])
  {
    hide DependencyGraph;
    DependencyGraphKeys(resources[..|resources| - 1]);
  }

  lemma PresentMeansKnown(resources: seq<InfrastructureResource>)
    requires DistinctIds(resources)
    ensures DependenciesPresent(resources) <==>
              forall r, d :: r in resources && d in r.dependencies ==> d in DependencyGraph(resources)
  {
    DependencyGraphEntries(resources);
    DependencyGraphKeys(resources);
    var graph := DependencyGraph(resources);
    if forall r, d :: r in resources && d in r.dependencies ==> d in graph {
      forall r, d | r in resources && d in r.dependencies ensures exists q :: q in resources && q.resourceId == d {
        assert d in graph;
      }
    }
    if DependenciesPresent(resources) {
      forall r, d | r in resources && d in r.dependencies ensures d in graph {
        var q :| q in resources && q.resourceId == d;
      }
    }
  }

  /** What the reconciler demands of infrastructure resources. */
  ghost predicate WellFormed(resources: seq<InfrastructureResource>) {
    var enabled := Enabled(resources);
    DistinctIds(enabled) && DependenciesPresent(enabled) && Acyclic(DependencyGraph(enabled))
  }

  /** Collecting into a map keeps one entry per ID, so a size check finds duplicates. */
  lemma {:induction false} DuplicatesShrink(resources: seq<InfrastructureResource>)
    ensures |DependencyGraph(resources)| <= |resources|
    ensures |DependencyGraph(resources)| == |resources| ==> DistinctIds(resources)
    ensures forall r :: r in resources ==> r.resourceId in DependencyGraph(resources)
  {
    if resources != [] {
      var n := |resources| - 1;
      DuplicatesShrink(resources[..n]);
      assert resources == resources[..n] + [resources[n]];
      var rest := DependencyGraph(resources[..n]);
      assert DependencyGraph(resources).Keys == rest.Keys + {resources[n].resourceId};
      if resources[n].resourceId in rest {
        assert DependencyGraph(resources).Keys == rest.Keys;
      }
    }
  }

  method DependenciesKnown(enabled: seq<InfrastructureResource>, graph: Graph) returns (ok: bool)
    ensures ok <==> forall r, d :: r in enabled && d in r.dependencies ==> d in graph
  {
    for i := 0 to |enabled|
      invariant forall k :: 0 <= k < i ==> forall d :: d in enabled[k].dependencies ==> d in graph
    {
      for n := 0 to |enabled[i].dependencies|
        invariant forall m :: 0 <= m < n ==> enabled[i].dependencies[m] in graph
      {
        if enabled[i].dependencies[n] !in graph {
          assert enabled[i] in enabled && enabled[i].dependencies[n] in enabled[i].dependencies;
          return false;
        }
      }
    }
    return true;
  }

  /** Visits every node; the order does not matter. */
  method SearchAll(graph: Graph) returns (ok: bool)
    requires forall a, b :: Edge(graph, a, b) ==> b in graph
    ensures ok <==> Acyclic(graph)
  {
    var search := new DependencySearch(graph);
    var todo := graph.Keys;
    while todo != {}
      invariant search.Valid() && search.graph == graph && search.visiting == {}
      invariant todo <= graph.Keys && graph.Keys - todo <= search.visited
      decreases todo
    {
      var id :| id in todo;
      ok := search.Visit(id);
      if !ok {
        return false;
      }
      todo := todo - {id};
    }
    return true;
  }

  method ValidateDependencies(resources: seq<InfrastructureResource>) returns (ok: bool)
    ensures ok <==> WellFormed(resources)
  {
    var enabled := Enabled(resources);
    var graph := DependencyGraph(enabled);
    DuplicatesShrink(enabled);
    if DistinctIds(enabled) {
      DependencyGraphEntries(enabled);
      DependencyGraphKeys(enabled);
    }
    if |graph| != |enabled| {
      return false;
    }
    ok := DependenciesKnown(enabled, graph);
    PresentMeansKnown(enabled);
    if ok {
      forall a, b | Edge(graph, a, b) ensures b in graph {
        var r :| r in enabled && r.resourceId == a;
      }
      ok := SearchAll(graph);
    }
  }
}
