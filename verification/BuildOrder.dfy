/**
 The monorepo build order: a depth-first topological sort of the workspace dependency graph
 that throws on a cycle, filtered to the packages that have a build script.
 */
module BuildOrder {
  import opened Common
  import opened Graph

  datatype Package = Package(name: string, dependencies: seq<string>, buildable: bool)

  // A `Map` keeps the position of a key's first insertion and the value of its last.
  function LastNamed(packages: seq<Package>, name: string): Option<Package> {
    if packages == [] then None
    else if packages[|packages| - 1].name == name then Some(packages[|packages| - 1])
    else LastNamed(packages[..|packages| - 1], name)
  }

  ghost predicate Indexes(packages: seq<Package>, order: seq<string>, nodes: map<string, Package>) {
    && Distinct(order)
    && (forall n :: n in order <==> n in nodes)
    && (forall n :: n in nodes <==> LastNamed(packages, n).Some?)
    && (forall n :: n in nodes ==> LastNamed(packages, n) == Some(nodes[n]))
  }

  method BuildDependencyGraph(packages: seq<Package>) returns (order: seq<string>, nodes: map<string, Package>)
    ensures Indexes(packages, order, nodes)
  {
    order, nodes := [], map[];
    for i := 0 to |packages|
      invariant Indexes(packages[..i], order, nodes)
    {
      var p := packages[i];
      assert packages[..i + 1][..i] == packages[..i];
      if p.name !in nodes {
        order := order + [p.name];
      }
      nodes := nodes[p.name := p];
    }
    assert packages[..|packages|] == packages;
  }

  function Dependencies(nodes: map<string, Package>): Graph {
    map n | n in nodes :: nodes[n].dependencies
  }

  function Filter(names: seq<string>, nodes: map<string, Package>): seq<string>
    requires forall i :: 0 <= i < |names| ==> names[i] in nodes
  {
    if names == [] then []
    else
      var front := Filter(names[..|names| - 1], nodes);
      if nodes[names[|names| - 1]].buildable then front + [names[|names| - 1]] else front
  }

  class Sorter {
    const nodes: map<string, Package>
    var visited: set<string>
    var visiting: set<string>
    var result: seq<string>

    constructor (nodes: map<string, Package>)
      ensures this.nodes == nodes && visited == {} && visiting == {} && result == []
    {
      this.nodes := nodes;
      visited, visiting, result := {}, {}, [];
    }

    ghost predicate Valid()
      reads this
    {
      && visited == Elements(result) && visited !! visiting
      && visiting <= nodes.Keys && visited <= nodes.Keys
      && Distinct(result) && Descending(Dependencies(nodes), result)
    }

    /** One `visit` call; `path` is the chain of calls that led here. False means it threw. */
    method Visit(name: string, ghost path: seq<string>) returns (ok: bool)
      requires Valid() && name in nodes
      requires Walk(Dependencies(nodes), path + [name]) && visiting == Elements(path)
      modifies this
      ensures !ok ==> Cyclic(Dependencies(nodes))
      ensures ok ==> Valid() && visiting == old(visiting) && old(visited) <= visited && name in visited
      decreases nodes.Keys - visiting
    {
      if name in visiting {
        ghost var i :| 0 <= i < |path| && path[i] == name;
        SuffixIsWalk(Dependencies(nodes), path + [name], i);
        assert ClosedWalk(Dependencies(nodes), (path + [name])[i..]);
        return false;
      }
      if name in visited {
        return true;
      }
      visiting := visiting + {name};
      var deps := nodes[name].dependencies;
      ghost var chain := path + [name];
      for k := 0 to |deps|
        invariant Valid() && visiting == old(visiting) + {name} && old(visited) <= visited
        invariant forall d :: d in deps[..k] && d in nodes ==> d in visited
      {
        if deps[k] in nodes {
          ExtendWalk(Dependencies(nodes), chain, deps[k]);
          ok := Visit(deps[k], chain);
          if !ok {
            return;
          }
        }
      }
      assert deps[..|deps|] == deps;
      visiting := visiting - {name};
      visited := visited + {name};
      result := result + [name];
      ok := true;
    }
  }

  // The complete order, and what is left of it after dropping packages without a build script.
  ghost predicate IsBuildOrder(nodes: map<string, Package>, full: seq<string>, filtered: seq<string>) {
    && Distinct(full) && (forall n :: n in full <==> n in nodes)
    && Descending(Dependencies(nodes), full)
    && filtered == Filter(full, nodes)
  }

  /** The sort throws exactly when the graph has a cycle; otherwise it lists every package once,
      each after all its dependencies, and then drops those without a build script. */
  method TopologicalSort(order: seq<string>, nodes: map<string, Package>) returns (r: Option<seq<string>>, ghost full: seq<string>)
    requires forall n :: n in order <==> n in nodes
    ensures r.None? <==> Cyclic(Dependencies(nodes))
    ensures r.Some? ==> IsBuildOrder(nodes, full, r.value)
  {
    var s := new Sorter(nodes);
    full := [];
    for i := 0 to |order|
      invariant fresh(s) && s.nodes == nodes && s.Valid() && s.visiting == {}
      invariant forall n :: n in order[..i] ==> n in s.visited
    {
      assert order[i] in order;
      var ok := s.Visit(order[i], []);
      if !ok {
        return None, [];
      }
    }
    assert order[..|order|] == order;
    forall n | n in nodes
      ensures n in s.result
    {
      assert n in order && n in s.visited;
    }
    DescendingIsAcyclic(Dependencies(nodes), s.result);
    full := s.result;
    var filtered := [];
    for i := 0 to |s.result|
      invariant filtered == Filter(s.result[..i], nodes)
    {
      assert s.result[..i + 1][..i] == s.result[..i];
      if nodes[s.result[i]].buildable {
        filtered := filtered + [s.result[i]];
      }
    }
    assert s.result[..|s.result|] == s.result;
    r := Some(filtered);
  }

  lemma {:induction false} FilteredPosition(full: seq<string>, nodes: map<string, Package>, k: nat) returns (j: nat)
    requires (forall i :: 0 <= i < |full| ==> full[i] in nodes) && k < |Filter(full, nodes)|
    ensures j < |full| && full[j] == Filter(full, nodes)[k] && nodes[full[j]].buildable
    ensures Filter(full[..j], nodes) == Filter(full, nodes)[..k]
  {
    var front := full[..|full| - 1];
    if k < |Filter(front, nodes)| {
      j := FilteredPosition(front, nodes, k);
      assert front[..j] == full[..j];
    } else {
      j := |full| - 1;
    }
  }

  lemma {:induction false} FilterKeeps(names: seq<string>, nodes: map<string, Package>, n: string)
    requires forall i :: 0 <= i < |names| ==> names[i] in nodes
    ensures n in Filter(names, nodes) <==> n in names && nodes[n].buildable
  {
    if names != [] {
      FilterKeeps(names[..|names| - 1], nodes, n);
      assert names == names[..|names| - 1] + [names[|names| - 1]];
    }
  }

  /** After filtering, every buildable package is still there and still follows all its
      transitive buildable dependencies, those through unbuildable packages included. */
  lemma BuildsAfterDependencies(nodes: map<string, Package>, full: seq<string>, filtered: seq<string>, k: nat, dep: string)
    requires IsBuildOrder(nodes, full, filtered) && k < |filtered|
    requires Reaches(Dependencies(nodes), filtered[k], dep) && dep in nodes && nodes[dep].buildable
    ensures dep in filtered[..k]
  {
    var j := FilteredPosition(full, nodes, k);
    var p :| |p| >= 2 && Walk(Dependencies(nodes), p) && p[0] == filtered[k] && p[|p| - 1] == dep;
    WalkDescends(Dependencies(nodes), full, p, j);
    FilterKeeps(full[..j], nodes, dep);
  }

  lemma FilterIsComplete(nodes: map<string, Package>, full: seq<string>, filtered: seq<string>, n: string)
    requires IsBuildOrder(nodes, full, filtered)
    ensures n in filtered <==> n in nodes && nodes[n].buildable
  {
    FilterKeeps(full, nodes, n);
  }

  // The nodes of a list of packages: one a name, the last of that name.
  ghost predicate Known(packages: seq<Package>, n: string) {
    LastNamed(packages, n).Some?
  }

  // The graph of a list of packages.
  ghost predicate DependsOn(packages: seq<Package>, n: string, dep: string) {
    Known(packages, n) && dep in LastNamed(packages, n).value.dependencies
  }

  ghost predicate Chain(packages: seq<Package>, p: seq<string>) {
    |p| >= 2 && forall i :: 0 <= i < |p| - 1 ==> DependsOn(packages, p[i], p[i + 1])
  }

  ghost predicate Circular(packages: seq<Package>) {
    exists p :: Chain(packages, p) && p[0] == p[|p| - 1]
  }

  ghost predicate Buildable(packages: seq<Package>, n: string) {
    Known(packages, n) && LastNamed(packages, n).value.buildable
  }

  // Each package comes after every buildable package it depends on, directly or not.
  ghost predicate Follows(packages: seq<Package>, order: seq<string>) {
    forall k, p :: 0 <= k < |order| && Chain(packages, p) && p[0] == order[k] && Buildable(packages, p[|p| - 1]) ==>
      p[|p| - 1] in order[..k]
  }

  lemma SameEdges(packages: seq<Package>, order: seq<string>, nodes: map<string, Package>)
    requires Indexes(packages, order, nodes)
    ensures forall n, dep :: Edge(Dependencies(nodes), n, dep) <==> DependsOn(packages, n, dep)
    ensures forall p :: |p| >= 2 ==> (Walk(Dependencies(nodes), p) <==> Chain(packages, p))
    ensures Cyclic(Dependencies(nodes)) <==> Circular(packages)
  {
    var g := Dependencies(nodes);
    forall n, dep
      ensures Edge(g, n, dep) <==> DependsOn(packages, n, dep)
    {
    }
    forall p | |p| >= 2
      ensures Walk(g, p) <==> Chain(packages, p)
    {
      if Chain(packages, p) {
        assert forall i :: 0 <= i < |p| - 1 ==> DependsOn(packages, p[i], p[i + 1]);
      }
    }
    if Cyclic(g) {
      var p :| ClosedWalk(g, p);
      assert Chain(packages, p);
    }
    if Circular(packages) {
      var p :| Chain(packages, p) && p[0] == p[|p| - 1];
      assert ClosedWalk(g, p);
    }
  }

  lemma {:induction false} FilterDistinct(names: seq<string>, nodes: map<string, Package>)
    requires Distinct(names) && forall i :: 0 <= i < |names| ==> names[i] in nodes
    ensures Distinct(Filter(names, nodes))
  {
    if names != [] {
      var n := |names| - 1;
      FilterDistinct(names[..n], nodes);
      FilterKeeps(names[..n], nodes, names[n]);
      var front := Filter(names[..n], nodes);
      assert names[n] !in names[..n];
      assert forall i :: 0 <= i < |front| ==> front[i] in front;
    }
  }

  lemma FollowsChains(packages: seq<Package>, order: seq<string>, nodes: map<string, Package>, full: seq<string>, filtered: seq<string>)
    requires Indexes(packages, order, nodes) && IsBuildOrder(nodes, full, filtered)
    ensures Follows(packages, filtered)
  {
    SameEdges(packages, order, nodes);
    forall k, p | 0 <= k < |filtered| && Chain(packages, p) && p[0] == filtered[k] && Buildable(packages, p[|p| - 1])
      ensures p[|p| - 1] in filtered[..k]
    {
      assert Reaches(Dependencies(nodes), filtered[k], p[|p| - 1]);
      BuildsAfterDependencies(nodes, full, filtered, k, p[|p| - 1]);
    }
  }

  /** From a list of packages to the order of their builds: it throws exactly on a circular list;
      otherwise it has each buildable package once, after all those it depends on. */
  method OrderBuilds(packages: seq<Package>) returns (r: Option<seq<string>>)
    ensures r.None? <==> Circular(packages)
    ensures r.Some? ==> Distinct(r.value) && Follows(packages, r.value) && forall n :: n in r.value <==> Buildable(packages, n)
  {
    var order, nodes := BuildDependencyGraph(packages);
    SameEdges(packages, order, nodes);
    ghost var full;
    r, full := TopologicalSort(order, nodes);
    if r.Some? {
      FilterDistinct(full, nodes);
      FollowsChains(packages, order, nodes, full, r.value);
      forall n
        ensures n in r.value <==> Buildable(packages, n)
      {
        FilterIsComplete(nodes, full, r.value, n);
      }
    }
  }
}
