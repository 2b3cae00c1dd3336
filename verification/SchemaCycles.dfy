/**
 Cycle enumeration in the schema dependency graph: a depth-first search that records the
 tail of its path whenever it meets a node of its recursion stack. Dependencies may name
 schemas that do not exist; those have no dependencies of their own.
 */
module SchemaCycles {
  import opened Common
  import opened Graph

  datatype Schema = Schema(name: string, dependencies: seq<string>)

  // The last schema of a name wins.
  function BuildDependencyGraph(schemas: seq<Schema>): Graph {
    if schemas == [] then map[]
    else
      var last := schemas[|schemas| - 1];
      BuildDependencyGraph(schemas[..|schemas| - 1])[last.name := last.dependencies]
  }

  function Successors(g: Graph, n: string): seq<string> {
    if n in g then g[n] else []
  }

  function IndexOf(path: seq<string>, n: string): (i: nat)
    requires n in path
    ensures i < |path| && path[i] == n && n !in path[..i]
  {
    if path[0] == n then 0
    else
      assert path == [path[0]] + path[1..];
      1 + IndexOf(path[1..], n)
  }

  // A closed walk that repeats no node but its first.
  ghost predicate SimpleCycle(g: Graph, c: seq<string>) {
    ClosedWalk(g, c) && Distinct(c[1..])
  }

  // A visited node is either on the stack or finished; without cycles so far, finished nodes descend.
  ghost predicate Searched(g: Graph, visited: set<string>, stack: set<string>, finished: seq<string>, noCycle: bool) {
    && visited == stack + Elements(finished) && stack !! Elements(finished) && Distinct(finished)
    && (noCycle ==> Descending(g, finished))
  }

  lemma SearchedNode(g: Graph, visited: set<string>, stack: set<string>, finished: seq<string>, noCycle: bool, n: string)
    requires Searched(g, visited, stack, finished, noCycle) && n in stack
    requires noCycle ==> forall d :: Edge(g, n, d) ==> d in visited && d !in stack
    ensures Searched(g, visited, stack - {n}, finished + [n], noCycle)
  {
    if noCycle {
      DescendingSnoc(g, finished, n);
    }
    assert Elements(finished + [n]) == Elements(finished) + {n};
  }

  // The path leads to the node, and the stack is the path before it.
  ghost predicate OnPath(g: Graph, path: seq<string>, n: string, stack: set<string>) {
    && path != [] && path[|path| - 1] == n && Walk(g, path)
    && Distinct(path[..|path| - 1]) && stack == Elements(path[..|path| - 1])
  }

  class CycleFinder {
    const graph: Graph
    var visited: set<string>
    var recursionStack: set<string>
    var cycles: seq<seq<string>>
    // The nodes whose search has returned, in that order.
    ghost var finished: seq<string>

    constructor (graph: Graph)
      ensures this.graph == graph && visited == {} && recursionStack == {} && cycles == [] && finished == []
    {
      this.graph := graph;
      visited, recursionStack, cycles, finished := {}, {}, [], [];
    }

    ghost function Universe(): set<string>
    {
      graph.Keys + set n, d | n in graph && d in graph[n] :: d
    }

    ghost predicate Valid()
      reads this
    {
      && (forall i :: 0 <= i < |cycles| ==> SimpleCycle(graph, cycles[i]))
      && Searched(graph, visited, recursionStack, finished, cycles == [])
    }

    method Dfs(node: string, path: seq<string>)
      requires Valid() && node in Universe()
      requires OnPath(graph, path, node, recursionStack)
      modifies this
      ensures Valid() && recursionStack == old(recursionStack) && node in visited
      ensures old(visited) <= visited && old(cycles) <= cycles
      ensures node in old(recursionStack) ==> |cycles| > |old(cycles)|
      decreases Universe() - visited
    {
      if node in recursionStack {
        Record(node, path);
        return;
      }
      if node in visited {
        return;
      }
      Enter(node);
      var dependencies := Successors(graph, node);
      for k := 0 to |dependencies|
        invariant Valid() && recursionStack == old(recursionStack) + {node}
        invariant old(visited) + {node} <= visited && old(cycles) <= cycles
        invariant cycles == [] ==> forall d :: d in dependencies[..k] ==> d in visited && d !in recursionStack
      {
        assert Edge(graph, node, dependencies[k]);
        PathGrows(graph, path, node, old(recursionStack), dependencies[k]);
        Dfs(dependencies[k], path + [dependencies[k]]);
      }
      assert dependencies[..|dependencies|] == dependencies;
      assert recursionStack - {node} == old(recursionStack);
      Leave(node);
    }

    method Record(node: string, path: seq<string>)
      requires Valid() && node in recursionStack && OnPath(graph, path, node, recursionStack)
      modifies this`cycles
      ensures Valid() && |cycles| == |old(cycles)| + 1 && old(cycles) <= cycles
    {
      RecordedIsCycle(graph, path, node, recursionStack);
      var cycleStart := IndexOf(path, node);
      cycles := cycles + [path[cycleStart..]];
    }

    method Enter(node: string)
      requires Valid() && node !in visited
      modifies this`visited, this`recursionStack
      ensures Valid() && visited == old(visited) + {node} && recursionStack == old(recursionStack) + {node}
    {
      visited := visited + {node};
      recursionStack := recursionStack + {node};
    }

    method Leave(node: string)
      requires Valid() && node in recursionStack
      requires cycles == [] ==> forall d :: Edge(graph, node, d) ==> d in visited && d !in recursionStack
      modifies this`recursionStack, this`finished
      ensures Valid() && recursionStack == old(recursionStack) - {node}
    {
      SearchedNode(graph, visited, recursionStack, finished, cycles == [], node);
      recursionStack := recursionStack - {node};
      finished := finished + [node];
    }
  }

  lemma PathGrows(g: Graph, path: seq<string>, n: string, stack: set<string>, d: string)
    requires OnPath(g, path, n, stack) && n !in stack && Edge(g, n, d)
    ensures OnPath(g, path + [d], d, stack + {n})
  {
    ExtendWalk(g, path, d);
    assert (path + [d])[..|path|] == path;
    assert path == path[..|path| - 1] + [n];
  }

  lemma RecordedIsCycle(g: Graph, path: seq<string>, n: string, stack: set<string>)
    requires OnPath(g, path, n, stack) && n in stack
    ensures n in path && SimpleCycle(g, path[IndexOf(path, n)..])
  {
    var front, i := path[..|path| - 1], IndexOf(path, n);
    assert front[IndexOf(front, n)] == path[IndexOf(front, n)];
    SuffixIsWalk(g, path, i);
    RoundIsDistinct(path, i);
  }

  lemma RoundIsDistinct(path: seq<string>, i: nat)
    requires i + 1 < |path| && path[i] == path[|path| - 1] && Distinct(path[..|path| - 1])
    ensures Distinct(path[i..][1..])
  {
    var c, front := path[i..][1..], path[..|path| - 1];
    forall a, b | 0 <= a < b < |c|
      ensures c[a] != c[b]
    {
      assert c[a] == front[i + 1 + a];
      if b == |c| - 1 {
        assert c[b] == front[i];
      } else {
        assert c[b] == front[i + 1 + b];
      }
    }
  }

  lemma {:induction false} GraphNames(schemas: seq<Schema>, n: string)
    ensures n in BuildDependencyGraph(schemas) <==> exists i :: 0 <= i < |schemas| && schemas[i].name == n
  {
    if schemas != [] {
      var front := schemas[..|schemas| - 1];
      GraphNames(front, n);
      if n in BuildDependencyGraph(front) {
        var i :| 0 <= i < |front| && front[i].name == n;
        assert schemas[i].name == n;
      }
    }
  }

  /** Every list returned is a simple closed walk of the graph, and there is one exactly when
      the graph has a cycle. */
  method FindCircularDependencies(schemas: seq<Schema>) returns (cycles: seq<seq<string>>)
    ensures forall i :: 0 <= i < |cycles| ==> SimpleCycle(BuildDependencyGraph(schemas), cycles[i])
    ensures cycles == [] <==> !Cyclic(BuildDependencyGraph(schemas))
  {
    var graph := BuildDependencyGraph(schemas);
    var f := new CycleFinder(graph);
    for i := 0 to |schemas|
      invariant fresh(f) && f.graph == graph && f.Valid() && f.recursionStack == {}
      invariant forall k :: 0 <= k < i ==> schemas[k].name in f.visited
    {
      if schemas[i].name !in f.visited {
        GraphNames(schemas, schemas[i].name);
        assert [schemas[i].name][..0] == [];
        f.Dfs(schemas[i].name, [schemas[i].name]);
      }
    }
    cycles := f.cycles;
    if cycles == [] {
      forall n | IsSource(graph, n)
        ensures n in f.finished
      {
        GraphNames(schemas, n);
      }
      DescendingIsAcyclic(graph, f.finished);
    } else {
      assert ClosedWalk(graph, cycles[0]);
    }
  }
}
