/** Directed graphs given by successor lists, closed walks, and orders that exclude them. */
module Graph {
  import opened Common

  type Graph = map<string, seq<string>>

  predicate Edge(g: Graph, a: string, b: string) {
    a in g && b in g[a]
  }

  predicate Walk(g: Graph, p: seq<string>) {
    forall i :: 0 <= i < |p| - 1 ==> Edge(g, p[i], p[i + 1])
  }

  ghost predicate ClosedWalk(g: Graph, p: seq<string>) {
    |p| >= 2 && Walk(g, p) && p[0] == p[|p| - 1]
  }

  ghost predicate Cyclic(g: Graph) {
    exists p :: ClosedWalk(g, p)
  }

  ghost predicate Reaches(g: Graph, a: string, b: string) {
    exists p :: |p| >= 2 && Walk(g, p) && p[0] == a && p[|p| - 1] == b
  }

  predicate IsSource(g: Graph, n: string) {
    n in g && g[n] != []
  }

  // Every listed node comes after all its successors that are nodes of the graph.
  ghost predicate Descending(g: Graph, order: seq<string>) {
    forall i, b :: 0 <= i < |order| && Edge(g, order[i], b) && b in g ==> b in order[..i]
  }

  lemma SuffixIsWalk(g: Graph, p: seq<string>, n: nat)
    requires Walk(g, p) && n <= |p|
    ensures Walk(g, p[n..])
  {
    forall k | 0 <= k < |p[n..]| - 1
      ensures Edge(g, p[n..][k], p[n..][k + 1])
    {
      assert Edge(g, p[n + k], p[n + k + 1]);
    }
  }

  lemma ExtendWalk(g: Graph, p: seq<string>, b: string)
    requires Walk(g, p) && p != [] && Edge(g, p[|p| - 1], b)
    ensures Walk(g, p + [b])
  {
    forall k | 0 <= k < |p|
      ensures Edge(g, (p + [b])[k], (p + [b])[k + 1])
    {
      assert k < |p| - 1 ==> Edge(g, p[k], p[k + 1]);
    }
  }

  lemma DescendingSnoc(g: Graph, order: seq<string>, n: string)
    requires Descending(g, order) && forall b :: Edge(g, n, b) && b in g ==> b in order
    ensures Descending(g, order + [n])
  {
    forall i, b | 0 <= i < |order + [n]| && Edge(g, (order + [n])[i], b) && b in g
      ensures b in (order + [n])[..i]
    {
      assert i < |order| ==> (order + [n])[..i] == order[..i];
      assert i == |order| ==> (order + [n])[..i] == order;
    }
  }

  /** Along a walk of known nodes an order in which successors come first only descends. */
  lemma {:induction false} WalkDescends(g: Graph, order: seq<string>, p: seq<string>, i: nat)
    requires Descending(g, order) && Walk(g, p) && |p| >= 2 && p[|p| - 1] in g
    requires i < |order| && order[i] == p[0]
    ensures p[|p| - 1] in order[..i]
    decreases |p|
  {
    assert Edge(g, order[i], p[1]);
    if |p| > 2 {
      assert Edge(g, p[1], p[2]);
      var j :| 0 <= j < i && order[..i][j] == p[1];
      SuffixIsWalk(g, p, 1);
      WalkDescends(g, order, p[1..], j);
      var m :| 0 <= m < j && order[..j][m] == p[|p| - 1];
      assert order[..i][m] == p[|p| - 1];
    }
  }

  /** A distinct descending order over all nodes with successors rules out every cycle. */
  lemma DescendingIsAcyclic(g: Graph, order: seq<string>)
    requires Descending(g, order) && Distinct(order) && forall n :: IsSource(g, n) ==> n in order
    ensures !Cyclic(g)
  {
    forall p | ClosedWalk(g, p)
      ensures false
    {
      assert Edge(g, p[0], p[1]) && IsSource(g, p[0]);
      var i :| 0 <= i < |order| && order[i] == p[0];
      WalkDescends(g, order, p, i);
    }
  }
}
