/**
 Directed graphs given by adjacency sets, reachability along paths, and
 strongly connected components.
 */
module Graphs {

  type Node = string

  /** Every node with the set of its direct successors. */
  type Graph = map<Node, set<Node>>

  /** Every edge ends at a node of the graph. */
  ghost predicate Closed(g: Graph) {
    forall x :: x in g ==> g[x] <= g.Keys
  }

  ghost predicate IsPath(g: Graph, p: seq<Node>) {
    && |p| > 0
    && (forall i :: 0 <= i < |p| ==> p[i] in g)
    && (forall i, j :: 0 <= i && j == i + 1 && j < |p| ==> p[j] in g[p[i]])
  }

  ghost predicate Reach(g: Graph, x: Node, y: Node) {
    exists p: seq<Node> :: IsPath(g, p) && p[0] == x && p[|p| - 1] == y
  }

  ghost predicate Mutual(g: Graph, x: Node, y: Node) {
    Reach(g, x, y) && Reach(g, y, x)
  }

  /** A nonempty set of mutually reachable nodes that no further node can join. */
  ghost predicate IsComponent(g: Graph, c: set<Node>) {
    && c != {}
    && c <= g.Keys
    && forall x, y :: x in c && y in g ==> (y in c <==> Mutual(g, x, y))
  }

  lemma ReachSelf(g: Graph, x: Node)
    requires x in g
    ensures Reach(g, x, x)
  {
    assert IsPath(g, [x]);
  }

  lemma ReachEdge(g: Graph, x: Node, y: Node)
    requires x in g && y in g && y in g[x]
    ensures Reach(g, x, y)
  {
    var p := [x, y];
    assert IsPath(g, p) && p[0] == x && p[|p| - 1] == y;
  }

  lemma ReachTrans(g: Graph, x: Node, y: Node, z: Node)
    requires Reach(g, x, y) && Reach(g, y, z)
    ensures Reach(g, x, z)
  {
    var p :| IsPath(g, p) && p[0] == x && p[|p| - 1] == y;
    var q :| IsPath(g, q) && q[0] == y && q[|q| - 1] == z;
    var r := p + q[1..];
    forall i, j | 0 <= i && j == i + 1 && j < |r|
      ensures r[j] in g[r[i]]
    {
      if j >= |p| {
        assert r[j] == q[j - |p| + 1] && r[i] == q[i - |p| + 1];
      }
    }
    assert IsPath(g, r) && r[0] == x && r[|r| - 1] == z;
  }

  lemma ReachInside(g: Graph, x: Node, y: Node)
    requires Reach(g, x, y)
    ensures x in g && y in g
  {
  }

  /** Nothing escapes a set that is closed under successors. */
  lemma ReachStays(g: Graph, s: set<Node>, x: Node, y: Node)
    requires x in s && Reach(g, x, y)
    requires forall u :: u in s && u in g ==> g[u] <= s
    ensures y in s
  {
    var p :| IsPath(g, p) && p[0] == x && p[|p| - 1] == y;
    PathStays(g, s, p, |p| - 1);
  }

  lemma {:induction false} PathStays(g: Graph, s: set<Node>, p: seq<Node>, i: nat)
    requires IsPath(g, p) && p[0] in s && i < |p|
    requires forall u :: u in s && u in g ==> g[u] <= s
    ensures p[i] in s
  {
    if i > 0 {
      PathStays(g, s, p, i - 1);
      assert p[i] in g[p[i - 1]];
    }
  }

  /** Components that share a node are equal. */
  lemma ComponentsMeet(g: Graph, c: set<Node>, d: set<Node>, x: Node)
    requires IsComponent(g, c) && IsComponent(g, d)
    requires x in c && x in d
    ensures c == d
  {
    forall y
      ensures y in c <==> y in d
    {
      if y in g {
        assert y in c <==> Mutual(g, x, y);
        assert y in d <==> Mutual(g, x, y);
      }
    }
  }
}
