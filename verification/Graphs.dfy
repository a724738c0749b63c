/** Directed graphs over handle ids: walks, reachability, strongly connected components. */
module Graphs {
  import opened Ascending

  /** A graph maps every node to the set of its successors. */
  type Digraph = map<ID, set<ID>>

  ghost predicate Edge(g: Digraph, x: ID, y: ID) {
    x in g && y in g[x]
  }

  ghost predicate Closed(g: Digraph) {
    forall x, y :: Edge(g, x, y) ==> y in g
  }

  ghost predicate Walk(g: Digraph, p: seq<ID>) {
    |p| > 0 && forall i :: 0 <= i < |p| - 1 ==> Edge(g, p[i], p[i + 1])
  }

  ghost predicate Reaches(g: Digraph, x: ID, y: ID) {
    exists p :: Walk(g, p) && p[0] == x && p[|p| - 1] == y
  }

  /** The strongly connected component of `x`. */
  ghost function Component(g: Digraph, x: ID): (c: set<ID>) {
    set y | y in g && Reaches(g, x, y) && Reaches(g, y, x)
  }

  /** `x` lies on some cycle: a successor of `x` leads back to `x`. */
  ghost predicate OnCycle(g: Digraph, x: ID) {
    exists y :: Edge(g, x, y) && Reaches(g, y, x)
  }

  /** The components of the nodes in `nodes` that contain a cycle. */
  ghost function CyclicComponents(g: Digraph, nodes: set<ID>): set<set<ID>> {
    set x | x in nodes && OnCycle(g, x) :: Component(g, x)
  }

  ghost function CyclicNodes(g: Digraph, nodes: set<ID>): set<ID> {
    set x | x in nodes && OnCycle(g, x)
  }

  lemma ReachesSelf(g: Digraph, x: ID)
    ensures Reaches(g, x, x)
  {
    assert Walk(g, [x]);
  }

  lemma ReachesEdge(g: Digraph, x: ID, y: ID)
    requires Edge(g, x, y)
    ensures Reaches(g, x, y)
  {
    assert Walk(g, [x, y]);
  }

  lemma ReachesTrans(g: Digraph, x: ID, y: ID, z: ID)
    requires Reaches(g, x, y) && Reaches(g, y, z)
    ensures Reaches(g, x, z)
  {
    var p :| Walk(g, p) && p[0] == x && p[|p| - 1] == y;
    var q :| Walk(g, q) && q[0] == y && q[|q| - 1] == z;
    var r := p + q[1..];
    forall i | 0 <= i < |r| - 1
      ensures Edge(g, r[i], r[i + 1])
    {
      if i < |p| - 1 {
        assert r[i] == p[i] && r[i + 1] == p[i + 1];
      } else {
        assert r[i] == q[i - |p| + 1] && r[i + 1] == q[i - |p| + 2];
      }
    }
    assert Walk(g, r);
  }

  /** A walk that starts inside a set and ends outside it crosses the border. */
  lemma Crossing(g: Digraph, p: seq<ID>, inside: set<ID>) returns (i: nat)
    requires Walk(g, p) && p[0] in inside && p[|p| - 1] !in inside
    ensures i < |p| - 1 && p[i] in inside && p[i + 1] !in inside
  {
    i := 0;
    while p[i + 1] in inside
      invariant i < |p| - 1 && p[i] in inside
      decreases |p| - i
    {
      i := i + 1;
    }
  }

  lemma WalkSplit(g: Digraph, p: seq<ID>, i: nat)
    requires Walk(g, p) && i < |p|
    ensures Reaches(g, p[0], p[i]) && Reaches(g, p[i], p[|p| - 1])
  {
    var a, b := p[..i + 1], p[i..];
    assert Walk(g, a) && a[0] == p[0] && a[|a| - 1] == p[i];
    assert Walk(g, b) && b[0] == p[i] && b[|b| - 1] == p[|p| - 1];
  }

  /** Mutual reachability is an equivalence: nodes of one component share it. */
  lemma ComponentShared(g: Digraph, x: ID, y: ID)
    requires x in g && y in Component(g, x)
    ensures Component(g, y) == Component(g, x) && x in Component(g, y)
  {
    forall z | z in g
      ensures z in Component(g, x) <==> z in Component(g, y)
    {
      if z in Component(g, x) {
        ReachesTrans(g, y, x, z);
        ReachesTrans(g, z, x, y);
      }
      if z in Component(g, y) {
        ReachesTrans(g, x, y, z);
        ReachesTrans(g, z, y, x);
      }
    }
  }

  lemma ComponentSelf(g: Digraph, x: ID)
    requires x in g
    ensures x in Component(g, x)
  {
    ReachesSelf(g, x);
  }

  /** The test made on an emitted component: more than one node, or a self-edge. */
  lemma OnCycleIff(g: Digraph, x: ID)
    requires Closed(g) && x in g
    ensures OnCycle(g, x) <==> |Component(g, x)| > 1 || Edge(g, x, x)
  {
    var c := Component(g, x);
    ComponentSelf(g, x);
    if Edge(g, x, x) {
      ReachesSelf(g, x);
    } else {
      if |c| > 1 {
        assert |c - {x}| == |c| - 1;
        var y :| y in c - {x};
        var p :| Walk(g, p) && p[0] == x && p[|p| - 1] == y;
        assert Edge(g, p[0], p[1]);
        WalkSplit(g, p, 1);
        ReachesTrans(g, p[1], y, x);
      }
      if OnCycle(g, x) {
        var y :| Edge(g, x, y) && Reaches(g, y, x);
        ReachesEdge(g, x, y);
        TwoMembers(c, x, y);
      }
    }
  }

  lemma TwoMembers(s: set<ID>, x: ID, y: ID)
    requires x in s && y in s && x != y
    ensures |s| > 1
  {
    assert |s - {x}| == |s| - 1;
    assert y in s - {x};
  }

  /** Being on a cycle is a property of the whole component. */
  lemma OnCycleShared(g: Digraph, x: ID, y: ID)
    requires Closed(g) && x in g && y in Component(g, x)
    ensures OnCycle(g, x) <==> OnCycle(g, y)
  {
    ComponentSelf(g, x);
    ComponentShared(g, x, y);
    OnCycleIff(g, x);
    OnCycleIff(g, y);
    if x != y {
      TwoMembers(Component(g, x), x, y);
    }
  }
}
