/**
 The depth-first search behind the cycle diagnostics of the handle table: Tarjan's algorithm,
 with the variables its recursive closure captures as the fields of a class.
 */
module CycleSearch {
  import opened Ascending
  import opened Graphs
  import opened Sequences

  /** Labels of the recorded references, by target, of every live handle. */
  type References = map<ID, map<ID, string>>

  /** The live reference graph: edges whose target is itself a live handle. */
  ghost function LiveGraph(refs: References): Digraph {
    map id | id in refs :: set t | t in refs[id] && t in refs
  }

  /** Reference labels are never empty, as recording a reference guarantees. */
  ghost predicate Labelled(refs: References) {
    forall x, y :: x in refs && y in refs[x] ==> refs[x][y] != ""
  }

  /** What the four diagnostics must say about the components of `nodes`. */
  ghost predicate Reports(g: Digraph, nodes: set<ID>, cycles: nat, cyclic: nat, largest: nat, sample: seq<ID>) {
    && cycles == |CyclicComponents(g, nodes)|
    && cyclic == |CyclicNodes(g, nodes)|
    && (forall x :: x in CyclicNodes(g, nodes) ==> |Component(g, x)| <= largest)
    && |sample| == largest
    && (if CyclicNodes(g, nodes) == {} then largest == 0
        else exists x :: x in CyclicNodes(g, nodes) && Lists(sample, Component(g, x)))
  }

  // ---------- the search state and its invariant

  /** Numbering, stack members, and (ghost in the program) the nodes whose calls still run. */
  datatype Search = Search(index: nat, indexes: map<ID, nat>, onStack: set<ID>, running: set<ID>) {
    /** Nodes already assigned to an emitted component. */
    ghost function Done(): set<ID> { indexes.Keys - onStack }
  }

  ghost predicate Numbered(g: Digraph, s: Search) {
    && s.running <= s.onStack <= s.indexes.Keys <= g.Keys
    && forall x :: x in s.indexes ==> s.indexes[x] < s.index
  }

  /** A node whose call has returned has no unvisited successor. */
  ghost predicate Saturated(g: Digraph, s: Search) {
    forall x, y :: x in s.indexes && x !in s.running && Edge(g, x, y) ==> y in s.indexes
  }

  /** A running node reaches every later node of the stack. */
  ghost predicate RunningReach(g: Digraph, s: Search)
    requires Numbered(g, s)
  {
    forall x, y :: x in s.running && y in s.onStack && s.indexes[x] <= s.indexes[y] ==> Reaches(g, x, y)
  }

  /** `x` runs, is not later than `y`, and is reached from `y`. */
  ghost predicate Anchors(g: Digraph, s: Search, x: ID, y: ID)
    requires Numbered(g, s) && y in s.onStack
  {
    x in s.running && s.indexes[x] <= s.indexes[y] && Reaches(g, y, x)
  }

  ghost predicate HasAnchor(g: Digraph, s: Search, y: ID)
    requires Numbered(g, s)
  {
    y in s.onStack && exists x :: Anchors(g, s, x, y)
  }

  /** Everything on the stack reaches a running node that is not later. */
  ghost predicate Anchored(g: Digraph, s: Search)
    requires Numbered(g, s)
  {
    forall y {:trigger HasAnchor(g, s, y)} :: y in s.onStack ==> HasAnchor(g, s, y)
  }

  /** Emitted nodes take their whole component with them. */
  ghost predicate DoneClosed(g: Digraph, s: Search) {
    forall x :: x in s.Done() ==> Component(g, x) <= s.Done()
  }

  ghost predicate Inv(g: Digraph, s: Search) {
    && Closed(g)
    && Numbered(g, s)
    && Saturated(g, s)
    && RunningReach(g, s)
    && Anchored(g, s)
    && DoneClosed(g, s)
  }

  ghost predicate Grows(s: Search, s': Search) {
    && s.index <= s'.index
    && s.onStack <= s'.onStack
    && s.indexes.Keys !! s'.onStack - s.onStack
    && s.indexes.Keys <= s'.indexes.Keys
    && (forall x :: x in s.indexes ==> s'.indexes[x] == s.indexes[x])
    && (forall x :: x in s'.indexes && x !in s.indexes ==> s.index <= s'.indexes[x])
  }

  /** `low` is at most the number of every node of `below` that has an edge from `above`. */
  ghost predicate LowBounds(g: Digraph, s: Search, above: set<ID>, below: set<ID>, low: nat)
    requires below <= s.indexes.Keys
  {
    forall x, y :: x in above && Edge(g, x, y) && y in below ==> low <= s.indexes[y]
  }

  /** `low` is the number of a stack node that `id` reaches. */
  ghost predicate LowReached(g: Digraph, s: Search, id: ID, low: nat) {
    exists y :: y in s.onStack && y in s.indexes && s.indexes[y] == low && Reaches(g, id, y)
  }

  /** One call on `id`, started in `s` and finished in `s'`, leaving `low` as the low link of `id`. */
  ghost predicate Explored(g: Digraph, s: Search, s': Search, id: ID, low: nat)
    requires Numbered(g, s)
  {
    && Grows(s, s')
    && s'.running == s.running
    && id in s'.indexes && s.index <= s'.indexes[id]
    && low <= s'.indexes[id]
    && (if id in s'.onStack then LowReached(g, s', id, low) && low < s'.indexes[id]
        else s'.onStack == s.onStack && low == s'.indexes[id])
    && LowBounds(g, s', s'.onStack - s.onStack, s.onStack, low)
  }

  /** A call on `id` that started in `s`, has entered `id`, and has handled the targets `seen`. */
  ghost predicate Exploring(g: Digraph, s: Search, s': Search, id: ID, low: nat, seen: set<ID>)
    requires Numbered(g, s)
  {
    && Grows(s, s')
    && s'.running == s.running + {id}
    && id in s'.onStack && id !in s.indexes
    && id in s'.indexes && s'.indexes[id] == s.index
    && low <= s.index
    && LowReached(g, s', id, low)
    && LowBounds(g, s', s'.onStack - s.onStack - {id}, s.onStack, low)
    && seen <= s'.indexes.Keys
    && LowBounds(g, s', {id}, s.onStack * seen, low)
  }

  ghost function Elems(s: seq<ID>): set<ID> {
    set x | x in s
  }

  ghost function Enter(s: Search, id: ID): Search {
    Search(s.index + 1, s.indexes[id := s.index], s.onStack + {id}, s.running + {id})
  }

  lemma EnterExplores(g: Digraph, s: Search, id: ID)
    requires Inv(g, s) && id in g && id !in s.indexes
    requires forall x :: x in s.running ==> Reaches(g, x, id)
    ensures Inv(g, Enter(s, id))
    ensures Exploring(g, s, Enter(s, id), id, s.index, {})
  {
    hide Reaches, Component;
    var s' := Enter(s, id);
    ReachesSelf(g, id);
    assert s'.Done() == s.Done();
    forall y | y in s'.onStack
      ensures HasAnchor(g, s', y)
    {
      if y == id {
        assert Anchors(g, s', id, id);
      } else {
        assert HasAnchor(g, s, y);
        var x :| Anchors(g, s, x, y);
        assert Anchors(g, s', x, y);
      }
    }
  }

  lemma EnterStack(s: Search, stack: seq<ID>, id: ID, g: Digraph)
    requires Numbered(g, s) && id !in s.indexes && Distinct(stack) && Elems(stack) == s.onStack
    ensures Distinct(stack + [id]) && Elems(stack + [id]) == Enter(s, id).onStack && Enter(s, id).Done() == s.Done()
  {
    assert Elems(stack + [id]) == Elems(stack) + {id};
  }

  /** Every running call reaches the target about to be entered. */
  lemma RunningReaches(g: Digraph, s: Search, s1: Search, id: ID, low: nat, seen: set<ID>, t: ID)
    requires Numbered(g, s) && Inv(g, s1) && Exploring(g, s, s1, id, low, seen) && Edge(g, id, t)
    ensures forall x :: x in s1.running ==> Reaches(g, x, t)
  {
    hide Reaches, Component;
    ReachesEdge(g, id, t);
    forall x | x in s1.running
      ensures Reaches(g, x, t)
    {
      ReachesTrans(g, x, id, t);
    }
  }

  /** The step after a recursive call on the unvisited target `t`. */
  lemma AfterCall(g: Digraph, s: Search, s1: Search, s2: Search, id: ID, low: nat, seen: set<ID>, t: ID, lowT: nat)
    requires Numbered(g, s) && Numbered(g, s1) && Numbered(g, s2)
    requires Exploring(g, s, s1, id, low, seen) && Explored(g, s1, s2, t, lowT)
    requires Edge(g, id, t) && t !in s1.indexes
    ensures Exploring(g, s, s2, id, if lowT < low then lowT else low, seen + {t})
  {
    hide Reaches, Component, Edge;
    var least := if lowT < low then lowT else low;
    assert LowReached(g, s2, id, least) by {
      if lowT < low {
        var y :| y in s2.onStack && s2.indexes[y] == lowT && Reaches(g, t, y);
        ReachesEdge(g, id, t);
        ReachesTrans(g, id, t, y);
      } else {
        var y :| y in s1.onStack && s1.indexes[y] == low && Reaches(g, id, y);
        assert y in s2.onStack && s2.indexes[y] == low;
      }
    }
  }

  /** The step for a target that was visited before. */
  lemma AfterSeen(g: Digraph, s: Search, s1: Search, id: ID, low: nat, seen: set<ID>, t: ID)
    requires Numbered(g, s) && Numbered(g, s1) && Exploring(g, s, s1, id, low, seen)
    requires Edge(g, id, t) && t in s1.indexes
    ensures Exploring(g, s, s1, id,
                      if t in s1.onStack && s1.indexes[t] < low then s1.indexes[t] else low, seen + {t})
  {
    hide Reaches, Component, Edge;
    ReachesEdge(g, id, t);
  }

  /** The edges of `id` are all handled, so its low link bounds those of the whole segment. */
  lemma AllBounded(g: Digraph, s: Search, s1: Search, id: ID, low: nat)
    requires Numbered(g, s) && Numbered(g, s1) && id in g && Exploring(g, s, s1, id, low, g[id])
    ensures LowBounds(g, s1, s1.onStack - s.onStack, s.onStack, low)
  {
    hide LowReached;
  }

  /** An earlier stack node is reached, which serves as an anchor for what `id` was the anchor of. */
  lemma EarlyAnchored(g: Digraph, s: Search, s1: Search, id: ID, low: nat)
    requires Numbered(g, s) && Numbered(g, s1) && Anchored(g, s1) && id in g && Exploring(g, s, s1, id, low, g[id])
    requires low < s1.indexes[id]
    ensures Numbered(g, s1.(running := s.running)) && Anchored(g, s1.(running := s.running))
  {
    hide Reaches, LowBounds;
    var s' := s1.(running := s.running);
    var w :| w in s1.onStack && s1.indexes[w] == low && Reaches(g, id, w);
    assert HasAnchor(g, s1, w);
    var a :| Anchors(g, s1, a, w);
    ReachesTrans(g, id, w, a);
    forall y | y in s'.onStack
      ensures HasAnchor(g, s', y)
    {
      assert HasAnchor(g, s1, y);
      var x :| Anchors(g, s1, x, y);
      if x == id {
        ReachesTrans(g, y, id, a);
        assert Anchors(g, s', a, y);
      } else {
        assert Anchors(g, s', x, y);
      }
    }
  }

  /** Returning without emitting: an earlier stack node is reached, so the component is not complete. */
  lemma ReturnEarly(g: Digraph, s: Search, s1: Search, id: ID, low: nat)
    requires Inv(g, s) && Inv(g, s1) && id in g && Exploring(g, s, s1, id, low, g[id])
    requires low < s1.indexes[id]
    ensures var s' := s1.(running := s.running); Inv(g, s') && Explored(g, s, s', id, low)
  {
    EarlyAnchored(g, s, s1, id, low);
    AllBounded(g, s, s1, id, low);
    var s' := s1.(running := s.running);
    assert s'.Done() == s1.Done();
    hide Reaches, Component, Anchored, LowBounds;
  }

  /** The nodes popped when the low link of `id` is its own number form exactly its component. */
  lemma PoppedIsComponent(g: Digraph, s: Search, s1: Search, id: ID)
    requires Inv(g, s) && Inv(g, s1) && id in g && Exploring(g, s, s1, id, s.index, g[id])
    ensures s1.onStack - s.onStack == Component(g, id)
  {
    forall y | y in s1.onStack - s.onStack
      ensures y in Component(g, id)
    {
      hide Reaches;
      assert HasAnchor(g, s1, y);
      var x :| Anchors(g, s1, x, y);
      assert Reaches(g, x, id);
      ReachesTrans(g, y, x, id);
    }
    forall z | z in Component(g, id)
      ensures z in s1.onStack - s.onStack
    {
      NoEscape(g, s, s1, id, z);
    }
  }

  /** No node of the component of `id` lies outside the popped segment. */
  lemma NoEscape(g: Digraph, s: Search, s1: Search, id: ID, z: ID)
    requires Inv(g, s) && Inv(g, s1) && id in g && Exploring(g, s, s1, id, s.index, g[id])
    requires z in Component(g, id)
    ensures z in s1.onStack - s.onStack
  {
    var popped := s1.onStack - s.onStack;
    if z !in popped {
      var p :| Walk(g, p) && p[0] == id && p[|p| - 1] == z;
      hide Reaches, Walk;
      var i := Crossing(g, p, popped);
      var x, y := p[i], p[i + 1];
      WalkSplit(g, p, i);
      WalkSplit(g, p, i + 1);
      ReachesTrans(g, y, z, id);
      Border(g, s, s1, id, x, y);
    }
  }

  /** An edge out of the popped segment to a node that reaches back stays inside the segment. */
  lemma Border(g: Digraph, s: Search, s1: Search, id: ID, x: ID, y: ID)
    requires Inv(g, s) && Inv(g, s1) && id in g && Exploring(g, s, s1, id, s.index, g[id])
    requires x in s1.onStack - s.onStack && Edge(g, x, y)
    requires Reaches(g, id, y) && Reaches(g, y, id)
    ensures y in s1.onStack - s.onStack
  {
    hide Reaches;
    assert y in s1.indexes;
    assert id in Component(g, y) && id !in s1.Done();
    assert y !in s1.Done();
  }

  /** Whatever stays on the stack has an anchor that stays as well. */
  lemma RootAnchored(g: Digraph, s: Search, s1: Search, id: ID)
    requires Numbered(g, s) && Numbered(g, s1) && Anchored(g, s1) && id in g && Exploring(g, s, s1, id, s.index, g[id])
    ensures var s' := s1.(running := s.running, onStack := s.onStack); Numbered(g, s') && Anchored(g, s')
  {
    hide Reaches, LowBounds, LowReached;
    var s' := s1.(running := s.running, onStack := s.onStack);
    forall y | y in s'.onStack
      ensures HasAnchor(g, s', y)
    {
      assert HasAnchor(g, s1, y);
      var x :| Anchors(g, s1, x, y);
      assert Anchors(g, s', x, y);
    }
  }

  /** The emitted nodes are closed again, with the component of `id` among them. */
  lemma RootClosed(g: Digraph, s: Search, s1: Search, id: ID)
    requires Inv(g, s) && Inv(g, s1) && id in g && Exploring(g, s, s1, id, s.index, g[id])
    ensures var s' := s1.(running := s.running, onStack := s.onStack);
            DoneClosed(g, s') && s'.Done() == s1.Done() + Component(g, id) && s1.Done() !! Component(g, id)
  {
    PoppedIsComponent(g, s, s1, id);
    hide Reaches, Component, Anchored, RunningReach, Saturated, LowBounds, LowReached;
    var s' := s1.(running := s.running, onStack := s.onStack);
    assert s'.Done() == s1.Done() + Component(g, id);
    forall x | x in s'.Done()
      ensures Component(g, x) <= s'.Done()
    {
      if x in Component(g, id) {
        ComponentShared(g, id, x);
      }
    }
  }

  /** Emitting the popped component: the call on a root has restored the caller's stack. */
  lemma ReturnRoot(g: Digraph, s: Search, s1: Search, id: ID)
    requires Inv(g, s) && Inv(g, s1) && id in g && Exploring(g, s, s1, id, s.index, g[id])
    ensures var s' := s1.(running := s.running, onStack := s.onStack);
            && Inv(g, s') && Explored(g, s, s', id, s.index)
            && s'.Done() == s1.Done() + Component(g, id) && s1.Done() !! Component(g, id)
  {
    RootAnchored(g, s, s1, id);
    RootClosed(g, s, s1, id);
    hide Reaches, Component, Anchored, DoneClosed;
  }

  // ---------- the diagnostics

  lemma InsideComponent(g: Digraph, id: ID)
    requires Closed(g) && id in g
    ensures id in Component(g, id)
    ensures forall x {:trigger Component(g, x)} :: x in Component(g, id) ==> Component(g, x) == Component(g, id)
    ensures forall x {:trigger OnCycle(g, x)} :: x in Component(g, id) ==> (OnCycle(g, x) <==> OnCycle(g, id))
  {
    hide Reaches, Component, OnCycle;
    ComponentSelf(g, id);
    forall x | x in Component(g, id)
      ensures Component(g, x) == Component(g, id) && (OnCycle(g, x) <==> OnCycle(g, id))
    {
      ComponentShared(g, id, x);
      OnCycleShared(g, id, x);
    }
  }

  lemma EmitNodes(g: Digraph, nodes: set<ID>, id: ID)
    requires Closed(g) && id in g && nodes !! Component(g, id)
    ensures CyclicNodes(g, nodes + Component(g, id))
         == CyclicNodes(g, nodes) + (if OnCycle(g, id) then Component(g, id) else {})
    ensures |CyclicNodes(g, nodes + Component(g, id))|
         == |CyclicNodes(g, nodes)| + (if OnCycle(g, id) then |Component(g, id)| else 0)
  {
    hide Component, OnCycle;
    InsideComponent(g, id);
    var c := Component(g, id);
    assert CyclicNodes(g, nodes + c) == CyclicNodes(g, nodes) + (if OnCycle(g, id) then c else {});
  }

  lemma EmitComponents(g: Digraph, nodes: set<ID>, id: ID)
    requires Closed(g) && id in g && nodes <= g.Keys && nodes !! Component(g, id)
    ensures |CyclicComponents(g, nodes + Component(g, id))|
         == |CyclicComponents(g, nodes)| + (if OnCycle(g, id) then 1 else 0)
  {
    hide Component, OnCycle;
    InsideComponent(g, id);
    var c := Component(g, id);
    var before, after := CyclicComponents(g, nodes), CyclicComponents(g, nodes + c);
    assert c !in before by {
      forall x | x in nodes ensures Component(g, x) != c { ComponentSelf(g, x); }
    }
    assert after == before + (if OnCycle(g, id) then {c} else {});
  }

  lemma ReportAcyclic(g: Digraph, nodes: set<ID>, id: ID, cycles: nat, cyclic: nat, largest: nat, sample: seq<ID>)
    requires Closed(g) && id in g && nodes <= g.Keys && nodes !! Component(g, id) && !OnCycle(g, id)
    requires Reports(g, nodes, cycles, cyclic, largest, sample)
    ensures Reports(g, nodes + Component(g, id), cycles, cyclic, largest, sample)
  {
    hide Component, OnCycle, CyclicNodes, CyclicComponents;
    EmitNodes(g, nodes, id);
    EmitComponents(g, nodes, id);
    assert CyclicNodes(g, nodes + Component(g, id)) == CyclicNodes(g, nodes);
  }

  lemma ReportCyclic(g: Digraph, nodes: set<ID>, id: ID, sorted: seq<ID>,
                     cycles: nat, cyclic: nat, largest: nat, sample: seq<ID>)
    requires Closed(g) && id in g && nodes <= g.Keys && nodes !! Component(g, id) && OnCycle(g, id)
    requires Reports(g, nodes, cycles, cyclic, largest, sample) && Lists(sorted, Component(g, id))
    ensures var c := |sorted|;
            Reports(g, nodes + Component(g, id), cycles + 1, cyclic + c,
                    if c > largest then c else largest, if c > largest then sorted else sample)
  {
    hide Component, OnCycle, CyclicNodes, CyclicComponents, Lists;
    ListingSize(sorted, Component(g, id));
    EmitNodes(g, nodes, id);
    EmitComponents(g, nodes, id);
    InsideComponent(g, id);
    var before, after := CyclicNodes(g, nodes), CyclicNodes(g, nodes + Component(g, id));
    assert id in after;
    if before != {} {
      var x :| x in before && Lists(sample, Component(g, x));
      assert x in after;
    }
  }

  /** The update of the diagnostics for a popped component, as the search performs it. */
  lemma ReportComponent(g: Digraph, nodes: set<ID>, id: ID, sorted: seq<ID>,
                        cycles: nat, cyclic: nat, largest: nat, sample: seq<ID>)
    requires Closed(g) && id in g && nodes <= g.Keys && nodes !! Component(g, id)
    requires Reports(g, nodes, cycles, cyclic, largest, sample)
    requires Lists(sorted, Component(g, id))
    ensures var c := |sorted|;
            if c > 1 || Edge(g, id, id) then
              Reports(g, nodes + Component(g, id), cycles + 1, cyclic + c,
                      if c > largest then c else largest, if c > largest then sorted else sample)
            else
              Reports(g, nodes + Component(g, id), cycles, cyclic, largest, sample)
  {
    hide Component, OnCycle, Reports;
    ListingSize(sorted, Component(g, id));
    OnCycleIff(g, id);
    if OnCycle(g, id) {
      ReportCyclic(g, nodes, id, sorted, cycles, cyclic, largest, sample);
    } else {
      ReportAcyclic(g, nodes, id, cycles, cyclic, largest, sample);
    }
  }

  /** The strongly connected components search over the live handles of one table. */
  class CycleFinder {
    const refs: References
    var index: nat
    var indexes: map<ID, nat>
    var lowlink: map<ID, nat>
    var onStack: map<ID, bool>
    var stack: seq<ID>
    var cycles: nat
    var cyclicHandles: nat
    var largest: nat
    var sample: seq<ID>
    ghost var running: set<ID>

    constructor (refs: References)
      requires Labelled(refs)
      ensures this.refs == refs && Valid() && State() == Search(0, map[], {}, {}) && stack == []
    {
      this.refs := refs;
      index, indexes, lowlink, onStack, stack, running := 0, map[], map[], map[], [], {};
      cycles, cyclicHandles, largest, sample := 0, 0, 0, [];
      new;
      var g := LiveGraph(refs);
      assert CyclicComponents(g, {}) == {};
    }

    ghost function G(): Digraph { LiveGraph(refs) }

    ghost function State(): Search
      reads this
    {
      Search(index, indexes, (set x | x in onStack && onStack[x]), running)
    }

    ghost predicate Valid()
      reads this
    {
      && Labelled(refs)
      && Inv(G(), State())
      && lowlink.Keys == indexes.Keys
      && Distinct(stack)
      && Elems(stack) == State().onStack
      && Reports(G(), State().Done(), cycles, cyclicHandles, largest, sample)
    }

    /** The step of the search for one target of `id`. */
    method Visit(id: ID, target: ID, ghost s: Search, ghost seen: set<ID>)
      requires Valid() && Numbered(G(), s) && id in lowlink
      requires Exploring(G(), s, State(), id, lowlink[id], seen)
      requires id in refs && target in refs[id] && target in refs
      modifies this
      ensures Valid() && old(stack) <= stack && id in lowlink && old(indexes.Keys) <= indexes.Keys
      ensures Exploring(G(), s, State(), id, lowlink[id], seen + {target})
      ensures forall x :: x in old(lowlink) && x != id ==> x in lowlink && lowlink[x] == old(lowlink[x])
      decreases refs.Keys - indexes.Keys, 2
    {
      assert Edge(G(), id, target);
      if target !in indexes {
        hide Inv, Exploring, Reports;
        VisitNew(id, target, s, seen);
      } else {
        hide Inv, Exploring, Reports;
        VisitSeen(id, target, s, seen);
      }
    }

    /** A target that was visited before: it counts only while it is on the stack. */
    method VisitSeen(id: ID, target: ID, ghost s: Search, ghost seen: set<ID>)
      requires Valid() && Numbered(G(), s) && id in lowlink
      requires Exploring(G(), s, State(), id, lowlink[id], seen)
      requires Edge(G(), id, target) && target in indexes
      modifies this`lowlink
      ensures Valid() && id in lowlink
      ensures Exploring(G(), s, State(), id, lowlink[id], seen + {target})
      ensures forall x :: x in old(lowlink) && x != id ==> x in lowlink && lowlink[x] == old(lowlink[x])
    {
      hide Inv, Exploring, Reports, Edge, Distinct, Elems, LiveGraph, Labelled, Numbered;
      StartsNumbered();
      AfterSeen(G(), s, State(), id, lowlink[id], seen, target);
      if target in onStack && onStack[target] && indexes[target] < lowlink[id] {
        lowlink := lowlink[id := indexes[target]];
      }
    }

    /** A target that was not visited yet: explore it first. */
    method VisitNew(id: ID, target: ID, ghost s: Search, ghost seen: set<ID>)
      requires Valid() && Numbered(G(), s) && id in lowlink
      requires Exploring(G(), s, State(), id, lowlink[id], seen)
      requires Edge(G(), id, target) && target in refs && target !in indexes
      modifies this
      ensures Valid() && old(stack) <= stack && id in lowlink && old(indexes.Keys) <= indexes.Keys
      ensures Exploring(G(), s, State(), id, lowlink[id], seen + {target})
      ensures forall x :: x in old(lowlink) && x != id ==> x in lowlink && lowlink[x] == old(lowlink[x])
      decreases refs.Keys - indexes.Keys, 1
    {
      hide Reports, Reaches, Component, Edge, LiveGraph, Exploring, Inv;
      hide Numbered, LowReached, LowBounds, Distinct, Elems;
      StartsNumbered();
      ghost var g, s1, low := G(), State(), lowlink[id];
      RunningReaches(g, s, s1, id, low, seen, target);
      StrongConnect(target);
      StartsNumbered();
      AfterCall(g, s, s1, State(), id, low, seen, target, lowlink[target]);
      if lowlink[target] < lowlink[id] {
        lowlink := lowlink[id := lowlink[target]];
      }
    }

    /** Handles the targets of `id` in ascending order. */
    method VisitTargets(id: ID, ghost s: Search)
      requires Valid() && Numbered(G(), s) && id in lowlink && id in refs
      requires Exploring(G(), s, State(), id, lowlink[id], {})
      modifies this
      ensures Valid() && old(stack) <= stack && id in lowlink && old(indexes.Keys) <= indexes.Keys
      ensures Exploring(G(), s, State(), id, lowlink[id], G()[id])
      ensures forall x :: x in old(lowlink) && x != id ==> x in lowlink && lowlink[x] == old(lowlink[x])
      decreases refs.Keys - indexes.Keys, 3
    {
      hide Inv, Exploring, Explored, Reports, Reaches, Component, Numbered, Enter;
      var targets := SortedListing(set t | t in refs[id] && t in refs);
      ghost var seen: set<ID> := {};
      for i := 0 to |targets|
        invariant Valid() && old(stack) <= stack && id in lowlink
        invariant seen == set k | 0 <= k < i :: targets[k]
        invariant old(indexes.Keys) <= indexes.Keys
        invariant Exploring(G(), s, State(), id, lowlink[id], seen)
        invariant forall x :: x in old(lowlink) && x != id ==> x in lowlink && lowlink[x] == old(lowlink[x])
      {
        assert targets[i] in targets;
        Visit(id, targets[i], s, seen);
        seen := seen + {targets[i]};
      }
      assert seen == G()[id] by {
        forall t | t in G()[id] ensures t in seen { assert t in targets; }
        forall t | t in seen ensures t in G()[id] { assert t in targets; }
      }
    }

    /** Numbers `id` and everything reachable from it that was not numbered yet. */
    method StrongConnect(id: ID)
      requires Valid() && id in refs && id !in indexes
      requires forall x :: x in running ==> Reaches(G(), x, id)
      modifies this
      ensures Valid() && old(stack) <= stack
      ensures id in lowlink && Explored(G(), old(State()), State(), id, lowlink[id])
      ensures forall x :: x in old(lowlink) ==> x in lowlink && lowlink[x] == old(lowlink[x])
      decreases refs.Keys - indexes.Keys, 0
    {
      hide Valid, Inv, Exploring, Explored, Reports, Reaches, Component, Numbered, Enter, Elems, Distinct, LiveGraph;
      ghost var s := State();
      StartsNumbered();
      EnterNode(id);
      VisitTargets(id, s);
      assert stack[..|old(stack)|] == old(stack);
      Finish(id, s, |old(stack)|);
    }

    lemma StartsNumbered()
      requires Valid()
      ensures Inv(G(), State()) && Numbered(G(), State())
      ensures State().onStack == Elems(stack) && lowlink.Keys == indexes.Keys
    {
    }

    /** The end of the call on `id`: emit its component if `id` is the root of one. */
    method Finish(id: ID, ghost s: Search, ghost base: nat)
      requires Valid() && Inv(G(), s) && id in refs && id in lowlink
      requires Exploring(G(), s, State(), id, lowlink[id], G()[id])
      requires base < |stack| && stack[base] == id && s.onStack == Elems(stack[..base])
      modifies this
      ensures Valid() && old(stack)[..base] <= stack && lowlink == old(lowlink)
      ensures Explored(G(), s, State(), id, lowlink[id])
    {
      hide Reports, Reaches, Component, LowReached, LowBounds, RunningReach, Anchored, Saturated, DoneClosed;
      if lowlink[id] != indexes[id] {
        ReturnEarly(G(), s, State(), id, lowlink[id]);
        assert (State().(running := s.running)).Done() == State().Done();
        running := running - {id};
        return;
      }
      Emit(id, s, base);
    }

    method EnterNode(id: ID)
      requires Valid() && id in refs && id !in indexes
      requires forall x :: x in running ==> Reaches(G(), x, id)
      modifies this
      ensures Valid() && State() == Enter(old(State()), id) && stack == old(stack) + [id]
      ensures lowlink == old(lowlink)[id := old(index)] && indexes == old(indexes)[id := old(index)]
      ensures Exploring(G(), old(State()), State(), id, lowlink[id], {})
    {
      hide Reports, Reaches, Component, Inv, Numbered, Exploring, Labelled, Distinct, Elems;
      ghost var s := State();
      StartsNumbered();
      EnterExplores(G(), s, id);
      EnterStack(s, stack, id, G());
      indexes := indexes[id := index];
      lowlink := lowlink[id := index];
      index := index + 1;
      stack := stack + [id];
      onStack := onStack[id := true];
      running := running + {id};
      assert State() == Enter(s, id);
      assert State().Done() == s.Done();
    }

    /** Pops the component of `id` and records it in the diagnostics. */
    method Emit(id: ID, ghost s: Search, ghost base: nat)
      requires Valid() && Inv(G(), s) && id in refs && id in lowlink && lowlink[id] == s.index
      requires Exploring(G(), s, State(), id, s.index, G()[id])
      requires base < |stack| && stack[base] == id && s.onStack == Elems(stack[..base])
      modifies this
      ensures Valid() && stack == old(stack)[..base] && lowlink == old(lowlink)
      ensures Explored(G(), s, State(), id, lowlink[id])
    {
      hide Reports, Reaches, Component, LowReached, LowBounds, RunningReach, Anchored, Saturated, DoneClosed;
      ghost var g, s1 := G(), State();
      ReturnRoot(g, s, s1, id);
      PoppedIsComponent(g, s, s1, id);
      var component := PopTo(id, base);
      running := running - {id};
      assert State() == s1.(running := s.running, onStack := s.onStack);
      assert Elems(component) == Component(g, id);
      Record(id, component, s1.Done());
    }

    /** Sorts an emitted component and updates the diagnostics. */
    method Record(id: ID, component: seq<ID>, ghost nodes: set<ID>)
      requires Closed(G()) && Labelled(refs) && id in refs && nodes <= G().Keys && nodes !! Component(G(), id)
      requires Elems(component) == Component(G(), id)
      requires Reports(G(), nodes, cycles, cyclicHandles, largest, sample)
      modifies this`cycles, this`cyclicHandles, this`largest, this`sample
      ensures Reports(G(), nodes + Component(G(), id), cycles, cyclicHandles, largest, sample)
    {
      hide Reports, Component;
      var sorted := SortedListing(set x | x in component);
      ReportComponent(G(), nodes, id, sorted, cycles, cyclicHandles, largest, sample);
      if |sorted| > 1 || (id in refs[id] && refs[id][id] != "") {
        cycles := cycles + 1;
        cyclicHandles := cyclicHandles + |sorted|;
        if |sorted| > largest {
          largest := |sorted|;
          sample := sorted;
        }
      }
    }

    /** Pops the stack down to and including `id`. */
    method PopTo(id: ID, ghost base: nat) returns (component: seq<ID>)
      requires base < |stack| && stack[base] == id && Distinct(stack)
      requires Elems(stack) == State().onStack
      modifies this`stack, this`onStack
      ensures stack == old(stack)[..base]
      ensures Elems(stack) == State().onStack
      ensures forall x :: x in component <==> x in old(stack)[base..]
    {
      ghost var full := stack;
      component := [];
      var last := stack[|stack| - 1];
      assert forall x :: (x in onStack && onStack[x]) <==> x in State().onStack;
      assert forall x :: x in Elems(stack) <==> x in stack;
      while true
        invariant base < |stack| <= |full| && stack == full[..|stack|]
        invariant forall x :: x in component <==> x in full[|stack|..]
        invariant forall x :: (x in onStack && onStack[x]) <==> x in stack
        decreases |stack|
      {
        last := stack[|stack| - 1];
        assert full[|stack| - 1..] == [last] + full[|stack|..];
        stack := stack[..|stack| - 1];
        assert full[..|stack| + 1] == stack + [last];
        onStack := onStack[last := false];
        component := component + [last];
        if last == id {
          break;
        }
      }
    }
  }

  /** When no call is running the stack is empty, and every visited node has been emitted. */
  lemma IdleIsDone(g: Digraph, s: Search)
    requires Inv(g, s) && s.running == {}
    ensures s.onStack == {} && s.Done() == s.indexes.Keys
  {
    hide Reaches, Component;
    assert forall y :: y in s.onStack ==> HasAnchor(g, s, y);
  }

  lemma CompleteReport(f: CycleFinder)
    requires f.Valid() && f.running == {} && f.refs.Keys <= f.indexes.Keys
    ensures Reports(f.G(), f.refs.Keys, f.cycles, f.cyclicHandles, f.largest, f.sample)
  {
    hide Reports, Reaches, Component;
    IdleIsDone(f.G(), f.State());
    assert f.indexes.Keys == f.refs.Keys;
  }

  /**
   The four cycle diagnostics of a handle table whose live handles record `refs`: how many
   strongly connected components contain a cycle, how many handles lie on a cycle, and the size and
   the sorted members of a largest such component.
   */
  method CycleStats(refs: References) returns (cycles: nat, cyclicHandles: nat, largest: nat, sample: seq<ID>)
    requires Labelled(refs)
    ensures Reports(LiveGraph(refs), refs.Keys, cycles, cyclicHandles, largest, sample)
  {
    hide Inv, Reports, Reaches, Component;
    var finder := new CycleFinder(refs);
    var ids := SortedListing(refs.Keys);
    for i := 0 to |ids|
      invariant finder.refs == refs && finder.Valid() && finder.running == {}
      invariant forall k :: 0 <= k < i ==> ids[k] in finder.indexes
      invariant fresh(finder)
    {
      assert ids[i] in ids;
      if ids[i] !in finder.indexes {
        finder.StrongConnect(ids[i]);
      }
    }
    assert finder.indexes.Keys >= refs.Keys by {
      forall id | id in refs ensures id in finder.indexes { assert id in ids; }
    }
    CompleteReport(finder);
    return finder.cycles, finder.cyclicHandles, finder.largest, finder.sample;
  }
}
