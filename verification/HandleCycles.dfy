/** The cycle diagnostics of a handle table. */
module HandleCycles {
  import opened Ascending
  import opened CycleSearch
  import opened Graphs
  import opened HandleSpec
  import opened HandleTable

  /** The references that the handles of a table have recorded. */
  ghost function Recorded(t: Table): References {
    map id | id in t.entries :: t.entries[id].references
  }

  /** The graph of all recorded references, whether or not the target is live. */
  ghost function ReferenceGraph(t: Table): Digraph {
    map id | id in t.entries :: t.entries[id].references.Keys
  }

  /** In every reachable table each recorded reference is labelled and leads to a live handle. */
  lemma AllEdgesAreLive(ops: seq<Op>)
    ensures var t := Run(EMPTY, ops);
            Labelled(Recorded(t)) && LiveGraph(Recorded(t)) == ReferenceGraph(t) && Closed(ReferenceGraph(t))
  {
    RunInv(ops);
    EdgesAreLive(Run(EMPTY, ops));
    hide Consistent, Run;
  }

  lemma EdgesAreLive(t: Table)
    requires Consistent(t)
    ensures Labelled(Recorded(t)) && LiveGraph(Recorded(t)) == ReferenceGraph(t) && Closed(ReferenceGraph(t))
  {
    forall id | id in t.entries ensures LiveGraph(Recorded(t))[id] == ReferenceGraph(t)[id] {
      assert EdgesInto(t.entries[id], t.entries.Keys);
    }
  }

  /** The diagnostics describe the cycles of exactly the recorded references. */
  method TableCycles(table: HandleTable) returns (cycles: nat, cyclicHandles: nat, largest: nat, sample: seq<ID>)
    requires table.Valid() && Consistent(table.model)
    ensures Reports(ReferenceGraph(table.model), table.model.entries.Keys, cycles, cyclicHandles, largest, sample)
  {
    hide Reports;
    var refs := map id | id in table.entries :: table.entries[id].references;
    assert refs == Recorded(table.model);
    EdgesAreLive(table.model);
    assert refs.Keys == table.model.entries.Keys;
    cycles, cyclicHandles, largest, sample := CycleStats(refs);
  }
}
