/**
 The state of a handle, told from the operations alone: from its registration on, the history of a table says whether
 the handle is live, what its counts are, and which references it records.
 */
module HandleHistory {
  import opened Ascending
  import opened Graphs
  import opened HandleCycles
  import opened HandleSpec
  import opened Options

  // ---------- what the operations say about one handle

  /** The operation takes a handle away whatever its count. */
  predicate Sweeps(op: Op, id: ID, scope: nat, escaped: bool) {
    match op
    case ReleaseAllRefs(i) => i == id
    case ReleaseVictim(i) => i == id
    case ReleaseScope(s) => s == scope && !escaped
    case ReleaseAll => true
    case _ => false
  }

  /** A handle registered with `scope`, or escaped before, has escaped by now. */
  ghost predicate EscapedBy(before: bool, ops: seq<Op>, id: ID) {
    before || Escape(id) in ops
  }

  /** Whether the i-th operation leaves the handle live, given that the earlier ones did. */
  ghost predicate Survives(h: Handle, ops: seq<Op>, id: ID, i: nat)
    requires i < |ops|
  {
    && !Sweeps(ops[i], id, h.scope, EscapedBy(h.escaped, ops[..i], id))
    && h.refs + NetOf(ops[..i + 1], id) >= 1
  }

  /** How many finalizers of a handle ran. */
  function FinalizersIn(ops: seq<Op>, id: ID): nat {
    if ops == [] then 0 else
    FinalizersIn(ops[..|ops| - 1], id)
      + if ops[|ops| - 1] in {QueueFinalizer(id), ReleaseFromFinalizer(id)} then 1 else 0
  }

  /** The label of the edge from `x` to `y`: the last record or drop counts. */
  function LabelBy(before: Option<string>, ops: seq<Op>, x: ID, y: ID): Option<string> {
    if ops == [] then before else
    match ops[|ops| - 1]
    case RecordReference(from, to, kind) =>
      if from == x && to == y then Some(if kind == "" then "reference" else kind)
      else LabelBy(before, ops[..|ops| - 1], x, y)
    case DropReference(from, to) =>
      if from == x && to == y then None else LabelBy(before, ops[..|ops| - 1], x, y)
    case _ => LabelBy(before, ops[..|ops| - 1], x, y)
  }

  function LabelOf(h: Handle, y: ID): Option<string> {
    if y in h.references then Some(h.references[y]) else None
  }

  // ---------- one operation

  lemma {:induction false} DrainedStays(t: Table, ids: seq<ID>, id: ID)
    requires IdsOk(t) && id in t.entries
    ensures id in Drained(t, ids).entries <==> t.entries[id].refs - multiset(ids)[id] >= 1
  {
    if ids != [] {
      var front, last := ids[..|ids| - 1], ids[|ids| - 1];
      assert ids == front + [last];
      DrainedStays(t, front, id);
      if id in Drained(t, front).entries { DrainedBalance(t, front, id); }
    }
  }

  /** A live handle is taken away by an operation that takes all references, or the last one, and by no other. */
  lemma StaysIff(t: Table, op: Op, id: ID)
    requires Consistent(t) && id in t.entries
    ensures var h := t.entries[id];
            id in Apply(t, op).entries <==> !Sweeps(op, id, h.scope, h.escaped) && h.refs + Net(op, id) >= 1
  {
    assert t.entries[id].refs >= 1;
    if op.Drain? { DrainedStays(t, op.ids, id); }
    hide Consistent, Listing;
  }

  lemma {:induction false} DrainedFields(t: Table, ids: seq<ID>, id: ID)
    requires id in Drained(t, ids).entries
    ensures id in t.entries
    ensures var h, h' := t.entries[id], Drained(t, ids).entries[id];
            && h'.scope == h.scope && h'.release == h.release && h'.escaped == h.escaped
              && h'.finalizers == h.finalizers
            && forall y :: y in Drained(t, ids).entries ==> LabelOf(h', y) == LabelOf(h, y)
  {
    if ids != [] { DrainedFields(t, ids[..|ids| - 1], id); }
  }

  /** What an operation does to the fields of a handle that it leaves live. */
  lemma FieldsStep(t: Table, op: Op, id: ID)
    requires id in t.entries && id < t.nextID && id in Apply(t, op).entries
    ensures var h, h' := t.entries[id], Apply(t, op).entries[id];
            && h'.scope == h.scope && h'.release == h.release
            && h'.escaped == (h.escaped || op == Escape(id))
            && h'.finalizers == h.finalizers + if op in {QueueFinalizer(id), ReleaseFromFinalizer(id)} then 1 else 0
  {
    if op.Drain? { DrainedFields(t, op.ids, id); }
    hide Listing;
  }

  /** What an operation does to the edge between two handles that it leaves live. */
  lemma LabelStep(t: Table, op: Op, x: ID, y: ID)
    requires x in t.entries && y in t.entries && x < t.nextID && y < t.nextID
    requires x in Apply(t, op).entries && y in Apply(t, op).entries
    ensures LabelOf(Apply(t, op).entries[x], y) == LabelBy(LabelOf(t.entries[x], y), [op], x, y)
  {
    hide Apply, LabelOf;
    assert [op][..0] == [];
    if op.RecordReference? || op.DropReference? {
      RecordedLabels(t, op, x, y);
    } else {
      KeptLabels(t, op, x, y);
    }
  }

  lemma RecordedLabels(t: Table, op: Op, x: ID, y: ID)
    requires (op.RecordReference? || op.DropReference?) && x in t.entries && y in t.entries
    ensures x in Apply(t, op).entries
    ensures LabelOf(Apply(t, op).entries[x], y) ==
              if op.RecordReference? && op.from == x && op.to == y
              then Some(if op.kind == "" then "reference" else op.kind)
              else if op == DropReference(x, y) then None else LabelOf(t.entries[x], y)
  {
  }

  lemma KeptLabels(t: Table, op: Op, x: ID, y: ID)
    requires !op.RecordReference? && !op.DropReference? && x in t.entries && y in t.entries && x < t.nextID
    requires x in Apply(t, op).entries && y in Apply(t, op).entries
    ensures LabelOf(Apply(t, op).entries[x], y) == LabelOf(t.entries[x], y)
  {
    hide Listing, Drained, BulkReleased, Survivors, LabelOf;
    match op
    case Drain(ids) => DrainedFields(t, ids, x);
    case ReleaseScope(scope) => BulkLabels(t, Listing(InScope(t, scope)), x, y);
    case ReleaseAll => BulkLabels(t, Listing(t.entries.Keys), x, y);
    case Release(id) => ReleasedLabels(t, id, Explicit, x, y);
    case ReleaseFromFinalizer(id) => ReleasedLabels(Finalized(t, id), id, Finalizer, x, y); SameReferences(t, op, x, y);
    case ReleaseAllRefs(id) => ReleasedLabels(t, id, Explicit, x, y);
    case ReleaseVictim(id) => ReleasedLabels(t, id, Scope, x, y);
    case _ => SameReferences(t, op, x, y);
  }

  lemma SameReferences(t: Table, op: Op, x: ID, y: ID)
    requires x in t.entries && x < t.nextID
    ensures op.ReleaseFromFinalizer? ==> LabelOf(Finalized(t, op.id).entries[x], y) == LabelOf(t.entries[x], y)
    ensures op.Register? || op.Retain? || op.Escape? || op.QueueFinalizer? ==>
              x in Apply(t, op).entries && LabelOf(Apply(t, op).entries[x], y) == LabelOf(t.entries[x], y)
  {
  }

  lemma ReleasedLabels(t: Table, id: ID, cause: Cause, x: ID, y: ID)
    requires x in t.entries && y in t.entries
    ensures x in Released(t, id, cause).entries && y in Released(t, id, cause).entries ==>
              LabelOf(Released(t, id, cause).entries[x], y) == LabelOf(t.entries[x], y)
    ensures x in ReleasedAll(t, id, cause).entries && y in ReleasedAll(t, id, cause).entries ==>
              LabelOf(ReleasedAll(t, id, cause).entries[x], y) == LabelOf(t.entries[x], y)
  {
  }

  lemma BulkLabels(t: Table, ids: seq<ID>, x: ID, y: ID)
    requires x in BulkReleased(t, ids).entries && y in BulkReleased(t, ids).entries
    ensures x in t.entries && LabelOf(BulkReleased(t, ids).entries[x], y) == LabelOf(t.entries[x], y)
  {
    hide WithCallback, Failing;
  }

  // ---------- whole histories

  lemma OneMore(ops: seq<Op>)
    requires ops != []
    ensures var front := ops[..|ops| - 1];
            && (forall i :: 0 <= i <= |front| ==> front[..i] == ops[..i])
            && ops[..|ops| - 1 + 1] == ops && ops == front + [ops[|ops| - 1]]
  {
  }

  lemma {:induction false} RunConsistent(t: Table, ops: seq<Op>)
    requires Consistent(t)
    ensures Consistent(Run(t, ops))
  {
    if ops != [] {
      RunConsistent(t, ops[..|ops| - 1]);
      ApplyInv(Run(t, ops[..|ops| - 1]), ops[|ops| - 1]);
    }
  }

  /** What stays, and what is counted, as long as the handle lives. */
  lemma {:induction false} FieldsBy(t: Table, ops: seq<Op>, id: ID)
    requires id < t.nextID && id in Run(t, ops).entries
    ensures id in t.entries
    ensures var h, h' := t.entries[id], Run(t, ops).entries[id];
            && h'.scope == h.scope && h'.release == h.release
            && h'.refs == h.refs + NetOf(ops, id)
            && h'.escaped == EscapedBy(h.escaped, ops, id)
            && h'.finalizers == h.finalizers + FinalizersIn(ops, id)
  {
    RefsBalance(t, ops, id);
    if ops != [] {
      hide Apply;
      var front, last := ops[..|ops| - 1], ops[|ops| - 1];
      NextIDGrows(t, front);
      BalanceStep(Run(t, front), last, id);
      FieldsBy(t, front, id);
      FieldsStep(Run(t, front), last, id);
      OneMore(ops);
    }
  }

  /**
   A live handle is live after a history exactly if no operation of it took the handle away: none that takes all
   references, and none after which the references taken outnumber those held.
   */
  lemma {:induction false} LiveIff(t: Table, ops: seq<Op>, id: ID)
    requires Consistent(t) && id in t.entries
    ensures id in Run(t, ops).entries <==> forall i :: 0 <= i < |ops| ==> Survives(t.entries[id], ops, id, i)
  {
    if ops != [] {
      hide Apply, Consistent, EscapedBy, NetOf;
      var front, last, h := ops[..|ops| - 1], ops[|ops| - 1], t.entries[id];
      LiveIff(t, front, id);
      OneMore(ops);
      forall i | 0 <= i < |front| ensures Survives(h, front, id, i) == Survives(h, ops, id, i) {
        assert front[..i] == ops[..i] && front[..i + 1] == ops[..i + 1];
      }
      assert id < t.nextID by { KnownID(t, id); }
      RunConsistent(t, front);
      NextIDGrows(t, front);
      if id in Run(t, front).entries {
        FieldsBy(t, front, id);
        StaysIff(Run(t, front), last, id);
        NetSnoc(front, last, id);
        assert Survives(h, ops, id, |front|) <==> id in Run(t, ops).entries;
      } else {
        ApplyKeys(Run(t, front), last);
      }
    }
  }

  lemma KnownID(t: Table, id: ID)
    requires Consistent(t) && id in t.entries
    ensures 1 <= id < t.nextID
  {
  }

  lemma NetSnoc(front: seq<Op>, last: Op, id: ID)
    ensures NetOf(front + [last], id) == NetOf(front, id) + Net(last, id)
  {
    assert (front + [last])[..|front|] == front;
  }

  /**
   The whole life of a handle: it is registered under a new id with one reference and nothing else, and from then on
   the operations decide.
   */
  lemma Lifetime(t: Table, scope: nat, release: ReleaseFunc, ops: seq<Op>)
    requires Consistent(t)
    ensures var id, born := t.nextID, Apply(t, Register(scope, release));
            && id !in t.entries && id !in t.log
            && born.entries == t.entries[id := Handle(scope, release, 1, 0, false, map[])]
            && born.log == t.log && born.nextID == id + 1
            && (id in Run(born, ops).entries <==>
                  forall i :: 0 <= i < |ops| ==> Survives(Handle(scope, release, 1, 0, false, map[]), ops, id, i))
  {
    hide Run, Survives, Consistent, Listing;
    var id, born := t.nextID, Apply(t, Register(scope, release));
    RegisteredInv(t, scope, release);
    LiveIff(born, ops, id);
  }

  /** The edge between two live handles is what the last record or drop between them left. */
  lemma {:induction false} EdgeBy(t: Table, ops: seq<Op>, x: ID, y: ID)
    requires x < t.nextID && y < t.nextID && x in Run(t, ops).entries && y in Run(t, ops).entries
    ensures x in t.entries && y in t.entries
    ensures LabelOf(Run(t, ops).entries[x], y) == LabelBy(LabelOf(t.entries[x], y), ops, x, y)
  {
    if ops != [] {
      hide Apply;
      var front, last := ops[..|ops| - 1], ops[|ops| - 1];
      NextIDGrows(t, front);
      ApplyKeys(Run(t, front), last);
      EdgeBy(t, front, x, y);
      LabelStep(Run(t, front), last, x, y);
      assert [last][..0] == [];
    }
  }

  /**
   The recorded graph: an operation that keeps both ends live adds an edge exactly by recording it, and removes it
   exactly by dropping it.
   */
  lemma GraphStep(t: Table, op: Op, x: ID, y: ID)
    requires Consistent(t) && x in t.entries && y in t.entries && x in Apply(t, op).entries && y in Apply(t, op).entries
    ensures Edge(ReferenceGraph(Apply(t, op)), x, y) <==>
              || (op.RecordReference? && op.from == x && op.to == y)
              || (Edge(ReferenceGraph(t), x, y) && op != DropReference(x, y))
  {
    KnownID(t, x);
    KnownID(t, y);
    LabelStep(t, op, x, y);
    assert [op][..0] == [];
    hide Apply, Consistent;
  }

  /** Edges of a new handle: none, in either direction. */
  lemma NewHandleIsAlone(t: Table, scope: nat, release: ReleaseFunc, x: ID)
    requires Consistent(t)
    ensures var g := ReferenceGraph(Apply(t, Register(scope, release)));
            t.nextID in g && !Edge(g, t.nextID, x) && !Edge(g, x, t.nextID)
  {
    if x in t.entries { assert EdgesInto(t.entries[x], t.entries.Keys); }
  }

  // ---------- causes and errors

  /** Handles that leave between two tables are counted under the cause, if there is one, and only there. */
  ghost predicate CountsLeaving(t: Table, t': Table, cause: Option<Cause>) {
    var gone := |t.entries.Keys - t'.entries.Keys|;
    && t'.entries.Keys <= t.entries.Keys && (cause == None ==> gone == 0)
    && t'.explicitReleases == t.explicitReleases + (if cause == Some(Explicit) then gone else 0)
    && t'.finalizerReleases == t.finalizerReleases + (if cause == Some(Finalizer) then gone else 0)
    && t'.scopeReleases == t.scopeReleases + (if cause == Some(Scope) then gone else 0)
  }

  /** Why an operation takes handles away, if it may. */
  function CauseOf(op: Op): Option<Cause> {
    match op
    case Release(_) => Some(Explicit)
    case ReleaseAllRefs(_) => Some(Explicit)
    case ReleaseFromFinalizer(_) => Some(Finalizer)
    case Drain(_) => Some(Finalizer)
    case ReleaseScope(_) => Some(Scope)
    case ReleaseAll => Some(Scope)
    case ReleaseVictim(_) => Some(Scope)
    case _ => None
  }

  lemma NoneLeaves(t: Table, t': Table, cause: Option<Cause>)
    requires t'.entries.Keys == t.entries.Keys && t'.explicitReleases == t.explicitReleases
    requires t'.finalizerReleases == t.finalizerReleases && t'.scopeReleases == t.scopeReleases
    ensures CountsLeaving(t, t', cause)
  {
    assert t.entries.Keys - t'.entries.Keys == {};
  }

  lemma OneLeaves(t: Table, id: ID, cause: Cause)
    requires id in t.entries
    ensures CountsLeaving(t, Dropped(t, id, cause), Some(cause))
  {
    var t' := Dropped(t, id, cause);
    assert t'.entries.Keys == t.entries.Keys - {id};
    assert t.entries.Keys - t'.entries.Keys == {id};
    hide Survivors;
  }

  lemma ReleasedLeaves(t: Table, id: ID, cause: Cause)
    ensures CountsLeaving(t, Released(t, id, cause), Some(cause))
    ensures CountsLeaving(t, ReleasedAll(t, id, cause), Some(cause))
  {
    hide CountsLeaving, Dropped;
    if id in t.entries { OneLeaves(t, id, cause); }
    if id !in t.entries || t.entries[id].refs > 1 { NoneLeaves(t, Released(t, id, cause), Some(cause)); }
    if id !in t.entries { NoneLeaves(t, t, Some(cause)); }
  }

  lemma LeavingAddsUp(t0: Table, t1: Table, t2: Table, cause: Cause)
    requires CountsLeaving(t0, t1, Some(cause)) && CountsLeaving(t1, t2, Some(cause))
    ensures CountsLeaving(t0, t2, Some(cause))
  {
    var a, b := t0.entries.Keys - t1.entries.Keys, t1.entries.Keys - t2.entries.Keys;
    assert t0.entries.Keys - t2.entries.Keys == a + b && a !! b;
  }

  lemma {:induction false} DrainedLeaves(t: Table, ids: seq<ID>)
    ensures CountsLeaving(t, Drained(t, ids), Some(Finalizer))
  {
    hide CountsLeaving, Released;
    if ids == [] {
      NoneLeaves(t, t, Some(Finalizer));
    } else {
      var front, last := ids[..|ids| - 1], ids[|ids| - 1];
      DrainedLeaves(t, front);
      ReleasedLeaves(Drained(t, front), last, Finalizer);
      LeavingAddsUp(t, Drained(t, front), Drained(t, ids), Finalizer);
    }
  }

  lemma BulkLeaves(t: Table, ids: set<ID>)
    requires ids <= t.entries.Keys
    ensures CountsLeaving(t, BulkReleased(t, Listing(ids)), Some(Scope))
  {
    hide Listing, WithCallback, Failing;
    ListingSize(Listing(ids), ids);
    BulkKeys(t, Listing(ids), ids);
    assert t.entries.Keys - (t.entries.Keys - ids) == ids;
    hide Survivors;
  }

  lemma ScopeLeaves(t: Table, scope: nat)
    ensures CountsLeaving(t, BulkReleased(t, Listing(InScope(t, scope))), Some(Scope))
  {
    hide CountsLeaving, BulkReleased, Listing;
    BulkLeaves(t, InScope(t, scope));
  }

  lemma BulkKeys(t: Table, listed: seq<ID>, ids: set<ID>)
    requires Lists(listed, ids)
    ensures BulkReleased(t, listed).entries.Keys == t.entries.Keys - ids
  {
    assert (set id | id in listed) == ids;
    hide WithCallback, Failing;
  }

  /** Handles that leave are counted under the kind of operation that took them. */
  lemma CauseStep(t: Table, op: Op)
    requires !op.Register?
    ensures CountsLeaving(t, Apply(t, op), CauseOf(op))
  {
    hide CountsLeaving, Listing, Released, ReleasedAll, Drained, BulkReleased, Survivors, InScope, Finalized;
    match op
    case Drain(ids) => DrainedLeaves(t, ids);
    case ReleaseScope(scope) => ScopeLeaves(t, scope);
    case ReleaseAll => BulkLeaves(t, t.entries.Keys);
    case Release(id) => ReleasedLeaves(t, id, Explicit);
    case ReleaseFromFinalizer(id) =>
      FinalizedLeaves(t, id);
      ReleasedLeaves(Finalized(t, id), id, Finalizer);
      LeavingAddsUp(t, Finalized(t, id), Released(Finalized(t, id), id, Finalizer), Finalizer);
    case ReleaseAllRefs(id) => ReleasedLeaves(t, id, Explicit);
    case ReleaseVictim(id) => ReleasedLeaves(t, id, Scope);
    case _ => hide Apply; QuietLeaves(t, op);
  }

  lemma FinalizedLeaves(t: Table, id: ID)
    ensures CountsLeaving(t, Finalized(t, id), Some(Finalizer))
  {
    NoneLeaves(t, Finalized(t, id), Some(Finalizer));
    hide CountsLeaving;
  }

  lemma QuietLeaves(t: Table, op: Op)
    requires op.Retain? || op.Escape? || op.RecordReference? || op.DropReference? || op.QueueFinalizer?
    ensures CountsLeaving(t, Apply(t, op), None)
  {
    NoneLeaves(t, Apply(t, op), None);
    hide CountsLeaving;
  }

  /** A release reports an error exactly if it took the last reference of a handle whose callback fails. */
  lemma ErrorIff(t: Table, id: ID, cause: Cause)
    requires Consistent(t)
    ensures ReleaseError(t, id, cause) ==
              if id in t.entries && id !in Released(t, id, cause).entries && t.entries[id].release == Calls(true)
              then Some(ReleaseFailed(id, cause)) else None
    ensures ReleaseAllError(t, id, cause) ==
              if id in t.entries && t.entries[id].release == Calls(true) then Some(ReleaseFailed(id, cause)) else None
    ensures Released(t, id, cause).releaseErrors == t.releaseErrors + if ReleaseError(t, id, cause).Some? then 1 else 0
    ensures ReleasedAll(t, id, cause).releaseErrors
         == t.releaseErrors + if ReleaseAllError(t, id, cause).Some? then 1 else 0
  {
  }

  ghost function ErrorAt(t: Table, ids: seq<ID>, i: nat): Option<Error>
    requires i < |ids|
  {
    ReleaseError(Drained(t, ids[..i]), ids[i], Finalizer)
  }

  /** Draining reports the first error, in the order of the queue: that of the i-th release, if there is one. */
  lemma {:induction false} DrainErrorIsFirst(t: Table, ids: seq<ID>) returns (i: nat)
    ensures i <= |ids| && forall j :: 0 <= j < i ==> ErrorAt(t, ids, j) == None
    ensures if i < |ids| then DrainError(t, ids).Some? && DrainError(t, ids) == ErrorAt(t, ids, i)
            else DrainError(t, ids) == None
  {
    i := 0;
    if ids != [] {
      hide ReleaseError, Drained;
      var front := ids[..|ids| - 1];
      i := DrainErrorIsFirst(t, front);
      forall j: nat | j < |front| ensures ErrorAt(t, ids, j) == ErrorAt(t, front, j) {
        assert front[..j] == ids[..j];
      }
      if i == |front| && ErrorAt(t, ids, i) == None {
        i := |ids|;
      }
      hide ErrorAt;
    }
  }

  /** Draining applies the queued releases one after another, in the order of the queue. */
  lemma {:induction false} DrainsInOrder(t: Table, ids: seq<ID>, i: nat)
    requires i <= |ids|
    ensures Drained(t, ids) == Drained(Drained(t, ids[..i]), ids[i..])
    ensures i < |ids| ==> Drained(t, ids[..i + 1]) == Released(Drained(t, ids[..i]), ids[i], Finalizer)
    decreases |ids|
  {
    if i < |ids| {
      var front := ids[..|ids| - 1];
      assert ids[..i + 1][..i] == ids[..i];
      DrainsInOrder(t, front, i);
      assert front[..i] == ids[..i] && front[i..] == ids[i..][..|ids| - i - 1];
      hide Released;
    } else {
      assert ids[..i] == ids && ids[i..] == [];
    }
  }
}
