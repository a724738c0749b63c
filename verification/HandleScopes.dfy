/**
 Scope release with other operations in between. The program collects the handles of a scope in one step and
 releases them one by one, so others may register, escape or release handles meanwhile.
 */
module HandleScopes {
  import opened Ascending
  import opened HandleSpec

  /** The collected handles of a scope are all released somewhere in `ops`. */
  ghost predicate ReleasesVictims(t: Table, ops: seq<Op>, scope: nat) {
    forall id :: id in InScope(t, scope) ==> ReleaseVictim(id) in ops
  }

  lemma {:induction false} DrainedKeeps(t: Table, ids: seq<ID>, id: ID)
    requires id in Drained(t, ids).entries
    ensures id in t.entries
    ensures Drained(t, ids).entries[id].scope == t.entries[id].scope
    ensures Drained(t, ids).entries[id].escaped == t.entries[id].escaped
  {
    if ids != [] {
      DrainedKeeps(t, ids[..|ids| - 1], id);
    }
  }

  /** The scope of a handle is fixed, and an escape is for good. */
  lemma ApplyKeeps(t: Table, op: Op, id: ID)
    requires id in Apply(t, op).entries && id < t.nextID
    ensures id in t.entries && Apply(t, op).entries[id].scope == t.entries[id].scope
    ensures t.entries[id].escaped ==> Apply(t, op).entries[id].escaped
  {
    if op.Drain? { DrainedKeeps(t, op.ids, id); }
  }

  lemma {:induction false} RunKeeps(t: Table, ops: seq<Op>, id: ID)
    requires id in Run(t, ops).entries && id < t.nextID
    ensures id in t.entries && Run(t, ops).entries[id].scope == t.entries[id].scope
    ensures t.entries[id].escaped ==> Run(t, ops).entries[id].escaped
  {
    if ops != [] {
      var front := ops[..|ops| - 1];
      NextIDGrows(t, front);
      ApplyKeeps(Run(t, front), ops[|ops| - 1], id);
      hide Apply;
      RunKeeps(t, front, id);
    }
  }

  lemma {:induction false} RunSplit(t: Table, ops: seq<Op>, i: nat)
    requires i <= |ops|
    ensures Run(t, ops) == Run(Run(t, ops[..i]), ops[i..])
    decreases |ops|
  {
    if i < |ops| {
      var front := ops[..|ops| - 1];
      RunSplit(t, front, i);
      assert front[..i] == ops[..i];
      assert front[i..] == ops[i..][..|ops| - i - 1];
      hide Apply;
    } else {
      assert ops[..i] == ops && ops[i..] == [];
    }
  }

  /** A handle that is released as a victim is gone at the end, whatever happens before and after. */
  lemma VictimIsGone(t: Table, ops: seq<Op>, id: ID)
    requires 1 <= id < t.nextID && ReleaseVictim(id) in ops
    ensures id !in Run(t, ops).entries
  {
    var i :| 0 <= i < |ops| && ops[i] == ReleaseVictim(id);
    var before := Run(t, ops[..i]);
    var after := Apply(before, ops[i]);
    NextIDGrows(t, ops[..i]);
    assert ops[..i + 1][..i] == ops[..i];
    assert Run(t, ops[..i + 1]) == after;
    assert Gone(after, id);
    RunSplit(t, ops, i + 1);
    GoneStays(after, ops[i + 1..], id);
  }

  /**
   A scope release, with anything in between: every handle that was collected is gone, even one that has escaped
   meanwhile; and whatever the scope still owns was registered after the collection.
   */
  lemma InterruptedScopeRelease(t: Table, ops: seq<Op>, scope: nat)
    requires IdsOk(t) && ReleasesVictims(t, ops, scope)
    ensures InScope(t, scope) !! Run(t, ops).entries.Keys
    ensures forall id :: id in InScope(Run(t, ops), scope) ==> id >= t.nextID
  {
    hide Run, Apply;
    forall id | id in InScope(t, scope) ensures id !in Run(t, ops).entries {
      VictimIsGone(t, ops, id);
    }
    forall id | id in InScope(Run(t, ops), scope) ensures id >= t.nextID {
      if id < t.nextID { RunKeeps(t, ops, id); }
    }
  }

  /** Operations that may take away a handle of a scope. */
  predicate MayRelease(op: Op, id: ID, scope: nat) {
    match op
    case Release(i) => i == id
    case ReleaseAllRefs(i) => i == id
    case ReleaseFromFinalizer(i) => i == id
    case Drain(ids) => id in ids
    case ReleaseScope(s) => s == scope
    case ReleaseAll => true
    case ReleaseVictim(i) => i == id
    case _ => false
  }

  lemma {:induction false} DrainedSpares(t: Table, ids: seq<ID>, id: ID)
    requires id in t.entries && id !in ids
    ensures id in Drained(t, ids).entries
  {
    if ids != [] {
      DrainedSpares(t, ids[..|ids| - 1], id);
    }
  }

  lemma ApplySpares(t: Table, op: Op, id: ID)
    requires id in t.entries && id < t.nextID && !MayRelease(op, id, t.entries[id].scope)
    ensures id in Apply(t, op).entries && Apply(t, op).entries[id].scope == t.entries[id].scope
  {
    if op.Drain? { DrainedSpares(t, op.ids, id); }
    assert id in Apply(t, op).entries;
    hide Apply;
    ApplyKeeps(t, op, id);
  }

  lemma {:induction false} RunSpares(t: Table, ops: seq<Op>, id: ID)
    requires id in t.entries && id < t.nextID
    requires forall op :: op in ops ==> !MayRelease(op, id, t.entries[id].scope)
    ensures id in Run(t, ops).entries && Run(t, ops).entries[id].scope == t.entries[id].scope
  {
    if ops != [] {
      var front, last := ops[..|ops| - 1], ops[|ops| - 1];
      assert last in ops;
      RunSpares(t, front, id);
      NextIDGrows(t, front);
      ApplySpares(Run(t, front), last, id);
      hide Apply;
    }
  }

  /**
   When a handle of the scope survives the release, as far as nobody else releases it: if and only if it had
   escaped when the scope was collected. Escaping later does not help.
   */
  lemma SurvivesIffEscapedBefore(t: Table, ops: seq<Op>, scope: nat, id: ID)
    requires IdsOk(t) && ReleasesVictims(t, ops, scope) && id in t.entries && t.entries[id].scope == scope
    requires forall op :: op in ops && MayRelease(op, id, scope) ==> op == ReleaseVictim(id) && id in InScope(t, scope)
    ensures id in Run(t, ops).entries <==> t.entries[id].escaped
  {
    hide Run;
    if t.entries[id].escaped {
      RunSpares(t, ops, id);
    } else {
      VictimIsGone(t, ops, id);
    }
  }

  /** A handle that escapes between the collection and its turn is released all the same. */
  lemma EscapeTooLate()
    ensures var t := Registered(EMPTY, 7, Calls(false));
            && InScope(t, 7) == {1}
            && var t' := Run(t, [Escape(1), ReleaseVictim(1)]); t'.entries == map[] && t'.log == [1]
  {
    var t := Registered(EMPTY, 7, Calls(false));
    var ops := [Escape(1), ReleaseVictim(1)];
    assert ops[..1] == [Escape(1)] && ops[..1][..0] == [];
    assert Run(t, ops[..1]) == Escaped(t, 1);
  }

  ghost function Victims(ids: seq<ID>): seq<Op> {
    seq(|ids|, i requires 0 <= i < |ids| => ReleaseVictim(ids[i]))
  }

  lemma RunVictim(t: Table, ops: seq<Op>, id: ID)
    ensures Run(t, ops + [ReleaseVictim(id)]) == ReleasedAll(Run(t, ops), id, Scope)
  {
    assert (ops + [ReleaseVictim(id)])[..|ops|] == ops;
    hide ReleasedAll;
  }

  /** Without interruption, releasing one by one is the scope release in one step. */
  lemma {:induction false} UninterruptedIsBulk(t: Table, ids: seq<ID>)
    requires Ascends(ids) && forall id :: id in ids ==> id in t.entries
    ensures Run(t, Victims(ids)) == BulkReleased(t, ids)
  {
    if ids == [] {
      BulkOfNothing(t);
    } else {
      var front, last := ids[..|ids| - 1], ids[|ids| - 1];
      assert ids == front + [last] && last in ids;
      assert Victims(ids) == Victims(front) + [ReleaseVictim(last)];
      hide Victims, Run, BulkReleased, ReleasedAll;
      UninterruptedIsBulk(t, front);
      RunVictim(t, Victims(front), last);
      BulkStep(t, front, last);
    }
  }
}
