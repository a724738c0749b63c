/**
 The handle table as a value: what each operation does to it, and what every sequence of operations keeps.
 */
module HandleSpec {
  import opened Ascending
  import opened Options

  /** The release callback of a handle: absent, or called at most once, with the outcome of that call. */
  datatype ReleaseFunc = NoRelease | Calls(fails: bool)

  datatype Cause = Explicit | Finalizer | Scope

  datatype Error = RuntimeRequired | KindRequired | UnknownHandle(id: ID) | ReleaseFailed(id: ID, cause: Cause)

  datatype Handle = Handle(scope: nat, release: ReleaseFunc, refs: int, finalizers: nat, escaped: bool,
                           references: map<ID, string>)

  /**
   `log` (history) lists the ids whose release callback was invoked, in order; `callbacks` (history) are the
   ids registered with one.
   */
  datatype Table = Table(nextID: ID, entries: map<ID, Handle>,
                         released: int, releaseErrors: int,
                         finalizerReleases: int, scopeReleases: int, explicitReleases: int,
                         log: seq<ID>, callbacks: set<ID>)

  const EMPTY := Table(1, map[], 0, 0, 0, 0, 0, [], {})

  // ---------- operations

  function Registered(t: Table, scope: nat, release: ReleaseFunc): Table {
    t.(nextID := t.nextID + 1,
       entries := t.entries[t.nextID := Handle(scope, release, 1, 0, false, map[])],
       callbacks := t.callbacks + if release.Calls? then {t.nextID} else {})
  }

  function Update(t: Table, id: ID, h: Handle): Table {
    t.(entries := t.entries[id := h])
  }

  function Retained(t: Table, id: ID): Table {
    if id in t.entries then Update(t, id, t.entries[id].(refs := t.entries[id].refs + 1)) else t
  }

  function Escaped(t: Table, id: ID): Table {
    if id in t.entries then Update(t, id, t.entries[id].(escaped := true)) else t
  }

  function Finalized(t: Table, id: ID): Table {
    if id in t.entries then Update(t, id, t.entries[id].(finalizers := t.entries[id].finalizers + 1)) else t
  }

  /** An empty label is recorded as "reference". */
  function Label(kind: string): string {
    if kind == "" then "reference" else kind
  }

  function Referenced(t: Table, from: ID, to: ID, kind: string): Table {
    if from in t.entries && to in t.entries
    then Update(t, from, t.entries[from].(references := t.entries[from].references[to := Label(kind)]))
    else t
  }

  function Unreferenced(t: Table, from: ID, to: ID): Table {
    if from in t.entries then Update(t, from, t.entries[from].(references := t.entries[from].references - {to})) else t
  }

  /** The entries that are left when `gone` are removed, with no reference into `gone`. */
  function Survivors(entries: map<ID, Handle>, gone: set<ID>): map<ID, Handle> {
    map id | id in entries && id !in gone :: entries[id].(references := entries[id].references - gone)
  }

  function Counted(t: Table, cause: Cause, n: int): Table {
    var t' := t.(released := t.released + n);
    match cause
    case Explicit => t'.(explicitReleases := t.explicitReleases + n)
    case Finalizer => t'.(finalizerReleases := t.finalizerReleases + n)
    case Scope => t'.(scopeReleases := t.scopeReleases + n)
  }

  /** A handle leaves the table and its callback runs. */
  function Dropped(t: Table, id: ID, cause: Cause): Table
    requires id in t.entries
  {
    var h := t.entries[id];
    Counted(t, cause, 1).(
      entries := Survivors(t.entries, {id}),
      log := if h.release.Calls? then t.log + [id] else t.log,
      releaseErrors := if Fails(h) then t.releaseErrors + 1 else t.releaseErrors)
  }

  predicate Fails(h: Handle) {
    h.release.Calls? && h.release.fails
  }

  /** One strong reference is released; the last one drops the handle. */
  function Released(t: Table, id: ID, cause: Cause): Table {
    if id !in t.entries then t
    else if t.entries[id].refs > 1 then Update(t, id, t.entries[id].(refs := t.entries[id].refs - 1))
    else Dropped(t, id, cause)
  }

  function ReleaseError(t: Table, id: ID, cause: Cause): Option<Error> {
    if id in t.entries && t.entries[id].refs <= 1 && Fails(t.entries[id]) then Some(ReleaseFailed(id, cause)) else None
  }

  /** All strong references are released at once. */
  function ReleasedAll(t: Table, id: ID, cause: Cause): Table {
    if id in t.entries then Dropped(t, id, cause) else t
  }

  function ReleaseAllError(t: Table, id: ID, cause: Cause): Option<Error> {
    if id in t.entries && Fails(t.entries[id]) then Some(ReleaseFailed(id, cause)) else None
  }

  /** Queued finalizer releases, applied in the order in which they were drained. */
  function Drained(t: Table, ids: seq<ID>): Table {
    if ids == [] then t else Released(Drained(t, ids[..|ids| - 1]), ids[|ids| - 1], Finalizer)
  }

  function DrainError(t: Table, ids: seq<ID>): Option<Error> {
    if ids == [] then None else
    match DrainError(t, ids[..|ids| - 1])
    case Some(e) => Some(e)
    case None => ReleaseError(Drained(t, ids[..|ids| - 1]), ids[|ids| - 1], Finalizer)
  }

  // ---------- bulk release, in closed form

  /** The ids of `ids`, in order, whose handle has a callback. */
  function WithCallback(entries: map<ID, Handle>, ids: seq<ID>): seq<ID> {
    if ids == [] then [] else
    var last := ids[|ids| - 1];
    WithCallback(entries, ids[..|ids| - 1]) + if last in entries && entries[last].release.Calls? then [last] else []
  }

  function Failing(entries: map<ID, Handle>, ids: seq<ID>): seq<ID> {
    if ids == [] then [] else
    var last := ids[|ids| - 1];
    Failing(entries, ids[..|ids| - 1]) + if last in entries && Fails(entries[last]) then [last] else []
  }

  /** All of `ids` leave at once: their callbacks run in the order of `ids`, the failing ones are counted. */
  function BulkReleased(t: Table, ids: seq<ID>): Table {
    Counted(t, Scope, |ids|).(
      entries := Survivors(t.entries, set id | id in ids),
      log := t.log + WithCallback(t.entries, ids),
      releaseErrors := t.releaseErrors + |Failing(t.entries, ids)|)
  }

  /** The first failure, in the order of `ids`. */
  function BulkError(t: Table, ids: seq<ID>): Option<Error> {
    var failing := Failing(t.entries, ids);
    if failing == [] then None else Some(ReleaseFailed(failing[0], Scope))
  }

  /** The live, non-escaped handles of a scope. */
  function InScope(t: Table, scope: nat): set<ID> {
    set id | id in t.entries && t.entries[id].scope == scope && !t.entries[id].escaped
  }

  lemma BulkStep(t: Table, ids: seq<ID>, id: ID)
    requires id in t.entries && id !in ids
    ensures BulkReleased(t, ids + [id]) == ReleasedAll(BulkReleased(t, ids), id, Scope)
    ensures BulkError(t, ids + [id])
         == if BulkError(t, ids).Some? then BulkError(t, ids) else ReleaseAllError(BulkReleased(t, ids), id, Scope)
  {
    var more := ids + [id];
    assert more[..|more| - 1] == ids;
    var a, b := BulkReleased(t, ids), BulkReleased(t, more);
    assert id in a.entries && a.entries[id].release == t.entries[id].release;
    forall k | k in b.entries
      ensures k in Survivors(a.entries, {id}) && Survivors(a.entries, {id})[k] == b.entries[k]
    {
      assert t.entries[k].references - (set x | x in more) == t.entries[k].references - (set x | x in ids) - {id};
    }
    assert b.entries == Survivors(a.entries, {id});
  }

  // ---------- what every run keeps

  /** The references of a handle are labelled and lead to live handles. */
  ghost predicate EdgesInto(h: Handle, live: set<ID>) {
    forall y :: y in h.references ==> y in live && h.references[y] != ""
  }

  ghost predicate EdgesOk(t: Table) {
    forall x :: x in t.entries ==> EdgesInto(t.entries[x], t.entries.Keys)
  }

  ghost predicate IdsOk(t: Table) {
    t.nextID >= 1 && forall id :: id in t.entries ==> 1 <= id < t.nextID && t.entries[id].refs >= 1
  }

  ghost predicate CountsOk(t: Table) {
    && t.nextID - 1 == |t.entries| + t.released
    && t.released == t.explicitReleases + t.finalizerReleases + t.scopeReleases
  }

  /** The log names, once each, exactly the handles that had a callback and are gone. */
  ghost predicate LogOk(t: Table) {
    && (forall i, j :: 0 <= i < j < |t.log| ==> t.log[i] != t.log[j])
    && (forall id :: id in t.log <==> id in t.callbacks && id !in t.entries)
    && (forall id :: id in t.callbacks ==> 1 <= id < t.nextID)
    && (forall id :: id in t.entries ==> (id in t.callbacks <==> t.entries[id].release.Calls?))
  }

  ghost predicate Consistent(t: Table) {
    EdgesOk(t) && IdsOk(t) && CountsOk(t) && LogOk(t)
  }

  /** Edges stay live when handles are added. */
  lemma EdgesGrow(h: Handle, live: set<ID>, more: set<ID>)
    requires EdgesInto(h, live) && live <= more
    ensures EdgesInto(h, more)
  {
  }

  lemma RegisteredEdges(t: Table, scope: nat, release: ReleaseFunc)
    requires EdgesOk(t)
    ensures EdgesOk(Registered(t, scope, release))
  {
    var t' := Registered(t, scope, release);
    forall x | x in t'.entries ensures EdgesInto(t'.entries[x], t'.entries.Keys) {
      if x != t.nextID { EdgesGrow(t.entries[x], t.entries.Keys, t'.entries.Keys); }
    }
  }

  lemma RegisteredIds(t: Table, scope: nat, release: ReleaseFunc)
    requires IdsOk(t)
    ensures IdsOk(Registered(t, scope, release))
  {
  }

  lemma OneMoreKey<T>(entries: map<ID, T>, id: ID, h: T)
    requires id !in entries
    ensures |entries[id := h]| == |entries| + 1
  {
    assert entries[id := h].Keys == entries.Keys + {id};
    assert |entries[id := h].Keys| == |entries.Keys| + 1;
  }

  lemma RegisteredCounts(t: Table, scope: nat, release: ReleaseFunc)
    requires CountsOk(t) && t.nextID !in t.entries
    ensures CountsOk(Registered(t, scope, release))
  {
    OneMoreKey(t.entries, t.nextID, Handle(scope, release, 1, 0, false, map[]));
  }

  lemma RegisteredLog(t: Table, scope: nat, release: ReleaseFunc)
    requires IdsOk(t) && LogOk(t)
    ensures LogOk(Registered(t, scope, release))
  {
  }

  lemma RegisteredInv(t: Table, scope: nat, release: ReleaseFunc)
    requires Consistent(t)
    ensures Consistent(Registered(t, scope, release)) && t.nextID !in t.entries && t.nextID !in t.log
  {
    assert t.nextID !in t.entries && t.nextID !in t.log;
    hide EdgesOk, IdsOk, CountsOk, LogOk, Registered;
    RegisteredEdges(t, scope, release);
    RegisteredIds(t, scope, release);
    RegisteredCounts(t, scope, release);
    RegisteredLog(t, scope, release);
  }

  /** An update of one live handle that keeps its callback, a positive count, and only live labelled edges. */
  lemma UpdateInv(t: Table, id: ID, h: Handle)
    requires Consistent(t) && id in t.entries && h.refs >= 1 && h.release == t.entries[id].release
    requires EdgesInto(h, t.entries.Keys)
    ensures Consistent(Update(t, id, h))
  {
    assert Update(t, id, h).entries.Keys == t.entries.Keys;
  }

  lemma DroppedEntries(t: Table, id: ID, cause: Cause)
    requires EdgesOk(t) && IdsOk(t) && CountsOk(t) && id in t.entries
    ensures EdgesOk(Dropped(t, id, cause)) && IdsOk(Dropped(t, id, cause)) && CountsOk(Dropped(t, id, cause))
  {
    var t' := Dropped(t, id, cause);
    assert t.entries.Keys == t'.entries.Keys + {id};
    assert |t.entries.Keys| == |t'.entries.Keys| + 1;
    forall x | x in t'.entries ensures EdgesInto(t'.entries[x], t'.entries.Keys) {
      assert EdgesInto(t.entries[x], t.entries.Keys);
    }
  }

  lemma DroppedLog(t: Table, id: ID, cause: Cause)
    requires LogOk(t) && id in t.entries
    ensures LogOk(Dropped(t, id, cause))
  {
    assert id !in t.log;
  }

  lemma DroppedInv(t: Table, id: ID, cause: Cause)
    requires Consistent(t) && id in t.entries
    ensures Consistent(Dropped(t, id, cause))
  {
    hide EdgesOk, IdsOk, CountsOk, LogOk, Dropped;
    DroppedEntries(t, id, cause);
    DroppedLog(t, id, cause);
  }

  lemma ReleasedInv(t: Table, id: ID, cause: Cause)
    requires Consistent(t)
    ensures Consistent(Released(t, id, cause))
  {
    if id in t.entries {
      if t.entries[id].refs > 1 {
        UpdateInv(t, id, t.entries[id].(refs := t.entries[id].refs - 1));
      } else {
        DroppedInv(t, id, cause);
      }
    }
  }

  lemma ReleasedAllInv(t: Table, id: ID, cause: Cause)
    requires Consistent(t)
    ensures Consistent(ReleasedAll(t, id, cause))
  {
    if id in t.entries { DroppedInv(t, id, cause); }
  }

  lemma {:induction false} DrainedInv(t: Table, ids: seq<ID>)
    requires Consistent(t)
    ensures Consistent(Drained(t, ids))
  {
    if ids != [] {
      DrainedInv(t, ids[..|ids| - 1]);
      ReleasedInv(Drained(t, ids[..|ids| - 1]), ids[|ids| - 1], Finalizer);
    }
  }

  lemma {:induction false} BulkInv(t: Table, ids: seq<ID>)
    requires Consistent(t) && Ascends(ids) && forall id :: id in ids ==> id in t.entries
    ensures Consistent(BulkReleased(t, ids))
  {
    if ids == [] {
      BulkOfNothing(t);
    } else {
      var front, last := ids[..|ids| - 1], ids[|ids| - 1];
      assert ids == front + [last];
      BulkInv(t, front);
      BulkStep(t, front, last);
      ReleasedAllInv(BulkReleased(t, front), last, Scope);
    }
  }

  lemma BulkOfNothing(t: Table)
    ensures BulkReleased(t, []) == t && BulkError(t, []) == None
  {
    assert (set id: ID | id in []) == {};
    forall id | id in t.entries ensures Survivors(t.entries, {})[id] == t.entries[id] {
      assert t.entries[id].references - {} == t.entries[id].references;
    }
    assert Survivors(t.entries, {}) == t.entries;
    assert t.log + [] == t.log;
  }

  // ---------- runs

  datatype Op =
    | Register(scope: nat, release: ReleaseFunc)
    | Retain(id: ID)
    | Escape(id: ID)
    | RecordReference(from: ID, to: ID, kind: string)
    | DropReference(from: ID, to: ID)
    | Release(id: ID)
    | ReleaseAllRefs(id: ID)
    | ReleaseFromFinalizer(id: ID)
    | QueueFinalizer(id: ID)
    | Drain(ids: seq<ID>)      // whatever ids the finalizer queue yields
    | ReleaseScope(scope: nat)
    | ReleaseAll
    | ReleaseVictim(id: ID)    // one step of a scope release that others may interrupt

  ghost function Listing(s: set<ID>): (ids: seq<ID>)
    ensures Lists(ids, s)
  {
    if s == {} then [] else
    var m := Least(s);
    var rest := Listing(s - {m});
    ListingCons(m, rest, s);
    [m] + rest
  }

  lemma ListingCons(m: ID, rest: seq<ID>, s: set<ID>)
    requires m in s && (forall x :: x in s ==> m <= x) && Lists(rest, s - {m})
    ensures Lists([m] + rest, s)
  {
    forall i | 0 <= i < |rest| ensures m < rest[i] {
      assert rest[i] in rest;
    }
    forall x ensures x in [m] + rest <==> x in s {
      if x in s && x != m { assert x in rest; }
    }
  }

  ghost function Apply(t: Table, op: Op): Table {
    match op
    case Register(scope, release) => Registered(t, scope, release)
    case Retain(id) => Retained(t, id)
    case Escape(id) => Escaped(t, id)
    case RecordReference(from, to, kind) => Referenced(t, from, to, kind)
    case DropReference(from, to) => Unreferenced(t, from, to)
    case Release(id) => Released(t, id, Explicit)
    case ReleaseAllRefs(id) => ReleasedAll(t, id, Explicit)
    case ReleaseFromFinalizer(id) => Released(Finalized(t, id), id, Finalizer)
    case QueueFinalizer(id) => Finalized(t, id)
    case Drain(ids) => Drained(t, ids)
    case ReleaseScope(scope) => BulkReleased(t, Listing(InScope(t, scope)))
    case ReleaseAll => BulkReleased(t, Listing(t.entries.Keys))
    case ReleaseVictim(id) => ReleasedAll(t, id, Scope)
  }

  ghost function Run(t: Table, ops: seq<Op>): Table {
    if ops == [] then t else Apply(Run(t, ops[..|ops| - 1]), ops[|ops| - 1])
  }

  lemma ApplyInv(t: Table, op: Op)
    requires Consistent(t)
    ensures Consistent(Apply(t, op))
  {
    hide Consistent, Registered, Retained, Escaped, Finalized, Referenced, Unreferenced, Released, ReleasedAll, Drained;
    hide BulkReleased;
    match op
    case Register(scope, release) => RegisteredInv(t, scope, release);
    case Retain(id) => RetainedInv(t, id);
    case Escape(id) => EscapedInv(t, id);
    case RecordReference(from, to, kind) => ReferencedInv(t, from, to, kind);
    case DropReference(from, to) => UnreferencedInv(t, from, to);
    case Release(id) => ReleasedInv(t, id, Explicit);
    case ReleaseAllRefs(id) => ReleasedAllInv(t, id, Explicit);
    case ReleaseFromFinalizer(id) => FinalizedInv(t, id); ReleasedInv(Finalized(t, id), id, Finalizer);
    case QueueFinalizer(id) => FinalizedInv(t, id);
    case Drain(ids) => DrainedInv(t, ids);
    case ReleaseScope(scope) => BulkInv(t, Listing(InScope(t, scope)));
    case ReleaseAll => BulkInv(t, Listing(t.entries.Keys));
    case ReleaseVictim(id) => ReleasedAllInv(t, id, Scope);
  }

  lemma RetainedInv(t: Table, id: ID)
    requires Consistent(t)
    ensures Consistent(Retained(t, id))
  {
    if id in t.entries { UpdateInv(t, id, t.entries[id].(refs := t.entries[id].refs + 1)); }
  }

  lemma EscapedInv(t: Table, id: ID)
    requires Consistent(t)
    ensures Consistent(Escaped(t, id))
  {
    if id in t.entries { UpdateInv(t, id, t.entries[id].(escaped := true)); }
  }

  lemma FinalizedInv(t: Table, id: ID)
    requires Consistent(t)
    ensures Consistent(Finalized(t, id))
  {
    if id in t.entries { UpdateInv(t, id, t.entries[id].(finalizers := t.entries[id].finalizers + 1)); }
  }

  lemma ReferencedInv(t: Table, from: ID, to: ID, kind: string)
    requires Consistent(t)
    ensures Consistent(Referenced(t, from, to, kind))
  {
    if from in t.entries && to in t.entries {
      var before := t.entries[from].references;
      assert EdgesInto(t.entries[from], t.entries.Keys);
      UpdateInv(t, from, t.entries[from].(references := before[to := Label(kind)]));
    }
  }

  lemma UnreferencedInv(t: Table, from: ID, to: ID)
    requires Consistent(t)
    ensures Consistent(Unreferenced(t, from, to))
  {
    if from in t.entries {
      var before := t.entries[from].references;
      assert EdgesInto(t.entries[from], t.entries.Keys);
      UpdateInv(t, from, t.entries[from].(references := before - {to}));
    }
  }

  /** Every run from the empty table keeps the invariant. */
  lemma {:induction false} RunInv(ops: seq<Op>)
    ensures Consistent(Run(EMPTY, ops))
  {
    if ops != [] {
      RunInv(ops[..|ops| - 1]);
      ApplyInv(Run(EMPTY, ops[..|ops| - 1]), ops[|ops| - 1]);
    }
  }

  /**
   Conservation over every run: live handles hold at least one reference and only edges to live handles;
   registered ids are live or released; releases are explicit, finalizer, or scope releases.
   */
  lemma HandlesAreConserved(ops: seq<Op>)
    ensures var t := Run(EMPTY, ops);
            && (forall id :: id in t.entries ==>
              t.entries[id].refs >= 1 && t.entries[id].references.Keys <= t.entries.Keys)
            && t.nextID - 1 == |t.entries| + t.released
            && t.released == t.explicitReleases + t.finalizerReleases + t.scopeReleases
  {
    RunInv(ops);
  }

  lemma {:induction false} OccursOnce(s: seq<ID>, x: ID)
    requires forall i, j :: 0 <= i < j < |s| ==> s[i] != s[j]
    ensures multiset(s)[x] == if x in s then 1 else 0
  {
    if s != [] {
      var front := s[..|s| - 1];
      assert s == front + [s[|s| - 1]];
      OccursOnce(front, x);
    }
  }

  /**
   Over every run a release callback is invoked at most once per id: never while the handle is live, once when it
   is gone.
   */
  lemma CallbackExactlyOnce(ops: seq<Op>, id: ID)
    ensures var t := Run(EMPTY, ops);
            multiset(t.log)[id] == if id in t.callbacks && id !in t.entries then 1 else 0
  {
    RunInv(ops);
    OccursOnce(Run(EMPTY, ops).log, id);
  }

  // ---------- ids are never reused

  /** `id` was handed out and has been released. */
  ghost predicate Gone(t: Table, id: ID) {
    1 <= id < t.nextID && id !in t.entries
  }

  lemma {:induction false} DrainedShrinks(t: Table, ids: seq<ID>)
    ensures Drained(t, ids).entries.Keys <= t.entries.Keys && Drained(t, ids).nextID == t.nextID
  {
    if ids != [] { DrainedShrinks(t, ids[..|ids| - 1]); }
  }

  /** No operation brings back an id: the only new one is the next in line. */
  lemma ApplyKeys(t: Table, op: Op)
    ensures var t' := Apply(t, op); t'.nextID >= t.nextID && t'.entries.Keys <= t.entries.Keys + {t.nextID}
    ensures var t' := Apply(t, op); t.nextID in t'.entries && t.nextID !in t.entries ==> t'.nextID > t.nextID
  {
    if op.Drain? { DrainedShrinks(t, op.ids); }
  }

  lemma {:induction false} GoneStays(t: Table, ops: seq<Op>, id: ID)
    requires Gone(t, id)
    ensures Gone(Run(t, ops), id)
  {
    if ops != [] {
      GoneStays(t, ops[..|ops| - 1], id);
      ApplyKeys(Run(t, ops[..|ops| - 1]), ops[|ops| - 1]);
      hide Apply;
    }
  }

  /** A finalizer that arrives after its handle was released changes nothing, however late it is drained. */
  lemma StaleFinalizerIsHarmless(t: Table, ops: seq<Op>, id: ID)
    requires Gone(t, id)
    ensures var later := Run(t, ops);
            && Released(later, id, Finalizer) == later && Drained(later, [id]) == later && Finalized(later, id) == later
            && Registered(later, 0, NoRelease).entries.Keys - later.entries.Keys !! {id}
  {
    GoneStays(t, ops, id);
    assert [id][..0] == [];
    assert Drained(Run(t, ops), []) == Run(t, ops);
  }

  // ---------- reference counts balance

  /** What an operation does to the count of a handle that survives it. */
  function Net(op: Op, id: ID): int {
    match op
    case Retain(i) => if i == id then 1 else 0
    case Release(i) => if i == id then -1 else 0
    case ReleaseFromFinalizer(i) => if i == id then -1 else 0
    case Drain(ids) => -(multiset(ids)[id] as int)
    case _ => 0
  }

  function NetOf(ops: seq<Op>, id: ID): int {
    if ops == [] then 0 else NetOf(ops[..|ops| - 1], id) + Net(ops[|ops| - 1], id)
  }

  lemma {:induction false} DrainedBalance(t: Table, ids: seq<ID>, id: ID)
    requires id in Drained(t, ids).entries
    ensures id in t.entries && Drained(t, ids).entries[id].refs == t.entries[id].refs - multiset(ids)[id]
  {
    if ids != [] {
      var front, last := ids[..|ids| - 1], ids[|ids| - 1];
      assert ids == front + [last];
      DrainedBalance(t, front, id);
    }
  }

  lemma BalanceStep(t: Table, op: Op, id: ID)
    requires id < t.nextID && id in Apply(t, op).entries
    ensures id in t.entries && Apply(t, op).entries[id].refs == t.entries[id].refs + Net(op, id)
  {
    if op.Drain? { DrainedBalance(t, op.ids, id); }
  }

  /**
   As long as a handle lives, its strong count is what it was plus the retains minus the releases it has
   received since.
   */
  lemma {:induction false} RefsBalance(t: Table, ops: seq<Op>, id: ID)
    requires id < t.nextID && id in Run(t, ops).entries
    ensures id in t.entries && Run(t, ops).entries[id].refs == t.entries[id].refs + NetOf(ops, id)
  {
    if ops != [] {
      NextIDGrows(t, ops[..|ops| - 1]);
      BalanceStep(Run(t, ops[..|ops| - 1]), ops[|ops| - 1], id);
      hide Apply, Net;
      RefsBalance(t, ops[..|ops| - 1], id);
    }
  }

  lemma {:induction false} NextIDGrows(t: Table, ops: seq<Op>)
    ensures Run(t, ops).nextID >= t.nextID
  {
    if ops != [] {
      NextIDGrows(t, ops[..|ops| - 1]);
      ApplyKeys(Run(t, ops[..|ops| - 1]), ops[|ops| - 1]);
      hide Apply;
    }
  }

  // ---------- scope cleanup

  lemma {:induction false} WithCallbackListed(entries: map<ID, Handle>, ids: seq<ID>)
    requires Ascends(ids)
    ensures Ascends(WithCallback(entries, ids))
    ensures forall id :: id in WithCallback(entries, ids) <==> id in ids && id in entries && entries[id].release.Calls?
  {
    if ids != [] {
      var front, last := ids[..|ids| - 1], ids[|ids| - 1];
      WithCallbackListed(entries, front);
      assert ids == front + [last];
      forall i | 0 <= i < |WithCallback(entries, front)| ensures WithCallback(entries, front)[i] < last {
        assert WithCallback(entries, front)[i] in WithCallback(entries, front);
      }
    }
  }

  lemma {:induction false} FailingListed(entries: map<ID, Handle>, ids: seq<ID>)
    requires Ascends(ids)
    ensures Ascends(Failing(entries, ids))
    ensures forall id :: id in Failing(entries, ids) <==> id in ids && id in entries && Fails(entries[id])
  {
    if ids != [] {
      var front, last := ids[..|ids| - 1], ids[|ids| - 1];
      FailingListed(entries, front);
      assert ids == front + [last];
      forall i | 0 <= i < |Failing(entries, front)| ensures Failing(entries, front)[i] < last {
        assert Failing(entries, front)[i] in Failing(entries, front);
      }
    }
  }

  /** Releasing a scope empties it, and touches nothing else but the edges into the released handles. */
  lemma ScopeIsReleased(t: Table, scope: nat, ids: seq<ID>)
    requires Lists(ids, InScope(t, scope))
    ensures var t', gone := BulkReleased(t, ids), InScope(t, scope);
            && InScope(t', scope) == {}
            && t'.entries.Keys == t.entries.Keys - gone
            && forall id :: id in t'.entries ==>
                 && t'.entries[id].references == t.entries[id].references - gone
                 && t'.entries[id] == t.entries[id].(references := t'.entries[id].references)
  {
    assert (set id | id in ids) == InScope(t, scope);
  }

  /**
   The callbacks of the released handles run once each, in ascending id order, whether or not earlier ones
   fail; the error reported is that of the smallest failing id.
   */
  lemma ScopeCallbacks(t: Table, scope: nat, ids: seq<ID>) returns (ran: seq<ID>)
    requires Lists(ids, InScope(t, scope))
    ensures BulkReleased(t, ids).log == t.log + ran && Ascends(ran)
    ensures forall id :: id in ran <==> id in InScope(t, scope) && t.entries[id].release.Calls?
    ensures BulkError(t, ids) == None <==> forall id :: id in InScope(t, scope) ==> !Fails(t.entries[id])
    ensures BulkError(t, ids).Some? ==>
              exists first :: first in InScope(t, scope) && Fails(t.entries[first])
                && BulkError(t, ids).value == ReleaseFailed(first, Scope)
                && forall id :: id in InScope(t, scope) && Fails(t.entries[id]) ==> first <= id
  {
    ran := WithCallback(t.entries, ids);
    WithCallbackListed(t.entries, ids);
    FailingListed(t.entries, ids);
    var failing := Failing(t.entries, ids);
    if failing != [] {
      assert failing[0] in failing;
      forall id | id in InScope(t, scope) && Fails(t.entries[id]) ensures failing[0] <= id {
        assert id in failing;
      }
    } else {
      forall id | id in InScope(t, scope) ensures !Fails(t.entries[id]) {
        assert id in ids && id !in failing;
      }
    }
  }

  /** Releasing the scope again does nothing. */
  lemma ScopeReleaseIsIdempotent(t: Table, scope: nat, ids: seq<ID>, again: seq<ID>)
    requires Lists(ids, InScope(t, scope)) && Lists(again, InScope(BulkReleased(t, ids), scope))
    ensures BulkReleased(BulkReleased(t, ids), again) == BulkReleased(t, ids)
    ensures BulkError(BulkReleased(t, ids), again) == None
  {
    ScopeIsReleased(t, scope, ids);
    ListingSize(again, {});
    BulkOfNothing(BulkReleased(t, ids));
  }
}
