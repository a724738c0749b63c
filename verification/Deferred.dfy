/**
 Deferred named releases: finalizers of guest runtimes queue the names of buffers, and a safe thread applies
 them later. The store after draining does not depend on the order of the queue.
 */
module Deferred {
  import opened Options
  import opened SpillQueues
  import opened StoreInv
  import opened StoreRuns
  import opened StoreSpec

  const DEFERRED_CAPACITY := 256
  const MAX_OVERFLOW_NAMES := 4096

  // ---------- releases of different names commute

  /** What a named release does to the buffer at the head of its queue. */
  datatype Ending = Ending(x: SlotID, slot: Slot, last: bool, release: Option<Callback>, times: nat)

  ghost predicate Queued(s: Store, name: Name) {
    QueueOf(s.queues, name) != [] && s.queues[name][0].slot in s.slots
  }

  ghost function EndingOf(s: Store, name: Name): Ending
    requires Queued(s, name)
  {
    var x := s.queues[name][0].slot;
    var low := LowerBorrow(s.slots[x]);
    Ending(x, Settle(low), low.refs <= 0, low.release,
           if low.release.Some? then Times(s, low.release.value.id) + 1 else 0)
  }

  ghost function Act(s: Store, name: Name, e: Ending): Store
    requires QueueOf(s.queues, name) != []
  {
    s.(slots := s.slots[e.x := e.slot],
       queues := Popped(s.queues, name),
       detached := if e.last then s.detached - {e.x} else s.detached,
       fates := if e.last && e.release.Some? then s.fates[e.release.value.id := Ran(e.times)] else s.fates,
       tombs := if e.last && FailureOf(e.release) then Blame(s.tombs, name) else s.tombs,
       counters := Count(s.counters, e))
  }

  function Count(c: Counters, e: Ending): Counters {
    c.(releases := c.releases + 1,
       releaseErrors := c.releaseErrors + if e.last && FailureOf(e.release) then 1 else 0)
  }

  lemma EndIsAct(s: Store, name: Name)
    requires Queued(s, name)
    requires var x := s.queues[name][0].slot;
             LowerBorrow(s.slots[x]).refs <= 0 ==> forall n :: n in s.current ==> s.current[n] != x
    ensures EndBorrow(s.(queues := Popped(s.queues, name)), name, s.queues[name][0].slot)
              == Act(s, name, EndingOf(s, name))
  {
    hide Popped, Blame, LowerBorrow, Settle;
  }

  lemma ReleaseIsAct(s: Store, name: Name)
    requires Inv(s) && QueueOf(s.queues, name) != []
    ensures Queued(s, name) && Inv(Act(s, name, EndingOf(s, name)))
    ensures Apply(s, Op.ReleaseNamed(name)) == Act(s, name, EndingOf(s, name))
  {
    ReleaseNamedOwes(s, name);
    Owing(s.(queues := Popped(s.queues, name)), s.queues[name][0].slot);
    hide Inv, Owed, Popped, Act, EndingOf, EndBorrow, Apply;
    EndIsAct(s, name);
    ApplyReleaseNamed(s, name);
    ApplyInv(s, Op.ReleaseNamed(name));
  }

  /** The two releases touch different buffers, names and callbacks. */
  ghost predicate Apart(a: Name, e: Ending, b: Name, f: Ending) {
    a != b && e.x != f.x && (e.release.Some? && f.release.Some? ==> e.release.value.id != f.release.value.id)
  }

  lemma PoppedCommute(queues: map<Name, seq<Loan>>, a: Name, b: Name)
    requires a != b && QueueOf(queues, a) != [] && QueueOf(queues, b) != []
    ensures QueueOf(Popped(queues, a), b) == QueueOf(queues, b) && QueueOf(Popped(queues, b), a) == QueueOf(queues, a)
    ensures Popped(Popped(queues, a), b) == Popped(Popped(queues, b), a)
  {
  }

  lemma BlameCommutes(t: Tombs, a: Name, b: Name)
    requires a != b
    ensures Blame(Blame(t, a), b) == Blame(Blame(t, b), a)
  {
    assert Blame(Blame(t, a), b).meta == Blame(Blame(t, b), a).meta;
  }

  lemma FatesCommute(fates: map<nat, Fate>, c: nat, f: Fate, d: nat, g: Fate)
    requires c != d
    ensures fates[c := f][d := g] == fates[d := g][c := f]
  {
  }

  lemma ActsCommute(s: Store, a: Name, e: Ending, b: Name, f: Ending)
    requires QueueOf(s.queues, a) != [] && QueueOf(s.queues, b) != [] && Apart(a, e, b, f)
    ensures QueueOf(Act(s, a, e).queues, b) != [] && QueueOf(Act(s, b, f).queues, a) != []
    ensures Act(Act(s, a, e), b, f) == Act(Act(s, b, f), a, e)
  {
    PoppedCommute(s.queues, a, b);
    BlameCommutes(s.tombs, a, b);
    assert s.slots[e.x := e.slot][f.x := f.slot] == s.slots[f.x := f.slot][e.x := e.slot];
    if e.release.Some? && f.release.Some? {
      FatesCommute(s.fates, e.release.value.id, Ran(e.times), f.release.value.id, Ran(f.times));
    }
    assert s.detached - {e.x} - {f.x} == s.detached - {f.x} - {e.x};
    hide Blame, Popped, QueueOf;
    assert Count(Count(s.counters, e), f) == Count(Count(s.counters, f), e);
    hide Count;
  }

  /** A release leaves what a release of another name will do as it is. */
  lemma EndingStays(s: Store, a: Name, b: Name)
    requires a != b && Queued(s, a) && Queued(s, b) && Apart(a, EndingOf(s, a), b, EndingOf(s, b))
    ensures var s' := Act(s, a, EndingOf(s, a)); Queued(s', b) && EndingOf(s', b) == EndingOf(s, b)
  {
    PoppedCommute(s.queues, a, b);
    hide Popped, Blame;
  }

  lemma DifferentNamesAreApart(s: Store, a: Name, b: Name)
    requires Inv(s) && a != b && QueueOf(s.queues, a) != [] && QueueOf(s.queues, b) != []
    ensures Queued(s, a) && Queued(s, b) && Apart(a, EndingOf(s, a), b, EndingOf(s, b))
  {
    HeadLoan(s, a);
    HeadLoan(s, b);
    hide CountsOk, PlacesOk, LoansOk, TombsOk;
  }

  lemma BothReleased(s: Store, a: Name, b: Name)
    requires Inv(s) && a != b && Queued(s, a) && Queued(s, b) && Apart(a, EndingOf(s, a), b, EndingOf(s, b))
    ensures var sa := Apply(s, Op.ReleaseNamed(a));
            && Inv(sa) && QueueOf(Act(s, a, EndingOf(s, a)).queues, b) != []
            && Apply(sa, Op.ReleaseNamed(b)) == Act(Act(s, a, EndingOf(s, a)), b, EndingOf(s, b))
  {
    ReleaseIsAct(s, a);
    EndingStays(s, a, b);
    hide Inv, Act, EndingOf, Apply, Apart;
    ReleaseIsAct(Act(s, a, EndingOf(s, a)), b);
  }

  /** A name without a borrow is not affected by releases of other names. */
  lemma OneReleased(s: Store, a: Name, b: Name)
    requires Inv(s) && a != b && QueueOf(s.queues, b) == []
    ensures Apply(s, Op.ReleaseNamed(b)) == s
    ensures var sa := Apply(s, Op.ReleaseNamed(a)); Inv(sa) && Apply(sa, Op.ReleaseNamed(b)) == sa
  {
    ApplyInv(s, Op.ReleaseNamed(a));
    OpLoans(s, Op.ReleaseNamed(a));
    QueueStep(s, Op.ReleaseNamed(a), b);
    hide Inv, LoansStep;
  }

  lemma BothCommute(s: Store, a: Name, b: Name)
    requires Inv(s) && a != b && QueueOf(s.queues, a) != [] && QueueOf(s.queues, b) != []
    ensures var sa, sb := Apply(s, Op.ReleaseNamed(a)), Apply(s, Op.ReleaseNamed(b));
            Inv(sa) && Inv(sb) && Apply(sa, Op.ReleaseNamed(b)) == Apply(sb, Op.ReleaseNamed(a))
  {
    DifferentNamesAreApart(s, a, b);
    BothReleased(s, a, b);
    BothReleased(s, b, a);
    ActsCommute(s, a, EndingOf(s, a), b, EndingOf(s, b));
    hide *;
  }

  lemma ReleasesCommute(s: Store, a: Name, b: Name)
    requires Inv(s)
    ensures var sa, sb := Apply(s, Op.ReleaseNamed(a)), Apply(s, Op.ReleaseNamed(b));
            Inv(sa) && Inv(sb) && Apply(sa, Op.ReleaseNamed(b)) == Apply(sb, Op.ReleaseNamed(a))
  {
    hide *;
    if a != b && QueueOf(s.queues, a) != [] && QueueOf(s.queues, b) != [] {
      BothCommute(s, a, b);
    } else if a != b && QueueOf(s.queues, a) == [] {
      ApplyInv(s, Op.ReleaseNamed(b));
      OneReleased(s, b, a);
    } else if a != b {
      OneReleased(s, a, b);
    } else {
      ApplyInv(s, Op.ReleaseNamed(a));
    }
  }

  // ---------- draining

  /** The pending releases applied one after another. */
  ghost function ReleaseMany(s: Store, names: seq<Name>): (s': Store)
    requires Inv(s)
    ensures Inv(s')
  {
    if names == [] then s else
    var before := ReleaseMany(s, names[..|names| - 1]);
    ApplyInv(before, Op.ReleaseNamed(names[|names| - 1]));
    Apply(before, Op.ReleaseNamed(names[|names| - 1]))
  }

  lemma ReleaseManySnoc(s: Store, names: seq<Name>, name: Name)
    requires Inv(s)
    ensures ReleaseMany(s, names + [name]) == Apply(ReleaseMany(s, names), Op.ReleaseNamed(name))
  {
    assert (names + [name])[..|names + [name]| - 1] == names;
    hide Apply, Inv;
  }

  lemma Regroup(a: seq<Name>, x: Name, b: seq<Name>)
    requires b != []
    ensures var front, y := b[..|b| - 1], b[|b| - 1];
            a + [x] + b == (a + [x] + front) + [y] && a + b == (a + front) + [y]
  {
  }

  /** A pending release may be moved to the end. */
  lemma {:induction false} MoveToEnd(s: Store, a: seq<Name>, x: Name, b: seq<Name>)
    requires Inv(s)
    ensures ReleaseMany(s, a + [x] + b) == ReleaseMany(s, a + b + [x])
    decreases |b|
  {
    if b == [] {
      assert a + [x] + b == a + b + [x];
    } else {
      var front, y := b[..|b| - 1], b[|b| - 1];
      hide Inv, Apply, ReleaseMany;
      Regroup(a, x, b);
      MoveToEnd(s, a, x, front);
      ReleaseManySnoc(s, a + [x] + front, y);
      ReleaseManySnoc(s, a + b, x);
      SwapLast(s, a + front, x, y);
    }
  }

  lemma SwapLast(s: Store, front: seq<Name>, x: Name, y: Name)
    requires Inv(s)
    ensures Apply(ReleaseMany(s, front + [x]), Op.ReleaseNamed(y))
              == Apply(ReleaseMany(s, front + [y]), Op.ReleaseNamed(x))
  {
    hide Inv, Apply, ReleaseMany;
    ReleaseManySnoc(s, front, x);
    ReleaseManySnoc(s, front, y);
    ReleasesCommute(ReleaseMany(s, front), x, y);
  }

  lemma RemoveOne(front: seq<Name>, x: Name, q: seq<Name>) returns (a: seq<Name>, b: seq<Name>)
    requires multiset(front + [x]) == multiset(q)
    ensures q == a + [x] + b && multiset(front) == multiset(a + b)
  {
    assert x in multiset(q);
    var i :| 0 <= i < |q| && q[i] == x;
    a, b := q[..i], q[i + 1..];
    assert q == a + [x] + b;
    SameWithoutOne(front, x, a, b);
  }

  lemma SameWithoutOne(front: seq<Name>, x: Name, a: seq<Name>, b: seq<Name>)
    requires multiset(front + [x]) == multiset(a + [x] + b)
    ensures multiset(front) == multiset(a + b)
  {
    var m, n := multiset(front), multiset(a + b);
    assert multiset(front + [x]) == m + multiset{x};
    assert multiset(a + [x] + b) == n + multiset{x};
    assert (m + multiset{x}) - multiset{x} == m;
    assert (n + multiset{x}) - multiset{x} == n;
  }

  lemma AddOne(s: Store, front: seq<Name>, x: Name, a: seq<Name>, b: seq<Name>)
    requires Inv(s) && ReleaseMany(s, front) == ReleaseMany(s, a + b)
    ensures ReleaseMany(s, front + [x]) == ReleaseMany(s, a + [x] + b)
  {
    hide Inv, Apply, ReleaseMany;
    MoveToEnd(s, a, x, b);
    ReleaseManySnoc(s, front, x);
    ReleaseManySnoc(s, a + b, x);
  }

  lemma NonePending(q: seq<Name>)
    requires multiset(q) == multiset{}
    ensures q == []
  {
    assert |multiset(q)| == |q|;
  }

  /** The store after draining depends only on how often each name is pending. */
  lemma {:induction false} DrainingIsConfluent(s: Store, p: seq<Name>, q: seq<Name>)
    requires Inv(s) && multiset(p) == multiset(q)
    ensures ReleaseMany(s, p) == ReleaseMany(s, q)
  {
    hide Inv, Apply, ReleaseMany;
    if p == [] {
      NonePending(q);
    } else {
      var front, x := p[..|p| - 1], p[|p| - 1];
      assert p == front + [x];
      var a, b := RemoveOne(front, x, q);
      DrainingIsConfluent(s, front, a + b);
      AddOne(s, front, x, a, b);
    }
  }

  /** How pending names are split between channel and overflow makes no difference. */
  lemma SplitDoesNotMatter(s: Store, q: Queue<Name>, r: Queue<Name>)
    requires Inv(s) && multiset(Contents(q)) == multiset(Contents(r))
    ensures ReleaseMany(s, Contents(q)) == ReleaseMany(s, Contents(r))
  {
    DrainingIsConfluent(s, Contents(q), Contents(r));
  }

  /** A queue without its `k` oldest entries, or as many as it has. */
  function WithoutOldest<T>(queue: seq<T>, k: nat): seq<T> {
    if k >= |queue| then [] else queue[k..]
  }

  function PendingFor(names: seq<Name>, n: Name): nat {
    multiset(names)[n]
  }

  predicate Pops<T(==)>(hit: bool, q: seq<T>, q': seq<T>) {
    if hit && q != [] then q == [q[0]] + q' else q' == q
  }

  lemma DropStep<T>(queue: seq<T>, k: nat, hit: bool, q: seq<T>, q': seq<T>)
    requires q == WithoutOldest(queue, k)
    requires Pops(hit, q, q')
    ensures q' == WithoutOldest(queue, if hit then k + 1 else k)
  {
  }

  lemma ReturnPops(s: Store, name: Name, n: Name)
    requires Inv(s)
    ensures Pops(name == n, QueueOf(s.queues, n), QueueOf(Apply(s, Op.ReleaseNamed(name)).queues, n))
  {
    OpLoans(s, Op.ReleaseNamed(name));
    QueueStep(s, Op.ReleaseNamed(name), n);
    hide Inv, Apply, LoansStep, QueueOf;
  }

  lemma PendingSnoc(front: seq<Name>, last: Name, n: Name)
    ensures PendingFor(front + [last], n) == PendingFor(front, n) + if last == n then 1 else 0
  {
  }

  lemma DrainStep(s: Store, front: seq<Name>, last: Name, n: Name)
    requires Inv(s)
    requires QueueOf(ReleaseMany(s, front).queues, n) == WithoutOldest(QueueOf(s.queues, n), PendingFor(front, n))
    ensures QueueOf(ReleaseMany(s, front + [last]).queues, n)
         == WithoutOldest(QueueOf(s.queues, n), PendingFor(front + [last], n))
  {
    hide Inv, Apply, ReleaseMany, QueueOf, WithoutOldest, PendingFor, Pops;
    ReleaseManySnoc(s, front, last);
    ReturnPops(ReleaseMany(s, front), last, n);
    PendingSnoc(front, last, n);
    DropStep(QueueOf(s.queues, n), PendingFor(front, n), last == n,
             QueueOf(ReleaseMany(s, front).queues, n), QueueOf(ReleaseMany(s, front + [last]).queues, n));
  }

  /**
   Draining returns, for every name, as many of its oldest named borrows as it has pending releases; surplus
   releases return nothing.
   */
  lemma {:induction false} DrainingReturnsTheOldest(s: Store, names: seq<Name>, n: Name)
    requires Inv(s)
    ensures QueueOf(ReleaseMany(s, names).queues, n) == WithoutOldest(QueueOf(s.queues, n), PendingFor(names, n))
  {
    hide Inv, Apply, ReleaseMany, QueueOf, WithoutOldest, PendingFor;
    if names == [] {
      NothingPending(s, n);
    } else {
      var front, last := names[..|names| - 1], names[|names| - 1];
      DrainingReturnsTheOldest(s, front, n);
      DrainStep(s, front, last, n);
      assert names == front + [last];
    }
  }

  lemma NothingPending(s: Store, n: Name)
    requires Inv(s)
    ensures QueueOf(ReleaseMany(s, []).queues, n) == WithoutOldest(QueueOf(s.queues, n), PendingFor([], n))
  {
    hide Inv, Apply, QueueOf;
  }
}
