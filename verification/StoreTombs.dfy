/**
 The record of failed release callbacks. A callback runs outside the lock, and its failure is noted afterwards on
 whatever tombstone its name has by then, so another freeing of the name may get the blame.
 */
module StoreTombs {
  import opened Buffers
  import opened Options
  import opened StoreInv
  import opened StoreRuns
  import opened StoreSpec

  /** What happens to tombstones under the lock. */
  datatype Event = Published(name: Name) | Freed(name: Name, view: View) | Failed(name: Name)

  /** The tombstones, and (history) the number of the freeing that left each of them. */
  datatype Dated = Dated(tombs: Tombs, dates: map<Name, nat>, next: nat)

  function Happened(t: Tombs, e: Event): Tombs {
    match e
    case Published(name) => Forget(t, name)
    case Freed(name, view) => Mark(t, name, view)
    case Failed(name) => Blame(t, name)
  }

  function AfterOne(d: Dated, e: Event): Dated {
    var tombs := Happened(d.tombs, e);
    match e
    case Published(name) => Dated(tombs, d.dates - {name}, d.next)
    case Freed(name, _) => Dated(tombs, d.dates[name := d.next], d.next + 1)
    case Failed(_) => Dated(tombs, d.dates, d.next)
  }

  function After(d: Dated, events: seq<Event>): Dated {
    if events == [] then d else AfterOne(After(d, events[..|events| - 1]), events[|events| - 1])
  }

  ghost predicate DatesOk(d: Dated) {
    TombsOk(d.tombs, {}) && d.tombs.meta.Keys <= d.dates.Keys
  }

  /** The event gives the name another tombstone, or takes its tombstone away. */
  predicate Replaces(e: Event, name: Name) {
    (e.Published? || e.Freed?) && e.name == name
  }

  // ---------- one event

  lemma {:induction false} TrimShrinks(t: Tombs)
    ensures Trim(t).meta.Keys <= t.meta.Keys
    ensures forall n :: n in Trim(t).meta ==> Trim(t).meta[n] == t.meta[n]
    decreases |t.order|
  {
    if |t.order| > MAX_TOMBSTONES {
      TrimShrinks(Tombs(t.released - {t.order[0]}, t.meta - {t.order[0]}, t.order[1..]));
    }
  }

  /** Marking a name affects other names only by dropping them. */
  lemma MarkOthers(t: Tombs, name: Name, view: View)
    ensures Mark(t, name, view).meta.Keys <= t.meta.Keys + {name}
    ensures forall n :: n in Mark(t, name, view).meta && n != name ==>
              n in t.meta && Mark(t, name, view).meta[n] == t.meta[n]
  {
    if name.text != "" && name !in t.released {
      TrimShrinks(Tombs(t.released + {name}, t.meta[name := Tombstone(view, false)], t.order + [name]));
    }
    hide Trim;
  }

  lemma AnyLive(t: Tombs, live: set<Name>)
    requires TombsOk(t, live)
    ensures TombsOk(t, {})
  {
  }

  lemma OneOk(d: Dated, e: Event)
    requires DatesOk(d)
    ensures DatesOk(AfterOne(d, e))
  {
    hide TombsOk, Forget, Blame, Mark;
    match e
    case Published(name) =>
      ForgetInv(d.tombs, {}, name);
      AnyLive(Forget(d.tombs, name), {} + {name});
      ForgetMeta(d.tombs, name);
    case Freed(name, view) =>
      MarkInv(d.tombs, {}, name, view);
      AnyLive(Mark(d.tombs, name, view), {} - {name});
      MarkOthers(d.tombs, name, view);
    case Failed(name) =>
      BlameInv(d.tombs, {}, name);
      BlameMeta(d.tombs, name);
  }

  lemma ForgetMeta(t: Tombs, name: Name)
    ensures Forget(t, name).meta == t.meta - {name}
  {
  }

  lemma BlameMeta(t: Tombs, name: Name)
    ensures Blame(t, name).meta.Keys == t.meta.Keys && Blame(t, name).order == t.order
    ensures forall n :: n in t.meta ==> Blame(t, name).meta[n].view == t.meta[n].view
  {
  }

  // ---------- which freeing gets the blame

  /** Numbers of freeings only grow; a name whose tombstone was replaced has a newer one, or none. */
  lemma {:induction false} DatesGrow(d: Dated, events: seq<Event>, name: Name, g: nat)
    requires DatesOk(d) && name in d.dates && d.dates[name] == g < d.next
    ensures var d' := After(d, events);
            && DatesOk(d') && g < d'.next
            && ((exists e :: e in events && Replaces(e, name)) ==> (name in d'.dates ==> d'.dates[name] > g))
            && ((forall e :: e in events ==> !Replaces(e, name)) ==> name in d'.dates && d'.dates[name] == g)
  {
    if events != [] {
      hide DatesOk, Happened;
      var front, last := events[..|events| - 1], events[|events| - 1];
      DatesGrow(d, front, name, g);
      OneOk(After(d, front), last);
      assert events == front + [last] && last in events;
      assert forall e :: e in front ==> e in events;
    }
  }

  /**
   The failure of a freed name's callback, reported after any other events: the tombstone that is marked, if there
   is one, is that of this freeing if and only if the name was neither published nor freed again in between.
   */
  lemma FailureLandsOn(d: Dated, name: Name, view: View, events: seq<Event>)
    requires DatesOk(d) && name.text != ""
    ensures var d1 := AfterOne(d, Freed(name, view));
            var d2 := After(d1, events);
            var d3 := AfterOne(d2, Failed(name));
            && name in d1.tombs.meta && d1.dates[name] == d.next && DatesOk(d2)
            && (name in d2.tombs.meta ==>
                  && name in d2.dates && d3.tombs.meta[name].failed && d3.dates == d2.dates
                  && (d3.dates[name] == d.next <==> forall e :: e in events ==> !Replaces(e, name)))
            && (name !in d2.tombs.meta ==> d3.tombs == d2.tombs)
  {
    MarkInv(d.tombs, {}, name, view);
    OneOk(d, Freed(name, view));
    DatesGrow(AfterOne(d, Freed(name, view)), events, name, d.next);
    hide Mark, TombsOk;
  }

  // ---------- whether the tombstone is still there

  /** How many names were freed after the given one. */
  function Newer(order: seq<Name>, name: Name): nat {
    if order == [] then 0 else if order[0] == name then |order| - 1 else Newer(order[1..], name)
  }

  lemma {:induction false} NewerSnoc(order: seq<Name>, name: Name, n: Name)
    requires name in order
    ensures Newer(order + [n], name) == Newer(order, name) + 1
  {
    if order[0] != name {
      assert name in order[1..];
      assert (order + [n])[1..] == order[1..] + [n];
      NewerSnoc(order[1..], name, n);
    }
  }

  lemma {:induction false} NewerLast(order: seq<Name>, name: Name)
    requires name !in order
    ensures Newer(order + [name], name) == 0
  {
    if order != [] {
      assert (order + [name])[1..] == order[1..] + [name];
      NewerLast(order[1..], name);
    }
  }

  lemma {:induction false} NewerWithout(order: seq<Name>, name: Name, n: Name)
    requires name in order && n != name
    ensures Newer(Without(order, n), name) <= Newer(order, name)
    ensures |Without(order, n)| <= |order| && name in Without(order, n)
  {
    if order[0] == n {
      assert name in order[1..];
    } else if order[0] == name {
      WithoutShorter(order[1..], n);
      assert Without(order, n)[0] == name;
    } else {
      assert name in order[1..];
      NewerWithout(order[1..], name, n);
      assert Without(order, n)[1..] == Without(order[1..], n);
    }
  }

  lemma {:induction false} WithoutShorter(order: seq<Name>, n: Name)
    ensures |Without(order, n)| <= |order|
  {
    if order != [] { WithoutShorter(order[1..], n); }
  }

  function Freeings(events: seq<Event>): nat {
    if events == [] then 0 else Freeings(events[..|events| - 1]) + if events[|events| - 1].Freed? then 1 else 0
  }

  lemma KeptByForget(t: Tombs, name: Name, n: Name)
    requires TombsOk(t, {}) && name in t.meta && n != name
    ensures name in Forget(t, n).meta && Newer(Forget(t, n).order, name) <= Newer(t.order, name)
  {
    if n in t.released { NewerWithout(t.order, name, n); }
  }

  lemma KeptByMark(t: Tombs, name: Name, n: Name, view: View)
    requires TombsOk(t, {}) && name in t.meta && n != name && Newer(t.order, name) + 1 < MAX_TOMBSTONES
    ensures name in Mark(t, n, view).meta && Newer(Mark(t, n, view).order, name) <= Newer(t.order, name) + 1
  {
    if n.text != "" && n !in t.released {
      var more := Tombs(t.released + {n}, t.meta[n := Tombstone(view, false)], t.order + [n]);
      NewerSnoc(t.order, name, n);
      if |more.order| > MAX_TOMBSTONES {
        assert more.order[0] != name;
        var rest := Tombs(more.released - {more.order[0]}, more.meta - {more.order[0]}, more.order[1..]);
        assert Trim(rest) == rest && Trim(more) == Trim(rest);
      }
    }
  }

  /** A tombstone outlasts fewer than 4096 freeings, as long as its name is neither published nor freed. */
  lemma {:induction false} TombstoneStays(d: Dated, events: seq<Event>, name: Name)
    requires DatesOk(d) && name in d.tombs.meta && forall e :: e in events ==> !Replaces(e, name)
    requires Newer(d.tombs.order, name) + Freeings(events) < MAX_TOMBSTONES
    ensures var d' := After(d, events);
            && DatesOk(d') && name in d'.tombs.meta
            && Newer(d'.tombs.order, name) <= Newer(d.tombs.order, name) + Freeings(events)
  {
    if events != [] {
      var front, last := events[..|events| - 1], events[|events| - 1];
      assert forall e :: e in front ==> e in events;
      assert last in events;
      TombstoneStays(d, front, name);
      OneOk(After(d, front), last);
      var t := After(d, front).tombs;
      hide TombsOk, Mark, Forget, Blame, Newer;
      match last
      case Published(n) => KeptByForget(t, name, n);
      case Freed(n, view) => KeptByMark(t, name, n, view);
      case Failed(n) => BlameMeta(t, n);
    }
  }

  /** With fewer than 4096 freeings in between, the failure is noted on the own tombstone in exactly that case. */
  lemma FailureNotedOnOwn(d: Dated, name: Name, view: View, events: seq<Event>)
    requires DatesOk(d) && name.text != "" && name !in d.tombs.released && Freeings(events) < MAX_TOMBSTONES
    ensures var d2 := After(AfterOne(d, Freed(name, view)), events);
            var d3 := AfterOne(d2, Failed(name));
            name in d3.tombs.meta && d3.tombs.meta[name].failed && name in d3.dates && d3.dates[name] == d.next
            <==> forall e :: e in events ==> !Replaces(e, name)
  {
    FailureLandsOn(d, name, view, events);
    var d1 := AfterOne(d, Freed(name, view));
    if forall e :: e in events ==> !Replaces(e, name) {
      MarkIsNewest(d.tombs, name, view);
      OneOk(d, Freed(name, view));
      TombstoneStays(d1, events, name);
    }
    hide DatesOk, Mark, Newer;
  }

  lemma MarkIsNewest(t: Tombs, name: Name, view: View)
    requires TombsOk(t, {}) && name.text != "" && name !in t.released
    ensures Newer(Mark(t, name, view).order, name) == 0
  {
    NewerLast(t.order, name);
    var more := Tombs(t.released + {name}, t.meta[name := Tombstone(view, false)], t.order + [name]);
    if |more.order| > MAX_TOMBSTONES {
      var rest := Tombs(more.released - {more.order[0]}, more.meta - {more.order[0]}, more.order[1..]);
      assert more.order[0] != name;
      assert Trim(rest) == rest && Trim(more) == Trim(rest);
    }
  }

  /** A name freed, published, and freed again before the first failure arrives: the second freeing gets the blame. */
  lemma SecondFreeingIsBlamed(first: View, second: View)
    ensures var n := Name("n");
            var events := [Freed(n, first), Published(n), Freed(n, second), Failed(n)];
            var d := After(Dated(Tombs({}, map[], []), map[], 0), events);
            d.tombs.meta == map[n := Tombstone(second, true)] && d.dates == map[n := 1]
  {
    var n := Name("n");
    var start := Dated(Tombs({}, map[], []), map[], 0);
    var one, two := [Freed(n, first)], [Freed(n, first), Published(n)];
    var three, four := two + [Freed(n, second)], two + [Freed(n, second)] + [Failed(n)];
    assert one[..0] == [] && two[..1] == one && three[..2] == two && four[..3] == three;
    assert four == [Freed(n, first), Published(n), Freed(n, second), Failed(n)];
    assert After(start, one) == Dated(Tombs({n}, map[n := Tombstone(first, false)], [n]), map[n := 0], 1);
    assert After(start, two) == Dated(Tombs({}, map[], []), map[], 1);
    assert After(start, three) == Dated(Tombs({n}, map[n := Tombstone(second, false)], [n]), map[n := 1], 2);
    assert After(start, four) == AfterOne(After(start, three), Failed(n));
  }

  // ---------- the operations of the store

  /** What an operation does to the tombstones is a sequence of such events. */
  function AfterTombs(t: Tombs, events: seq<Event>): Tombs {
    if events == [] then t else Happened(AfterTombs(t, events[..|events| - 1]), events[|events| - 1])
  }

  lemma {:induction false} SameTombs(d: Dated, events: seq<Event>)
    ensures After(d, events).tombs == AfterTombs(d.tombs, events)
  {
    if events != [] {
      SameTombs(d, events[..|events| - 1]);
      hide Happened;
    }
  }

  lemma TwoEvents(t: Tombs, a: Event, b: Event)
    ensures AfterTombs(t, [a]) == Happened(t, a) && AfterTombs(t, [a, b]) == Happened(Happened(t, a), b)
  {
    hide Happened;
    assert [a][..0] == [] && [a, b][..1] == [a];
  }

  lemma FireEvent(s: Store, name: Name, release: Option<Callback>) returns (events: seq<Event>)
    ensures events == if FailureOf(release) then [Failed(name)] else []
    ensures Fire(s, name, release).tombs == AfterTombs(s.tombs, events)
  {
    events := if FailureOf(release) then [Failed(name)] else [];
    TwoEvents(s.tombs, Failed(name), Failed(name));
  }

  /** In one step, a freeing that fails is noted at once, on its own tombstone. */
  lemma FreeEvents(s: Store, name: Name) returns (events: seq<Event>)
    requires Inv(s) && name in s.current
    ensures exists view :: events == [Freed(name, view)] || events == [Freed(name, view), Failed(name)]
    ensures Apply(s, Op.Free(name)).tombs == AfterTombs(s.tombs, events)
  {
    CurrentExists(s, name);
    var low := LowerOwner(s.slots[s.current[name]]);
    var freed, failed := Freed(name, low.view), Failed(name);
    hide Inv, Apply, LowerOwner, Settle, Mark, Blame;
    ApplyFree(s, name);
    TwoEvents(s.tombs, freed, failed);
    events := if low.refs <= 0 && FailureOf(low.release) then [freed, failed] else [freed];
  }

  /** Publishing forgets the tombstone first; then the callback of what was overwritten may fail. */
  lemma PublishEvents(s: Store, op: Op) returns (events: seq<Event>)
    requires Inv(s) && Publishes(op)
    ensures events == [] || events == [Published(op.name)] || events == [Published(op.name), Failed(op.name)]
    ensures Apply(s, op).tombs == AfterTombs(s.tombs, events)
  {
    hide Inv, Apply, Publish;
    var outcome := ApplyPublish(s, op);
    if outcome.Stored? {
      events := PublishedEvents(s, op.name, outcome.view, outcome.release);
    } else {
      events := [];
    }
  }

  lemma PublishedEvents(s: Store, name: Name, view: View, release: Option<Callback>) returns (events: seq<Event>)
    requires name in s.current ==> s.current[name] in s.slots
    ensures events == [Published(name)] || events == [Published(name), Failed(name)]
    ensures Publish(s, name, view, release).tombs == AfterTombs(s.tombs, events)
  {
    hide Forget, Blame;
    TwoEvents(s.tombs, Published(name), Failed(name));
    var fails := name in s.current && s.slots[s.current[name]].refs <= 1 && FailureOf(s.slots[s.current[name]].release);
    events := if fails then [Published(name), Failed(name)] else [Published(name)];
  }

  /** The end of a borrow, of whatever generation of its name, blames the tombstone that the name has then. */
  lemma EndEvents(s: Store, name: Name, x: SlotID) returns (events: seq<Event>)
    requires x in s.slots
    ensures events == if LowerBorrow(s.slots[x]).refs <= 0 && FailureOf(s.slots[x].release) then [Failed(name)] else []
    ensures EndBorrow(s, name, x).tombs == AfterTombs(s.tombs, events)
  {
    var low := LowerBorrow(s.slots[x]);
    assert low.release == s.slots[x].release;
    hide LowerBorrow, Settle, Fire;
    if low.refs > 0 {
      events := [];
    } else {
      events := FireEvent(EndedBorrow(s, name, x), name, low.release);
    }
  }

  lemma DirectEvents(s: Store, x: SlotID) returns (events: seq<Event>)
    requires x in s.slots
    ensures events == [] || events == [Failed(LowerDirect(s.slots[x]).name)]
    ensures StoreSpec.ReleaseDirect(s, x).tombs == AfterTombs(s.tombs, events)
  {
    var low := LowerDirect(s.slots[x]);
    hide LowerDirect, Settle, Fire;
    if low.refs > 0 {
      events := [];
    } else {
      events := FireEvent(EndedDirect(s, x), low.name, low.release);
    }
  }

  lemma ReleaseEvents(s: Store, op: Op) returns (events: seq<Event>)
    requires Inv(s) && (op.ReleaseLease? || op.ReleaseNamed?)
    ensures forall e :: e in events ==> e.Failed?
    ensures Apply(s, op).tombs == AfterTombs(s.tombs, events)
  {
    hide Inv, Apply, EndBorrow, QueueOf, Popped;
    events := [];
    match op
    case ReleaseLease(l) =>
      ApplyReleaseLease(s, l);
      if l in s.leases { events := EndEvents(s.(leases := s.leases - {l}), s.leases[l].name, s.leases[l].slot); }
    case ReleaseNamed(name) =>
      ApplyReleaseNamed(s, name);
      if QueueOf(s.queues, name) != [] {
        events := EndEvents(s.(queues := Popped(s.queues, name)), name, s.queues[name][0].slot);
      }
  }

  /** Every operation is such a sequence: only publishing a name forgets, and only freeing it marks. */
  lemma OpEvents(s: Store, op: Op) returns (events: seq<Event>)
    requires Inv(s)
    ensures Apply(s, op).tombs == AfterTombs(s.tombs, events)
    ensures forall e :: e in events && e.Published? ==> Publishes(op) && e.name == op.name
    ensures forall e :: e in events && e.Freed? ==> op.Free? && e.name == op.name && op.name in s.current
  {
    hide Inv, Apply, AfterTombs;
    hide StoreSpec.Borrow, StoreSpec.BorrowNamed, StoreSpec.Retain, StoreSpec.ReleaseDirect;
    assert AfterTombs(s.tombs, []) == s.tombs by { NoEvents(s.tombs); }
    events := [];
    match op
    case Allocate(_, _) => events := PublishEvents(s, op);
    case Set(_, _, _, _) => events := PublishEvents(s, op);
    case SetExternal(_, _, _, _, _, _, _) => events := PublishEvents(s, op);
    case Get(name) => ApplyGet(s, name);
    case Free(name) => ApplyFree(s, name); if name in s.current { events := FreeEvents(s, name); }
    case Borrow(name) => ApplyBorrow(s, name); LendKeepsTombs(s, name);
    case BorrowNamed(name) => ApplyBorrowNamed(s, name); LendKeepsTombs(s, name);
    case ReleaseLease(_) => events := ReleaseEvents(s, op);
    case ReleaseNamed(_) => events := ReleaseEvents(s, op);
    case Retain(x) => ApplyRetain(s, x); if x in s.slots { RetainKeepsTombs(s, x); }
    case ReleaseDirect(x) => ApplyReleaseDirect(s, x); if x in s.slots { events := DirectEvents(s, x); }
  }

  lemma NoEvents(t: Tombs)
    ensures AfterTombs(t, []) == t
  {
  }

  lemma LendKeepsTombs(s: Store, name: Name)
    ensures name in s.current && s.current[name] in s.slots ==>
              StoreSpec.Borrow(s, name).tombs == s.tombs && StoreSpec.BorrowNamed(s, name).tombs == s.tombs
  {
  }

  lemma RetainKeepsTombs(s: Store, x: SlotID)
    requires x in s.slots
    ensures StoreSpec.Retain(s, x).tombs == s.tombs
  {
  }
}
