/** Id lists in ascending order: what collecting the keys of a map and sorting them yields. */
module Ascending {

  /** Handle ids. */
  type ID = nat

  ghost predicate Ascends(ids: seq<ID>) {
    forall i, j :: 0 <= i < j < |ids| ==> ids[i] < ids[j]
  }

  /** `ids` lists exactly the members of `members`, each once, in ascending order. */
  ghost predicate Lists(ids: seq<ID>, members: set<ID>) {
    Ascends(ids) && forall x :: x in ids <==> x in members
  }

  ghost function Least(s: set<ID>): (m: ID)
    requires s != {}
    ensures m in s && forall x :: x in s ==> m <= x
  {
    var x :| x in s;
    if s == {x} then x else
      assert s - {x} != {};
      var m := Least(s - {x});
      assert forall y :: y in s ==> y == x || y in s - {x};
      if x < m then x else m
  }

  lemma ListingSize(ids: seq<ID>, members: set<ID>)
    requires Lists(ids, members)
    ensures |ids| == |members|
  {
    if ids == [] {
      assert members == {};
    } else {
      Tail(ids, members);
      ListingSize(ids[1..], members - {ids[0]});
    }
  }

  lemma {:induction false} ListingUnique(a: seq<ID>, b: seq<ID>, members: set<ID>)
    requires Lists(a, members) && Lists(b, members)
    ensures a == b
  {
    ListingSize(a, members);
    ListingSize(b, members);
    if a != [] {
      assert a[0] in b && b[0] in a;
      var rest := members - {a[0]};
      Tail(a, members);
      Tail(b, members);
      ListingUnique(a[1..], b[1..], rest);
    }
  }

  lemma Tail(ids: seq<ID>, members: set<ID>)
    requires Lists(ids, members) && ids != []
    ensures Lists(ids[1..], members - {ids[0]})
  {
    forall x ensures x in ids[1..] <==> x in members - {ids[0]} {
      if x in members - {ids[0]} {
        var i :| 0 <= i < |ids| && ids[i] == x;
        assert ids[1..][i - 1] == x;
      }
    }
  }

  method SortedListing(members: set<ID>) returns (ids: seq<ID>)
    ensures Lists(ids, members)
  {
    ids := [];
    var rest := members;
    while rest != {}
      invariant rest <= members
      invariant Lists(ids, members - rest)
      invariant forall x, y :: x in ids && y in rest ==> x < y
      decreases rest
    {
      ghost var least := Least(rest);
      var m :| m in rest && forall x :: x in rest ==> m <= x;
      assert forall i :: 0 <= i < |ids| ==> ids[i] in ids;
      ids, rest := ids + [m], rest - {m};
    }
    assert members - rest == members;
  }
}
