/** Sequences without repetition. */
module Sequences {
  ghost predicate Distinct<T>(s: seq<T>) {
    forall i, j :: 0 <= i < j < |s| ==> s[i] != s[j]
  }

  /** The head of a sequence without repetition occurs nowhere else. */
  lemma HeadLeaves<T>(s: seq<T>)
    requires Distinct(s) && s != []
    ensures Distinct(s[1..]) && s[0] !in s[1..]
    ensures forall x :: x != s[0] ==> (x in s[1..] <==> x in s)
  {
    forall x | x != s[0] ensures x in s[1..] <==> x in s {
      if x in s {
        var i :| 0 <= i < |s| && s[i] == x;
        assert s[1..][i - 1] == x;
      }
    }
  }

  lemma DistinctSnoc<T>(s: seq<T>, x: T)
    requires Distinct(s) && x !in s
    ensures Distinct(s + [x])
    ensures forall y :: y in s + [x] <==> y in s || y == x
  {
    forall i | 0 <= i < |s| ensures (s + [x])[i] != x {
      assert s[i] in s;
    }
    assert (s + [x])[|s|] == x;
  }
}
