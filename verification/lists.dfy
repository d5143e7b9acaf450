/** Facts about lists without repeated elements, shared by the server and client models. */
module Lists {

  /** No element occurs twice in the list. */
  predicate Distinct(s: seq<string>)
  {
    forall i, j :: 0 <= i < j < |s| ==> s[i] != s[j]
  }

  lemma {:induction false} DistinctCardinality(s: seq<string>)
    requires Distinct(s)
    ensures |set x | x in s| == |s|
  {
    if s != [] {
      var init := s[..|s| - 1];
      assert Distinct(init);
      DistinctCardinality(init);
      assert (set x | x in s) == (set x | x in init) + {s[|s| - 1]};
      assert s[|s| - 1] !in init;
    }
  }

  /** A duplicate-free list is as long as the set of its elements. */
  lemma DistinctListLength(r: seq<string>, elements: set<string>)
    requires Distinct(r)
    requires forall x :: x in r <==> x in elements
    ensures |r| == |elements|
  {
    assert (set x | x in r) == elements;
    DistinctCardinality(r);
  }

  lemma {:induction false} SubsetCardinality(a: set<string>, b: set<string>)
    requires a <= b
    ensures |a| <= |b|
    decreases a
  {
    if a != {} {
      var x :| x in a;
      SubsetCardinality(a - {x}, b - {x});
    }
  }

}
