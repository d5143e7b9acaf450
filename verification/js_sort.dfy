/**
 The order `Array.prototype.sort` uses when called without a comparator on
 an array of strings: lexicographic comparison character by character, a
 proper prefix sorting first. The sort itself is modelled as insertion into
 a strictly increasing list, which on duplicate-free input yields the one
 arrangement that sorting can produce.
 */
module JsSort {
  import opened Lists

  /** `a` sorts strictly before `b`. */
  predicate Below(a: string, b: string)
  {
    if |a| == 0 then |b| > 0
    else if |b| == 0 then false
    else if a[0] != b[0] then a[0] < b[0]
    else Below(a[1..], b[1..])
  }

  lemma {:induction false} BelowIrreflexive(a: string)
    ensures !Below(a, a)
  {
    if |a| > 0 {
      BelowIrreflexive(a[1..]);
    }
  }

  lemma {:induction false} BelowTransitive(a: string, b: string, c: string)
    requires Below(a, b) && Below(b, c)
    ensures Below(a, c)
  {
    if |a| > 0 && a[0] == b[0] && b[0] == c[0] {
      BelowTransitive(a[1..], b[1..], c[1..]);
    }
  }

  lemma {:induction false} BelowTotal(a: string, b: string)
    requires a != b
    ensures Below(a, b) || Below(b, a)
  {
    if |a| > 0 && |b| > 0 && a[0] == b[0] {
      assert a == [a[0]] + a[1..] && b == [b[0]] + b[1..];
      BelowTotal(a[1..], b[1..]);
    }
  }

  lemma {:induction false} BelowAsymmetric(a: string, b: string)
    requires Below(a, b)
    ensures !Below(b, a)
  {
    if |a| > 0 && |b| > 0 && a[0] == b[0] {
      BelowAsymmetric(a[1..], b[1..]);
    }
  }

  /** Strictly increasing, hence sorted and free of duplicates. */
  predicate StrictlySorted(s: seq<string>)
  {
    forall i, j :: 0 <= i < j < |s| ==> Below(s[i], s[j])
  }

  /** Insert `x` into its place in a strictly increasing list that lacks it. */
  function Insert(s: seq<string>, x: string): (r: seq<string>)
    requires StrictlySorted(s) && x !in s
    ensures StrictlySorted(r)
    ensures |r| == |s| + 1
    ensures forall y :: y in r <==> y in s || y == x
  {
    if s == [] then [x]
    else if Below(x, s[0]) then
      forall j | 0 < j < |s| ensures Below(x, s[j]) {
        BelowTransitive(x, s[0], s[j]);
      }
      [x] + s
    else
      BelowTotal(x, s[0]);
      var rest := Insert(s[1..], x);
      assert forall y :: y in rest ==> Below(s[0], y) by {
        forall y | y in rest ensures Below(s[0], y) {
          if y != x {
            var j :| 1 <= j < |s| && s[j] == y;
          }
        }
      }
      [s[0]] + rest
  }

  /** `Array.from(values).sort()` for a duplicate-free list of strings. */
  function Sorted(values: seq<string>): (r: seq<string>)
    requires Distinct(values)
    ensures StrictlySorted(r)
    ensures |r| == |values|
    ensures forall y :: y in r <==> y in values
  {
    if values == [] then []
    else
      var init, last := values[..|values| - 1], values[|values| - 1];
      var s := Sorted(init);
      assert last !in init;
      Insert(s, last)
  }

  /** Two strictly increasing lists with the same elements are the same list. */
  lemma {:induction false} StrictlySortedUnique(a: seq<string>, b: seq<string>)
    requires StrictlySorted(a) && StrictlySorted(b)
    requires forall y :: y in a <==> y in b
    ensures a == b
  {
    assert a == [] <==> b == [] by {
      if a != [] { assert a[0] in a; }
      if b != [] { assert b[0] in b; }
    }
    if a != [] {
      if a[0] != b[0] {
        assert a[0] in a && b[0] in b;
        var j :| 0 <= j < |b| && b[j] == a[0];
        var i :| 0 <= i < |a| && a[i] == b[0];
        assert Below(b[0], a[0]);
        assert Below(a[0], b[0]);
        BelowAsymmetric(a[0], b[0]);
        assert false;
      }
      forall y ensures y in a[1..] <==> y in b[1..] {
        if y in a[1..] {
          TailMembership(a, b, y);
        }
        if y in b[1..] {
          TailMembership(b, a, y);
        }
      }
      StrictlySortedUnique(a[1..], b[1..]);
      assert a == [a[0]] + a[1..] && b == [b[0]] + b[1..];
    }
  }

  lemma TailMembership(a: seq<string>, b: seq<string>, y: string)
    requires StrictlySorted(a) && StrictlySorted(b) && a != [] && b != [] && a[0] == b[0]
    requires forall z :: z in a <==> z in b
    requires y in a[1..]
    ensures y in b[1..]
  {
    var i :| 1 <= i < |a| && a[i] == y;
    assert Below(a[0], y);
    BelowIrreflexive(y);
    assert y in b;
    var j :| 0 <= j < |b| && b[j] == y;
    assert j != 0;
    assert b[1..][j - 1] == y;
  }

  /** The sorted list depends only on which values there are, not on the order they were collected in. */
  lemma SortedIgnoresOrder(a: seq<string>, b: seq<string>)
    requires Distinct(a) && Distinct(b)
    requires forall y :: y in a <==> y in b
    ensures Sorted(a) == Sorted(b)
  {
    StrictlySortedUnique(Sorted(a), Sorted(b));
  }

}
