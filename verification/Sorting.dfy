/**
 In-place sorting by a caller-supplied order, as `sort.Sort` and `sort.Slice` promise it:
 the result is ordered and holds the same elements, and elements that compare equal may end up
 in any order.
 */
module Sorting {
  import opened Seqs

  ghost predicate Sorted<T>(s: seq<T>, less: (T, T) -> bool) {
    forall i, j :: 0 <= i < j < |s| ==> !less(s[j], s[i])
  }

  ghost predicate IsSortOf<T>(r: seq<T>, s: seq<T>, less: (T, T) -> bool) {
    Sorted(r, less) && multiset(r) == multiset(s)
  }

  /** Asymmetric, and an element lies on one side or the other of any strict pair. */
  ghost predicate StrictWeakOrder<T(!new)>(less: (T, T) -> bool) {
    && (forall x, y :: less(x, y) ==> !less(y, x))
    && (forall x, y, z :: less(x, z) ==> less(x, y) || less(y, z))
  }

  /** Different elements of `s` never compare equal. */
  ghost predicate NoTies<T>(s: seq<T>, less: (T, T) -> bool) {
    forall x, y :: x in s && y in s && x != y ==> less(x, y) || less(y, x)
  }

  method Swap<T>(a: array<T>, i: nat, j: nat)
    requires i < a.Length && j < a.Length
    modifies a
    ensures a[..] == old(a[..])[i := old(a[j])][j := old(a[i])]
    ensures multiset(a[..]) == multiset(old(a[..]))
  {
    a[i], a[j] := a[j], a[i];
  }

  method Sort<T(!new)>(a: array<T>, less: (T, T) -> bool)
    requires StrictWeakOrder(less)
    modifies a
    ensures IsSortOf(a[..], old(a[..]), less)
  {
    var i := 0;
    while i < a.Length
      invariant 0 <= i <= a.Length
      invariant Sorted(a[..i], less)
      invariant multiset(a[..]) == multiset(old(a[..]))
    {
      var j := i;
      while j > 0 && less(a[j], a[j - 1])
        invariant 0 <= j <= i
        invariant forall p, q :: 0 <= p < q <= i && q != j ==> !less(a[q], a[p])
        invariant multiset(a[..]) == multiset(old(a[..]))
      {
        Swap(a, j - 1, j);
        j := j - 1;
      }
      i := i + 1;
    }
    assert a[..i] == a[..];
  }

  /** The first `n` elements of a sorted sequence do not compare equal to any different later one. */
  ghost predicate NoTiesBelow<T>(r: seq<T>, less: (T, T) -> bool, n: nat) {
    forall i, j :: 0 <= i < n && i < j < |r| && r[i] != r[j] ==> less(r[i], r[j])
  }

  /** A least element without ties comes first in every sort. */
  lemma HeadsAgree<T(!new)>(r1: seq<T>, r2: seq<T>, less: (T, T) -> bool)
    requires Sorted(r2, less) && multiset(r1) == multiset(r2) && r1 != [] && r2 != [] && NoTiesBelow(r1, less, 1)
    ensures r1[0] == r2[0]
  {
    assert r1[0] in multiset(r2) && r2[0] in multiset(r1);
    var i :| 0 <= i < |r1| && r1[i] == r2[0];
    var j :| 0 <= j < |r2| && r2[j] == r1[0];
    assert j > 0 ==> !less(r2[j], r2[0]);
  }

  lemma TailsAgree<T>(r1: seq<T>, r2: seq<T>)
    requires multiset(r1) == multiset(r2) && r1 != [] && r2 != [] && r1[0] == r2[0]
    ensures multiset(r1[1..]) == multiset(r2[1..])
  {
    assert r1 == [r1[0]] + r1[1..] && r2 == [r2[0]] + r2[1..];
    assert multiset(r1[1..]) == multiset(r1) - multiset{r1[0]};
    assert multiset(r2[1..]) == multiset(r2) - multiset{r2[0]};
  }

  /** Elements without ties come first in the same order in every sort. */
  lemma {:induction false} PrefixIsForced<T(!new)>(r1: seq<T>, r2: seq<T>, less: (T, T) -> bool, n: nat)
    requires Sorted(r2, less) && multiset(r1) == multiset(r2) && n <= |r1| && NoTiesBelow(r1, less, n)
    ensures |r1| == |r2| && r1[..n] == r2[..n]
    decreases |r1|
  {
    assert |multiset(r1)| == |r1| && |multiset(r2)| == |r2|;
    if n > 0 {
      HeadsAgree(r1, r2, less);
      TailsAgree(r1, r2);
      PrefixIsForced(r1[1..], r2[1..], less, n - 1);
      assert r1[..n] == [r1[0]] + r1[1..][..n - 1] && r2[..n] == [r2[0]] + r2[1..][..n - 1];
    }
  }

  /** Without ties there is exactly one way to sort. */
  lemma SortIsUnique<T(!new)>(r1: seq<T>, r2: seq<T>, less: (T, T) -> bool)
    requires NoTies(r1, less) && Sorted(r1, less) && Sorted(r2, less) && multiset(r1) == multiset(r2)
    ensures r1 == r2
  {
    PrefixIsForced(r1, r2, less, |r1|);
    assert r1[..|r1|] == r1 && r2[..|r2|] == r2;
  }

  /** With a tie, exchanging the tied elements gives a second, different sort. */
  lemma TieIsAmbiguous<T(!new)>(r: seq<T>, less: (T, T) -> bool, i: nat, j: nat) returns (r2: seq<T>)
    requires StrictWeakOrder(less) && Sorted(r, less)
    requires i < j < |r| && r[i] != r[j] && !less(r[i], r[j])
    ensures IsSortOf(r2, r, less) && |r2| == |r|
    ensures r2[..i] == r[..i] && r2[i] != r[i]
  {
    r2 := r[i := r[j]][j := r[i]];
    assert r2[i] != r[i];
    forall p, q | 0 <= p < q < |r2|
      ensures !less(r2[q], r2[p])
    {
      assert !less(r[j], r[i]);
      if i < p < j { assert !less(r[p], r[i]) && !less(r[j], r[p]); }
      if i < q < j { assert !less(r[q], r[i]) && !less(r[j], r[q]); }
    }
  }

  /** An element that is below none of a sorted sequence can go at its end. */
  lemma AppendSorted<T(!new)>(r: seq<T>, less: (T, T) -> bool, x: T)
    requires Sorted(r, less) && forall y :: y in multiset(r) ==> !less(x, y)
    ensures Sorted(r + [x], less)
  {
    forall i, j | 0 <= i < j < |r + [x]| ensures !less((r + [x])[j], (r + [x])[i]) {
      assert (r + [x])[i] == r[i] && r[i] in multiset(r);
    }
  }

  lemma {:induction false} InsertSorted<T(!new)>(r: seq<T>, less: (T, T) -> bool, x: T) returns (r2: seq<T>)
    requires StrictWeakOrder(less) && Sorted(r, less)
    ensures IsSortOf(r2, r + [x], less)
  {
    if r == [] || !less(x, r[|r| - 1]) {
      r2 := r + [x];
      AppendSorted(r, less, x);
    } else {
      var front, last := r[..|r| - 1], r[|r| - 1];
      var s := InsertSorted(front, less, x);
      assert r == front + [last];
      AppendSorted(s, less, last);
      r2 := s + [last];
    }
  }

  lemma {:induction false} SortExists<T(!new)>(s: seq<T>, less: (T, T) -> bool) returns (r: seq<T>)
    requires StrictWeakOrder(less)
    ensures IsSortOf(r, s, less)
  {
    if s == [] {
      r := [];
    } else {
      var front, last := s[..|s| - 1], s[|s| - 1];
      var rest := SortExists(front, less);
      r := InsertSorted(rest, less, last);
      assert s == front + [last];
    }
  }

  /** Sorting is a function of the elements exactly when different elements never tie. */
  lemma SortIsCanonicalIff<T(!new)>(s: seq<T>, less: (T, T) -> bool)
    requires StrictWeakOrder(less)
    ensures NoTies(s, less) <==> forall r1, r2 :: IsSortOf(r1, s, less) && IsSortOf(r2, s, less) ==> r1 == r2
  {
    if NoTies(s, less) {
      forall r1, r2 | IsSortOf(r1, s, less) && IsSortOf(r2, s, less)
        ensures r1 == r2
      {
        assert forall x :: x in r1 ==> x in multiset(s);
        SortIsUnique(r1, r2, less);
      }
    } else {
      var x, y :| x in s && y in s && x != y && !less(x, y) && !less(y, x);
      var r := SortExists(s, less);
      assert x in multiset(r) && y in multiset(r);
      var i :| 0 <= i < |r| && r[i] == x;
      var j :| 0 <= j < |r| && r[j] == y;
      var r2 := TieIsAmbiguous(r, less, if i < j then i else j, if i < j then j else i);
      assert IsSortOf(r2, s, less) && IsSortOf(r, s, less);
    }
  }

  lemma SortKeepsDistinct<T>(r: seq<T>, s: seq<T>)
    requires multiset(r) == multiset(s) && Distinct(s)
    ensures Distinct(r)
    ensures forall p :: p in s <==> p in r
  {
    forall p ensures p in s <==> p in r {
      assert p in multiset(s) <==> p in multiset(r);
    }
    if !Distinct(r) {
      var i, j :| 0 <= i < j < |r| && r[i] == r[j];
      assert r == r[..i] + [r[i]] + r[i + 1..j] + [r[j]] + r[j + 1..];
      assert multiset(r)[r[i]] >= 2;
      DistinctCounts(s, r[i]);
    }
  }

  lemma {:induction false} DistinctCounts<T>(s: seq<T>, p: T)
    requires Distinct(s)
    ensures multiset(s)[p] <= 1
  {
    if s != [] {
      DistinctCounts(s[1..], p);
      assert s == [s[0]] + s[1..];
    }
  }
}
