/** Sequence vocabulary shared by the other modules. */
module Seqs {

  datatype Option<+T> = None | Some(value: T)

  function RemoveAt<T>(s: seq<T>, k: nat): seq<T>
    requires k < |s|
  {
    s[..k] + s[k + 1..]
  }

  /** Adjacent slices join up. */
  lemma Join<T>(s: seq<T>, i: nat, j: nat, k: nat)
    requires i <= j <= k <= |s|
    ensures s[i..j] + s[j..k] == s[i..k]
  { }

  ghost predicate Distinct<T>(s: seq<T>) {
    forall i, j :: 0 <= i < j < |s| ==> s[i] != s[j]
  }

  /** Removing one position keeps every other value. */
  lemma RemoveAtKeeps<T>(s: seq<T>, k: nat, x: T)
    requires k < |s| && x in s && x != s[k]
    ensures x in RemoveAt(s, k)
  {
    var i :| 0 <= i < |s| && s[i] == x;
    assert RemoveAt(s, k)[if i < k then i else i - 1] == x;
  }

  /** The elements of `s` that are listed in `members`, in the order of `s`. */
  function Intersection<T(==)>(s: seq<T>, members: seq<T>): seq<T> {
    if s == [] then []
    else
      var rest, last := Intersection(s[..|s| - 1], members), s[|s| - 1];
      if last in members then rest + [last] else rest
  }

  lemma {:induction false} IntersectionIsExact<T>(s: seq<T>, members: seq<T>)
    ensures forall i :: 0 <= i < |Intersection(s, members)| ==>
                          Intersection(s, members)[i] in s && Intersection(s, members)[i] in members
    ensures forall i :: 0 <= i < |s| && s[i] in members ==> s[i] in Intersection(s, members)
    ensures Distinct(s) ==> Distinct(Intersection(s, members))
  {
    if s != [] {
      IntersectionIsExact(s[..|s| - 1], members);
      assert s == s[..|s| - 1] + [s[|s| - 1]];
    }
  }

  function ToSet<T(==)>(s: seq<T>): set<T> {
    set x | x in s
  }

  /** A sequence without repetitions has as many positions as elements. */
  lemma {:induction false} DistinctSize<T>(s: seq<T>)
    requires Distinct(s)
    ensures |ToSet(s)| == |s|
  {
    if s != [] {
      var front, last := s[..|s| - 1], s[|s| - 1];
      DistinctSize(front);
      assert ToSet(s) == ToSet(front) + {last};
    }
  }

  /** The elements of `s` that are not listed in `members`, in the order of `s`. */
  function Exclusion<T(==)>(s: seq<T>, members: seq<T>): seq<T> {
    if s == [] then []
    else
      var rest, last := Exclusion(s[..|s| - 1], members), s[|s| - 1];
      if last in members then rest else rest + [last]
  }

  /** A kept element occurs as often as it did before, any other not at all. */
  lemma {:induction false} IntersectionCounts<T>(s: seq<T>, members: seq<T>, x: T)
    ensures multiset(Intersection(s, members))[x] == if x in members then multiset(s)[x] else 0
  {
    if s != [] {
      var front, last := s[..|s| - 1], s[|s| - 1];
      IntersectionCounts(front, members, x);
      assert s == front + [last];
    }
  }

  lemma {:induction false} ExclusionCounts<T>(s: seq<T>, members: seq<T>, x: T)
    ensures multiset(Exclusion(s, members))[x] == if x in members then 0 else multiset(s)[x]
  {
    if s != [] {
      var front, last := s[..|s| - 1], s[|s| - 1];
      ExclusionCounts(front, members, x);
      assert s == front + [last];
    }
  }
}
