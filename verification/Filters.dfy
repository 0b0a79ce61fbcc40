/** What it means to filter a sequence: which positions are kept, and in which order. */
module Filters {
  import opened Seqs

  /** `sub` consists of the elements of `s` at the positions `at`, from left to right. */
  ghost predicate Picks<T>(sub: seq<T>, s: seq<T>, at: seq<int>) {
    && |at| == |sub|
    && (forall i :: 0 <= i < |at| ==> 0 <= at[i] < |s| && sub[i] == s[at[i]])
    && (forall i, j :: 0 <= i < j < |at| ==> at[i] < at[j])
  }

  /** The positions are exactly those below `n` that are to be kept. */
  ghost predicate Covers(at: seq<int>, n: nat, kept: set<int>) {
    forall i :: i in at <==> 0 <= i < n && i in kept
  }

  /** `sub` is what is left of `s` when exactly the positions in `kept` are kept, in order. */
  ghost predicate IsFilter<T>(sub: seq<T>, s: seq<T>, kept: set<int>) {
    exists at :: Picks(sub, s, at) && Covers(at, |s|, kept)
  }

  lemma FilterNothing<T>(kept: set<int>)
    ensures IsFilter<T>([], [], kept)
  {
    assert Picks<T>([], [], []) && Covers([], 0, kept);
  }

  lemma FilterOneMore<T>(sub: seq<T>, s: seq<T>, x: T, kept: set<int>)
    requires IsFilter(sub, s, kept)
    ensures |s| in kept ==> IsFilter(sub + [x], s + [x], kept)
    ensures |s| !in kept ==> IsFilter(sub, s + [x], kept)
  {
    var at: seq<int> :| Picks(sub, s, at) && Covers(at, |s|, kept);
    if |s| in kept {
      assert Picks(sub + [x], s + [x], at + [|s|]);
      assert Covers(at + [|s|], |s + [x]|, kept);
    } else {
      assert Picks(sub, s + [x], at) && Covers(at, |s + [x]|, kept);
    }
  }

  lemma {:induction false} IntersectionFilters<T>(s: seq<T>, members: seq<T>, kept: set<int>)
    requires forall i :: 0 <= i < |s| ==> (i in kept <==> s[i] in members)
    ensures IsFilter(Intersection(s, members), s, kept)
  {
    if s == [] {
      FilterNothing<T>(kept);
    } else {
      var front, last := s[..|s| - 1], s[|s| - 1];
      assert s == front + [last];
      IntersectionFilters(front, members, kept);
      FilterOneMore(Intersection(front, members), front, last, kept);
    }
  }

  lemma {:induction false} ExclusionFilters<T>(s: seq<T>, members: seq<T>, kept: set<int>)
    requires forall i :: 0 <= i < |s| ==> (i in kept <==> s[i] !in members)
    ensures IsFilter(Exclusion(s, members), s, kept)
  {
    if s == [] {
      FilterNothing<T>(kept);
    } else {
      var front, last := s[..|s| - 1], s[|s| - 1];
      assert s == front + [last];
      ExclusionFilters(front, members, kept);
      FilterOneMore(Exclusion(front, members), front, last, kept);
    }
  }
}
