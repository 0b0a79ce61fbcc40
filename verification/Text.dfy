/** The order in which strings compare. */
module Text {
  import opened Sorting

  predicate TextBefore(a: string, b: string) {
    if b == [] then false
    else if a == [] then true
    else a[0] < b[0] || (a[0] == b[0] && TextBefore(a[1..], b[1..]))
  }

  lemma {:induction false} TextOrder(a: string, b: string, c: string)
    ensures TextBefore(a, b) ==> !TextBefore(b, a)
    ensures a != b ==> TextBefore(a, b) || TextBefore(b, a)
    ensures TextBefore(a, c) ==> TextBefore(a, b) || TextBefore(b, c)
    decreases |a| + |b| + |c|
  {
    if a != [] && b != [] {
      assert a == [a[0]] + a[1..] && b == [b[0]] + b[1..];
      TextOrder(a[1..], b[1..], if c == [] then [] else c[1..]);
    }
  }

  lemma TextIsTotallyOrdered()
    ensures StrictWeakOrder(TextBefore)
    ensures forall s :: NoTies(s, TextBefore)
  {
    forall a, b, c
      ensures TextBefore(a, b) ==> !TextBefore(b, a)
      ensures a != b ==> TextBefore(a, b) || TextBefore(b, a)
      ensures TextBefore(a, c) ==> TextBefore(a, b) || TextBefore(b, c)
    {
      TextOrder(a, b, c);
    }
  }

  /** The first `k` characters agree, and then `a` ends or has the smaller character. */
  ghost predicate BeforeAt(a: string, b: string, k: nat) {
    k <= |a| && k < |b| && a[..k] == b[..k] && (k == |a| || a[k] < b[k])
  }

  /** Comparing from the front is the lexicographic order. */
  lemma {:induction false} TextIsLexicographic(a: string, b: string)
    ensures TextBefore(a, b) <==> exists k: nat :: BeforeAt(a, b, k)
    decreases |a|
  {
    if b == [] {
    } else if a == [] || a[0] < b[0] {
      assert BeforeAt(a, b, 0);
    } else {
      TextIsLexicographic(a[1..], b[1..]);
      forall k: nat ensures a[0] == b[0] && BeforeAt(a[1..], b[1..], k) <==> BeforeAt(a, b, k + 1) {
        if k + 1 <= |a| && k + 1 < |b| {
          assert a[..k + 1] == [a[0]] + a[1..][..k] && b[..k + 1] == [b[0]] + b[1..][..k];
        }
      }
      forall k: nat | BeforeAt(a, b, k) ensures k > 0 && a[0] == b[0] && BeforeAt(a[1..], b[1..], k - 1) {
        assert k > 0;
      }
    }
  }
}
