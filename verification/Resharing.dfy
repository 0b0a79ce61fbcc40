/** Resharing a key: which old subset a relayer accepts, and how the parties are numbered. */
module Resharing {
  import opened Seqs
  import opened Sorting
  import opened Text
  import opened SessionOrder

  datatype StartParams = StartParams(oldThreshold: int, oldSubset: seq<PeerId>)

  datatype Verdict = Accepted | ThresholdTooSmall | ThresholdTooBig | InvalidSubset

  method ExcludePeers(peers: seq<PeerId>, excluded: seq<PeerId>) returns (included: seq<PeerId>)
    ensures included == Exclusion(peers, excluded)
  {
    included := [];
    for i := 0 to |peers|
      invariant included == Exclusion(peers[..i], excluded)
    {
      assert peers[..i + 1][..i] == peers[..i];
      if peers[i] in excluded {
        continue;
      }
      included := included + [peers[i]];
    }
    assert peers[..|peers|] == peers;
  }

  method PeersIntersection(oldPeers: seq<PeerId>, newPeers: seq<PeerId>) returns (included: seq<PeerId>)
    ensures included == Intersection(oldPeers, newPeers)
  {
    included := [];
    for i := 0 to |oldPeers|
      invariant included == Intersection(oldPeers[..i], newPeers)
    {
      assert oldPeers[..i + 1][..i] == oldPeers[..i];
      if oldPeers[i] !in newPeers {
        continue;
      }
      included := included + [oldPeers[i]];
    }
    assert oldPeers[..|oldPeers|] == oldPeers;
  }

  method SortText(s: seq<PeerId>) returns (r: seq<PeerId>)
    ensures IsSortOf(r, s, TextBefore) && |r| == |s|
  {
    TextIsTotallyOrdered();
    var a := new PeerId[|s|](i requires 0 <= i < |s| => s[i]);
    assert a[..] == s;
    Sort(a, TextBefore);
    r := a[..];
  }

  // ----- accepting start parameters -----

  lemma {:induction false} IntersectionStaysSorted(s: seq<PeerId>, members: seq<PeerId>)
    requires Sorted(s, TextBefore)
    ensures Sorted(Intersection(s, members), TextBefore)
  {
    if s != [] {
      var front, last := s[..|s| - 1], s[|s| - 1];
      IntersectionStaysSorted(front, members);
      IntersectionIsExact(front, members);
      forall i | 0 <= i < |Intersection(front, members)| ensures !TextBefore(last, Intersection(front, members)[i]) {
        var x := Intersection(front, members)[i];
        var k :| 0 <= k < |front| && front[k] == x;
      }
    }
  }

  /** Picking from a sorted list is the same as sorting what was picked. */
  lemma PickedIsSorted(sorted: seq<PeerId>, s: seq<PeerId>, members: seq<PeerId>)
    requires IsSortOf(sorted, s, TextBefore)
    ensures IsSortOf(Intersection(sorted, members), Intersection(s, members), TextBefore)
  {
    IntersectionStaysSorted(sorted, members);
    forall x ensures multiset(Intersection(sorted, members))[x] == multiset(Intersection(s, members))[x] {
      IntersectionCounts(sorted, members, x);
      IntersectionCounts(s, members, x);
    }
  }

  /** Two sorted lists are equal exactly when they hold the same elements. */
  lemma SortedEqualIff(r: seq<PeerId>, s: seq<PeerId>)
    requires Sorted(r, TextBefore) && Sorted(s, TextBefore)
    ensures r == s <==> multiset(r) == multiset(s)
  {
    TextIsTotallyOrdered();
    assert NoTies(r, TextBefore);
    if multiset(r) == multiset(s) {
      SortIsUnique(r, s, TextBefore);
    }
  }

  class ResharingProcess {
    var keyPeers: seq<PeerId>
    const keyThreshold: int
    const peerstore: seq<PeerId>

    constructor (keyPeers: seq<PeerId>, keyThreshold: int, peerstore: seq<PeerId>)
      ensures this.keyPeers == keyPeers && this.keyThreshold == keyThreshold && this.peerstore == peerstore
    {
      this.keyPeers, this.keyThreshold, this.peerstore := keyPeers, keyThreshold, peerstore;
    }

    method MakeStartParams() returns (params: StartParams)
      ensures params == StartParams(keyThreshold, Intersection(keyPeers, peerstore))
    {
      var oldSubset := PeersIntersection(keyPeers, peerstore);
      return StartParams(keyThreshold, oldSubset);
    }

    /**
     A relayer without a share accepts any subset that is not smaller than the threshold; a share holder
     accepts only the peers of its own key that it still knows, in whatever order they are listed.
     Checking sorts the peers of the key.
     */
    method ValidateStartParams(params: StartParams) returns (verdict: Verdict)
      modifies this`keyPeers
      ensures verdict == ThresholdTooSmall <==> params.oldThreshold <= 0
      ensures verdict == ThresholdTooBig <==> 0 < params.oldThreshold && |params.oldSubset| < params.oldThreshold
      ensures verdict == Accepted <==> Acceptable(params, old(keyPeers), peerstore)
      ensures verdict in {Accepted, InvalidSubset} ==> IsSortOf(keyPeers, old(keyPeers), TextBefore)
      ensures verdict !in {Accepted, InvalidSubset} ==> keyPeers == old(keyPeers)
    {
      if params.oldThreshold <= 0 {
        return ThresholdTooSmall;
      }
      if |params.oldSubset| < params.oldThreshold {
        return ThresholdTooBig;
      }
      var subset := SortText(params.oldSubset);
      keyPeers := SortText(keyPeers);
      var known := PeersIntersection(keyPeers, peerstore);
      PickedIsSorted(keyPeers, old(keyPeers), peerstore);
      SortedEqualIff(subset, known);
      if |keyPeers| != 0 && subset != known {
        return InvalidSubset;
      }
      return Accepted;
    }
  }

  ghost predicate Acceptable(params: StartParams, keyPeers: seq<PeerId>, peerstore: seq<PeerId>) {
    && 0 < params.oldThreshold <= |params.oldSubset|
    && (keyPeers == [] || multiset(params.oldSubset) == multiset(Intersection(keyPeers, peerstore)))
  }

  lemma DistinctSameElements(a: seq<PeerId>, b: seq<PeerId>)
    requires Distinct(a) && Distinct(b) && ToSet(a) == ToSet(b)
    ensures multiset(a) == multiset(b) && |a| == |b|
  {
    forall x ensures multiset(a)[x] == multiset(b)[x] {
      DistinctCounts(a, x);
      DistinctCounts(b, x);
      assert x in multiset(a) <==> x in ToSet(a);
      assert x in multiset(b) <==> x in ToSet(b);
    }
    DistinctSize(a);
    DistinctSize(b);
  }

  /** What an honest coordinator sends is accepted by every share holder that knows the same peers. */
  lemma HonestParamsAreAccepted(coordinatorKeyPeers: seq<PeerId>, coordinatorStore: seq<PeerId>, threshold: int,
                                keyPeers: seq<PeerId>, peerstore: seq<PeerId>)
    requires Distinct(coordinatorKeyPeers) && Distinct(keyPeers) && ToSet(coordinatorKeyPeers) == ToSet(keyPeers)
    requires ToSet(coordinatorStore) == ToSet(peerstore)
    requires 0 < threshold <= |Intersection(coordinatorKeyPeers, coordinatorStore)|
    ensures Acceptable(StartParams(threshold, Intersection(coordinatorKeyPeers, coordinatorStore)), keyPeers, peerstore)
  {
    DistinctSameElements(coordinatorKeyPeers, keyPeers);
    forall x
      ensures multiset(Intersection(coordinatorKeyPeers, coordinatorStore))[x] ==
              multiset(Intersection(keyPeers, peerstore))[x]
    {
      IntersectionCounts(coordinatorKeyPeers, coordinatorStore, x);
      IntersectionCounts(keyPeers, peerstore, x);
      assert x in coordinatorStore <==> x in ToSet(coordinatorStore);
      assert x in peerstore <==> x in ToSet(peerstore);
    }
  }

  // ----- numbering the parties -----

  datatype Party = Party(id: PeerId, index: int)

  function Ids(parties: seq<Party>): (ids: seq<PeerId>)
    ensures |ids| == |parties| && forall i :: 0 <= i < |ids| ==> ids[i] == parties[i].id
  {
    if parties == [] then [] else Ids(parties[..|parties| - 1]) + [parties[|parties| - 1].id]
  }

  /** Every party's index is its position. */
  ghost predicate Numbered(parties: seq<Party>) {
    forall i :: 0 <= i < |parties| ==> parties[i].index == i
  }

  /** Parties in the order of their keys, numbered. */
  method PartiesFromPeers(peers: seq<PeerId>, partyKey: PeerId -> nat) returns (parties: seq<Party>)
    ensures Numbered(parties) && IsSortOf(Ids(parties), peers, (p, q) => partyKey(p) < partyKey(q))
  {
    var ids := new PeerId[|peers|](i requires 0 <= i < |peers| => peers[i]);
    assert ids[..] == peers;
    Sort(ids, (p, q) => partyKey(p) < partyKey(q));
    parties := [];
    for i := 0 to ids.Length
      invariant Numbered(parties) && Ids(parties) == ids[..i] && |parties| == i
    {
      assert (parties + [Party(ids[i], i)])[..i] == parties;
      parties := parties + [Party(ids[i], i)];
    }
    assert Ids(parties) == ids[..];
  }

  /** The parties that are not among the old ones. */
  function Newcomers(parties: seq<Party>, oldParties: seq<Party>): (r: seq<Party>)
    ensures |r| <= |parties|
  {
    if parties == [] then []
    else
      var rest, last := Newcomers(parties[..|parties| - 1], oldParties), parties[|parties| - 1];
      if last.id in Ids(oldParties) then rest else rest + [last]
  }

  lemma {:induction false} NewcomersAreExcluded(parties: seq<Party>, oldParties: seq<Party>)
    ensures Ids(Newcomers(parties, oldParties)) == Exclusion(Ids(parties), Ids(oldParties))
  {
    if parties != [] {
      var front, last := parties[..|parties| - 1], parties[|parties| - 1];
      NewcomersAreExcluded(front, oldParties);
      assert Ids(parties)[..|parties| - 1] == Ids(front);
      var before := Newcomers(front, oldParties);
      assert (before + [last])[..|before|] == before;
    }
  }

  lemma {:induction false} FewerNewcomers(parties: seq<Party>, oldParties: seq<Party>, k: nat)
    requires k <= |parties|
    ensures Newcomers(parties[..k], oldParties) <= Newcomers(parties, oldParties)
    decreases |parties|
  {
    if k == |parties| {
      assert parties[..k] == parties;
    } else {
      FewerNewcomers(parties[..|parties| - 1], oldParties, k);
      assert parties[..|parties| - 1][..k] == parties[..k];
    }
  }

  /** Slot i of the result: the old parties first, then the newcomers with their position as index. */
  function SlotAt(oldParties: seq<Party>, newcomers: seq<Party>, i: nat): Option<Party> {
    if i < |oldParties| then Some(oldParties[i])
    else if i < |oldParties| + |newcomers| then Some(newcomers[i - |oldParties|].(index := i))
    else None
  }

  ghost predicate Placed(slots: seq<Option<Party>>, oldParties: seq<Party>, newcomers: seq<Party>) {
    forall i :: 0 <= i < |slots| ==> slots[i] == SlotAt(oldParties, newcomers, i)
  }

  /**
   What sorting parties yields. Running past the end is a bounds failure (None), which happens exactly
   when there is a newcomer without a slot.
   */
  ghost predicate IsSortParties(r: Option<seq<Option<Party>>>, parties: seq<Party>, oldParties: seq<Party>) {
    var newcomers := Newcomers(parties, oldParties);
    match r
    case None => newcomers != [] && |oldParties| + |newcomers| > |parties|
    case Some(slots) =>
      && (newcomers == [] || |oldParties| + |newcomers| <= |parties|)
      && |slots| == |parties| && Placed(slots, oldParties, newcomers)
  }

  method CopyOld(slots: array<Option<Party>>, oldParties: seq<Party>)
    requires forall i :: 0 <= i < slots.Length ==> slots[i] == None
    modifies slots
    ensures Placed(slots[..], oldParties, [])
  {
    var i := 0;
    while i < slots.Length && i < |oldParties|
      invariant 0 <= i <= slots.Length && i <= |oldParties|
      invariant forall j :: 0 <= j < slots.Length ==> slots[j] == if j < i then Some(oldParties[j]) else None
    {
      slots[i] := Some(oldParties[i]);
      i := i + 1;
    }
  }

  /** Placing one more newcomer. */
  lemma PlaceOne(slots: seq<Option<Party>>, oldParties: seq<Party>, newcomers: seq<Party>, p: Party)
    requires Placed(slots, oldParties, newcomers)
    requires var index := |oldParties| + |newcomers|; index < |slots|
    ensures var index := |oldParties| + |newcomers|;
            Placed(slots[index := Some(p.(index := index))], oldParties, newcomers + [p])
  { }

  method SortParties(parties: seq<Party>, oldParties: seq<Party>) returns (r: Option<seq<Option<Party>>>)
    ensures IsSortParties(r, parties, oldParties)
  {
    var slots := new Option<Party>[|parties|](_ => None);
    CopyOld(slots, oldParties);
    var index := |oldParties|;
    for i := 0 to |parties|
      invariant index == |oldParties| + |Newcomers(parties[..i], oldParties)|
      invariant index == |oldParties| || index <= |parties|
      invariant Placed(slots[..], oldParties, Newcomers(parties[..i], oldParties))
    {
      ghost var newcomers := Newcomers(parties[..i], oldParties);
      assert parties[..i + 1][..i] == parties[..i];
      FewerNewcomers(parties, oldParties, i + 1);
      var participant := IsParticipant(parties[i].id, Ids(oldParties));
      if !participant {
        assert Newcomers(parties[..i + 1], oldParties) == newcomers + [parties[i]];
        if index >= |parties| {
          return None;
        }
        PlaceOne(slots[..], oldParties, newcomers, parties[i]);
        ghost var before := slots[..];
        slots[index] := Some(parties[i].(index := index));
        assert slots[..] == before[index := Some(parties[i].(index := index))];
        index := index + 1;
      }
    }
    assert parties[..|parties|] == parties;
    return Some(slots[..]);
  }

  ghost predicate AllFilled(slots: seq<Option<Party>>) {
    forall i :: 0 <= i < |slots| ==> slots[i].Some?
  }

  /** The old parties followed by the renumbered newcomers. */
  ghost predicate Completes(slots: seq<Option<Party>>, parties: seq<Party>, oldParties: seq<Party>) {
    && |oldParties| <= |slots| == |parties| && AllFilled(slots)
    && (forall i :: 0 <= i < |oldParties| ==> slots[i] == Some(oldParties[i]))
    && (forall i :: |oldParties| <= i < |slots| ==> slots[i].value.index == i)
    && multiset(SlotIds(slots)) == multiset(Ids(parties))
  }

  ghost function SlotIds(slots: seq<Option<Party>>): (ids: seq<PeerId>)
    requires AllFilled(slots)
    ensures |ids| == |slots| && forall i :: 0 <= i < |ids| ==> ids[i] == slots[i].value.id
  {
    if slots == [] then [] else SlotIds(slots[..|slots| - 1]) + [slots[|slots| - 1].value.id]
  }

  /** Old parties and newcomers together are all parties, when the old ones are among them. */
  lemma OldAndNewAreAll(ids: seq<PeerId>, oldIds: seq<PeerId>)
    requires Distinct(ids) && Distinct(oldIds) && ToSet(oldIds) <= ToSet(ids)
    ensures multiset(oldIds + Exclusion(ids, oldIds)) == multiset(ids)
    ensures |oldIds| + |Exclusion(ids, oldIds)| == |ids|
  {
    forall x ensures multiset(oldIds + Exclusion(ids, oldIds))[x] == multiset(ids)[x] {
      DistinctCounts(ids, x);
      DistinctCounts(oldIds, x);
      ExclusionCounts(ids, oldIds, x);
      assert x in multiset(ids) <==> x in ToSet(ids);
      assert x in multiset(oldIds) <==> x in ToSet(oldIds);
    }
    assert |multiset(ids)| == |ids| && |multiset(oldIds + Exclusion(ids, oldIds))| == |oldIds + Exclusion(ids, oldIds)|;
  }

  lemma PlacedIds(slots: seq<Option<Party>>, oldParties: seq<Party>, newcomers: seq<Party>)
    requires Placed(slots, oldParties, newcomers) && |slots| == |oldParties| + |newcomers|
    ensures AllFilled(slots) && SlotIds(slots) == Ids(oldParties) + Ids(newcomers)
  { }

  /** Old parties that were placed completely are among the parties. */
  lemma CompleteMeansKnown(slots: seq<Option<Party>>, parties: seq<Party>, oldParties: seq<Party>)
    requires Completes(slots, parties, oldParties)
    ensures ToSet(Ids(oldParties)) <= ToSet(Ids(parties))
  {
    forall x | x in ToSet(Ids(oldParties)) ensures x in ToSet(Ids(parties)) {
      var i :| 0 <= i < |oldParties| && oldParties[i].id == x;
      assert SlotIds(slots)[i] == x;
      assert x in multiset(SlotIds(slots));
    }
  }

  lemma PlacedCompletes(slots: seq<Option<Party>>, parties: seq<Party>, oldParties: seq<Party>, newcomers: seq<Party>)
    requires Placed(slots, oldParties, newcomers) && |slots| == |parties| == |oldParties| + |newcomers|
    requires multiset(Ids(oldParties) + Ids(newcomers)) == multiset(Ids(parties))
    ensures Completes(slots, parties, oldParties)
  {
    PlacedIds(slots, oldParties, newcomers);
  }

  lemma KnownMeansComplete(slots: seq<Option<Party>>, parties: seq<Party>, oldParties: seq<Party>)
    requires Distinct(Ids(parties)) && Distinct(Ids(oldParties)) && ToSet(Ids(oldParties)) <= ToSet(Ids(parties))
    requires |slots| == |parties| && Placed(slots, oldParties, Newcomers(parties, oldParties))
    ensures Completes(slots, parties, oldParties)
  {
    NewcomersAreExcluded(parties, oldParties);
    OldAndNewAreAll(Ids(parties), Ids(oldParties));
    PlacedCompletes(slots, parties, oldParties, Newcomers(parties, oldParties));
  }

  /** Every slot is filled, old parties in front and all parties present, exactly when the old ones are known. */
  lemma SortPartiesCompletesIff(parties: seq<Party>, oldParties: seq<Party>, r: Option<seq<Option<Party>>>)
    requires Distinct(Ids(parties)) && Distinct(Ids(oldParties)) && IsSortParties(r, parties, oldParties)
    ensures (r.Some? && Completes(r.value, parties, oldParties)) <==> ToSet(Ids(oldParties)) <= ToSet(Ids(parties))
  {
    if ToSet(Ids(oldParties)) <= ToSet(Ids(parties)) {
      NewcomersAreExcluded(parties, oldParties);
      OldAndNewAreAll(Ids(parties), Ids(oldParties));
      KnownMeansComplete(r.value, parties, oldParties);
    } else if r.Some? && Completes(r.value, parties, oldParties) {
      CompleteMeansKnown(r.value, parties, oldParties);
    }
  }

  /** After accepted parameters a share holder's parties are complete, and each one's index is its position. */
  lemma AcceptedPartiesAreNumbered(params: StartParams, keyPeers: seq<PeerId>, peerstore: seq<PeerId>,
                                   parties: seq<Party>, oldParties: seq<Party>, r: Option<seq<Option<Party>>>)
    requires Acceptable(params, keyPeers, peerstore) && keyPeers != [] && Distinct(keyPeers) && Distinct(peerstore)
    requires multiset(Ids(parties)) == multiset(peerstore)
    requires multiset(Ids(oldParties)) == multiset(params.oldSubset) && Numbered(oldParties)
    requires IsSortParties(r, parties, oldParties)
    ensures r.Some? && Completes(r.value, parties, oldParties)
    ensures forall i :: 0 <= i < |r.value| ==> r.value[i].value.index == i
  {
    var known := Intersection(keyPeers, peerstore);
    IntersectionIsExact(keyPeers, peerstore);
    SortKeepsDistinct(Ids(parties), peerstore);
    SortKeepsDistinct(Ids(oldParties), known);
    forall x | x in ToSet(Ids(oldParties)) ensures x in ToSet(Ids(parties)) {
      assert x in known;
    }
    SortPartiesCompletesIff(parties, oldParties, r);
  }
}
