/**
 The order of peers within a session and the static coordinator derived from it.

 `key` stands for the 64-bit prefix of the hash of peer and session; nothing but its values is used.
 */
module SessionOrder {
  import opened Seqs
  import opened Sorting

  type PeerId = string

  /** A peer comes first when its key is larger. */
  function Before(key: PeerId -> nat): (PeerId, PeerId) -> bool {
    (p, q) => key(p) > key(q)
  }

  /** No two of the peers share a key. */
  ghost predicate DistinctKeys(peers: seq<PeerId>, key: PeerId -> nat) {
    forall p, q :: p in peers && q in peers && p != q ==> key(p) != key(q)
  }

  method SortPeersForSession(peers: seq<PeerId>, key: PeerId -> nat) returns (sorted: seq<PeerId>)
    ensures IsSortOf(sorted, peers, Before(key))
  {
    var slots := new PeerId[|peers|];
    for i := 0 to |peers|
      invariant slots[..i] == peers[..i]
    {
      slots[i] := peers[i];
    }
    assert slots[..] == peers;
    Sort(slots, Before(key));
    sorted := slots[..];
  }

  /** The peers of a session, in any order, sort to the same list exactly when their keys differ. */
  lemma SessionOrderIsCanonicalIff(peers: seq<PeerId>, key: PeerId -> nat)
    ensures DistinctKeys(peers, key) <==>
              forall r1, r2 :: IsSortOf(r1, peers, Before(key)) && IsSortOf(r2, peers, Before(key)) ==> r1 == r2
  {
    SortIsCanonicalIff(peers, Before(key));
    assert NoTies(peers, Before(key)) <==> DistinctKeys(peers, key);
  }

  /** The coordinator of the first round: the peer with the largest key, if there is any peer. */
  method StaticCoordinator(peers: seq<PeerId>, key: PeerId -> nat) returns (coordinator: Option<PeerId>)
    ensures IsStaticCoordinator(coordinator, peers, key)
  {
    var sortedPeers := SortPeersForSession(peers, key);
    assert |multiset(sortedPeers)| == |sortedPeers| && |multiset(peers)| == |peers|;
    if |sortedPeers| == 0 {
      return None;
    }
    sortedPeers := SortPeersForSession(peers, key);
    assert |multiset(sortedPeers)| == |sortedPeers|;
    assert forall p :: p in peers <==> p in multiset(sortedPeers);
    coordinator := Some(sortedPeers[0]);
  }

  ghost predicate IsStaticCoordinator(coordinator: Option<PeerId>, peers: seq<PeerId>, key: PeerId -> nat) {
    match coordinator
    case None => peers == []
    case Some(c) => c in peers && forall p :: p in peers ==> key(p) <= key(c)
  }

  /** Relayers that hold the same peers, listed in any order, pick the same static coordinator. */
  lemma StaticCoordinatorsAgree(peers1: seq<PeerId>, peers2: seq<PeerId>, key: PeerId -> nat,
                                c1: Option<PeerId>, c2: Option<PeerId>)
    requires forall p :: p in peers1 <==> p in peers2
    requires DistinctKeys(peers1, key)
    requires IsStaticCoordinator(c1, peers1, key) && IsStaticCoordinator(c2, peers2, key)
    ensures c1 == c2
  {
    if peers1 != [] { assert peers1[0] in peers2; }
    if peers2 != [] { assert peers2[0] in peers1; }
  }

  method IsParticipant(peer: PeerId, peers: seq<PeerId>) returns (found: bool)
    ensures found <==> peer in peers
  {
    for i := 0 to |peers|
      invariant peer !in peers[..i]
    {
      if peers[i] == peer {
        return true;
      }
    }
    return false;
  }
}
