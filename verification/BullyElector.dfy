/** One relayer's elector, proved to act as a node of the election system does. */
module BullyElector {
  import opened Seqs
  import opened Filters
  import opened Sorting
  import opened SessionOrder
  import opened BullySystem

  datatype Kind = ElectionMsg | AliveMsg | SelectMsg

  datatype WireMessage = WireMessage(kind: Kind, from: PeerId, to: PeerId)

  /** The last position of a peer in the session order; a peer that is not listed counts as position 0. */
  function Rank(sorted: seq<PeerId>, p: PeerId): nat {
    if sorted == [] then 0
    else if sorted[|sorted| - 1] == p then |sorted| - 1
    else Rank(sorted[..|sorted| - 1], p)
  }

  lemma {:induction false} RankIsPosition(sorted: seq<PeerId>, i: nat)
    requires i < |sorted| && Distinct(sorted)
    ensures Rank(sorted, sorted[i]) == i
  {
    if i < |sorted| - 1 {
      RankIsPosition(sorted[..|sorted| - 1], i);
    }
  }

  lemma {:induction false} RankOfListed(sorted: seq<PeerId>, p: PeerId)
    requires p in sorted
    ensures Rank(sorted, p) < |sorted| && sorted[Rank(sorted, p)] == p
  {
    if sorted[|sorted| - 1] != p {
      RankOfListed(sorted[..|sorted| - 1], p);
    }
  }

  /** The rank is the last position, also in a list with repetitions. */
  lemma {:induction false} RankIsLast(sorted: seq<PeerId>, i: nat)
    requires i < |sorted|
    ensures i <= Rank(sorted, sorted[i])
  {
    if sorted[|sorted| - 1] != sorted[i] {
      RankIsLast(sorted[..|sorted| - 1], i);
    }
  }

  lemma {:induction false} RankOfUnlisted(sorted: seq<PeerId>, p: PeerId)
    requires p !in sorted
    ensures Rank(sorted, p) == 0
  {
    if sorted != [] {
      RankOfUnlisted(sorted[..|sorted| - 1], p);
    }
  }

  /** Different peers share a rank only at position 0. */
  lemma SharedRank(sorted: seq<PeerId>, p: PeerId, q: PeerId)
    requires p != q && Rank(sorted, p) == Rank(sorted, q)
    ensures Rank(sorted, p) == 0
  {
    if p !in sorted {
      RankOfUnlisted(sorted, p);
    } else if q !in sorted {
      RankOfUnlisted(sorted, q);
    } else {
      RankOfListed(sorted, p);
      RankOfListed(sorted, q);
    }
  }

  function Ranked(sorted: seq<PeerId>, m: WireMessage): Message {
    var from, to := Rank(sorted, m.from), Rank(sorted, m.to);
    match m.kind
    case ElectionMsg => Election(from, to)
    case AliveMsg => Alive(from, to)
    case SelectMsg => Select(from, to)
  }

  function RankedAll(sorted: seq<PeerId>, ms: seq<WireMessage>): seq<Message> {
    if ms == [] then [] else RankedAll(sorted, ms[..|ms| - 1]) + [Ranked(sorted, ms[|ms| - 1])]
  }

  /** One message for each peer except the host. */
  function Addressed(host: PeerId, peers: seq<PeerId>, kind: Kind): seq<WireMessage> {
    if peers == [] then []
    else
      var before, last := Addressed(host, peers[..|peers| - 1], kind), peers[|peers| - 1];
      if host == last then before else before + [WireMessage(kind, host, last)]
  }

  /** Exactly one message of the kind for each listed peer other than the host, in order. */
  lemma {:induction false} AddressedIsExact(host: PeerId, peers: seq<PeerId>, kind: Kind)
    ensures forall w :: w in Addressed(host, peers, kind) <==>
                          w.kind == kind && w.from == host && w.to in peers && w.to != host
    ensures forall w: WireMessage :: w.kind == kind && w.from == host && w.to != host ==>
                          multiset(Addressed(host, peers, kind))[w] == multiset(peers)[w.to]
  {
    if peers != [] {
      var front, last := peers[..|peers| - 1], peers[|peers| - 1];
      AddressedIsExact(host, front, kind);
      assert peers == front + [last];
    }
  }

  lemma AddressedAppend(host: PeerId, peers: seq<PeerId>, p: PeerId, kind: Kind)
    ensures host == p ==> Addressed(host, peers + [p], kind) == Addressed(host, peers, kind)
    ensures host != p ==>
              Addressed(host, peers + [p], kind) == Addressed(host, peers, kind) + [WireMessage(kind, host, p)]
  {
    assert (peers + [p])[..|peers|] == peers;
  }

  /** The peers that can be reached. */
  function Reached(peers: seq<PeerId>, down: set<PeerId>): seq<PeerId> {
    if peers == [] then []
    else
      var rest, last := Reached(peers[..|peers| - 1], down), peers[|peers| - 1];
      if last in down then rest else rest + [last]
  }

  lemma {:induction false} ReachedFilters(peers: seq<PeerId>, down: set<PeerId>, kept: set<int>)
    requires forall i :: 0 <= i < |peers| ==> (i in kept <==> peers[i] !in down)
    ensures IsFilter(Reached(peers, down), peers, kept)
  {
    if peers == [] {
      FilterNothing<PeerId>(kept);
    } else {
      var front, last := peers[..|peers| - 1], peers[|peers| - 1];
      assert peers == front + [last];
      ReachedFilters(front, down, kept);
      FilterOneMore(Reached(front, down), front, last, kept);
    }
  }

  lemma {:induction false} AllReached(peers: seq<PeerId>)
    ensures Reached(peers, {}) == peers
  {
    if peers != [] {
      AllReached(peers[..|peers| - 1]);
    }
  }

  /** Those of the first `k` listed peers that rank above the host. */
  function Above(sorted: seq<PeerId>, host: PeerId, k: nat): seq<PeerId>
    requires k <= |sorted|
  {
    if k == 0 then []
    else
      var before := Above(sorted, host, k - 1);
      if Rank(sorted, sorted[k - 1]) < Rank(sorted, host) then before + [sorted[k - 1]] else before
  }

  lemma {:induction false} AboveIsExact(sorted: seq<PeerId>, host: PeerId, k: nat)
    requires k <= |sorted|
    ensures forall p :: p in Above(sorted, host, k) <==> p in sorted[..k] && Rank(sorted, p) < Rank(sorted, host)
  {
    if k > 0 {
      AboveIsExact(sorted, host, k - 1);
      assert sorted[..k] == sorted[..k - 1] + [sorted[k - 1]];
    }
  }

  lemma ChallengesAreExact(sorted: seq<PeerId>, host: PeerId)
    ensures forall w :: w in Addressed(host, Above(sorted, host, |sorted|), ElectionMsg) <==>
                          && w.kind == ElectionMsg && w.from == host
                          && w.to in sorted && Rank(sorted, w.to) < Rank(sorted, host)
  {
    AddressedIsExact(host, Above(sorted, host, |sorted|), ElectionMsg);
    AboveIsExact(sorted, host, |sorted|);
    assert sorted[..|sorted|] == sorted;
  }

  /** For a host in a list without repetitions these are the peers before it. */
  lemma {:induction false} AboveIsPrefix(sorted: seq<PeerId>, host: PeerId, k: nat)
    requires Distinct(sorted) && k <= |sorted| && Rank(sorted, host) <= |sorted|
    ensures Above(sorted, host, k) == sorted[..if k < Rank(sorted, host) then k else Rank(sorted, host)]
    decreases k
  {
    if k > 0 {
      AboveIsPrefix(sorted, host, k - 1);
      RankIsPosition(sorted, k - 1);
    }
  }

  class Elector {
    const hostID: PeerId
    var sortedPeers: seq<PeerId>
    var coordinator: PeerId
    var phase: Phase
    var listening: bool
    var electionChanFull: bool

    /** The host is listed and nobody is listed twice, as in the election system. */
    ghost predicate Valid()
      reads this
    {
      Distinct(sortedPeers) && hostID in sortedPeers
    }

    ghost function Host(): nat
      reads this
    {
      Rank(sortedPeers, hostID)
    }

    /** This elector as a node of the election system. */
    ghost function View(): Node
      reads this
    {
      Node(phase, listening, Rank(sortedPeers, coordinator), electionChanFull)
    }

    /** An Election message to a listed peer that ranks above this elector. */
    ghost predicate IsChallenge(w: WireMessage)
      reads this
    {
      w.kind == ElectionMsg && w.from == hostID && w.to in sortedPeers && Rank(sortedPeers, w.to) < Host()
    }

    /** The message is an Election from another peer that does not rank above this elector. */
    ghost predicate MustAnswer(m: WireMessage)
      reads this
    {
      m.kind == ElectionMsg && m.from != hostID && Host() <= Rank(sortedPeers, m.from)
    }

    /** An elector that has been given the peers of its session. */
    constructor (hostID: PeerId, peers: seq<PeerId>, key: PeerId -> nat)
      ensures this.hostID == hostID && IsSortOf(sortedPeers, peers, Before(key))
      ensures View() == Node(NotStarted, false, Host(), false)
      ensures Distinct(peers) && hostID in peers ==> Valid()
    {
      this.hostID := hostID;
      coordinator := hostID;
      phase := NotStarted;
      listening := false;
      electionChanFull := false;
      sortedPeers := peers;
      new;
      sortedPeers := SortPeersForSession(peers, key);
      if Distinct(peers) {
        SortKeepsDistinct(sortedPeers, peers);
      }
    }

    /** The listener subscribes. */
    method Listen()
      modifies this`listening
      ensures View() == old(View()).(listening := true)
    {
      listening := true;
    }

    method IsPeerIDHigher(p1: PeerId, p2: PeerId) returns (higher: bool)
      ensures higher <==> Rank(sortedPeers, p1) < Rank(sortedPeers, p2)
    {
      var i1, i2 := 0, 0;
      for i := 0 to |sortedPeers|
        invariant i1 == Rank(sortedPeers[..i], p1) && i2 == Rank(sortedPeers[..i], p2)
      {
        assert sortedPeers[..i + 1][..i] == sortedPeers[..i];
        if p1 == sortedPeers[i] { i1 := i; }
        if p2 == sortedPeers[i] { i2 := i; }
      }
      assert sortedPeers[..|sortedPeers|] == sortedPeers;
      return i1 < i2;
    }

    /** A listed or unlisted peer is considered as coordinator. */
    method SetCoordinator(id: PeerId)
      modifies this`coordinator
      ensures coordinator ==
              if id == hostID || Rank(sortedPeers, id) < old(Rank(sortedPeers, coordinator)) then id
              else old(coordinator)
      ensures View().coordinator == Consider(Host(), old(View()).coordinator, Rank(sortedPeers, id))
    {
      var higher := IsPeerIDHigher(id, coordinator);
      if id != hostID && Rank(sortedPeers, id) == Rank(sortedPeers, hostID) {
        SharedRank(sortedPeers, id, hostID);
      }
      if higher || id == hostID {
        coordinator := id;
      }
    }

    /** Sending to a list of peers, never to oneself; a peer that cannot be reached is an error and misses it. */
    method Broadcast(peers: seq<PeerId>, kind: Kind, down: set<PeerId>) returns (sent: seq<WireMessage>, ok: bool)
      ensures sent == Addressed(hostID, Reached(peers, down), kind)
      ensures ok <==> forall p :: p in peers && p != hostID ==> p !in down
    {
      sent, ok := [], true;
      for i := 0 to |peers|
        invariant sent == Addressed(hostID, Reached(peers[..i], down), kind)
        invariant ok <==> forall p :: p in peers[..i] && p != hostID ==> p !in down
      {
        assert peers[..i + 1] == peers[..i] + [peers[i]];
        assert peers[..i + 1][..i] == peers[..i];
        AddressedAppend(hostID, Reached(peers[..i], down), peers[i], kind);
        if hostID == peers[i] {
          continue;
        }
        if peers[i] in down {
          ok := false;
        } else {
          sent := sent + [WireMessage(kind, hostID, peers[i])];
        }
      }
      assert peers[..|peers|] == peers;
    }

    /** Sending while every peer can be reached. */
    method Send(peers: seq<PeerId>, kind: Kind) returns (sent: seq<WireMessage>)
      ensures sent == Addressed(hostID, peers, kind)
    {
      var ok;
      sent, ok := Broadcast(peers, kind, {});
      AllReached(peers);
    }

    /** Sends a challenge to every peer of higher order. */
    method Challenge() returns (sent: seq<WireMessage>)
      ensures sent == Addressed(hostID, Above(sortedPeers, hostID, |sortedPeers|), ElectionMsg)
    {
      sent := [];
      for i := 0 to |sortedPeers|
        invariant sent == Addressed(hostID, Above(sortedPeers, hostID, i), ElectionMsg)
      {
        var higher := IsPeerIDHigher(sortedPeers[i], hostID);
        if higher {
          var one := Send([sortedPeers[i]], ElectionMsg);
          AddressedToOne(hostID, sortedPeers[i], ElectionMsg);
          AddressedAppend(hostID, Above(sortedPeers, hostID, i), sortedPeers[i], ElectionMsg);
          sent := sent + one;
        }
      }
    }

    /** Entering an election. */
    method BeginElection() returns (sent: seq<WireMessage>)
      modifies this`phase
      ensures View() == BullySystem.BeginElection(Host(), old(View())).0
      ensures forall w :: w in sent <==> IsChallenge(w)
      ensures Valid() ==> RankedAll(sortedPeers, sent) == BullySystem.BeginElection(Host(), old(View())).1
    {
      phase := Electing;
      sent := Challenge();
      ChallengesAreExact(sortedPeers, hostID);
      if Valid() {
        RankOfListed(sortedPeers, hostID);
        AboveIsPrefix(sortedPeers, hostID, |sortedPeers|);
        ChallengesReachHigher(sortedPeers, hostID, Host());
      }
    }

    /** Leaving an election, by the timer or because an Alive was queued. */
    method EndElection(timedOut: bool) returns (sent: seq<WireMessage>)
      requires phase == Electing && (timedOut || electionChanFull)
      modifies this`phase, this`coordinator, this`electionChanFull
      ensures timedOut ==> View() == EndByTimeout(Host(), |sortedPeers|, old(View())).0
      ensures timedOut ==> sent == Addressed(hostID, sortedPeers, SelectMsg)
      ensures timedOut && Valid() ==>
                RankedAll(sortedPeers, sent) == EndByTimeout(Host(), |sortedPeers|, old(View())).1
      ensures !timedOut ==> View() == EndByAlive(old(View())) && sent == []
      ensures phase == Idle && coordinator == (if timedOut then hostID else old(coordinator))
      ensures electionChanFull == (timedOut && old(electionChanFull))
    {
      phase := Idle;
      if !timedOut {
        electionChanFull := false;
        return [];
      }
      SetCoordinator(hostID);
      sent := Send(sortedPeers, SelectMsg);
      if Valid() {
        AnnouncementReachesAll(sortedPeers, hostID);
      }
    }

    /** The listener and, for anything but Alive, the main loop handling one message. */
    method HandleMessage(m: WireMessage) returns (sent: seq<WireMessage>)
      requires m.to == hostID && CanConsume(View(), Ranked(sortedPeers, m))
      modifies this`phase, this`coordinator, this`electionChanFull
      ensures View() == Receive(Host(), old(View()), Ranked(sortedPeers, m)).0
      ensures Valid() && m.from != hostID ==>
                RankedAll(sortedPeers, sent) == Receive(Host(), old(View()), Ranked(sortedPeers, m)).1
      ensures MustAnswer(m) ==> sent != [] && sent[0] == WireMessage(AliveMsg, hostID, m.from)
      ensures MustAnswer(m) ==> forall w :: w in sent[1..] <==> IsChallenge(w)
      ensures m.kind != ElectionMsg || Rank(sortedPeers, m.from) < Host() ==> sent == []
      ensures electionChanFull <==>
                old(electionChanFull) || (m.kind == AliveMsg && Host() < Rank(sortedPeers, m.from))
      ensures phase == if MustAnswer(m) || m == WireMessage(ElectionMsg, hostID, hostID) then Electing else old(phase)
    {
      sent := [];
      match m.kind {
        case AliveMsg =>
          var higher := IsPeerIDHigher(hostID, m.from);
          if higher {
            electionChanFull := true;
          }
        case SelectMsg =>
          SetCoordinator(m.from);
        case ElectionMsg =>
          var higher := IsPeerIDHigher(m.from, hostID);
          if !higher {
            var reply := Reply(m.from);
            var challenges := BeginElection();
            sent := reply + challenges;
            RankedAllConcat(sortedPeers, reply, challenges);
          }
      }
    }

    /** The Alive answer to a challenger. */
    method Reply(to: PeerId) returns (sent: seq<WireMessage>)
      ensures to != hostID ==> sent == [WireMessage(AliveMsg, hostID, to)]
      ensures to != hostID ==> RankedAll(sortedPeers, sent) == [Alive(Host(), Rank(sortedPeers, to))]
    {
      sent := Send([to], AliveMsg);
      if to != hostID {
        AddressedToOne(hostID, to, AliveMsg);
      }
    }
  }

  lemma AnnouncementReachesAll(sorted: seq<PeerId>, host: PeerId)
    requires Distinct(sorted) && host in sorted
    ensures RankedAll(sorted, Addressed(host, sorted, SelectMsg)) == Selects(Rank(sorted, host), |sorted|)
  {
    AnnouncementReaches(sorted, sorted, host);
  }

  lemma {:induction false} AnnouncementReaches(sorted: seq<PeerId>, peers: seq<PeerId>, host: PeerId)
    requires Distinct(sorted) && host in sorted && peers <= sorted
    ensures RankedAll(sorted, Addressed(host, peers, SelectMsg)) == Selects(Rank(sorted, host), |peers|)
    decreases |peers|
  {
    if peers != [] {
      var before, p := peers[..|peers| - 1], peers[|peers| - 1];
      AnnouncementReaches(sorted, before, host);
      RankAt(sorted, |before|, host);
      if p != host {
        RankedAppend(sorted, Addressed(host, before, SelectMsg), WireMessage(SelectMsg, host, p));
      }
    }
  }

  lemma RankAt(sorted: seq<PeerId>, i: nat, host: PeerId)
    requires Distinct(sorted) && host in sorted && i < |sorted|
    ensures Rank(sorted, sorted[i]) == i && (sorted[i] == host <==> Rank(sorted, host) == i)
  {
    RankOfListed(sorted, host);
    RankIsPosition(sorted, i);
  }

  lemma RankedAppend(sorted: seq<PeerId>, ms: seq<WireMessage>, m: WireMessage)
    ensures RankedAll(sorted, ms + [m]) == RankedAll(sorted, ms) + [Ranked(sorted, m)]
  {
    assert (ms + [m])[..|ms|] == ms;
  }

  lemma {:induction false} ChallengesReachHigher(sorted: seq<PeerId>, host: PeerId, k: nat)
    requires Distinct(sorted) && host in sorted && k <= Rank(sorted, host) < |sorted|
    ensures RankedAll(sorted, Addressed(host, sorted[..k], ElectionMsg)) == Elections(Rank(sorted, host), k)
    decreases k
  {
    if k > 0 {
      ChallengesReachHigher(sorted, host, k - 1);
      RankIsPosition(sorted, k - 1);
      assert sorted[..k] == sorted[..k - 1] + [sorted[k - 1]];
      AddressedAppend(host, sorted[..k - 1], sorted[k - 1], ElectionMsg);
      var m := WireMessage(ElectionMsg, host, sorted[k - 1]);
      RankedAppend(sorted, Addressed(host, sorted[..k - 1], ElectionMsg), m);
    }
  }

  lemma {:induction false} RankedAllConcat(sorted: seq<PeerId>, a: seq<WireMessage>, b: seq<WireMessage>)
    ensures RankedAll(sorted, a + b) == RankedAll(sorted, a) + RankedAll(sorted, b)
    decreases |b|
  {
    if b == [] {
      assert a + b == a;
    } else {
      assert (a + b)[..|a + b| - 1] == a + b[..|b| - 1];
      RankedAllConcat(sorted, a, b[..|b| - 1]);
    }
  }

  lemma AddressedToOne(host: PeerId, to: PeerId, kind: Kind)
    requires host != to
    ensures Addressed(host, [to], kind) == [WireMessage(kind, host, to)]
  {
    assert [to][..0] == [];
    assert Addressed(host, [], kind) == [];
  }
}
