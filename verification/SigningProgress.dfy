/** The first signing round can succeed: every relayer can be brought to start with one subset. */
module SigningProgress {
  import opened Seqs
  import opened Sorting
  import opened SessionOrder
  import opened Signing
  import opened SigningAgreement

  ghost predicate Leads(cfg: Config, s: State, steps: seq<Step>, s': State) {
    Run(cfg, s, steps) && Final(cfg, s, steps) == s'
  }

  lemma {:induction false} LeadsNext(cfg: Config, s: State, steps: seq<Step>, s': State, step: Step)
    requires Leads(cfg, s, steps, s') && Enabled(cfg, s', step)
    ensures Leads(cfg, s, steps + [step], Apply(cfg, s', step))
    decreases |steps|
  {
    if steps == [] {
      assert [] + [step] == [step] && [step][1..] == [];
      assert Final(cfg, Apply(cfg, s', step), []) == Apply(cfg, s', step);
    } else {
      assert (steps + [step])[1..] == steps[1..] + [step];
      LeadsNext(cfg, Apply(cfg, s, steps[0]), steps[1..], s', step);
    }
  }

  ghost predicate At(cfg: Config, s: State, r: PeerId, progress: Progress) {
    r in cfg.relayers && r in s.stations && s.stations[r].progress == progress
  }

  // ----- what one message does -----

  /** A waiting relayer answers an Initiate of its coordinator with a Ready. */
  lemma InitiateIsAnswered(cfg: Config, s: State, r: PeerId) returns (k: nat)
    requires At(cfg, s, r, Waiting) && Initiate(cfg.relayers[r].coordinator, r) in s.net
    ensures Enabled(cfg, s, Deliver(k, []))
    ensures var s' := Apply(cfg, s, Deliver(k, []));
            && s'.stations == s.stations && Ready(r, cfg.relayers[r].coordinator) in s'.net
            && forall m :: m in s.net && m != Initiate(cfg.relayers[r].coordinator, r) ==> m in s'.net
  {
    var m := Initiate(cfg.relayers[r].coordinator, r);
    k :| 0 <= k < |s.net| && s.net[k] == m;
    var s' := Apply(cfg, s, Deliver(k, []));
    assert s'.net == RemoveAt(s.net, k) + [Ready(r, cfg.relayers[r].coordinator)];
    assert s'.stations == s.stations;
    forall x | x in s.net && x != m ensures x in s'.net {
      RemoveAtKeeps(s.net, k, x);
    }
  }

  /** A waiting relayer told to start by its coordinator starts with exactly the subset it is sent. */
  lemma StartIsFollowed(cfg: Config, s: State, r: PeerId, subset: seq<PeerId>) returns (k: nat)
    requires At(cfg, s, r, Waiting) && Start(cfg.relayers[r].coordinator, r, subset) in s.net
    ensures Enabled(cfg, s, Deliver(k, []))
    ensures var s' := Apply(cfg, s, Deliver(k, []));
            && s'.stations == s.stations[r := s.stations[r].(progress := Told(subset))]
            && forall m :: m in s.net && m != Start(cfg.relayers[r].coordinator, r, subset) ==> m in s'.net
  {
    var m := Start(cfg.relayers[r].coordinator, r, subset);
    k :| 0 <= k < |s.net| && s.net[k] == m;
    var s' := Apply(cfg, s, Deliver(k, []));
    assert s'.net == RemoveAt(s.net, k) + [];
    forall x | x in s.net && x != m ensures x in s'.net {
      RemoveAtKeeps(s.net, k, x);
    }
  }

  /**
   A coordinator that hears of a new holder lists it; if that makes threshold + 1 it starts with a subset
   and announces that same subset to every other peer.
   */
  lemma ReadyIsCounted(cfg: Config, s: State, c: PeerId, r: PeerId, ready: seq<PeerId>, sorted: seq<PeerId>)
    returns (k: nat)
    requires At(cfg, s, c, Initiating(ready)) && Ready(r, c) in s.net && r !in ready
    requires Completes(cfg, ready + [r], c) ==>
               IsStartSubset(sorted, Intersection(ready + [r], cfg.relayers[c].keyPeers), cfg.threshold, cfg.key)
    ensures Enabled(cfg, s, Deliver(k, sorted))
    ensures var s' := Apply(cfg, s, Deliver(k, sorted));
            && s'.stations == s.stations[c := s.stations[c].(
                 progress := if Completes(cfg, ready + [r], c) then Told(sorted) else Initiating(ready + [r]))]
            && (forall m :: m in s.net && m != Ready(r, c) ==> m in s'.net)
            && (Completes(cfg, ready + [r], c) ==>
                forall p :: p in cfg.peers && p != c ==> Start(c, p, sorted) in s'.net)
  {
    var m := Ready(r, c);
    k :| 0 <= k < |s.net| && s.net[k] == m;
    assert NextReady(ready, r, []) == ready + [r];
    var s' := Apply(cfg, s, Deliver(k, sorted));
    assert s'.net ==
           RemoveAt(s.net, k) + (if Completes(cfg, ready + [r], c) then Announce(c, cfg.peers, sorted) else []);
    forall x | x in s.net && x != m ensures x in s'.net {
      RemoveAtKeeps(s.net, k, x);
    }
  }

  // ----- collecting a quorum -----

  lemma {:induction false} AllListed(s: seq<PeerId>, members: seq<PeerId>)
    requires forall p :: p in s ==> p in members
    ensures Intersection(s, members) == s
  {
    if s != [] {
      var front, last := s[..|s| - 1], s[|s| - 1];
      assert s == front + [last];
      AllListed(front, members);
    }
  }

  /** A subset for holders that are ready, as the coordinator computes it. */
  lemma SubsetExists(cfg: Config, holders: seq<PeerId>) returns (subset: seq<PeerId>)
    ensures IsStartSubset(subset, holders, cfg.threshold, cfg.key)
  {
    var sorted := SortExists(holders, Before(cfg.key));
    subset := Cut(sorted, cfg.threshold + 1);
  }

  ghost predicate OthersWait(cfg: Config, c: PeerId, s: State) {
    forall r :: r in cfg.relayers && r != c ==> At(cfg, s, r, Waiting)
  }

  /** The coordinator has listed itself and the first `j` holders; everybody else waits, invited if still needed. */
  ghost predicate Collected(cfg: Config, c: PeerId, hs: seq<PeerId>, j: int, s: State) {
    && 0 <= j <= |hs| && s.stations.Keys == cfg.relayers.Keys && At(cfg, s, c, Initiating([c] + hs[..j]))
    && OthersWait(cfg, c, s)
    && (forall i :: j <= i < |hs| ==> Initiate(c, hs[i]) in s.net)
  }

  /** The coordinator has started with the subset; everybody else has too, or is about to be told. */
  ghost predicate Announced(cfg: Config, c: PeerId, subset: seq<PeerId>, s: State) {
    && s.stations.Keys == cfg.relayers.Keys && At(cfg, s, c, Told(subset))
    && (forall r :: r in cfg.relayers && r != c ==>
          At(cfg, s, r, Told(subset)) || (At(cfg, s, r, Waiting) && Start(c, r, subset) in s.net))
  }

  /** Enough holders besides the coordinator, all of them running this code. */
  ghost predicate Volunteers(cfg: Config, c: PeerId, hs: seq<PeerId>) {
    && Distinct([c] + hs) && |hs| == cfg.threshold && c in cfg.relayers
    && (forall p :: p in [c] + hs ==> p in cfg.relayers && p in cfg.relayers[c].keyPeers)
    && (forall r :: r in cfg.relayers ==> cfg.relayers[r].coordinator == c && r in cfg.peers)
  }

  lemma QuorumCounts(cfg: Config, c: PeerId, hs: seq<PeerId>, j: int)
    requires Volunteers(cfg, c, hs) && 0 <= j <= |hs|
    ensures Intersection([c] + hs[..j], cfg.relayers[c].keyPeers) == [c] + hs[..j]
    ensures Completes(cfg, [c] + hs[..j], c) <==> j == cfg.threshold
  {
    AllListed([c] + hs[..j], cfg.relayers[c].keyPeers);
  }

  lemma NextIsNew(c: PeerId, hs: seq<PeerId>, j: int)
    requires Distinct([c] + hs) && 0 <= j < |hs|
    ensures hs[j] != c && hs[j] !in [c] + hs[..j] && [c] + hs[..j] + [hs[j]] == [c] + hs[..j + 1]
    ensures hs[j] in [c] + hs && forall i :: j < i < |hs| ==> hs[i] != hs[j]
  {
    var all := [c] + hs;
    assert all[j + 1] == hs[j] && all[0] == c;
    assert forall i :: 0 <= i < |[c] + hs[..j]| ==> ([c] + hs[..j])[i] == all[i];
    forall i | j < i < |hs| ensures hs[i] != hs[j] {
      assert all[i + 1] == hs[i];
    }
  }

  /** The next holder answers the invitation. */
  lemma AskOne(cfg: Config, c: PeerId, hs: seq<PeerId>, j: int, s: State) returns (step: Step, s': State)
    requires Volunteers(cfg, c, hs) && Collected(cfg, c, hs, j, s) && j < |hs|
    ensures Enabled(cfg, s, step) && s' == Apply(cfg, s, step)
    ensures s'.stations == s.stations && Ready(hs[j], c) in s'.net
    ensures forall i :: j < i < |hs| ==> Initiate(c, hs[i]) in s'.net
  {
    NextIsNew(c, hs, j);
    var k := InitiateIsAnswered(cfg, s, hs[j]);
    step, s' := Deliver(k, []), Apply(cfg, s, Deliver(k, []));
  }

  /** Only the coordinator has moved. */
  lemma StillWaiting(cfg: Config, c: PeerId, s: State, s': State, progress: Progress)
    requires c in cfg.relayers && c in s.stations && OthersWait(cfg, c, s) && s.stations.Keys == cfg.relayers.Keys
    requires s'.stations == s.stations[c := s.stations[c].(progress := progress)]
    ensures OthersWait(cfg, c, s') && s'.stations.Keys == cfg.relayers.Keys && At(cfg, s', c, progress)
  {
    forall r | r in cfg.relayers && r != c ensures At(cfg, s', r, Waiting) {
      assert At(cfg, s, r, Waiting);
    }
  }

  /** The coordinator counts the answer. */
  lemma CountOne(cfg: Config, c: PeerId, hs: seq<PeerId>, j: int, s: State)
    returns (step: Step, s': State, subset: seq<PeerId>)
    requires Volunteers(cfg, c, hs) && 0 <= j < |hs| && s.stations.Keys == cfg.relayers.Keys
    requires At(cfg, s, c, Initiating([c] + hs[..j])) && OthersWait(cfg, c, s)
    requires Ready(hs[j], c) in s.net && forall i :: j < i < |hs| ==> Initiate(c, hs[i]) in s.net
    ensures Enabled(cfg, s, step) && s' == Apply(cfg, s, step)
    ensures if j + 1 < |hs| then Collected(cfg, c, hs, j + 1, s') else Announced(cfg, c, subset, s')
  {
    NextIsNew(c, hs, j);
    QuorumCounts(cfg, c, hs, j + 1);
    subset := SubsetExists(cfg, [c] + hs[..j + 1]);
    var k := ReadyIsCounted(cfg, s, c, hs[j], [c] + hs[..j], subset);
    step, s' := Deliver(k, subset), Apply(cfg, s, Deliver(k, subset));
    StillWaiting(cfg, c, s, s', if j + 1 == |hs| then Told(subset) else Initiating([c] + hs[..j + 1]));
  }

  lemma {:induction false} AskAll(cfg: Config, c: PeerId, hs: seq<PeerId>, j: int,
                                  s0: State, first: seq<Step>, s: State)
    returns (steps: seq<Step>, s': State, subset: seq<PeerId>)
    requires Volunteers(cfg, c, hs) && Collected(cfg, c, hs, j, s) && j < |hs| && Leads(cfg, s0, first, s)
    ensures Leads(cfg, s0, steps, s') && Announced(cfg, c, subset, s')
    decreases |hs| - j
  {
    var ask, s1 := AskOne(cfg, c, hs, j, s);
    LeadsNext(cfg, s0, first, s, ask);
    var count, s2;
    count, s2, subset := CountOne(cfg, c, hs, j, s1);
    LeadsNext(cfg, s0, first + [ask], s1, count);
    steps, s' := first + [ask] + [count], s2;
    if j + 1 < |hs| {
      steps, s', subset := AskAll(cfg, c, hs, j + 1, s0, steps, s2);
    }
  }

  // ----- telling everybody -----

  ghost function WaitingOnes(cfg: Config, s: State): set<PeerId> {
    set r | r in cfg.relayers && r in s.stations && s.stations[r].progress.Waiting?
  }

  lemma {:induction false} TellAll(cfg: Config, c: PeerId, subset: seq<PeerId>, s0: State, first: seq<Step>, s: State)
    returns (steps: seq<Step>, s': State)
    requires Announced(cfg, c, subset, s) && Leads(cfg, s0, first, s)
    requires forall r :: r in cfg.relayers ==> cfg.relayers[r].coordinator == c
    ensures Leads(cfg, s0, steps, s') && forall r :: r in cfg.relayers ==> At(cfg, s', r, Told(subset))
    decreases |WaitingOnes(cfg, s)|
  {
    if r :| r in WaitingOnes(cfg, s) {
      var step, s1 := TellOne(cfg, c, subset, s, r);
      LeadsNext(cfg, s0, first, s, step);
      assert WaitingOnes(cfg, s1) == WaitingOnes(cfg, s) - {r};
      steps, s' := TellAll(cfg, c, subset, s0, first + [step], s1);
    } else {
      steps, s' := first, s;
      forall r | r in cfg.relayers ensures At(cfg, s', r, Told(subset)) {
        assert r !in WaitingOnes(cfg, s);
      }
    }
  }

  lemma TellOne(cfg: Config, c: PeerId, subset: seq<PeerId>, s: State, r: PeerId) returns (step: Step, s': State)
    requires Announced(cfg, c, subset, s) && r in WaitingOnes(cfg, s)
    requires forall q :: q in cfg.relayers ==> cfg.relayers[q].coordinator == c
    ensures Enabled(cfg, s, step) && s' == Apply(cfg, s, step) && Announced(cfg, c, subset, s')
    ensures s'.stations == s.stations[r := s.stations[r].(progress := Told(subset))]
  {
    assert r != c;
    var k := StartIsFollowed(cfg, s, r, subset);
    step, s' := Deliver(k, []), Apply(cfg, s, Deliver(k, []));
    forall q | q in cfg.relayers && q != c
      ensures At(cfg, s', q, Told(subset)) || (At(cfg, s', q, Waiting) && Start(c, q, subset) in s'.net)
    {
      if q != r && At(cfg, s, q, Waiting) {
        assert Start(c, q, subset) in s.net;
      }
    }
  }

  // ----- the whole round -----

  lemma {:induction false} Choose(holders: set<PeerId>, n: nat) returns (hs: seq<PeerId>)
    requires n <= |holders|
    ensures |hs| == n && Distinct(hs) && forall p :: p in hs ==> p in holders
  {
    hs := [];
    if n > 0 {
      var p :| p in holders;
      hs := Choose(holders - {p}, n - 1);
      hs := hs + [p];
    }
  }

  /** The round begins: the coordinator lists itself and invites everybody. */
  lemma Opened(cfg: Config, c: PeerId, hs: seq<PeerId>) returns (s: State)
    requires Volunteers(cfg, c, hs)
    ensures Leads(cfg, Init(cfg), [Tick(c)], s) && Collected(cfg, c, hs, 0, s)
  {
    var s0 := Init(cfg);
    forall r | r in cfg.relayers ensures s0.stations[r] == Opening(r, cfg.relayers[r]) { }
    s := Apply(cfg, s0, Tick(c));
    assert Leads(cfg, s0, [], s0);
    LeadsNext(cfg, s0, [], s0, Tick(c));
    assert [] + [Tick(c)] == [Tick(c)] && hs[..0] == [] && [c] + [] == [c];
    forall i | 0 <= i < |hs| ensures Initiate(c, hs[i]) in s.net {
      NextIsNew(c, hs, i);
      assert hs[i] in cfg.peers;
    }
  }

  /** The share holders that run this code. */
  ghost function Honest(cfg: Config): set<PeerId> {
    set p | p in cfg.holders && p in cfg.relayers
  }

  /**
   With a threshold of at least 1, more honest holders than the threshold, and everybody among the known
   peers, there is a run after which every relayer has started with one and the same subset.
   */
  lemma EverybodyCanStart(cfg: Config, c: PeerId) returns (steps: seq<Step>, subset: seq<PeerId>)
    requires ValidConfig(cfg) && Coordinated(cfg) && cfg.threshold >= 1 && |Honest(cfg)| > cfg.threshold
    requires c in cfg.relayers && cfg.relayers[c].coordinator == c && forall r :: r in cfg.relayers ==> r in cfg.peers
    ensures Run(cfg, Init(cfg), steps)
    ensures forall r :: r in cfg.relayers ==> At(cfg, Final(cfg, Init(cfg), steps), r, Told(subset))
    ensures MaySign(cfg, c, subset)
  {
    var hs := Enough(cfg, c);
    SameCoordinator(cfg, c, c);
    var s1 := Opened(cfg, c, hs);
    var first, s2;
    first, s2, subset := AskAll(cfg, c, hs, 0, Init(cfg), [Tick(c)], s1);
    var s3;
    steps, s3 := TellAll(cfg, c, subset, Init(cfg), first, s2);
    var agreed := Agreement(cfg, steps);
    assert At(cfg, s3, c, Told(subset));
    assert Follows(c, s3.stations[c], agreed);
  }

  lemma Enough(cfg: Config, c: PeerId) returns (hs: seq<PeerId>)
    requires ValidConfig(cfg) && |Honest(cfg)| > cfg.threshold && c in cfg.relayers && cfg.relayers[c].coordinator == c
    requires forall r :: r in cfg.relayers ==> r in cfg.peers
    ensures Volunteers(cfg, c, hs)
  {
    SameCoordinator(cfg, c, c);
    assert Consistent(cfg, cfg.relayers[c]);
    assert c in ToSet(cfg.relayers[c].keyPeers);
    hs := Choose(Honest(cfg) - {c}, cfg.threshold);
    forall p | p in [c] + hs ensures p in cfg.relayers && p in cfg.relayers[c].keyPeers {
      assert p == c || p in Honest(cfg);
      assert p in ToSet(cfg.relayers[c].keyPeers);
    }
  }
}
