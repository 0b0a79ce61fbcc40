/** Agreement on the signing subset needs a coordinator that runs this code. */
module CoordinatorTrust {
  import opened Seqs
  import opened SessionOrder
  import opened Signing
  import opened SigningAgreement

  /** Every run ends in agreement on some subset. */
  ghost predicate AlwaysAgreed(cfg: Config) {
    forall steps :: Run(cfg, Init(cfg), steps) ==>
                      exists subset :: Agreed(cfg, Final(cfg, Init(cfg), steps).stations, subset)
  }

  lemma {:induction false} RunsCompose(cfg: Config, s: State, first: seq<Step>, second: seq<Step>)
    requires Run(cfg, s, first) && Run(cfg, Final(cfg, s, first), second)
    ensures Run(cfg, s, first + second)
    ensures Final(cfg, s, first + second) == Final(cfg, Final(cfg, s, first), second)
    decreases |first|
  {
    if first == [] {
      assert first + second == second;
    } else {
      assert (first + second)[1..] == first[1..] + second;
      RunsCompose(cfg, Apply(cfg, s, first[0]), first[1..], second);
    }
  }

  /** `r` waits for a coordinator that does not run this code. */
  ghost predicate Exposed(cfg: Config, s: State, r: PeerId) {
    && r in cfg.relayers && cfg.relayers[r].coordinator !in cfg.relayers
    && r in s.stations && s.stations[r].progress == Waiting && s.net == []
  }

  function Telling(cfg: Config, r: PeerId, subset: seq<PeerId>): seq<Step>
    requires r in cfg.relayers
  {
    [Inject(Start(cfg.relayers[r].coordinator, r, subset)), Deliver(0, [])]
  }

  /** Such a coordinator can make `r` start with any subset whatsoever. */
  lemma TellAnything(cfg: Config, s: State, r: PeerId, subset: seq<PeerId>)
    requires Exposed(cfg, s, r)
    ensures Run(cfg, s, Telling(cfg, r, subset))
    ensures Final(cfg, s, Telling(cfg, r, subset)) == Move(s, r, Told(subset), [])
  {
    var steps, m := Telling(cfg, r, subset), Start(cfg.relayers[r].coordinator, r, subset);
    assert steps[1..] == [Deliver(0, [])] && [Deliver(0, [])][1..] == [];
    var s1 := Apply(cfg, s, steps[0]);
    assert s1.net == [m] && RemoveAt([m], 0) + [] == [];
    var s2 := Apply(cfg, s1, Deliver(0, []));
    assert s2 == Move(s, r, Told(subset), []);
    assert Final(cfg, s1, [Deliver(0, [])]) == s2;
  }

  lemma BeginFirst(cfg: Config, s: State, r: PeerId)
    requires r in s.stations && s.stations[r].progress.Told?
    requires s.stations[r].processes != [] && s.stations[r].processes[0].result == None
    ensures Run(cfg, s, [Begin(r, 0)])
    ensures var s', subset := Final(cfg, s, [Begin(r, 0)]), s.stations[r].progress.subset;
            && s'.net == s.net && s'.stations.Keys == s.stations.Keys
            && (forall q :: q in s.stations && q != r ==> s'.stations[q] == s.stations[q])
            && s'.stations[r].processes != []
            && s'.stations[r].processes[0] == RunOne(r, s.stations[r].processes[0], subset)
  {
    assert [Begin(r, 0)][1..] == [];
    var s' := Apply(cfg, s, Begin(r, 0));
    assert Final(cfg, s', []) == s';
  }

  /** It can make a relayer enter signing with only itself. */
  lemma EnterAlone(cfg: Config, s: State, r: PeerId) returns (steps: seq<Step>)
    requires Exposed(cfg, s, r) && s.stations[r].processes != [] && s.stations[r].processes[0].result == None
    ensures Run(cfg, s, steps)
    ensures var s' := Final(cfg, s, steps);
            && s'.net == [] && s'.stations.Keys == s.stations.Keys
            && (forall q :: q in s.stations && q != r ==> s'.stations[q] == s.stations[q])
            && s'.stations[r].processes != []
            && s'.stations[r].processes[0].result == Some(Entered) && s'.stations[r].processes[0].peers == [r]
  {
    TellAnything(cfg, s, r, [r]);
    BeginFirst(cfg, Move(s, r, Told([r]), []), r);
    RunsCompose(cfg, s, Telling(cfg, r, [r]), [Begin(r, 0)]);
    steps := Telling(cfg, r, [r]) + [Begin(r, 0)];
  }

  /** Two relayers with a coordinator that does not run this code can enter signing with different subsets. */
  lemma RogueCoordinatorDivides(cfg: Config, a: PeerId, b: PeerId) returns (steps: seq<Step>)
    requires a in cfg.relayers && b in cfg.relayers && a != b
    requires cfg.relayers[a].coordinator !in cfg.relayers && cfg.relayers[b].coordinator !in cfg.relayers
    requires cfg.relayers[a].schemes != [] && cfg.relayers[b].schemes != []
    ensures Run(cfg, Init(cfg), steps)
    ensures var stations := Final(cfg, Init(cfg), steps).stations;
            && a in stations && b in stations && stations[a].processes != [] && stations[b].processes != []
            && stations[a].processes[0].result == Some(Entered) && stations[a].processes[0].peers == [a]
            && stations[b].processes[0].result == Some(Entered) && stations[b].processes[0].peers == [b]
  {
    var s := Init(cfg);
    assert s.stations[a] == Opening(a, cfg.relayers[a]) && s.stations[b] == Opening(b, cfg.relayers[b]);
    var first := EnterAlone(cfg, s, a);
    var s1 := Final(cfg, s, first);
    var second := EnterAlone(cfg, s1, b);
    RunsCompose(cfg, s, first, second);
    steps := first + second;
  }

  /** A relayer told to start with nobody cannot be part of any agreement. */
  lemma UntrustedIsNotAgreed(cfg: Config, r: PeerId, subset: seq<PeerId>)
    requires r in cfg.relayers && cfg.relayers[r].coordinator !in cfg.relayers
    ensures Run(cfg, Init(cfg), Telling(cfg, r, []))
    ensures !Agreed(cfg, Final(cfg, Init(cfg), Telling(cfg, r, [])).stations, subset)
  {
    var s := Init(cfg);
    assert s.stations[r] == Opening(r, cfg.relayers[r]);
    TellAnything(cfg, s, r, []);
  }

  /** All runs agree exactly if the coordinators of all relayers run this code. */
  lemma AgreementIff(cfg: Config)
    requires ValidConfig(cfg)
    ensures AlwaysAgreed(cfg) <==> Coordinated(cfg)
  {
    if Coordinated(cfg) {
      forall steps | Run(cfg, Init(cfg), steps)
        ensures exists subset :: Agreed(cfg, Final(cfg, Init(cfg), steps).stations, subset)
      {
        var subset := Agreement(cfg, steps);
      }
    } else {
      var r :| r in cfg.relayers && cfg.relayers[r].coordinator !in cfg.relayers;
      var steps := Telling(cfg, r, []);
      UntrustedIsNotAgreed(cfg, r, []);
      forall subset ensures !Agreed(cfg, Final(cfg, Init(cfg), steps).stations, subset) {
        UntrustedIsNotAgreed(cfg, r, subset);
      }
    }
  }
}
