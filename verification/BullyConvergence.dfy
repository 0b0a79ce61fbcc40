/** Whatever the message order and the start times, the bully election settles on one coordinator. */
module BullyConvergence {
  import opened Seqs
  import opened BullySystem

  lemma InitInv(n: nat)
    ensures Inv(Init(n))
  { }

  lemma ListenKeepsInv(s: State, step: Step)
    requires Inv(s) && step.Listen? && Enabled(s, step)
    ensures Inv(Apply(s, step))
  {
    var s' := Apply(s, step);
    StepKeepsWired(s, step);
    assert s'.net == s.net;
    assert forall j: nat :: Started(s', j) <==> Started(s, j);
    forall t: nat, i: nat | Top(s', t) && Started(s', i) && i != t
      ensures Settling(s', t, i)
    {
      assert Top(s, t);
    }
    forall i: nat | i < |s.nodes| ensures SoundChoice(s', i) {
      assert SoundChoice(s, i);
    }
  }

  lemma StartKeepsInv(s: State, step: Step)
    requires Inv(s) && step.Start? && Enabled(s, step)
    ensures Inv(Apply(s, step))
  {
    var s', a := Apply(s, step), step.i;
    StepKeepsWired(s, step);
    assert forall j: nat :: Started(s', j) <==> Started(s, j) || j == a;
    forall i: nat | i < |s.nodes| ensures SoundChoice(s', i) {
      assert SoundChoice(s, i);
    }
    forall t: nat, i: nat | Top(s', t) && Started(s', i) && i != t
      ensures Settling(s', t, i)
    {
      if t != a && i != a {
        assert Top(s, t);
      } else if i == a {
        assert Elections(a, a)[t] in s'.net;
      }
    }
  }

  lemma TimeoutKeepsInv(s: State, step: Step)
    requires Inv(s) && step.Timeout? && Enabled(s, step)
    ensures Inv(Apply(s, step))
  {
    var s', a := Apply(s, step), step.i;
    StepKeepsWired(s, step);
    assert forall j: nat :: Started(s', j) <==> Started(s, j);
    forall i: nat | i < |s.nodes| ensures SoundChoice(s', i) {
      assert SoundChoice(s, i);
    }
    forall t: nat, i: nat | Top(s', t) && Started(s', i) && i != t
      ensures Settling(s', t, i)
    {
      assert Top(s, t) && Settling(s, t, i);
      if t == a {
        assert Select(a, i) in Selects(a, |s.nodes|);
      }
    }
  }

  /** Handling a Select: the top one is always taken, any other never displaces it. */
  lemma DeliverSelectKeepsInv(s: State, step: Step)
    requires Inv(s) && step.Deliver? && Enabled(s, step) && s.net[step.k].Select?
    ensures Inv(Apply(s, step))
  {
    var s', m := Apply(s, step), s.net[step.k];
    assert m in s.net;
    StepKeepsWired(s, step);
    assert forall j: nat :: Started(s', j) <==> Started(s, j);
    forall i: nat | i < |s.nodes| ensures SoundChoice(s', i) {
      assert SoundChoice(s, i);
    }
    forall t: nat, i: nat | Top(s', t) && Started(s', i) && i != t
      ensures Settling(s', t, i)
    {
      assert Top(s, t) && Settling(s, t, i) && SoundChoice(s, i);
      if Election(i, t) in s.net {
        RemoveAtKeeps(s.net, step.k, Election(i, t));
      }
      if Select(t, i) in s.net && Select(t, i) != m {
        RemoveAtKeeps(s.net, step.k, Select(t, i));
      }
    }
  }

  /** Handling an Election: the receiver enters an election and challenges everyone above it. */
  lemma DeliverElectionKeepsInv(s: State, step: Step)
    requires Inv(s) && step.Deliver? && Enabled(s, step) && s.net[step.k].Election?
    ensures Inv(Apply(s, step))
  {
    var s', m := Apply(s, step), s.net[step.k];
    assert m in s.net;
    StepKeepsWired(s, step);
    assert forall j: nat :: Started(s', j) <==> Started(s, j);
    forall i: nat | i < |s.nodes| ensures SoundChoice(s', i) {
      assert SoundChoice(s, i);
    }
    forall t: nat, i: nat | Top(s', t) && Started(s', i) && i != t
      ensures Settling(s', t, i)
    {
      assert Top(s, t) && Settling(s, t, i);
      if i == m.to {
        assert Elections(i, i)[t] in s'.net;
      } else if t != m.to {
        if Election(i, t) in s.net { RemoveAtKeeps(s.net, step.k, Election(i, t)); }
        if Select(t, i) in s.net { RemoveAtKeeps(s.net, step.k, Select(t, i)); }
      }
    }
  }

  /** An Alive changes nothing, and a message lost on a relayer that does not take part is no loss. */
  lemma VanishKeepsInv(s: State, step: Step)
    requires Inv(s) && Enabled(s, step) && AttentiveStep(s, step)
    requires step.Lose? || (step.Deliver? && s.net[step.k].Alive?)
    ensures Inv(Apply(s, step))
  {
    var s', m := Apply(s, step), s.net[step.k];
    assert m in s.net;
    StepKeepsWired(s, step);
    assert s'.nodes == s.nodes && s'.net == RemoveAt(s.net, step.k);
    assert forall j: nat :: Started(s', j) <==> Started(s, j);
    forall i: nat | i < |s.nodes| ensures SoundChoice(s', i) {
      assert SoundChoice(s, i);
    }
    forall t: nat, i: nat | Top(s', t) && Started(s', i) && i != t
      ensures Settling(s', t, i)
    {
      assert Top(s, t) && Settling(s, t, i);
      if Election(i, t) in s.net { RemoveAtKeeps(s.net, step.k, Election(i, t)); }
      if Select(t, i) in s.net { RemoveAtKeeps(s.net, step.k, Select(t, i)); }
    }
  }

  lemma StepKeepsInv(s: State, step: Step)
    requires Inv(s) && Enabled(s, step) && AttentiveStep(s, step)
    ensures Inv(Apply(s, step))
  {
    match step
    case Listen(_) => ListenKeepsInv(s, step);
    case Start(_) => StartKeepsInv(s, step);
    case Timeout(_) => TimeoutKeepsInv(s, step);
    case GiveUp(_) =>
    case Lose(_) => VanishKeepsInv(s, step);
    case Deliver(k) =>
      match s.net[k]
      case Alive(_, _) => VanishKeepsInv(s, step);
      case Select(_, _) => DeliverSelectKeepsInv(s, step);
      case Election(_, _) => DeliverElectionKeepsInv(s, step);
  }

  lemma {:induction false} RunKeepsInv(s: State, steps: seq<Step>)
    requires Inv(s) && Run(s, steps) && Attentive(s, steps)
    ensures Inv(Final(s, steps))
    decreases |steps|
  {
    if steps != [] {
      StepKeepsInv(s, steps[0]);
      RunKeepsInv(Apply(s, steps[0]), steps[1..]);
    }
  }

  /** Convergence: once nothing is in flight, every participant follows the highest-ranked one. */
  lemma Convergence(n: nat, steps: seq<Step>, t: nat, i: nat)
    requires Run(Init(n), steps) && Attentive(Init(n), steps)
    requires var s := Final(Init(n), steps); Quiescent(s) && Top(s, t) && Started(s, i)
    ensures Final(Init(n), steps).nodes[i].coordinator == t
  {
    InitInv(n);
    RunKeepsInv(Init(n), steps);
    var s := Final(Init(n), steps);
    assert SoundChoice(s, i);
    assert i != t ==> Settling(s, t, i);
  }

  /** Subscribing before the first election rules out such losses. */
  lemma {:induction false} OrderlyIsAttentive(s: State, steps: seq<Step>)
    requires Run(s, steps) && Orderly(s, steps)
    requires forall i: nat :: Started(s, i) ==> s.nodes[i].listening
    ensures Attentive(s, steps)
    decreases |steps|
  {
    if steps != [] {
      var s' := Apply(s, steps[0]);
      forall i: nat | Started(s', i) ensures s'.nodes[i].listening {
        assert i < |s.nodes| && (Started(s, i) || steps[0].Start?);
      }
      OrderlyIsAttentive(s', steps[1..]);
    }
  }

  /** A step of a relayer that is already part of the election, or of the network. */
  predicate Continues(s: State, step: Step) {
    Enabled(s, step) && !step.Listen? && (step.Start? ==> s.nodes[step.i].listening)
  }

  /** Until everything has settled some relayer can act, so no run gets stuck on the way. */
  lemma Progress(s: State)
    requires Wired(s) && !Quiescent(s)
    ensures exists step :: Continues(s, step)
  {
    if i: nat :| i < |s.nodes| && s.nodes[i].phase == Electing {
      assert Continues(s, Timeout(i));
    } else {
      assert s.net[0] in s.net;
      assert Continues(s, Deliver(0)) || Continues(s, Lose(0)) || Continues(s, Start(s.net[0].to));
    }
  }

  /** A run that cannot be continued has agreed on the highest-ranked participant. */
  lemma ExhaustedRunsAgree(n: nat, steps: seq<Step>, t: nat, i: nat)
    requires Run(Init(n), steps) && Attentive(Init(n), steps)
    requires var s := Final(Init(n), steps);
             && Top(s, t) && Started(s, i)
             && !exists step :: Continues(s, step)
    ensures Final(Init(n), steps).nodes[i].coordinator == t
  {
    RunKeepsWired(Init(n), steps);
    var s := Final(Init(n), steps);
    if !Quiescent(s) {
      Progress(s);
    }
    Convergence(n, steps, t, i);
  }
}
