/** Every run of the bully election is finite, with at most 2^n - 1 election rounds among n relayers. */
module BullyTermination {
  import opened Seqs
  import opened BullySystem

  function Pow2(k: nat): nat {
    if k == 0 then 1 else 2 * Pow2(k - 1)
  }

  // ----- weighted totals -----

  function NodeTotal(nodes: seq<Node>, weight: (nat, Node) -> nat): nat {
    if nodes == [] then 0
    else
      var last := |nodes| - 1;
      NodeTotal(nodes[..last], weight) + weight(last, nodes[last])
  }

  lemma {:induction false} NodeTotalUpdate(nodes: seq<Node>, weight: (nat, Node) -> nat, i: nat, node: Node)
    requires i < |nodes|
    ensures NodeTotal(nodes[i := node], weight) + weight(i, nodes[i]) == NodeTotal(nodes, weight) + weight(i, node)
  {
    var last := |nodes| - 1;
    if i == last {
      assert nodes[i := node][..last] == nodes[..last];
    } else {
      assert nodes[i := node][..last] == nodes[..last][i := node];
      NodeTotalUpdate(nodes[..last], weight, i, node);
    }
  }

  function NetTotal(net: seq<Message>, weight: Message -> nat): nat {
    if net == [] then 0 else NetTotal(net[..|net| - 1], weight) + weight(net[|net| - 1])
  }

  lemma {:induction false} NetTotalConcat(a: seq<Message>, b: seq<Message>, weight: Message -> nat)
    ensures NetTotal(a + b, weight) == NetTotal(a, weight) + NetTotal(b, weight)
    decreases |b|
  {
    if b == [] {
      assert a + b == a;
    } else {
      assert (a + b)[..|a + b| - 1] == a + b[..|b| - 1];
      NetTotalConcat(a, b[..|b| - 1], weight);
    }
  }

  lemma {:induction false} NetTotalRemove(net: seq<Message>, weight: Message -> nat, k: nat)
    requires k < |net|
    ensures NetTotal(RemoveAt(net, k), weight) + weight(net[k]) == NetTotal(net, weight)
  {
    var last := |net| - 1;
    if k == last {
      assert RemoveAt(net, k) == net[..last];
    } else {
      assert RemoveAt(net, k)[..last - 1] == RemoveAt(net[..last], k);
      NetTotalRemove(net[..last], weight, k);
    }
  }

  // ----- the election potential -----

  /** An election at rank i may set off one at each higher rank, and those in turn: 2^i rounds in all. */
  function StartWeight(i: nat, node: Node): nat {
    if node.phase == NotStarted then Pow2(i) else 0
  }

  function ChallengeWeight(m: Message): nat {
    if m.Election? then Pow2(m.to) else 0
  }

  function ElectingWeight(i: nat, node: Node): nat {
    if node.phase == Electing then 1 else 0
  }

  function DeafWeight(i: nat, node: Node): nat {
    if node.listening then 0 else 1
  }

  function Potential(s: State): nat {
    NodeTotal(s.nodes, StartWeight) + NetTotal(s.net, ChallengeWeight)
  }

  function ElectingCount(s: State): nat {
    NodeTotal(s.nodes, ElectingWeight)
  }

  /** Whether a step enters an election. */
  predicate BeginsRound(s: State, step: Step)
    requires Enabled(s, step)
  {
    step.Start? || (step.Deliver? && s.net[step.k].Election? && s.net[step.k].to <= s.net[step.k].from)
  }

  function Rounds(s: State, steps: seq<Step>): nat
    requires Run(s, steps)
    decreases |steps|
  {
    if steps == [] then 0
    else (if BeginsRound(s, steps[0]) then 1 else 0) + Rounds(Apply(s, steps[0]), steps[1..])
  }

  function SelfSelections(steps: seq<Step>): nat {
    if steps == [] then 0 else (if steps[0].Timeout? then 1 else 0) + SelfSelections(steps[1..])
  }

  lemma {:induction false} ElectionsWeigh(host: nat, k: nat)
    ensures NetTotal(Elections(host, k), ChallengeWeight) == Pow2(k) - 1
    decreases k
  {
    if k > 0 {
      ElectionsWeigh(host, k - 1);
      assert Elections(host, k)[..k - 1] == Elections(host, k - 1);
    }
  }

  lemma {:induction false} WeightlessNet(net: seq<Message>)
    requires forall m :: m in net ==> !m.Election?
    ensures NetTotal(net, ChallengeWeight) == 0
  {
    if net != [] {
      WeightlessNet(net[..|net| - 1]);
    }
  }

  /** Entering an election spends 2^i and creates challenges worth 2^i - 1. */
  lemma RoundSpendsOne(s: State, step: Step)
    requires Wired(s) && Enabled(s, step) && BeginsRound(s, step)
    ensures Potential(Apply(s, step)) + 1 == Potential(s)
    ensures ElectingCount(Apply(s, step)) == ElectingCount(s) + 1
  {
    var s' := Apply(s, step);
    if step.Start? {
      var i := step.i;
      var node := s'.nodes[i];
      NodeTotalUpdate(s.nodes, StartWeight, i, node);
      NodeTotalUpdate(s.nodes, ElectingWeight, i, node);
      NetTotalConcat(s.net, Elections(i, i), ChallengeWeight);
      ElectionsWeigh(i, i);
    } else {
      var m := s.net[step.k];
      var i, rest := m.to, RemoveAt(s.net, step.k);
      var node := s'.nodes[i];
      NodeTotalUpdate(s.nodes, StartWeight, i, node);
      NodeTotalUpdate(s.nodes, ElectingWeight, i, node);
      NetTotalRemove(s.net, ChallengeWeight, step.k);
      var reply := [Alive(i, m.from)];
      NetTotalConcat(rest, reply + Elections(i, i), ChallengeWeight);
      NetTotalConcat(reply, Elections(i, i), ChallengeWeight);
      WeightlessNet(reply);
      ElectionsWeigh(i, i);
    }
  }

  lemma OtherStepsSpendNothing(s: State, step: Step)
    requires Wired(s) && Enabled(s, step) && !BeginsRound(s, step)
    ensures Potential(Apply(s, step)) <= Potential(s)
    ensures !step.Lose? ==> Potential(Apply(s, step)) == Potential(s)
    ensures ElectingCount(s) == ElectingCount(Apply(s, step)) + if step.Timeout? then 1 else 0
  {
    var s' := Apply(s, step);
    match step {
      case Listen(i) =>
        assert s'.net == s.net;
        NodeTotalUpdate(s.nodes, StartWeight, i, s'.nodes[i]);
        NodeTotalUpdate(s.nodes, ElectingWeight, i, s'.nodes[i]);
      case Timeout(i) =>
        NodeTotalUpdate(s.nodes, StartWeight, i, s'.nodes[i]);
        NodeTotalUpdate(s.nodes, ElectingWeight, i, s'.nodes[i]);
        NetTotalConcat(s.net, Selects(i, |s.nodes|), ChallengeWeight);
        WeightlessNet(Selects(i, |s.nodes|));
      case GiveUp(i) =>
      case Lose(k) =>
        NetTotalRemove(s.net, ChallengeWeight, k);
      case Deliver(k) =>
        var i := s.net[k].to;
        assert s.net[k] in s.net;
        NetTotalRemove(s.net, ChallengeWeight, k);
        assert s'.net == RemoveAt(s.net, k);
        NodeTotalUpdate(s.nodes, StartWeight, i, s'.nodes[i]);
        NodeTotalUpdate(s.nodes, ElectingWeight, i, s'.nodes[i]);
    }
  }

  function Weigh(n: nat, potential: nat, electing: nat, deaf: nat, inFlight: nat): nat {
    (2 * n + 1) * potential + n * electing + deaf + inFlight
  }

  /** A number that every step lowers. */
  function Measure(s: State): nat {
    Weigh(|s.nodes|, Potential(s), ElectingCount(s), NodeTotal(s.nodes, DeafWeight), |s.net|)
  }

  lemma WeighRound(n: nat, potential: nat, electing: nat, deaf: nat, inFlight: nat, inFlight': nat)
    requires potential > 0 && inFlight' <= inFlight + n
    ensures Weigh(n, potential - 1, electing + 1, deaf, inFlight') < Weigh(n, potential, electing, deaf, inFlight)
  {
    assert (2 * n + 1) * potential == (2 * n + 1) * (potential - 1) + (2 * n + 1);
    assert n * (electing + 1) == n * electing + n;
  }

  lemma WeighOther(n: nat, potential: nat, potential': nat, electing: nat, electing': nat,
                   deaf: nat, deaf': nat, inFlight: nat, inFlight': nat)
    requires potential' <= potential && electing' <= electing && deaf' <= deaf
    requires if electing' < electing then inFlight' < inFlight + n
             else deaf' + inFlight' < deaf + inFlight
    ensures Weigh(n, potential', electing', deaf', inFlight') < Weigh(n, potential, electing, deaf, inFlight)
  {
    MulMonotone(2 * n + 1, potential', potential);
    if electing' < electing {
      MulMonotone(n, electing' + 1, electing);
      assert n * (electing' + 1) == n * electing' + n;
    }
  }

  lemma MulMonotone(k: nat, a: nat, b: nat)
    requires a <= b
    ensures k * a <= k * b
  { }

  /** How much the bag grows. */
  lemma NetGrowth(s: State, step: Step)
    requires Wired(s) && Enabled(s, step)
    ensures var grown, n := |Apply(s, step).net| - |s.net|, |s.nodes|;
            if BeginsRound(s, step) || step.Timeout? then grown <= n - 1
            else if step.Listen? then grown == 0
            else grown <= if step.GiveUp? then 0 else -1
  {
    if step.Deliver? || step.Lose? {
      assert s.net[step.k] in s.net;
    }
  }

  lemma StepLowersMeasure(s: State, step: Step)
    requires Wired(s) && Enabled(s, step)
    ensures Measure(Apply(s, step)) < Measure(s)
  {
    var s', n := Apply(s, step), |s.nodes|;
    var deaf, deaf' := NodeTotal(s.nodes, DeafWeight), NodeTotal(s'.nodes, DeafWeight);
    StepKeepsWired(s, step);
    DeafOnlyListens(s, step);
    NetGrowth(s, step);
    if BeginsRound(s, step) {
      RoundSpendsOne(s, step);
      WeighRound(n, Potential(s), ElectingCount(s), deaf, |s.net|, |s'.net|);
    } else {
      OtherStepsSpendNothing(s, step);
      WeighOther(n, Potential(s), Potential(s'), ElectingCount(s), ElectingCount(s'), deaf, deaf', |s.net|, |s'.net|);
    }
  }

  lemma DeafOnlyListens(s: State, step: Step)
    requires Wired(s) && Enabled(s, step)
    ensures var deaf, deaf' := NodeTotal(s.nodes, DeafWeight), NodeTotal(Apply(s, step).nodes, DeafWeight);
            deaf == deaf' + if step.Listen? then 1 else 0
  {
    if !step.Lose? {
      var i := if step.Deliver? then s.net[step.k].to else step.i;
      NodeTotalUpdate(s.nodes, DeafWeight, i, Apply(s, step).nodes[i]);
    }
  }

  lemma {:induction false} InitTotals(n: nat)
    ensures Potential(Init(n)) == Pow2(n) - 1
    ensures ElectingCount(Init(n)) == 0
    ensures NodeTotal(Init(n).nodes, DeafWeight) == n
  {
    if n > 0 {
      InitTotals(n - 1);
      assert Init(n).nodes[..n - 1] == Init(n - 1).nodes;
    }
  }

  lemma InitMeasure(n: nat)
    ensures Measure(Init(n)) == (2 * n + 1) * (Pow2(n) - 1) + n
  {
    InitTotals(n);
  }

  lemma {:induction false} RunAccounts(s: State, steps: seq<Step>)
    requires Wired(s) && Run(s, steps)
    ensures Rounds(s, steps) + Potential(Final(s, steps)) <= Potential(s)
    ensures ElectingCount(s) + Rounds(s, steps) == SelfSelections(steps) + ElectingCount(Final(s, steps))
    ensures |steps| + Measure(Final(s, steps)) <= Measure(s)
    decreases |steps|
  {
    if steps != [] {
      var s' := Apply(s, steps[0]);
      StepKeepsWired(s, steps[0]);
      StepLowersMeasure(s, steps[0]);
      if BeginsRound(s, steps[0]) {
        RoundSpendsOne(s, steps[0]);
      } else {
        OtherStepsSpendNothing(s, steps[0]);
      }
      RunAccounts(s', steps[1..]);
    }
  }

  /** At most 2^n - 1 rounds, a bound on the length of every run, and every round ends in self-selection. */
  lemma Termination(n: nat, steps: seq<Step>)
    requires Run(Init(n), steps)
    ensures Rounds(Init(n), steps) <= Pow2(n) - 1
    ensures |steps| <= (2 * n + 1) * (Pow2(n) - 1) + n
    ensures Quiescent(Final(Init(n), steps)) ==> SelfSelections(steps) == Rounds(Init(n), steps)
  {
    InitTotals(n);
    InitMeasure(n);
    RunAccounts(Init(n), steps);
    if Quiescent(Final(Init(n), steps)) {
      NobodyElecting(Final(Init(n), steps).nodes);
    }
  }

  lemma {:induction false} NobodyElecting(nodes: seq<Node>)
    requires forall i :: 0 <= i < |nodes| ==> nodes[i].phase != Electing
    ensures NodeTotal(nodes, ElectingWeight) == 0
  {
    if nodes != [] {
      NobodyElecting(nodes[..|nodes| - 1]);
    }
  }

  /** The comparison on Alive messages never lets an election end early, in any run. */
  lemma NoEarlyExit(n: nat, steps: seq<Step>, step: Step)
    requires Run(Init(n), steps) && Enabled(Final(Init(n), steps), step)
    ensures !step.GiveUp?
    ensures step.Deliver? && Final(Init(n), steps).net[step.k].Alive? ==>
              Apply(Final(Init(n), steps), step).nodes == Final(Init(n), steps).nodes
  {
    RunKeepsWired(Init(n), steps);
    var s := Final(Init(n), steps);
    if step.Deliver? {
      assert s.net[step.k] in s.net;
    }
  }

  // ----- the bound is reached -----

  /** Every relayer is either untouched or idle and listening. */
  ghost predicate Settled(s: State) {
    forall i :: 0 <= i < |s.nodes| ==>
      (s.nodes[i].phase == NotStarted && !s.nodes[i].listening) || (s.nodes[i].phase == Idle && s.nodes[i].listening)
  }

  lemma {:induction false} NothingLeft(nodes: seq<Node>)
    requires forall i :: 0 <= i < |nodes| ==> nodes[i].phase != NotStarted
    ensures NodeTotal(nodes, StartWeight) == 0
  {
    if nodes != [] {
      NothingLeft(nodes[..|nodes| - 1]);
    }
  }

  /** A newcomer that has subscribed spends one round by challenging and then selecting itself. */
  lemma FirstRound(s: State, i: nat)
    requires Wired(s) && i < |s.nodes| && s.nodes[i].phase == NotStarted
    ensures var s' := Apply(Apply(s, Start(i)), Timeout(i));
            Wired(s') && Potential(s') + 1 == Potential(s)
  {
    var s1 := Apply(s, Start(i));
    StepKeepsWired(s, Start(i));
    RoundSpendsOne(s, Start(i));
    StepKeepsWired(s1, Timeout(i));
    OtherStepsSpendNothing(s1, Timeout(i));
  }

  /** So does a listening relayer that a challenge reaches. */
  lemma FurtherRound(s: State, k: nat)
    requires Wired(s) && k < |s.net| && s.net[k].Election? && s.net[k].to < s.net[k].from < |s.nodes|
    requires s.nodes[s.net[k].to].phase == Idle && s.nodes[s.net[k].to].listening
    ensures var s' := Apply(Apply(s, Deliver(k)), Timeout(s.net[k].to));
            Wired(s') && Potential(s') + 1 == Potential(s)
  {
    assert s.net[k] in s.net;
    var s1 := Apply(s, Deliver(k));
    StepKeepsWired(s, Deliver(k));
    RoundSpendsOne(s, Deliver(k));
    StepKeepsWired(s1, Timeout(s.net[k].to));
    OtherStepsSpendNothing(s1, Timeout(s.net[k].to));
  }

  lemma FirstStep(s: State, step: Step, rest: seq<Step>)
    requires Enabled(s, step) && Run(Apply(s, step), rest)
    ensures Run(s, [step] + rest)
    ensures Rounds(s, [step] + rest) == (if BeginsRound(s, step) then 1 else 0) + Rounds(Apply(s, step), rest)
  {
    assert ([step] + rest)[1..] == rest;
  }

  /** From a settled state some run spends the whole potential. */
  lemma {:induction false} WorstRun(s: State) returns (steps: seq<Step>)
    requires Wired(s) && Settled(s)
    ensures Run(s, steps) && Rounds(s, steps) == Potential(s)
    decreases Potential(s)
  {
    if i: nat :| i < |s.nodes| && s.nodes[i].phase == NotStarted {
      steps := WorstRunOfNewcomer(s, i);
    } else if k: nat :| k < |s.net| && s.net[k].Election? {
      assert s.net[k] in s.net;
      FurtherRound(s, k);
      var s1 := Apply(s, Deliver(k));
      steps := WorstRun(Apply(s1, Timeout(s.net[k].to)));
      FirstStep(s1, Timeout(s.net[k].to), steps);
      steps := [Timeout(s.net[k].to)] + steps;
      FirstStep(s, Deliver(k), steps);
      steps := [Deliver(k)] + steps;
    } else {
      NothingLeft(s.nodes);
      WeightlessNet(s.net);
      steps := [];
    }
  }

  lemma {:induction false} WorstRunOfNewcomer(s: State, i: nat) returns (steps: seq<Step>)
    requires Wired(s) && Settled(s) && i < |s.nodes| && s.nodes[i].phase == NotStarted
    ensures Run(s, steps) && Rounds(s, steps) == Potential(s)
    decreases Potential(s), 0
  {
    var s1 := Apply(s, Listen(i));
    StepKeepsWired(s, Listen(i));
    OtherStepsSpendNothing(s, Listen(i));
    FirstRound(s1, i);
    var s2 := Apply(s1, Start(i));
    steps := WorstRun(Apply(s2, Timeout(i)));
    FirstStep(s2, Timeout(i), steps);
    steps := [Timeout(i)] + steps;
    FirstStep(s1, Start(i), steps);
    steps := [Start(i)] + steps;
    FirstStep(s, Listen(i), steps);
    steps := [Listen(i)] + steps;
  }

  /** For every number of relayers there is a run with exactly 2^n - 1 election rounds. */
  lemma BoundIsReached(n: nat) returns (steps: seq<Step>)
    ensures Run(Init(n), steps) && Rounds(Init(n), steps) == Pow2(n) - 1
  {
    InitTotals(n);
    steps := WorstRun(Init(n));
  }
}
