/** Which relayers may start their first election before subscribing: for more than one relayer, none. */
module BullyDiscipline {
  import opened BullySystem
  import opened BullyConvergence

  /** Only the relayers in `early` start their first election without having subscribed. */
  ghost predicate OnlyEarly(s: State, steps: seq<Step>, early: set<nat>)
    requires Run(s, steps)
    decreases |steps|
  {
    steps != [] ==>
      && (steps[0].Start? && steps[0].i !in early ==> s.nodes[steps[0].i].listening)
      && OnlyEarly(Apply(s, steps[0]), steps[1..], early)
  }

  /** All participants follow the highest-ranked one. */
  ghost predicate Agrees(s: State) {
    forall t: nat, i: nat :: Top(s, t) && Started(s, i) ==> s.nodes[i].coordinator == t
  }

  /** Only relayers that take no part yet can still act. */
  ghost predicate Over(s: State) {
    forall step :: Enabled(s, step) ==> (step.Listen? || step.Start?) && !Started(s, step.i)
  }

  lemma {:induction false} NobodyEarlyIsOrderly(s: State, steps: seq<Step>)
    requires Run(s, steps) && OnlyEarly(s, steps, {})
    ensures Orderly(s, steps)
    decreases |steps|
  {
    if steps != [] {
      NobodyEarlyIsOrderly(Apply(s, steps[0]), steps[1..]);
    }
  }

  // ----- reachable states -----

  ghost predicate Leads(s: State, steps: seq<Step>, early: set<nat>, s': State) {
    Run(s, steps) && OnlyEarly(s, steps, early) && Final(s, steps) == s'
  }

  ghost predicate Reaches(s: State, early: set<nat>, s': State) {
    exists steps :: Leads(s, steps, early, s')
  }

  lemma {:induction false} LeadsOn(s: State, first: seq<Step>, second: seq<Step>, early: set<nat>,
                                   s': State, s'': State)
    requires Leads(s, first, early, s') && Leads(s', second, early, s'')
    ensures Leads(s, first + second, early, s'')
    decreases |first|
  {
    if first == [] {
      assert first + second == second;
    } else {
      assert (first + second)[1..] == first[1..] + second;
      LeadsOn(Apply(s, first[0]), first[1..], second, early, s', s'');
    }
  }

  lemma ReachesOn(s: State, early: set<nat>, s': State, s'': State)
    requires Reaches(s, early, s') && Reaches(s', early, s'')
    ensures Reaches(s, early, s'')
  {
    var first, second :| Leads(s, first, early, s') && Leads(s', second, early, s'');
    LeadsOn(s, first, second, early, s', s'');
  }

  lemma ReachesNext(s: State, early: set<nat>, step: Step)
    requires Enabled(s, step) && (step.Start? ==> step.i in early || s.nodes[step.i].listening)
    ensures Reaches(s, early, Apply(s, step))
  {
    var s' := Apply(s, step);
    assert [step][1..] == [];
    assert Run(s', []) && OnlyEarly(s', [], early) && Final(s', []) == s';
    assert Final(s, [step]) == s';
    assert Leads(s, [step], early, Apply(s, step));
  }

  /** The receiver has not subscribed. */
  ghost predicate Missed(nodes: seq<Node>, m: Message) {
    m.to < |nodes| && !nodes[m.to].listening
  }

  lemma {:induction false} LoseAll(s: State, early: set<nat>)
    requires forall m :: m in s.net ==> Missed(s.nodes, m)
    ensures Reaches(s, early, State(s.nodes, []))
    decreases |s.net|
  {
    if s.net == [] {
      assert Leads(s, [], early, State(s.nodes, []));
    } else {
      assert Missed(s.nodes, s.net[0]);
      var s' := Apply(s, Lose(0));
      ReachesNext(s, early, Lose(0));
      LoseAll(s', early);
      ReachesOn(s, early, s', State(s.nodes, []));
    }
  }

  /** A step in an empty network whose messages all get lost. */
  lemma ActUnheard(s0: State, nodes: seq<Node>, early: set<nat>, step: Step)
    requires Reaches(s0, early, State(nodes, [])) && Enabled(State(nodes, []), step)
    requires step.Start? ==> step.i in early || nodes[step.i].listening
    requires forall m :: m in Apply(State(nodes, []), step).net ==> Missed(Apply(State(nodes, []), step).nodes, m)
    ensures Reaches(s0, early, State(Apply(State(nodes, []), step).nodes, []))
  {
    var s := State(nodes, []);
    var s' := Apply(s, step);
    ReachesNext(s, early, step);
    ReachesOn(s0, early, s, s');
    LoseAll(s', early);
    ReachesOn(s0, early, s', State(s'.nodes, []));
  }

  // ----- one early relayer is enough to disagree -----

  lemma UnheardStart(s0: State, nodes: seq<Node>, early: set<nat>, a: nat)
    requires Reaches(s0, early, State(nodes, [])) && a < |nodes| && nodes[a].phase == NotStarted
    requires a in early || nodes[a].listening
    requires forall j :: 0 <= j < |nodes| && j != a ==> !nodes[j].listening
    ensures Reaches(s0, early, State(nodes[a := nodes[a].(phase := Electing)], []))
  {
    var s' := Apply(State(nodes, []), Start(a));
    assert s'.net == Elections(a, a) && s'.nodes == nodes[a := nodes[a].(phase := Electing)];
    ActUnheard(s0, nodes, early, Start(a));
  }

  lemma UnheardTimeout(s0: State, nodes: seq<Node>, early: set<nat>, a: nat)
    requires Reaches(s0, early, State(nodes, [])) && a < |nodes| && nodes[a].phase == Electing
    requires forall j :: 0 <= j < |nodes| && j != a ==> !nodes[j].listening
    ensures Reaches(s0, early, State(nodes[a := nodes[a].(phase := Idle, coordinator := a)], []))
  {
    var s' := Apply(State(nodes, []), Timeout(a));
    assert s'.net == Selects(a, |nodes|) && s'.nodes == nodes[a := nodes[a].(phase := Idle, coordinator := a)];
    ActUnheard(s0, nodes, early, Timeout(a));
  }

  /** A whole first election that nobody hears. */
  lemma UnheardElection(s0: State, nodes: seq<Node>, early: set<nat>, a: nat, listening: bool)
    requires Reaches(s0, early, State(nodes, [])) && a < |nodes| && nodes[a] == Node(NotStarted, listening, a, false)
    requires a in early || listening
    requires forall j :: 0 <= j < |nodes| && j != a ==> !nodes[j].listening
    ensures Reaches(s0, early, State(nodes[a := Node(Idle, listening, a, false)], []))
  {
    UnheardStart(s0, nodes, early, a);
    var electing := nodes[a := Node(Electing, listening, a, false)];
    UnheardTimeout(s0, electing, early, a);
    assert electing[a := Node(Idle, listening, a, false)] == nodes[a := Node(Idle, listening, a, false)];
  }

  lemma Subscribe(s0: State, nodes: seq<Node>, early: set<nat>, a: nat)
    requires Reaches(s0, early, State(nodes, [])) && a < |nodes| && !nodes[a].listening
    ensures Reaches(s0, early, State(nodes[a := nodes[a].(listening := true)], []))
  {
    ReachesNext(State(nodes, []), early, Listen(a));
    ReachesOn(s0, early, State(nodes, []), Apply(State(nodes, []), Listen(a)));
    assert Apply(State(nodes, []), Listen(a)) == State(nodes[a := nodes[a].(listening := true)], []);
  }

  /** The nodes once `a` and `b` have elected themselves and everybody else never took part. */
  function Divided(n: nat, a: nat, b: nat): State
    requires a < n && b < n
  {
    State(Init(n).nodes[a := Node(Idle, true, a, false)][b := Node(Idle, true, b, false)], [])
  }

  /** If `a` is early it can elect itself before it subscribes, and then miss the election of any `b`. */
  lemma EarlyElectionDivides(n: nat, early: set<nat>, a: nat, b: nat)
    requires a < n && b < n && a != b && a in early
    ensures Reaches(Init(n), early, Divided(n, a, b))
  {
    var before, s0 := Init(n).nodes, Init(n);
    assert Leads(s0, [], early, State(before, []));
    UnheardElection(s0, before, early, a, false);
    var nodes := before[a := Node(Idle, false, a, false)];
    Subscribe(s0, nodes, early, b);
    nodes := nodes[b := Node(NotStarted, true, b, false)];
    UnheardElection(s0, nodes, early, b, true);
    nodes := nodes[b := Node(Idle, true, b, false)];
    Subscribe(s0, nodes, early, a);
    assert nodes[a := Node(Idle, true, a, false)] == Divided(n, a, b).nodes;
  }

  /** That state is final for the two, and they follow different coordinators. */
  lemma DividedForGood(n: nat, a: nat, b: nat)
    requires a < n && b < n && a != b
    ensures Quiescent(Divided(n, a, b)) && Over(Divided(n, a, b)) && !Agrees(Divided(n, a, b))
  {
    var s, t, i := Divided(n, a, b), if a < b then a else b, if a < b then b else a;
    assert Top(s, t) && Started(s, i) && s.nodes[i].coordinator == i;
  }

  /** Early elections by any one relayer can end in a lasting disagreement with any other. */
  lemma EarlyElectionDisagrees(n: nat, early: set<nat>, a: nat, b: nat) returns (steps: seq<Step>)
    requires a < n && b < n && a != b && a in early
    ensures Run(Init(n), steps) && OnlyEarly(Init(n), steps, early)
    ensures var s := Final(Init(n), steps);
            && Quiescent(s) && Over(s) && Started(s, a) && Started(s, b)
            && s.nodes[a].coordinator == a && s.nodes[b].coordinator == b && !Agrees(s)
  {
    EarlyElectionDivides(n, early, a, b);
    steps :| Leads(Init(n), steps, early, Divided(n, a, b));
    DividedForGood(n, a, b);
  }

  // ----- the exact discipline -----

  /** Every run in which only `early` relayers start before subscribing agrees once it is quiescent. */
  ghost predicate AlwaysAgrees(n: nat, early: set<nat>) {
    forall steps :: Run(Init(n), steps) && OnlyEarly(Init(n), steps, early) && Quiescent(Final(Init(n), steps)) ==>
                      Agrees(Final(Init(n), steps))
  }

  lemma DisciplineSuffices(n: nat, steps: seq<Step>)
    requires Run(Init(n), steps) && OnlyEarly(Init(n), steps, {}) && Quiescent(Final(Init(n), steps))
    ensures Agrees(Final(Init(n), steps))
  {
    NobodyEarlyIsOrderly(Init(n), steps);
    OrderlyIsAttentive(Init(n), steps);
    var s := Final(Init(n), steps);
    forall t: nat, i: nat | Top(s, t) && Started(s, i) ensures s.nodes[i].coordinator == t {
      Convergence(n, steps, t, i);
    }
  }

  /** A single relayer, or none, always agrees with itself. */
  lemma FewAgree(n: nat, steps: seq<Step>)
    requires Run(Init(n), steps) && n < 2
    ensures Agrees(Final(Init(n), steps))
  {
    FewAgreeFrom(Init(n), steps);
  }

  lemma {:induction false} FewAgreeFrom(s: State, steps: seq<Step>)
    requires Run(s, steps) && |s.nodes| < 2 && s.net == []
    requires forall i :: 0 <= i < |s.nodes| ==> s.nodes[i].coordinator == i
    ensures Agrees(Final(s, steps))
    decreases |steps|
  {
    if steps != [] {
      FewAgreeFrom(Apply(s, steps[0]), steps[1..]);
    }
  }

  /** The election converges, whatever the order of events, exactly when nobody elects before subscribing. */
  lemma ConvergesIff(n: nat, early: set<nat>)
    requires forall i :: i in early ==> i < n
    ensures AlwaysAgrees(n, early) <==> n < 2 || early == {}
  {
    if n < 2 {
      forall steps | Run(Init(n), steps) ensures Agrees(Final(Init(n), steps)) {
        FewAgree(n, steps);
      }
    } else if early == {} {
      forall steps | Run(Init(n), steps) && OnlyEarly(Init(n), steps, early) && Quiescent(Final(Init(n), steps))
        ensures Agrees(Final(Init(n), steps))
      {
        DisciplineSuffices(n, steps);
      }
    } else {
      var a :| a in early;
      var steps := EarlyElectionDisagrees(n, early, a, if a == 0 then 1 else 0);
    }
  }
}
