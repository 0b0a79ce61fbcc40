/**
 The bully coordinator election as a system of relayers exchanging messages.

 A relayer is named by its position in the session order, so rank 0 is the highest. Messages
 travel in a bag: any message may arrive at any time, and one that arrives at a relayer that
 has not subscribed is lost. Timers are steps that may fire at any moment.
 */
module BullySystem {
  import opened Seqs

  datatype Message =
    | Election(from: nat, to: nat)
    | Alive(from: nat, to: nat)
    | Select(from: nat, to: nat)

  datatype Phase = NotStarted | Electing | Idle

  /** One elector: `listening` once it has subscribed, `aliveQueued` when its election channel is full. */
  datatype Node = Node(phase: Phase, listening: bool, coordinator: nat, aliveQueued: bool)

  datatype State = State(nodes: seq<Node>, net: seq<Message>)

  // ----- what one elector does -----

  /** The Election messages a relayer sends to the `k` highest ranks. */
  function Elections(host: nat, k: nat): (sent: seq<Message>)
    ensures |sent| == k
    ensures forall j :: 0 <= j < k ==> sent[j] == Election(host, j)
  {
    if k == 0 then [] else Elections(host, k - 1) + [Election(host, k - 1)]
  }

  /** The Select messages a relayer sends to the `k` highest ranks, leaving itself out. */
  function Selects(host: nat, k: nat): (sent: seq<Message>)
    ensures |sent| == if host < k then k - 1 else k
    ensures forall m: Message :: m in sent <==> m.Select? && m.from == host && m.to < k && m.to != host
  {
    if k == 0 then []
    else if k - 1 == host then Selects(host, k - 1)
    else Selects(host, k - 1) + [Select(host, k - 1)]
  }

  /** The state and the messages after entering an election. */
  function BeginElection(host: nat, node: Node): (Node, seq<Message>) {
    (node.(phase := Electing), Elections(host, host))
  }

  /** The election wait time passed without a queued Alive. */
  function EndByTimeout(host: nat, peers: nat, node: Node): (Node, seq<Message>) {
    (node.(phase := Idle, coordinator := host), Selects(host, peers))
  }

  /** The election was given up because an Alive message was queued. */
  function EndByAlive(node: Node): Node {
    node.(phase := Idle, aliveQueued := false)
  }

  function Consider(host: nat, current: nat, candidate: nat): nat {
    if candidate < current || candidate == host then candidate else current
  }

  /** The listener and the main loop consuming one message. */
  function Receive(host: nat, node: Node, m: Message): (Node, seq<Message>) {
    match m
    case Alive(from, _) => (if host < from then node.(aliveQueued := true) else node, [])
    case Select(from, _) => (node.(coordinator := Consider(host, node.coordinator, from)), [])
    case Election(from, _) =>
      if from < host then (node, [])
      else
        var (node', sent) := BeginElection(host, node);
        (node', [Alive(host, from)] + sent)
  }

  // ----- steps and runs -----

  datatype Step =
    | Listen(i: nat)     // the listener goroutine subscribes
    | Start(i: nat)      // the first election begins
    | Timeout(i: nat)    // an election ends in self-selection
    | GiveUp(i: nat)     // an election ends by a queued Alive
    | Deliver(k: nat)    // message k of the bag is consumed
    | Lose(k: nat)       // message k arrives where nobody subscribed

  function Init(n: nat): State {
    State(seq(n, (i: nat) => Node(NotStarted, false, i, false)), [])
  }

  /** Alive is handled by the listener, everything else waits for the main loop to leave `elect`. */
  predicate CanConsume(node: Node, m: Message) {
    node.listening && (m.Alive? || node.phase == Idle)
  }

  predicate Enabled(s: State, step: Step) {
    match step
    case Listen(i) => i < |s.nodes| && !s.nodes[i].listening
    case Start(i) => i < |s.nodes| && s.nodes[i].phase == NotStarted
    case Timeout(i) => i < |s.nodes| && s.nodes[i].phase == Electing
    case GiveUp(i) => i < |s.nodes| && s.nodes[i].phase == Electing && s.nodes[i].aliveQueued
    case Deliver(k) => k < |s.net| && s.net[k].to < |s.nodes| && CanConsume(s.nodes[s.net[k].to], s.net[k])
    case Lose(k) => k < |s.net| && (s.net[k].to < |s.nodes| ==> !s.nodes[s.net[k].to].listening)
  }

  function Update(s: State, i: nat, change: (Node, seq<Message>)): State
    requires i < |s.nodes|
  {
    State(s.nodes[i := change.0], s.net + change.1)
  }

  function Apply(s: State, step: Step): State
    requires Enabled(s, step)
  {
    match step
    case Listen(i) => Update(s, i, (s.nodes[i].(listening := true), []))
    case Start(i) => Update(s, i, BeginElection(i, s.nodes[i]))
    case Timeout(i) => Update(s, i, EndByTimeout(i, |s.nodes|, s.nodes[i]))
    case GiveUp(i) => Update(s, i, (EndByAlive(s.nodes[i]), []))
    case Deliver(k) =>
      var m := s.net[k];
      Update(s.(net := RemoveAt(s.net, k)), m.to, Receive(m.to, s.nodes[m.to], m))
    case Lose(k) => s.(net := RemoveAt(s.net, k))
  }

  /** Every step of the run is enabled when it is taken. */
  predicate Run(s: State, steps: seq<Step>)
    decreases |steps|
  {
    steps != [] ==> Enabled(s, steps[0]) && Run(Apply(s, steps[0]), steps[1..])
  }

  function Final(s: State, steps: seq<Step>): State
    requires Run(s, steps)
    decreases |steps|
  {
    if steps == [] then s else Final(Apply(s, steps[0]), steps[1..])
  }

  /** No message is lost on a relayer that has already started its first election. */
  predicate AttentiveStep(s: State, step: Step) {
    step.Lose? && step.k < |s.net| ==> !Started(s, s.net[step.k].to)
  }

  predicate Attentive(s: State, steps: seq<Step>)
    requires Run(s, steps)
    decreases |steps|
  {
    steps != [] ==> AttentiveStep(s, steps[0]) && Attentive(Apply(s, steps[0]), steps[1..])
  }

  /** No relayer starts its first election before its listener has subscribed. */
  predicate Orderly(s: State, steps: seq<Step>)
    requires Run(s, steps)
    decreases |steps|
  {
    steps != [] ==>
      && (steps[0].Start? ==> s.nodes[steps[0].i].listening)
      && Orderly(Apply(s, steps[0]), steps[1..])
  }

  predicate Started(s: State, i: nat) {
    i < |s.nodes| && s.nodes[i].phase != NotStarted
  }

  /** Nothing in flight and nobody inside an election. */
  predicate Quiescent(s: State) {
    s.net == [] && forall i :: 0 <= i < |s.nodes| ==> s.nodes[i].phase != Electing
  }

  /** `t` is the highest-ranked relayer that takes part. */
  ghost predicate Top(s: State, t: nat) {
    Started(s, t) && forall j: nat :: Started(s, j) ==> t <= j
  }

  // ----- invariants of every run -----

  /** Every message names two relayers, and Election goes up while Alive comes down. */
  ghost predicate WellAddressed(n: nat, m: Message) {
    && m.from < n && m.to < n && m.from != m.to
    && (m.Election? ==> m.to < m.from)
    && (m.Alive? ==> m.from < m.to)
  }

  ghost predicate Wired(s: State) {
    && (forall m :: m in s.net ==> WellAddressed(|s.nodes|, m))
    && (forall i :: 0 <= i < |s.nodes| ==> !s.nodes[i].aliveQueued)
  }

  lemma StepKeepsWired(s: State, step: Step)
    requires Wired(s) && Enabled(s, step)
    ensures Wired(Apply(s, step)) && |Apply(s, step).nodes| == |s.nodes|
  {
    var s' := Apply(s, step);
    if step.Deliver? || step.Lose? {
      assert s.net[step.k] in s.net;
    }
    forall m | m in s'.net
      ensures WellAddressed(|s.nodes|, m)
    {
      if m !in s.net { }
    }
  }

  lemma {:induction false} RunKeepsWired(s: State, steps: seq<Step>)
    requires Wired(s) && Run(s, steps)
    ensures Wired(Final(s, steps)) && |Final(s, steps).nodes| == |s.nodes|
    decreases |steps|
  {
    if steps != [] {
      StepKeepsWired(s, steps[0]);
      RunKeepsWired(Apply(s, steps[0]), steps[1..]);
    }
  }

  /** A relayer's choice is never below itself and always names a participant. */
  ghost predicate SoundChoice(s: State, i: nat)
    requires i < |s.nodes|
  {
    var c := s.nodes[i].coordinator;
    c <= i && (c == i || Started(s, c))
  }

  /** A participant agrees with the top one, or something that will make it agree is under way. */
  ghost predicate Settling(s: State, t: nat, i: nat)
    requires Started(s, t) && Started(s, i)
  {
    || (s.nodes[i].phase == Idle && s.nodes[i].coordinator == t)
    || s.nodes[t].phase == Electing
    || Election(i, t) in s.net
    || Select(t, i) in s.net
  }

  ghost predicate Inv(s: State) {
    && Wired(s)
    && (forall i :: 0 <= i < |s.nodes| ==> SoundChoice(s, i))
    && (forall m :: m in s.net && m.Select? ==> Started(s, m.from))
    && (forall t: nat, i: nat :: Top(s, t) && Started(s, i) && i != t ==> Settling(s, t, i))
  }

  // ----- who hears what -----

  lemma RemoveAtCounts(net: seq<Message>, k: nat)
    requires k < |net|
    ensures multiset(RemoveAt(net, k)) == multiset(net) - multiset{net[k]}
  {
    assert net == net[..k] + [net[k]] + net[k + 1..];
  }

  /**
   A challenge that is delivered is used up and reopens the election of its receiver: one Alive goes back
   to the challenger, one challenge goes to every rank above the receiver, and nothing else is sent.
   */
  lemma ChallengeIsAnswered(s: State, k: nat)
    requires Enabled(s, Deliver(k)) && s.net[k].Election? && s.net[k].to <= s.net[k].from
    ensures var i, j, s' := s.net[k].from, s.net[k].to, Apply(s, Deliver(k));
            && s'.nodes == s.nodes[j := s.nodes[j].(phase := Electing)]
            && (forall m: Message :: multiset(s'.net)[m] ==
                  multiset(s.net)[m] - (if m == s.net[k] then 1 else 0)
                  + (if m == Alive(j, i) || (m.Election? && m.from == j && m.to < j) then 1 else 0))
  {
    var i, j := s.net[k].from, s.net[k].to;
    RemoveAtCounts(s.net, k);
    forall m: Message ensures multiset(Elections(j, j))[m] == if m.Election? && m.from == j && m.to < j then 1 else 0 {
      ElectionsCount(j, j, m);
    }
    var sent := [Alive(j, i)] + Elections(j, j);
    assert Apply(s, Deliver(k)).net == RemoveAt(s.net, k) + sent;
  }

  lemma CountOneMore(ms: seq<Message>, last: Message, m: Message)
    ensures multiset(ms + [last])[m] == multiset(ms)[m] + if m == last then 1 else 0
  { }

  lemma {:induction false} ElectionsCount(host: nat, k: nat, m: Message)
    ensures multiset(Elections(host, k))[m] == if m.Election? && m.from == host && m.to < k then 1 else 0
  {
    if k > 0 {
      ElectionsCount(host, k - 1, m);
      var before, last := Elections(host, k - 1), Election(host, k - 1);
      assert Elections(host, k) == before + [last];
      CountOneMore(before, last, m);
    }
  }

  /** A challenge from above is dropped, and a Select or an Alive sends nothing. */
  lemma NothingElseIsAnswered(s: State, k: nat)
    requires Enabled(s, Deliver(k)) && (s.net[k].Election? ==> s.net[k].from < s.net[k].to)
    ensures Apply(s, Deliver(k)).net == RemoveAt(s.net, k)
    ensures s.net[k].Election? ==> Apply(s, Deliver(k)).nodes == s.nodes
  { }
}
