/**
 The first signing round of a group of relayers: one static coordinator collects ready messages and
 announces the start subset, the others wait for its announcement.

 Messages may be lost, repeated by their senders and reordered. Peers that do not run this code may
 send anything under their own name.
 */
module SigningAgreement {
  import opened Seqs
  import opened SessionOrder
  import opened Signing

  datatype Message =
    | Initiate(from: PeerId, to: PeerId)
    | Ready(from: PeerId, to: PeerId)
    | Start(from: PeerId, to: PeerId, subset: seq<PeerId>)

  /** `Told` holds the subset of the start message that the relayer handed to its processes. */
  datatype Progress =
    | Initiating(ready: seq<PeerId>)
    | Waiting
    | Told(subset: seq<PeerId>)
    | Expired                        // timed out or cancelled before any start

  /** A signing process of a relayer: the peers it works with, and how its run began, if it has begun. */
  datatype Process = Process(scheme: Scheme, peers: seq<PeerId>, result: Option<RunResult>)

  datatype Station = Station(progress: Progress, processes: seq<Process>)

  /** The share holders as a relayer lists them, the coordinator it derived, and its signing processes. */
  datatype Relayer = Relayer(keyPeers: seq<PeerId>, coordinator: PeerId, schemes: seq<Scheme>)

  datatype Config = Config(
    relayers: map<PeerId, Relayer>,
    holders: set<PeerId>,
    peers: seq<PeerId>,
    threshold: nat,
    key: PeerId -> nat)

  /** The relayer lists exactly the share holders and took the static coordinator among them. */
  ghost predicate Consistent(cfg: Config, r: Relayer) {
    && ToSet(r.keyPeers) == cfg.holders
    && IsStaticCoordinator(Some(r.coordinator), r.keyPeers, cfg.key)
  }

  ghost predicate ValidConfig(cfg: Config) {
    && (forall p, q :: p in cfg.holders && q in cfg.holders && p != q ==> cfg.key(p) != cfg.key(q))
    && forall r :: r in cfg.relayers ==> Consistent(cfg, cfg.relayers[r])
  }

  /** The coordinator of every relayer runs this code itself. */
  ghost predicate Coordinated(cfg: Config) {
    forall r :: r in cfg.relayers ==> cfg.relayers[r].coordinator in cfg.relayers
  }

  lemma OneCoordinator(cfg: Config, r: Relayer, r': Relayer)
    requires ValidConfig(cfg) && Consistent(cfg, r) && Consistent(cfg, r')
    ensures r.coordinator == r'.coordinator
  {
    forall p ensures p in r.keyPeers <==> p in r'.keyPeers {
      assert p in ToSet(r.keyPeers) <==> p in ToSet(r'.keyPeers);
    }
    assert forall p :: p in r.keyPeers ==> p in ToSet(r.keyPeers);
    StaticCoordinatorsAgree(r.keyPeers, r'.keyPeers, cfg.key, Some(r.coordinator), Some(r'.coordinator));
  }

  datatype State = State(stations: map<PeerId, Station>, net: seq<Message>)

  function Idle(schemes: seq<Scheme>, keyPeers: seq<PeerId>): (processes: seq<Process>)
    ensures |processes| == |schemes|
    ensures forall i :: 0 <= i < |schemes| ==> processes[i] == Process(schemes[i], keyPeers, None)
  {
    if schemes == [] then []
    else Idle(schemes[..|schemes| - 1], keyPeers) + [Process(schemes[|schemes| - 1], keyPeers, None)]
  }

  function Opening(r: PeerId, relayer: Relayer): Station {
    Station(if relayer.coordinator == r then Initiating([r]) else Waiting, Idle(relayer.schemes, relayer.keyPeers))
  }

  function Init(cfg: Config): State {
    State(map r | r in cfg.relayers :: Opening(r, cfg.relayers[r]), [])
  }

  /** One process begins with the subset its relayer was given, and tests for itself whether it belongs to it. */
  function RunOne(host: PeerId, process: Process, subset: seq<PeerId>): Process {
    var (result, peers) := RunHead(process.scheme, host, process.peers, subset);
    Process(process.scheme, peers, Some(result))
  }

  /** An Initiate message to every peer other than the sender. */
  function Invite(from: PeerId, peers: seq<PeerId>): (sent: seq<Message>)
    ensures forall m: Message :: m in sent <==> m.Initiate? && m.from == from && m.to in peers && m.to != from
  {
    if peers == [] then []
    else (if peers[0] == from then [] else [Initiate(from, peers[0])]) + Invite(from, peers[1..])
  }

  /** A Start message with the subset to every peer other than the sender. */
  function Announce(from: PeerId, peers: seq<PeerId>, subset: seq<PeerId>): (sent: seq<Message>)
    ensures forall m: Message :: m in sent <==>
                          m.Start? && m.from == from && m.subset == subset && m.to in peers && m.to != from
  {
    if peers == [] then []
    else (if peers[0] == from then [] else [Start(from, peers[0], subset)]) + Announce(from, peers[1..], subset)
  }

  datatype Step =
    | Tick(r: PeerId)
    | Expire(r: PeerId)
    | Begin(r: PeerId, i: nat)               // process `i` of a started relayer begins
    | Deliver(k: nat, sorted: seq<PeerId>)   // `sorted` is used when the message completes the ready list
    | Lose(k: nat)
    | Inject(m: Message)

  /** Whether the ready peers contain enough share holders. */
  predicate Completes(cfg: Config, ready: seq<PeerId>, r: PeerId)
    requires r in cfg.relayers
  {
    |Intersection(ready, cfg.relayers[r].keyPeers)| == cfg.threshold + 1
  }

  predicate Collects(cfg: Config, s: State, m: Message) {
    m.to in cfg.relayers && m.to in s.stations && s.stations[m.to].progress.Initiating? && m.Ready?
  }

  predicate Open(progress: Progress) {
    progress.Initiating? || progress.Waiting?
  }

  ghost predicate Enabled(cfg: Config, s: State, step: Step) {
    match step
    case Tick(r) => r in s.stations && s.stations[r].progress.Initiating?
    case Expire(r) => r in s.stations && Open(s.stations[r].progress)
    case Begin(r, i) =>
      && r in s.stations && s.stations[r].progress.Told?
      && i < |s.stations[r].processes| && s.stations[r].processes[i].result == None
    case Lose(k) => k < |s.net|
    case Inject(m) => m.from !in cfg.relayers
    case Deliver(k, sorted) =>
      && k < |s.net|
      && var m := s.net[k];
         Collects(cfg, s, m) ==>
           var ready := NextReady(s.stations[m.to].progress.ready, m.from, []);
           Completes(cfg, ready, m.to) ==>
             IsStartSubset(sorted, Intersection(ready, cfg.relayers[m.to].keyPeers), cfg.threshold, cfg.key)
  }

  /** What the receiver of a message turns into, and what it sends. */
  function Receive(cfg: Config, m: Message, progress: Progress, sorted: seq<PeerId>): (Progress, seq<Message>)
    requires m.to in cfg.relayers
  {
    match (progress, m)
    case (Initiating(ready), Ready(from, r)) =>
      var ready' := NextReady(ready, from, []);
      if Completes(cfg, ready', r) then (Told(sorted), Announce(r, cfg.peers, sorted))
      else (Initiating(ready'), [])
    case (Waiting, Initiate(from, r)) =>
      (progress, if from == cfg.relayers[r].coordinator then [Ready(r, from)] else [])
    case (Waiting, Start(from, r, subset)) =>
      (if from == cfg.relayers[r].coordinator then Told(subset) else progress, [])
    case _ => (progress, [])
  }

  function Move(s: State, r: PeerId, progress: Progress, net: seq<Message>): State
    requires r in s.stations
  {
    State(s.stations[r := s.stations[r].(progress := progress)], net)
  }

  ghost function Apply(cfg: Config, s: State, step: Step): State
    requires Enabled(cfg, s, step)
  {
    match step
    case Tick(r) => s.(net := s.net + Invite(r, cfg.peers))
    case Expire(r) => Move(s, r, Expired, s.net)
    case Begin(r, i) =>
      var station := s.stations[r];
      var process := RunOne(r, station.processes[i], station.progress.subset);
      s.(stations := s.stations[r := station.(processes := station.processes[i := process])])
    case Lose(k) => s.(net := RemoveAt(s.net, k))
    case Inject(m) => s.(net := s.net + [m])
    case Deliver(k, sorted) =>
      var m, rest := s.net[k], RemoveAt(s.net, k);
      if m.to !in cfg.relayers || m.to !in s.stations then s.(net := rest)
      else
        var (progress, sent) := Receive(cfg, m, s.stations[m.to].progress, sorted);
        Move(s, m.to, progress, rest + sent)
  }

  ghost predicate Run(cfg: Config, s: State, steps: seq<Step>)
    decreases |steps|
  {
    steps != [] ==> Enabled(cfg, s, steps[0]) && Run(cfg, Apply(cfg, s, steps[0]), steps[1..])
  }

  ghost function Final(cfg: Config, s: State, steps: seq<Step>): State
    requires Run(cfg, s, steps)
    decreases |steps|
  {
    if steps == [] then s else Final(cfg, Apply(cfg, s, steps[0]), steps[1..])
  }

  // ----- the invariant -----

  /** A subset that may sign: threshold + 1 different share holders, the coordinator among them. */
  ghost predicate MaySign(cfg: Config, c: PeerId, subset: seq<PeerId>) {
    && Distinct(subset) && |subset| == cfg.threshold + 1
    && c in subset && forall p :: p in subset ==> p in cfg.holders
  }

  /** A process that entered works with exactly the subset, and one that gave up is not in it. */
  ghost predicate ProcessFollows(r: PeerId, process: Process, subset: seq<PeerId>) {
    && (process.result == Some(Entered) ==> r in subset && process.peers == subset)
    && (process.result == Some(SubsetError) ==> r !in subset)
  }

  /** Whatever a relayer and its processes have been told or have done fits the subset. */
  ghost predicate Follows(r: PeerId, station: Station, subset: seq<PeerId>) {
    && (station.progress.Told? ==> station.progress.subset == subset)
    && forall i :: 0 <= i < |station.processes| ==> ProcessFollows(r, station.processes[i], subset)
  }

  /** Nothing has begun before a start. */
  ghost predicate Unbegun(station: Station) {
    forall i :: 0 <= i < |station.processes| ==> station.processes[i].result == None
  }

  ghost predicate Undecided(c: PeerId, s: State)
    requires c in s.stations
  {
    && (forall r :: r in s.stations ==> !s.stations[r].progress.Told?)
    && (forall m :: m in s.net && m.Start? ==> m.from != c)
    && var progress := s.stations[c].progress;
       progress.Expired? || (progress.Initiating? && Distinct(progress.ready) && c in progress.ready)
  }

  ghost predicate Decided(cfg: Config, c: PeerId, s: State, subset: seq<PeerId>)
    requires c in s.stations
  {
    && MaySign(cfg, c, subset)
    && s.stations[c].progress.Told?
    && (forall r :: r in s.stations ==> Follows(r, s.stations[r], subset))
    && (forall m :: m in s.net && m.Start? && m.from == c ==> m.subset == subset)
  }

  ghost predicate Shape(cfg: Config, c: PeerId, s: State) {
    && s.stations.Keys == cfg.relayers.Keys && c in s.stations
    && (forall r :: r in cfg.relayers ==> cfg.relayers[r].coordinator == c)
    && (forall r :: r in s.stations && r != c ==> !s.stations[r].progress.Initiating?)
    && (forall r :: r in s.stations && !s.stations[r].progress.Told? ==> Unbegun(s.stations[r]))
  }

  ghost predicate Inv(cfg: Config, c: PeerId, s: State) {
    Shape(cfg, c, s) && (Undecided(c, s) || exists subset :: Decided(cfg, c, s, subset))
  }

  /** The announcement of the coordinator is a subset that may sign. */
  lemma AnnouncementMaySign(cfg: Config, c: PeerId, ready: seq<PeerId>, sorted: seq<PeerId>)
    requires ValidConfig(cfg) && c in cfg.relayers && cfg.relayers[c].coordinator == c
    requires Distinct(ready) && c in ready && Completes(cfg, ready, c)
    requires IsStartSubset(sorted, Intersection(ready, cfg.relayers[c].keyPeers), cfg.threshold, cfg.key)
    ensures MaySign(cfg, c, sorted)
  {
    var keyPeers := cfg.relayers[c].keyPeers;
    assert Consistent(cfg, cfg.relayers[c]);
    IntersectionIsExact(ready, keyPeers);
    NothingIsCut(sorted, Intersection(ready, keyPeers), cfg.threshold, cfg.key);
    assert c in ToSet(Intersection(ready, keyPeers));
    forall p | p in sorted ensures p in cfg.holders {
      assert p in ToSet(sorted);
      assert p in ToSet(keyPeers);
    }
  }

  /** A step that changes no relayer and adds no announcement of the coordinator. */
  lemma QuietStep(cfg: Config, c: PeerId, s: State, s': State)
    requires Inv(cfg, c, s) && s'.stations == s.stations
    requires forall m :: m in s'.net && m.Start? && m.from == c ==> m in s.net
    ensures Inv(cfg, c, s')
  {
    if !Undecided(c, s) {
      var subset :| Decided(cfg, c, s, subset);
      assert Decided(cfg, c, s', subset);
    }
  }

  lemma ExpireStep(cfg: Config, c: PeerId, s: State, step: Step)
    requires Inv(cfg, c, s) && step.Expire? && Enabled(cfg, s, step)
    ensures Inv(cfg, c, Apply(cfg, s, step))
  {
    if !Undecided(c, s) {
      var subset :| Decided(cfg, c, s, subset);
      assert Decided(cfg, c, Apply(cfg, s, step), subset);
    }
  }

  /** A process that begins finds itself in the subset or not; all others stay as they were. */
  lemma BeginStep(cfg: Config, c: PeerId, s: State, step: Step)
    requires Inv(cfg, c, s) && step.Begin? && Enabled(cfg, s, step)
    ensures Inv(cfg, c, Apply(cfg, s, step))
  {
    var subset :| Decided(cfg, c, s, subset);
    var s' := Apply(cfg, s, step);
    assert ProcessFollows(step.r, s'.stations[step.r].processes[step.i], subset);
    assert Follows(step.r, s'.stations[step.r], subset);
    assert Decided(cfg, c, s', subset);
  }

  /** The coordinator takes in a ready message, which may complete its list. */
  lemma CollectStep(cfg: Config, c: PeerId, s: State, step: Step)
    requires ValidConfig(cfg) && Inv(cfg, c, s)
    requires step.Deliver? && Enabled(cfg, s, step) && Collects(cfg, s, s.net[step.k])
    ensures Inv(cfg, c, Apply(cfg, s, step))
  {
    var s', m := Apply(cfg, s, step), s.net[step.k];
    assert m.to == c;
    assert Undecided(c, s);
    var ready := NextReady(s.stations[c].progress.ready, m.from, []);
    if Completes(cfg, ready, c) {
      AnnouncementMaySign(cfg, c, ready, step.sorted);
      DecidedByAnnouncement(cfg, c, s, s', step.sorted);
    } else {
      assert s'.net == RemoveAt(s.net, step.k);
      assert Undecided(c, s');
    }
  }

  lemma DecidedByAnnouncement(cfg: Config, c: PeerId, s: State, s': State, subset: seq<PeerId>)
    requires Shape(cfg, c, s) && Undecided(c, s) && MaySign(cfg, c, subset)
    requires s'.stations == s.stations[c := s.stations[c].(progress := Told(subset))]
    requires forall m :: m in s'.net && m.Start? && m.from == c ==> m in s.net || m.subset == subset
    ensures Shape(cfg, c, s') && Decided(cfg, c, s', subset)
  {
    forall r | r in s'.stations ensures Follows(r, s'.stations[r], subset) {
      assert Unbegun(s.stations[r]);
    }
  }

  /** A waiting relayer is told to start. */
  lemma FollowStep(cfg: Config, c: PeerId, s: State, step: Step)
    requires ValidConfig(cfg) && Inv(cfg, c, s) && step.Deliver? && Enabled(cfg, s, step)
    requires var m := s.net[step.k]; m.Start? && m.to in s.stations && s.stations[m.to].progress.Waiting?
    ensures Inv(cfg, c, Apply(cfg, s, step))
  {
    var s', m := Apply(cfg, s, step), s.net[step.k];
    assert m in s.net;
    assert s'.net == RemoveAt(s.net, step.k);
    if Undecided(c, s) {
      assert s'.stations == s.stations;
      QuietStep(cfg, c, s, s');
    } else {
      var subset :| Decided(cfg, c, s, subset);
      assert Decided(cfg, c, s', subset);
    }
  }

  lemma StepKeepsInv(cfg: Config, c: PeerId, s: State, step: Step)
    requires ValidConfig(cfg) && Inv(cfg, c, s) && Enabled(cfg, s, step)
    ensures Inv(cfg, c, Apply(cfg, s, step))
  {
    var s' := Apply(cfg, s, step);
    match step {
      case Expire(_) => ExpireStep(cfg, c, s, step);
      case Begin(_, _) => BeginStep(cfg, c, s, step);
      case Deliver(k, _) =>
        var m := s.net[k];
        if Collects(cfg, s, m) {
          CollectStep(cfg, c, s, step);
        } else if m.Start? && m.to in s.stations && s.stations[m.to].progress.Waiting? {
          FollowStep(cfg, c, s, step);
        } else {
          assert s'.stations == s.stations;
          QuietStep(cfg, c, s, s');
        }
      case _ => QuietStep(cfg, c, s, s');
    }
  }

  lemma {:induction false} RunKeepsInv(cfg: Config, c: PeerId, s: State, steps: seq<Step>)
    requires ValidConfig(cfg) && Inv(cfg, c, s) && Run(cfg, s, steps)
    ensures Inv(cfg, c, Final(cfg, s, steps))
    decreases |steps|
  {
    if steps != [] {
      StepKeepsInv(cfg, c, s, steps[0]);
      RunKeepsInv(cfg, c, Apply(cfg, s, steps[0]), steps[1..]);
    }
  }

  /** One subset fits everybody, nobody has begun without a start, and a start came with a subset that may sign. */
  ghost predicate Agreed(cfg: Config, stations: map<PeerId, Station>, subset: seq<PeerId>) {
    && stations.Keys == cfg.relayers.Keys
    && (forall r :: r in stations ==> Follows(r, stations[r], subset))
    && (forall r :: r in stations && !stations[r].progress.Told? ==> Unbegun(stations[r]))
    && (forall r :: r in stations && stations[r].progress.Told? ==> MaySign(cfg, cfg.relayers[r].coordinator, subset))
  }

  lemma InvAgrees(cfg: Config, c: PeerId, s: State) returns (subset: seq<PeerId>)
    requires Inv(cfg, c, s)
    ensures Agreed(cfg, s.stations, subset)
  {
    if Undecided(c, s) {
      subset := [];
    } else {
      subset :| Decided(cfg, c, s, subset);
    }
  }

  /**
   Agreement: there is one subset such that, of all processes of all relayers, those that entered
   signing work with exactly this subset and belong to a relayer in it, and those that gave up with
   SubsetError belong to a relayer outside it. Once any relayer has started, the subset consists of
   threshold + 1 different share holders.
   */
  lemma Agreement(cfg: Config, steps: seq<Step>) returns (subset: seq<PeerId>)
    requires ValidConfig(cfg) && Coordinated(cfg) && Run(cfg, Init(cfg), steps)
    ensures Agreed(cfg, Final(cfg, Init(cfg), steps).stations, subset)
  {
    if r :| r in cfg.relayers {
      var c := cfg.relayers[r].coordinator;
      SameCoordinator(cfg, c, r);
      InitInv(cfg, c);
      RunKeepsInv(cfg, c, Init(cfg), steps);
      subset := InvAgrees(cfg, c, Final(cfg, Init(cfg), steps));
    } else {
      assert Init(cfg).stations == map[];
      NobodyEver(cfg, Init(cfg), steps);
      subset := [];
    }
  }

  lemma SameCoordinator(cfg: Config, c: PeerId, r: PeerId)
    requires ValidConfig(cfg) && r in cfg.relayers && cfg.relayers[r].coordinator == c
    ensures forall q :: q in cfg.relayers ==> cfg.relayers[q].coordinator == c
  {
    forall q | q in cfg.relayers ensures cfg.relayers[q].coordinator == c {
      OneCoordinator(cfg, cfg.relayers[r], cfg.relayers[q]);
    }
  }

  lemma InitInv(cfg: Config, c: PeerId)
    requires c in cfg.relayers && forall q :: q in cfg.relayers ==> cfg.relayers[q].coordinator == c
    ensures Inv(cfg, c, Init(cfg))
  {
    var s := Init(cfg);
    forall q | q in s.stations
      ensures s.stations[q].progress == (if q == c then Initiating([c]) else Waiting) && Unbegun(s.stations[q])
    {
      assert s.stations[q] == Opening(q, cfg.relayers[q]);
    }
    assert Undecided(c, s);
  }

  lemma {:induction false} NobodyEver(cfg: Config, s: State, steps: seq<Step>)
    requires s.stations == map[] && Run(cfg, s, steps)
    ensures Final(cfg, s, steps).stations == map[]
    decreases |steps|
  {
    if steps != [] {
      NobodyEver(cfg, Apply(cfg, s, steps[0]), steps[1..]);
    }
  }
}
