/** A signing process, and the exchange in which its coordinator waits for enough share holders. */
module Signing {
  import opened Seqs
  import opened Filters
  import opened Sorting
  import opened SessionOrder

  datatype Scheme = Ecdsa | Frost

  datatype RunResult = Entered | SubsetError

  function Cut(s: seq<PeerId>, n: nat): seq<PeerId> {
    if |s| <= n then s else s[..n]
  }

  /** A start subset: the ready share holders in session order, cut at threshold + 1. */
  ghost predicate IsStartSubset(subset: seq<PeerId>, holders: seq<PeerId>, threshold: nat, key: PeerId -> nat) {
    exists sorted :: IsSortOf(sorted, holders, Before(key)) && subset == Cut(sorted, threshold + 1)
  }

  /** The head of a process's Run: the membership test, and the peers the process works with afterwards. */
  function RunHead(scheme: Scheme, host: PeerId, peers: seq<PeerId>, subset: seq<PeerId>): (RunResult, seq<PeerId>) {
    if host in subset then (Entered, subset)
    else (SubsetError, if scheme == Frost then subset else peers)
  }

  class SigningProcess {
    const scheme: Scheme
    const host: PeerId
    const keyPeers: seq<PeerId>
    const threshold: nat
    var peers: seq<PeerId>

    constructor (scheme: Scheme, host: PeerId, keyPeers: seq<PeerId>, threshold: nat)
      ensures this.scheme == scheme && this.host == host && this.keyPeers == keyPeers && this.threshold == threshold
      ensures peers == keyPeers
    {
      this.scheme, this.host, this.keyPeers, this.threshold, this.peers := scheme, host, keyPeers, threshold, keyPeers;
    }

    method ReadyParticipants(readyPeers: seq<PeerId>) returns (participants: seq<PeerId>)
      ensures participants == Intersection(readyPeers, keyPeers)
    {
      participants := [];
      for i := 0 to |readyPeers|
        invariant participants == Intersection(readyPeers[..i], keyPeers)
      {
        assert readyPeers[..i + 1][..i] == readyPeers[..i];
        if readyPeers[i] !in keyPeers {
          continue;
        }
        participants := participants + [readyPeers[i]];
      }
      assert readyPeers[..|readyPeers|] == readyPeers;
    }

    method Ready(readyPeers: seq<PeerId>) returns (ready: bool)
      ensures ready <==> |Intersection(readyPeers, keyPeers)| == threshold + 1
    {
      var participants := ReadyParticipants(readyPeers);
      return |participants| == threshold + 1;
    }

    method StartParams(readyPeers: seq<PeerId>, key: PeerId -> nat) returns (subset: seq<PeerId>)
      ensures IsStartSubset(subset, Intersection(readyPeers, keyPeers), threshold, key)
    {
      var participants := ReadyParticipants(readyPeers);
      var sortedPeers := SortPeersForSession(participants, key);
      subset := [];
      for i := 0 to |sortedPeers|
        invariant subset == sortedPeers[..i] && i <= threshold
      {
        subset := subset + [sortedPeers[i]];
        if |subset| == threshold + 1 {
          break;
        }
      }
      assert subset == Cut(sortedPeers, threshold + 1);
    }

    /** The head of Run: the ECDSA process takes over the subset only after the membership test. */
    method Run(subset: seq<PeerId>) returns (r: RunResult)
      modifies this`peers
      ensures r == Entered <==> host in subset
      ensures (r, peers) == RunHead(scheme, host, old(peers), subset)
      ensures peers == if r == SubsetError && scheme == Ecdsa then old(peers) else subset
    {
      if scheme == Frost {
        peers := subset;
      }
      var participant := IsParticipant(host, subset);
      if !participant {
        return SubsetError;
      }
      peers := subset;
      return Entered;
    }
  }

  // ----- the coordinator's side -----

  function NextReady(ready: seq<PeerId>, from: PeerId, excluded: seq<PeerId>): seq<PeerId> {
    if from !in excluded && from !in ready then ready + [from] else ready
  }

  /** The ready list after a stream of ready messages. */
  function ReadyAfter(host: PeerId, stream: seq<PeerId>, excluded: seq<PeerId>): seq<PeerId> {
    if stream == [] then [host]
    else NextReady(ReadyAfter(host, stream[..|stream| - 1], excluded), stream[|stream| - 1], excluded)
  }

  /** What decides when a process starts. */
  datatype Quorum = Quorum(host: PeerId, excluded: seq<PeerId>, keyPeers: seq<PeerId>, threshold: nat) {

    /** The share holders among the host and the admissible senders. */
    function Heard(stream: seq<PeerId>): set<PeerId> {
      set p | p in keyPeers && (p == host || (p in stream && p !in excluded))
    }

    /** How many share holders are known after the first `n` messages. */
    function Count(stream: seq<PeerId>, n: nat): nat
      requires n <= |stream|
    {
      |Heard(stream[..n])|
    }

    /** Start goes out on the first message that makes the count exact. */
    ghost predicate FiresAt(stream: seq<PeerId>, at: nat) {
      && at < |stream|
      && Count(stream, at + 1) == threshold + 1
      && forall n :: 0 < n <= at ==> Count(stream, n) != threshold + 1
    }

    ghost predicate Fires(stream: seq<PeerId>) {
      exists at: nat :: FiresAt(stream, at)
    }
  }

  /** The ready list holds the host and every admissible sender, each once. */
  lemma {:induction false} ReadyListIsExact(host: PeerId, stream: seq<PeerId>, excluded: seq<PeerId>)
    ensures var ready := ReadyAfter(host, stream, excluded);
            && Distinct(ready)
            && (forall p :: p in ready <==> p == host || (p in stream && p !in excluded))
  {
    if stream != [] {
      var front, last := stream[..|stream| - 1], stream[|stream| - 1];
      ReadyListIsExact(host, front, excluded);
      assert stream == front + [last];
    }
  }

  /** Counting list entries is counting share holders. */
  lemma ReadyCountsHolders(q: Quorum, stream: seq<PeerId>)
    ensures var holders := Intersection(ReadyAfter(q.host, stream, q.excluded), q.keyPeers);
            Distinct(holders) && ToSet(holders) == q.Heard(stream) && |holders| == |q.Heard(stream)|
  {
    var ready := ReadyAfter(q.host, stream, q.excluded);
    ReadyListIsExact(q.host, stream, q.excluded);
    IntersectionIsExact(ready, q.keyPeers);
    DistinctSize(Intersection(ready, q.keyPeers));
  }

  /** With exactly threshold + 1 holders ready, cutting the sorted list discards nobody. */
  lemma NothingIsCut(subset: seq<PeerId>, holders: seq<PeerId>, threshold: nat, key: PeerId -> nat)
    requires IsStartSubset(subset, holders, threshold, key)
    requires Distinct(holders) && |holders| == threshold + 1
    ensures |subset| == threshold + 1 && Distinct(subset) && ToSet(subset) == ToSet(holders)
  {
    var sorted :| IsSortOf(sorted, holders, Before(key)) && subset == Cut(sorted, threshold + 1);
    assert |multiset(sorted)| == |sorted| && |multiset(holders)| == |holders|;
    SortKeepsDistinct(sorted, holders);
  }

  /** With more holders than needed, those with the largest keys are taken, in the order of their keys. */
  lemma CutTakesFirst(subset: seq<PeerId>, holders: seq<PeerId>, threshold: nat, key: PeerId -> nat)
    returns (rest: seq<PeerId>)
    requires IsStartSubset(subset, holders, threshold, key)
    ensures multiset(subset) + multiset(rest) == multiset(holders)
    ensures |subset| == if |holders| <= threshold then |holders| else threshold + 1
    ensures forall i, j :: 0 <= i < j < |subset| ==> key(subset[i]) >= key(subset[j])
    ensures forall p, q :: p in subset && q in rest ==> key(p) >= key(q)
  {
    var sorted :| IsSortOf(sorted, holders, Before(key)) && subset == Cut(sorted, threshold + 1);
    assert |multiset(sorted)| == |sorted| && |multiset(holders)| == |holders|;
    rest := sorted[|subset|..];
    assert sorted == subset + rest;
    assert forall i, j :: 0 <= i < j < |sorted| ==> !Before(key)(sorted[j], sorted[i]);
  }

  /** The ready list after one more message, and what its share holders are. */
  lemma OneMoreMessage(q: Quorum, stream: seq<PeerId>, i: nat, ready: seq<PeerId>)
    requires i < |stream| && ready == NextReady(ReadyAfter(q.host, stream[..i], q.excluded), stream[i], q.excluded)
    ensures ready == ReadyAfter(q.host, stream[..i + 1], q.excluded)
    ensures var holders := Intersection(ready, q.keyPeers);
            Distinct(holders) && ToSet(holders) == q.Heard(stream[..i + 1]) && |holders| == q.Count(stream, i + 1)
  {
    assert stream[..i + 1][..i] == stream[..i];
    ReadyCountsHolders(q, stream[..i + 1]);
  }

  datatype InitiateOutcome = Started(at: nat, subset: seq<PeerId>) | StillWaiting

  /** Asking the process whether it can start, and with whom. */
  method TryStart(process: SigningProcess, readyPeers: seq<PeerId>, key: PeerId -> nat)
    returns (subset: Option<seq<PeerId>>)
    requires Distinct(Intersection(readyPeers, process.keyPeers))
    ensures subset.Some? <==> |Intersection(readyPeers, process.keyPeers)| == process.threshold + 1
    ensures subset.Some? ==> Distinct(subset.value)
    ensures subset.Some? ==> ToSet(subset.value) == ToSet(Intersection(readyPeers, process.keyPeers))
    ensures subset.Some? ==> |subset.value| == process.threshold + 1
  {
    var ready := process.Ready(readyPeers);
    if !ready {
      return None;
    }
    var params := process.StartParams(readyPeers, key);
    NothingIsCut(params, Intersection(readyPeers, process.keyPeers), process.threshold, key);
    return Some(params);
  }

  /**
   The coordinator's loop over the ready messages it receives. Start goes out with exactly the
   share holders heard of so far, each once, and it goes out on the first message that makes them
   threshold + 1.
   */
  method Initiate(process: SigningProcess, stream: seq<PeerId>, excluded: seq<PeerId>, key: PeerId -> nat)
    returns (outcome: InitiateOutcome)
    ensures var q := Quorum(process.host, excluded, process.keyPeers, process.threshold);
            match outcome
            case Started(at, subset) =>
              && q.FiresAt(stream, at)
              && Distinct(subset) && |subset| == q.threshold + 1 && ToSet(subset) == q.Heard(stream[..at + 1])
            case StillWaiting => !q.Fires(stream)
  {
    ghost var q := Quorum(process.host, excluded, process.keyPeers, process.threshold);
    var readyPeers := [process.host];
    for i := 0 to |stream|
      invariant readyPeers == ReadyAfter(process.host, stream[..i], excluded)
      invariant forall n :: 0 < n <= i ==> q.Count(stream, n) != q.threshold + 1
    {
      if stream[i] !in excluded && stream[i] !in readyPeers {
        readyPeers := readyPeers + [stream[i]];
      }
      OneMoreMessage(q, stream, i, readyPeers);
      var subset := TryStart(process, readyPeers, key);
      if subset == None {
        continue;
      }
      return Started(i, subset.value);
    }
    return StillWaiting;
  }

  /** One message adds at most its own sender. */
  lemma CountGrowsByOne(q: Quorum, stream: seq<PeerId>, n: nat)
    requires n < |stream|
    ensures q.Count(stream, n + 1) == q.Count(stream, n)
            || (q.Count(stream, n + 1) == q.Count(stream, n) + 1 && stream[n] !in q.Heard(stream[..n]))
  {
    assert stream[..n + 1] == stream[..n] + [stream[n]];
    assert q.Heard(stream[..n + 1]) == q.Heard(stream[..n])
           || q.Heard(stream[..n + 1]) == q.Heard(stream[..n]) + {stream[n]};
  }

  /** Start goes out on the message that brings the last missing share holder. */
  lemma ThresholdIsHit(q: Quorum, stream: seq<PeerId>) returns (at: nat)
    requires q.threshold >= 1 || q.host !in q.keyPeers
    requires |q.Heard(stream)| > q.threshold
    ensures q.FiresAt(stream, at)
    ensures q.Count(stream, at) == q.threshold && stream[at] !in q.Heard(stream[..at])
  {
    NobodyHeardYet(q);
    assert stream[..0] == [] && stream[..|stream|] == stream;
    at := 0;
    while q.Count(stream, at + 1) <= q.threshold
      invariant at < |stream|
      invariant forall n :: 0 <= n <= at ==> q.Count(stream, n) <= q.threshold
      decreases |stream| - at
    {
      at := at + 1;
    }
    CountGrowsByOne(q, stream, at);
  }

  lemma NobodyHeardYet(q: Quorum)
    requires q.threshold >= 1 || q.host !in q.keyPeers
    ensures |q.Heard([])| <= q.threshold
  {
    SubsetSize(q.Heard([]), if q.host in q.keyPeers then {q.host} else {});
  }

  lemma SubsetSize<T>(a: set<T>, b: set<T>)
    requires a <= b
    ensures |a| <= |b|
  {
    assert b == a + (b - a);
  }

  /** With threshold 0 another holder's early message takes the count past 1 for good. */
  lemma ThresholdIsJumped(q: Quorum, stream: seq<PeerId>)
    requires q.threshold == 0 && q.host in q.keyPeers && stream != []
    requires stream[0] in q.keyPeers && stream[0] != q.host && stream[0] !in q.excluded
    ensures !q.Fires(stream)
  {
    forall at: nat ensures !q.FiresAt(stream, at) {
      if at < |stream| {
        assert stream[..at + 1][0] == stream[0];
        SubsetSize({q.host, stream[0]}, q.Heard(stream[..at + 1]));
      }
    }
  }

  /** Enough ready share holders always start the process, exactly when the count cannot begin too high. */
  lemma StartGuaranteedIff(q: Quorum)
    ensures (forall stream :: stream != [] && |q.Heard(stream)| > q.threshold ==> q.Fires(stream))
            <==> (q.threshold >= 1 || q.host !in q.keyPeers ||
                  forall p :: p in q.keyPeers ==> p == q.host || p in q.excluded)
  {
    if q.threshold >= 1 || q.host !in q.keyPeers {
      forall stream | stream != [] && |q.Heard(stream)| > q.threshold
        ensures q.Fires(stream)
      {
        var at := ThresholdIsHit(q, stream);
      }
    } else if p :| p in q.keyPeers && p != q.host && p !in q.excluded {
      ThresholdIsJumped(q, [p]);
      SubsetSize({q.host}, q.Heard([p]));
    } else {
      forall stream | stream != []
        ensures q.Fires(stream)
      {
        assert q.Heard(stream[..1]) == {q.host};
        assert q.FiresAt(stream, 0);
      }
    }
  }

  // ----- the other relayers' side -----

  datatype Event = InitiateFrom(from: PeerId) | StartFrom(from: PeerId, subset: seq<PeerId>) | CoordinatorTimeout

  datatype WaitOutcome = Ran(result: RunResult, subset: seq<PeerId>) | CoordinatorError | StillListening

  /** Without a known coordinator every sender is accepted. */
  predicate Accepts(coordinator: Option<PeerId>, from: PeerId) {
    coordinator == None || coordinator == Some(from)
  }

  predicate Decisive(coordinator: Option<PeerId>, e: Event) {
    e.CoordinatorTimeout? || (e.StartFrom? && Accepts(coordinator, e.from))
  }

  /** Whom ready messages are sent to while waiting. */
  function Replies(coordinator: Option<PeerId>, events: seq<Event>): seq<PeerId> {
    if events == [] then []
    else
      var before, last := Replies(coordinator, events[..|events| - 1]), events[|events| - 1];
      if last.InitiateFrom? && Accepts(coordinator, last.from) then before + [last.from] else before
  }

  /** One ready message for each Initiate of the coordinator, or of anybody if there is none, in order. */
  lemma {:induction false} RepliesAreExact(coordinator: Option<PeerId>, events: seq<Event>, kept: set<int>)
    returns (answered: seq<Event>)
    requires forall i :: 0 <= i < |events| ==>
                           (i in kept <==>
                            events[i].InitiateFrom? && (coordinator == None || coordinator.value == events[i].from))
    ensures IsFilter(answered, events, kept) && |answered| == |Replies(coordinator, events)|
    ensures forall i :: 0 <= i < |answered| ==> answered[i] == InitiateFrom(Replies(coordinator, events)[i])
  {
    answered := [];
    if events == [] {
      FilterNothing<Event>(kept);
    } else {
      var front, last := events[..|events| - 1], events[|events| - 1];
      assert events == front + [last];
      answered := RepliesAreExact(coordinator, front, kept);
      FilterOneMore(answered, front, last, kept);
      if |front| in kept {
        answered := answered + [last];
      }
    }
  }

  /** All processes start with the same subset; those of one host all enter or are all refused. */
  method RunAll(processes: seq<SigningProcess>, subset: seq<PeerId>, host: PeerId) returns (result: RunResult)
    requires forall p :: p in processes ==> p.host == host
    modifies processes
    ensures processes != [] ==> (result == Entered <==> host in subset)
    ensures forall p :: p in processes ==> p.peers == RunHead(p.scheme, host, old(p.peers), subset).1
  {
    result := Entered;
    for i := 0 to |processes|
      invariant host in subset ==> result == Entered
      invariant host !in subset && i > 0 ==> result == SubsetError
      invariant forall p :: p in processes ==>
                  p.peers == if p in processes[..i] then RunHead(p.scheme, host, old(p.peers), subset).1
                             else old(p.peers)
    {
      assert processes[..i + 1] == processes[..i] + [processes[i]];
      var r := processes[i].Run(subset);
      if r == SubsetError {
        result := SubsetError;
      }
    }
    assert processes[..|processes|] == processes;
  }

  /**
   Waiting for the start of a process: every accepted Initiate is answered, messages of other senders
   are ignored, and the first accepted Start or the timeout ends the wait.
   */
  method WaitForStart(processes: seq<SigningProcess>, host: PeerId, coordinator: Option<PeerId>, events: seq<Event>)
    returns (replies: seq<PeerId>, outcome: WaitOutcome, ghost at: nat)
    requires processes != [] && forall p :: p in processes ==> p.host == host
    modifies processes
    ensures at <= |events| && replies == Replies(coordinator, events[..at])
    ensures forall i :: 0 <= i < at ==> !Decisive(coordinator, events[i])
    ensures outcome == StillListening <==> at == |events|
    ensures at < |events| ==> Decisive(coordinator, events[at])
    ensures outcome.Ran? <==> at < |events| && events[at].StartFrom?
    ensures outcome.Ran? && coordinator.Some? ==> events[at].from == coordinator.value
    ensures forall i :: 0 <= i < at && events[i].StartFrom? ==>
                          coordinator.Some? && events[i].from != coordinator.value
    ensures at < |events| && events[at].CoordinatorTimeout? ==> outcome == CoordinatorError
    ensures at < |events| && events[at].StartFrom? ==>
              outcome == Ran(if host in events[at].subset then Entered else SubsetError, events[at].subset)
    ensures outcome.Ran? ==>
              forall p :: p in processes ==> p.peers == RunHead(p.scheme, host, old(p.peers), outcome.subset).1
    ensures !outcome.Ran? ==> forall p :: p in processes ==> p.peers == old(p.peers)
  {
    replies := [];
    for i := 0 to |events|
      invariant replies == Replies(coordinator, events[..i])
      invariant forall j :: 0 <= j < i ==> !Decisive(coordinator, events[j])
      invariant forall p :: p in processes ==> p.peers == old(p.peers)
    {
      assert events[..i + 1][..i] == events[..i];
      match events[i] {
        case InitiateFrom(from) =>
          if coordinator != None && Some(from) != coordinator {
            continue;
          }
          replies := replies + [from];
        case StartFrom(from, subset) =>
          if coordinator != None && Some(from) != coordinator {
            continue;
          }
          var result := RunAll(processes, subset, host);
          return replies, Ran(result, subset), i;
        case CoordinatorTimeout =>
          return replies, CoordinatorError, i;
      }
    }
    return replies, StillListening, |events|;
  }
}
