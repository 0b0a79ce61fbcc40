/** Watching one Bitcoin execution: collecting signatures, sending once all are there, recording the outcome. */
module ExecutionWatch {
  import opened PropStore
  import opened ProposalClaims

  type Signature = string

  datatype Event = NoResult | SignatureFor(id: nat, signature: Signature) | Timeout | Cancelled

  datatype Outcome =
    | Sent(witnesses: seq<Signature>)
    | SendFailed(witnesses: seq<Signature>)
    | TimedOut
    | Stopped
    | Waiting

  function NoSignatures(n: nat): (s: seq<Signature>)
    ensures |s| == n && forall i :: 0 <= i < n ==> s[i] == []
  {
    if n == 0 then [] else NoSignatures(n - 1) + [[]]
  }

  /** The latest signature received for each input. */
  function Slots(inputs: nat, events: seq<Event>): (s: seq<Signature>)
    ensures |s| == inputs
  {
    if events == [] then NoSignatures(inputs)
    else
      var before, last := Slots(inputs, events[..|events| - 1]), events[|events| - 1];
      if last.SignatureFor? && last.id < inputs then before[last.id := last.signature] else before
  }

  /** Event `j` brings a signature for the input, and no later one does. */
  ghost predicate LatestAt(events: seq<Event>, input: nat, j: int) {
    && 0 <= j < |events| && events[j].SignatureFor? && events[j].id == input
    && forall l :: j < l < |events| && events[l].SignatureFor? ==> events[l].id != input
  }

  /** Each slot holds exactly the signature that came last for its input, and nothing if none came. */
  lemma {:induction false} SlotsAreLatest(inputs: nat, events: seq<Event>, input: nat)
    requires input < inputs
    ensures forall j :: LatestAt(events, input, j) ==> Slots(inputs, events)[input] == events[j].signature
    ensures Slots(inputs, events)[input] != [] ==> exists j :: LatestAt(events, input, j)
  {
    if events != [] {
      var front, last := events[..|events| - 1], events[|events| - 1];
      SlotsAreLatest(inputs, front, input);
      if last.SignatureFor? && last.id == input {
        assert LatestAt(events, input, |front|);
      } else {
        forall j ensures LatestAt(front, input, j) <==> LatestAt(events, input, j) { }
        assert Slots(inputs, events)[input] == Slots(inputs, front)[input];
      }
    }
  }

  /** Witness `i` is the signature that came last for input `i`. */
  ghost predicate Witnesses(inputs: nat, events: seq<Event>, witnesses: seq<Signature>) {
    && |witnesses| == inputs
    && forall i: nat :: i < inputs ==>
         witnesses[i] != [] && exists j :: LatestAt(events, i, j) && events[j].signature == witnesses[i]
  }

  lemma FilledSlotsAreWitnesses(inputs: nat, events: seq<Event>)
    requires Filled(Slots(inputs, events))
    ensures Witnesses(inputs, events, Slots(inputs, events))
  {
    forall i: nat | i < inputs
      ensures exists j :: LatestAt(events, i, j) && events[j].signature == Slots(inputs, events)[i]
    {
      SlotsAreLatest(inputs, events, i);
      var j :| LatestAt(events, i, j);
    }
  }

  predicate Filled(signatures: seq<Signature>) {
    forall i :: 0 <= i < |signatures| ==> signatures[i] != []
  }

  method SignaturesFilled(signatures: seq<Signature>) returns (filled: bool)
    ensures filled <==> Filled(signatures)
  {
    for i := 0 to |signatures|
      invariant forall j :: 0 <= j < i ==> signatures[j] != []
    {
      if |signatures[i]| == 0 {
        return false;
      }
    }
    return true;
  }

  /** An event that ends the watch, given what was received before and with it. */
  predicate Ends(inputs: nat, events: seq<Event>, at: nat)
    requires at < |events|
  {
    match events[at]
    case NoResult => false
    case SignatureFor(_, _) => Filled(Slots(inputs, events[..at + 1]))
    case _ => true
  }

  function OutcomeOf(e: Event, signatures: seq<Signature>, sendOk: bool): Outcome {
    match e
    case Timeout => TimedOut
    case SignatureFor(_, _) => if sendOk then Sent(signatures) else SendFailed(signatures)
    case _ => Stopped
  }

  /**
   What ends a watch, and what comes of it: a timeout, a cancellation, or the signature after which every
   input has one; then the transaction is sent with the signature that came last for each input.
   */
  lemma OutcomeIsExact(inputs: nat, events: seq<Event>, at: nat, sendOk: bool)
    requires at < |events| && Ends(inputs, events, at)
    ensures var outcome := OutcomeOf(events[at], Slots(inputs, events[..at + 1]), sendOk);
            match events[at]
            case Timeout => outcome == TimedOut
            case Cancelled => outcome == Stopped
            case SignatureFor(_, _) =>
              && (if sendOk then outcome.Sent? else outcome.SendFailed?)
              && Witnesses(inputs, events[..at + 1], outcome.witnesses)
            case NoResult => false
  {
    if events[at].SignatureFor? {
      FilledSlotsAreWitnesses(inputs, events[..at + 1]);
    }
  }

  /** A watch goes on exactly over empty results and signatures that leave some input without one. */
  lemma GoesOnIff(inputs: nat, events: seq<Event>, at: nat)
    requires at < |events|
    ensures !Ends(inputs, events, at) <==>
              || events[at] == NoResult
              || (events[at].SignatureFor? && SomeLacking(inputs, events[..at + 1]))
  {
    var events' := events[..at + 1];
    if i: nat :| Lacks(inputs, events', i) {
      SlotsAreLatest(inputs, events', i);
      assert Slots(inputs, events')[i] == [];
    }
    if !Filled(Slots(inputs, events')) {
      var i: nat :| i < inputs && Slots(inputs, events')[i] == [];
      SlotsAreLatest(inputs, events', i);
      assert Lacks(inputs, events', i);
    }
  }

  /** No signature has come for the input, or an empty one came last. */
  ghost predicate Lacks(inputs: nat, events: seq<Event>, i: nat) {
    i < inputs && forall j :: LatestAt(events, i, j) ==> events[j].signature == []
  }

  ghost predicate SomeLacking(inputs: nat, events: seq<Event>) {
    exists i: nat :: Lacks(inputs, events, i)
  }

  /** The statuses that an outcome leaves, where writing them does not fail. */
  function Marked(table: Table, transfers: seq<Transfer>, outcome: Outcome, failing: set<nat>): Table {
    match outcome
    case Sent(_) => SetAll(table, Written(transfers, failing), Executed)
    case SendFailed(_) => SetAll(table, Written(transfers, failing), Failed)
    case _ => table
  }

  /**
   The transaction is sent on the first signature that leaves no input unsigned, with the latest
   signature of every input, and the proposals are marked by the outcome. A failed send is also told to
   the other relayers. A timeout or a cancellation that comes first leaves every status as it was.
   */
  method WatchExecution(store: Store, transfers: seq<Transfer>, inputs: nat, events: seq<Event>, sendOk: bool,
                        failing: set<nat>)
    returns (outcome: Outcome, failureBroadcast: bool, ghost at: nat)
    requires store.Valid()
    requires forall i :: 0 <= i < |events| && events[i].SignatureFor? ==> events[i].id < inputs
    modifies store
    ensures store.Valid() && at <= |events|
    ensures forall i :: 0 <= i < at ==> !Ends(inputs, events, i)
    ensures at == |events| ==> outcome == Waiting
    ensures at < |events| ==> Ends(inputs, events, at)
    ensures at < |events| ==> outcome == OutcomeOf(events[at], Slots(inputs, events[..at + 1]), sendOk)
    ensures failureBroadcast <==> outcome.SendFailed?
    ensures store.table == Marked(old(store.table), transfers, outcome, failing)
  {
    var signatures := NoSignatures(inputs);
    for i := 0 to |events|
      invariant store.Valid() && store.table == old(store.table)
      invariant signatures == Slots(inputs, events[..i])
      invariant forall j :: 0 <= j < i ==> !Ends(inputs, events, j)
    {
      assert events[..i + 1][..i] == events[..i];
      match events[i] {
        case NoResult =>
          continue;
        case SignatureFor(id, signature) =>
          signatures := signatures[id := signature];
          var filled := SignaturesFilled(signatures);
          if !filled {
            continue;
          }
          if !sendOk {
            StoreProposalsStatus(store, transfers, Failed, failing);
            return SendFailed(signatures), true, i;
          }
          StoreProposalsStatus(store, transfers, Executed, failing);
          return Sent(signatures), false, i;
        case Timeout =>
          return TimedOut, false, i;
        case Cancelled =>
          return Stopped, false, i;
      }
    }
    return Waiting, false, |events|;
  }
}
