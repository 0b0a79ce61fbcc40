/** A watched execution acts as its signature, record and abandon steps in the runs of all executions. */
module ExecutionRefinement {
  import opened ProposalClaims
  import opened ProposalRuns
  import opened RetryDiscipline
  import opened ExecutionWatch

  /** Which inputs have a signature. */
  function Flags(signatures: seq<Signature>): (flags: seq<bool>)
    ensures |flags| == |signatures|
    ensures forall i :: 0 <= i < |flags| ==> (flags[i] <==> signatures[i] != [])
    ensures Complete(flags) <==> Filled(signatures)
  {
    if signatures == [] then []
    else Flags(signatures[..|signatures| - 1]) + [signatures[|signatures| - 1] != []]
  }

  lemma {:induction false} UnsignedFlags(n: nat)
    ensures Flags(NoSignatures(n)) == Unsigned(n)
  {
    if n > 0 {
      UnsignedFlags(n - 1);
      assert NoSignatures(n)[..n - 1] == NoSignatures(n - 1);
    }
  }

  /** Execution `i` with the signatures of the first `p` events, and everything else as it was. */
  function Progressed(s: State, i: nat, inputs: nat, events: seq<Event>, p: nat): State
    requires i < |s.executions| && p <= |events|
  {
    s.(executions := s.executions[i := s.executions[i].(filled := Flags(Slots(inputs, events[..p])))])
  }

  ghost predicate Watchable(s: State, i: nat, inputs: nat, events: seq<Event>) {
    && i < |s.executions| && s.executions[i].phase == Collecting && s.executions[i].filled == Unsigned(inputs)
    && forall j :: 0 <= j < |events| && events[j].SignatureFor? ==> events[j].id < inputs
  }

  lemma OneMoreSignature(inputs: nat, events: seq<Event>, p: nat)
    requires p < |events|
    ensures var before, after := Slots(inputs, events[..p]), Slots(inputs, events[..p + 1]);
            match events[p]
            case SignatureFor(id, signature) => id < inputs ==> Flags(after) == Flags(before)[id := signature != []]
            case _ => after == before
  {
    assert events[..p + 1][..p] == events[..p];
  }

  /** An event that does not end the watch is at most one more signature. */
  lemma CollectOne(s: State, i: nat, inputs: nat, events: seq<Event>, p: nat, sendOk: bool)
    requires Watchable(s, i, inputs, events) && p < |events| && !Ends(inputs, events, p)
    ensures var before, after := Progressed(s, i, inputs, events, p), Progressed(s, i, inputs, events, p + 1);
            if !events[p].SignatureFor? then after == before
            else
              var step := Sign(i, events[p].id, events[p].signature != [], sendOk);
              Enabled(before, step) && Apply(before, step) == after
  {
    OneMoreSignature(inputs, events, p);
  }

  lemma NothingCollected(s: State, i: nat, inputs: nat, events: seq<Event>)
    requires Watchable(s, i, inputs, events)
    ensures Progressed(s, i, inputs, events, 0) == s
  {
    UnsignedFlags(inputs);
    assert events[..0] == [];
  }

  /** Up to the first ending event the execution only collects. */
  lemma {:induction false} CollectingIsARun(s: State, i: nat, inputs: nat, events: seq<Event>, p: nat, sendOk: bool)
    returns (steps: seq<Step>)
    requires Watchable(s, i, inputs, events) && p <= |events|
    requires forall j :: 0 <= j < p ==> !Ends(inputs, events, j)
    ensures Leads(s, steps, Progressed(s, i, inputs, events, p))
    decreases p
  {
    if p == 0 {
      NothingCollected(s, i, inputs, events);
      steps := [];
    } else {
      steps := CollectingIsARun(s, i, inputs, events, p - 1, sendOk);
      assert !Ends(inputs, events, p - 1);
      CollectOne(s, i, inputs, events, p - 1, sendOk);
      if events[p - 1].SignatureFor? {
        var step := Sign(i, events[p - 1].id, events[p - 1].signature != [], sendOk);
        LeadsNext(s, steps, Progressed(s, i, inputs, events, p - 1), step);
        steps := steps + [step];
      }
    }
  }

  /** The ending event finishes the execution with the outcome of the watch. */
  lemma EndingIsARun(s: State, i: nat, inputs: nat, events: seq<Event>, at: nat, sendOk: bool)
    returns (steps: seq<Step>, s': State)
    requires Watchable(s, i, inputs, events) && at < |events| && Ends(inputs, events, at)
    ensures Leads(Progressed(s, i, inputs, events, at), steps, s')
    ensures Finished(s, i, OutcomeOf(events[at], Slots(inputs, events[..at + 1]), sendOk), s')
  {
    var t, transfers := Progressed(s, i, inputs, events, at), s.executions[i].transfers;
    OneMoreSignature(inputs, events, at);
    assert Leads(t, [], t);
    if events[at].SignatureFor? {
      var sign := Sign(i, events[at].id, events[at].signature != [], sendOk);
      var sent := Apply(t, sign);
      assert sent.executions[i].phase == Broadcast(sendOk);
      AllWritten(transfers);
      LeadsNext(t, [], t, sign);
      LeadsNext(t, [] + [sign], sent, Record(i));
      steps, s' := [] + [sign] + [Record(i)], Apply(sent, Record(i));
    } else {
      LeadsNext(t, [], t, Abandon(i));
      steps, s' := [] + [Abandon(i)], Apply(t, Abandon(i));
    }
  }

  /** What is left of an execution after its watch: the statuses, its phase, and what was sent. */
  ghost predicate Finished(s: State, i: nat, outcome: Outcome, s': State)
    requires i < |s.executions|
  {
    var transfers := s.executions[i].transfers;
    && s'.table == Marked(s.table, transfers, outcome, {})
    && s'.sent == (if outcome.Sent? then s.sent + multiset(KeyList(transfers)) else s.sent)
    && |s'.executions| == |s.executions|
    && s'.executions[i].transfers == transfers && s'.executions[i].phase == Over(outcome.Sent?)
    && forall j :: 0 <= j < |s.executions| && j != i ==> s'.executions[j] == s.executions[j]
  }

  /**
   Whatever a watch does up to its first ending event is a run of the execution's own steps, without any
   retry, with the same statuses as the watch leaves, and with a transaction sent exactly if the watch sent one.
   */
  lemma WatchIsARun(s: State, i: nat, inputs: nat, events: seq<Event>, at: nat, sendOk: bool)
    returns (steps: seq<Step>, s': State)
    requires Watchable(s, i, inputs, events) && at < |events| && Ends(inputs, events, at)
    requires forall j :: 0 <= j < at ==> !Ends(inputs, events, j)
    ensures Leads(s, steps, s')
    ensures Finished(s, i, OutcomeOf(events[at], Slots(inputs, events[..at + 1]), sendOk), s')
  {
    var first := CollectingIsARun(s, i, inputs, events, at, sendOk);
    var second, end := EndingIsARun(s, i, inputs, events, at, sendOk);
    LeadsOn(s, first, second, Progressed(s, i, inputs, events, at), end);
    steps, s' := first + second, end;
  }
}
