/** Which retries can end in a second payment: exactly those of a proposal that an execution can still act on. */
module RetryDiscipline {
  import opened PropStore
  import opened ProposalClaims
  import opened ProposalRuns
  import opened ProposalSafety

  predicate RetryFree(steps: seq<Step>) {
    forall i :: 0 <= i < |steps| ==> !steps[i].RetryDeposits?
  }

  /** The steps, none of them a retry, lead from one state to the other. */
  ghost predicate Leads(s: State, steps: seq<Step>, s': State) {
    Run(s, steps) && RetryFree(steps) && Final(s, steps) == s'
  }

  lemma {:induction false} LeadsOn(s: State, first: seq<Step>, second: seq<Step>, s': State, s'': State)
    requires Leads(s, first, s') && Leads(s', second, s'')
    ensures Leads(s, first + second, s'')
    decreases |first|
  {
    if first == [] {
      assert first + second == second;
    } else {
      assert (first + second)[1..] == first[1..] + second;
      LeadsOn(Apply(s, first[0]), first[1..], second, s', s'');
    }
  }

  lemma LeadsNext(s: State, steps: seq<Step>, s': State, step: Step)
    requires Leads(s, steps, s') && Enabled(s', step) && !step.RetryDeposits?
    ensures Leads(s, steps + [step], Apply(s', step))
  {
    assert [step][1..] == [] && Final(Apply(s', step), []) == Apply(s', step);
    LeadsOn(s, steps, [step], s', Apply(s', step));
  }

  // ----- a retry that is followed by a second payment -----

  function Go(t: Transfer): Step {
    Execute([t], map[t.resource := 1])
  }

  lemma ClaimOne(s: State, t: Transfer)
    requires Claimable(s.table, t.key)
    ensures Apply(s, Go(t)) ==
            State(s.table[t.key := Pending], s.executions + [Execution([t], [false], Collecting)], s.sent)
  {
    assert [t][..0] == [] && [t.resource][..0] == [];
    assert Claim(s.table, []) == (s.table, []);
    assert Resources([]) == [] && Resources([t]) == [t.resource];
    assert Launch([t], [], map[t.resource := 1]) == [];
    assert Group([], t.resource) == [] && Group([t], t.resource) == [t];
    assert Unsigned(0) == [] && Unsigned(1) == [false];
  }

  lemma RetryOne(s: State, t: Transfer)
    requires Status(s.table, t.key) == Pending
    ensures Apply(s, RetryDeposits([t], t.resource)) == s.(table := s.table[t.key := Failed])
  {
    assert [t][..0] == [];
    assert Retry(s.table, [], t.resource) == (s.table, []);
  }

  lemma FirstAndLast(s: State, step: Step, steps: seq<Step>, s': State)
    requires Enabled(s, step) && !step.RetryDeposits? && Leads(Apply(s, step), steps, s')
    ensures Leads(s, [step] + steps, s')
  {
    assert ([step] + steps)[1..] == steps;
  }

  /** All open inputs of an execution from `p` on get signed, and its transaction goes out. */
  lemma {:induction false} SignAll(s: State, i: nat, p: nat) returns (steps: seq<Step>, s': State)
    requires i < |s.executions| && s.executions[i].phase == Collecting && p < |s.executions[i].filled|
    requires forall q :: 0 <= q < p ==> s.executions[i].filled[q]
    ensures Leads(s, steps, s') && s'.sent == s.sent + multiset(KeyList(s.executions[i].transfers))
    ensures |s'.executions| == |s.executions|
    ensures forall j :: 0 <= j < |s.executions| && j != i ==> s'.executions[j] == s.executions[j]
    decreases |s.executions[i].filled| - p
  {
    var step := Sign(i, p, true, true);
    var s1 := Apply(s, step);
    if s1.executions[i].phase != Collecting {
      assert Leads(s, [], s);
      LeadsNext(s, [], s, step);
      steps, s' := [] + [step], s1;
    } else {
      assert s1.executions[i].filled == s.executions[i].filled[p := true];
      steps, s' := SignAll(s1, i, p + 1);
      FirstAndLast(s, step, steps, s');
      steps := [step] + steps;
    }
  }

  /** A claimable proposal can be claimed and paid, and nobody else is touched. */
  lemma ClaimAndPay(s: State, d: Transfer) returns (steps: seq<Step>, s': State)
    requires Claimable(s.table, d.key)
    ensures Leads(s, steps, s') && s'.sent == s.sent + multiset{d.key}
    ensures forall j :: 0 <= j < |s.executions| ==> j < |s'.executions| && s'.executions[j] == s.executions[j]
  {
    ClaimOne(s, d);
    var s1 := Apply(s, Go(d));
    steps, s' := SignAll(s1, |s.executions|, 0);
    FirstAndLast(s, Go(d), steps, s');
    steps := [Go(d)] + steps;
    OneKey(d);
  }

  lemma OneKey(d: Transfer)
    ensures multiset(KeyList([d])) == multiset{d.key}
  {
    assert [d][..0] == [] && KeyList([]) == [];
    assert KeyList([d]) == [d.key];
  }

  /** An execution that is waiting for signatures of some inputs, or whose transaction is out but not recorded. */
  predicate Armed(e: Execution) {
    e.phase.Broadcast? || (e.phase == Collecting && e.filled != [])
  }

  ghost predicate HeldArmed(s: State, k: Triple) {
    exists i: nat :: HeldBy(s, i, k) && Armed(s.executions[i])
  }

  /** A held key has been sent exactly if its holder's transaction went out. */
  lemma SentByHolder(s: State, i: nat, k: Triple)
    requires Inv(s) && HeldBy(s, i, k)
    ensures Status(s.table, k) == Pending
    ensures s.sent[k] == if s.executions[i].phase == Broadcast(true) then 1 else 0
  {
    assert forall j: nat :: BeingRecorded(s, j, k) ==> HeldBy(s, j, k);
    if s.executions[i].phase == Broadcast(true) {
      assert Paid(s, i, k);
    }
  }

  /** The holder still collects: a second execution is paid, then the holder itself. */
  lemma CollectingPaysTwice(s: State, i: nat, d: Transfer) returns (steps: seq<Step>, s': State)
    requires i < |s.executions| && s.executions[i].phase == Collecting && s.executions[i].filled != []
    requires DistinctTransfers(s.executions[i].transfers) && d.key in Keys(s.executions[i].transfers)
    requires Claimable(s.table, d.key)
    ensures Leads(s, steps, s') && s'.sent[d.key] == s.sent[d.key] + 2
  {
    var first, s1 := ClaimAndPay(s, d);
    var second, s2 := SignAll(s1, i, 0);
    LeadsOn(s, first, second, s1, s2);
    KeyListCounts(s.executions[i].transfers, d.key);
    steps, s' := first + second, s2;
  }

  /** The holder's broadcast failed: recording that makes the proposal claimable once more. */
  lemma FailurePaysTwice(s: State, i: nat, d: Transfer) returns (steps: seq<Step>, s': State)
    requires i < |s.executions| && s.executions[i].phase == Broadcast(false)
    requires d.key in Keys(s.executions[i].transfers) && Claimable(s.table, d.key)
    ensures Leads(s, steps, s') && s'.sent[d.key] == s.sent[d.key] + 2
  {
    var first, s1 := ClaimAndPay(s, d);
    var s2 := Apply(s1, Record(i));
    SetAllIsExact(s1.table, s1.executions[i].transfers, Failed);
    LeadsNext(s, first, s1, Record(i));
    var second, s3 := ClaimAndPay(s2, d);
    LeadsOn(s, first + [Record(i)], second, s2, s3);
    steps, s' := first + [Record(i)] + second, s3;
  }

  /** Whenever the invariant holds, a retry of a proposal that an armed execution holds can go on to pay it twice. */
  lemma UnsafeRetryPaysTwice(s: State, d: Transfer) returns (steps: seq<Step>)
    requires Inv(s) && HeldArmed(s, d.key)
    ensures PaysTwice(s, d, steps)
  {
    var i: nat :| HeldBy(s, i, d.key) && Armed(s.executions[i]);
    SentByHolder(s, i, d.key);
    RetryOne(s, d);
    var s1 := Apply(s, RetryDeposits([d], d.resource));
    var s2;
    match s.executions[i].phase {
      case Collecting => steps, s2 := CollectingPaysTwice(s1, i, d);
      case Broadcast(true) => steps, s2 := ClaimAndPay(s1, d);
      case Broadcast(false) => steps, s2 := FailurePaysTwice(s1, i, d);
    }
    assert ([RetryDeposits([d], d.resource)] + steps)[1..] == steps;
  }

  /** After a retry of the deposit, these steps, which retry nothing else, end with two payments of it. */
  ghost predicate PaysTwice(s: State, d: Transfer, steps: seq<Step>) {
    var run := [RetryDeposits([d], d.resource)] + steps;
    RetryFree(steps) && Run(s, run) && Final(s, run).sent[d.key] == 2
  }

  // ----- executions without inputs can never pay -----

  /** An execution that waits for signatures of no inputs counts as ended. */
  function Disarmed(e: Execution): Execution {
    if e.phase.Over? || Armed(e) then e else e.(phase := Over(false))
  }

  function DisarmAll(es: seq<Execution>): (r: seq<Execution>)
    ensures |r| == |es| && forall i :: 0 <= i < |es| ==> r[i] == Disarmed(es[i])
  {
    if es == [] then [] else DisarmAll(es[..|es| - 1]) + [Disarmed(es[|es| - 1])]
  }

  function Disarm(s: State): State {
    s.(executions := DisarmAll(s.executions))
  }

  lemma {:induction false} DisarmKeepsInv(s: State)
    requires Inv(s)
    ensures Inv(Disarm(s))
  {
    DisarmKeepsExclusive(s);
    var t := Disarm(s);
    forall i: nat, k ensures Paid(t, i, k) <==> Paid(s, i, k) { }
  }

  lemma {:induction false} DisarmKeepsExclusive(s: State)
    requires Exclusive(s)
    ensures Exclusive(Disarm(s))
  {
    var t := Disarm(s);
    forall i: nat, k ensures HeldBy(t, i, k) ==> HeldBy(s, i, k) { }
    forall i: nat, k ensures BeingRecorded(t, i, k) <==> BeingRecorded(s, i, k) { }
    forall i: nat | Live(t, i) ensures DistinctTransfers(t.executions[i].transfers) {
      assert Live(s, i);
    }
  }

  lemma {:induction false} DisarmedHolders(s: State, k: Triple)
    ensures Held(Disarm(s), k) <==> HeldArmed(s, k)
  {
    forall i: nat ensures HeldBy(Disarm(s), i, k) <==> HeldBy(s, i, k) && Armed(s.executions[i]) { }
  }

  lemma {:induction false} SameDisarmed(a: seq<Execution>, b: seq<Execution>)
    requires |a| == |b| && forall i :: 0 <= i < |a| ==> Disarmed(a[i]) == Disarmed(b[i])
    ensures DisarmAll(a) == DisarmAll(b)
  { }

  /** Disarming before a launch or an update makes no difference to disarming after it. */
  lemma {:induction false} DisarmTwice(es: seq<Execution>, more: seq<Execution>)
    ensures DisarmAll(DisarmAll(es) + more) == DisarmAll(es + more)
  {
    forall e: Execution ensures Disarmed(Disarmed(e)) == Disarmed(e) { }
    SameDisarmed(DisarmAll(es) + more, es + more);
  }

  lemma {:induction false} DisarmUpdated(es: seq<Execution>, i: nat, e: Execution)
    requires i < |es|
    ensures DisarmAll(DisarmAll(es)[i := e]) == DisarmAll(es[i := e])
  {
    forall e: Execution ensures Disarmed(Disarmed(e)) == Disarmed(e) { }
    SameDisarmed(DisarmAll(es)[i := e], es[i := e]);
  }

  lemma {:induction false} DisarmedLaunch(s: State, step: Step)
    requires step.Execute?
    ensures Disarm(Apply(Disarm(s), step)) == Disarm(Apply(s, step))
  {
    var claimed := Claim(s.table, step.proposals).1;
    DisarmTwice(s.executions, Launch(claimed, Resources(claimed), step.inputs));
  }

  lemma {:induction false} DisarmedSign(s: State, step: Step)
    requires step.Sign? && Enabled(s, step)
    ensures Enabled(Disarm(s), step) && Disarm(Apply(Disarm(s), step)) == Disarm(Apply(s, step))
  {
    assert Disarm(s).executions[step.i] == s.executions[step.i];
    DisarmUpdated(s.executions, step.i, Apply(s, step).executions[step.i]);
  }

  lemma {:induction false} DisarmedEnd(s: State, step: Step)
    requires (step.Record? || step.Abandon?) && Enabled(s, step) && Armed(s.executions[step.i])
    ensures Enabled(Disarm(s), step) && Disarm(Apply(Disarm(s), step)) == Disarm(Apply(s, step))
  {
    assert Disarm(s).executions[step.i] == s.executions[step.i];
    DisarmUpdated(s.executions, step.i, Apply(s, step).executions[step.i]);
  }

  /** Disarmed or not, a step of an execution that can act, or a launch, has the same effect. */
  lemma {:induction false} DisarmedStep(s: State, step: Step)
    requires Enabled(s, step) && !step.RetryDeposits? && (step.Abandon? ==> Armed(s.executions[step.i]))
    ensures Enabled(Disarm(s), step) && Disarm(Apply(Disarm(s), step)) == Disarm(Apply(s, step))
  {
    if step.Execute? {
      DisarmedLaunch(s, step);
    } else if step.Sign? {
      DisarmedSign(s, step);
    } else {
      DisarmedEnd(s, step);
    }
  }

  lemma {:induction false} StepOfDisarmed(s: State, step: Step)
    requires Enabled(s, step) && !step.RetryDeposits? && Inv(Disarm(s))
    ensures Inv(Disarm(Apply(s, step)))
  {
    if step.Abandon? && !Armed(s.executions[step.i]) {
      SameDisarmed(Apply(s, step).executions, s.executions);
    } else {
      DisarmedStep(s, step);
      StepKeepsInv(Disarm(s), step);
      DisarmKeepsInv(Apply(Disarm(s), step));
    }
  }

  lemma {:induction false} RunOfDisarmed(s: State, steps: seq<Step>)
    requires Run(s, steps) && RetryFree(steps) && Inv(Disarm(s))
    ensures Inv(Disarm(Final(s, steps)))
    decreases |steps|
  {
    if steps != [] {
      StepOfDisarmed(s, steps[0]);
      RunOfDisarmed(Apply(s, steps[0]), steps[1..]);
    }
  }

  lemma SpareRetryPaysOnce(s: State, d: Transfer, steps: seq<Step>)
    requires Inv(s) && !HeldArmed(s, d.key)
    ensures !PaysTwice(s, d, steps)
  {
    var retry := RetryDeposits([d], d.resource);
    if RetryFree(steps) && Run(s, [retry] + steps) {
      assert ([retry] + steps)[1..] == steps;
      DisarmKeepsInv(s);
      DisarmedHolders(s, d.key);
      StepKeepsInv(Disarm(s), retry);
      assert Apply(Disarm(s), retry) == Disarm(Apply(s, retry));
      RunOfDisarmed(Apply(s, retry), steps);
    }
  }

  /**
   From any state of the invariant: retrying a deposit can be followed by two payments of it, without
   any further retry, if and only if an armed execution holds it.
   */
  lemma RetryPaysTwiceIff(s: State, d: Transfer)
    requires Inv(s)
    ensures (exists steps :: PaysTwice(s, d, steps)) <==> HeldArmed(s, d.key)
  {
    if HeldArmed(s, d.key) {
      var steps := UnsafeRetryPaysTwice(s, d);
    } else {
      forall steps ensures !PaysTwice(s, d, steps) {
        SpareRetryPaysOnce(s, d, steps);
      }
    }
  }
}
