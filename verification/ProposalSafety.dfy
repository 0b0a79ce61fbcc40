/** No proposal is worked on twice at a time or paid out twice, as long as retries spare live executions. */
module ProposalSafety {
  import opened Seqs
  import opened Filters
  import opened PropStore
  import opened ProposalClaims
  import opened ProposalRuns

  // ----- grouping -----

  lemma {:induction false} GroupIsExact(transfers: seq<Transfer>, resource: string)
    ensures forall t :: t in Group(transfers, resource) <==> t in transfers && t.resource == resource
    ensures DistinctTransfers(transfers) ==> DistinctTransfers(Group(transfers, resource))
  {
    if transfers != [] {
      var front, last := transfers[..|transfers| - 1], transfers[|transfers| - 1];
      GroupIsExact(front, resource);
      assert transfers == front + [last];
    }
  }

  /** A group lists the transfers of its resource in the order of all transfers. */
  lemma {:induction false} GroupFilters(transfers: seq<Transfer>, resource: string, kept: set<int>)
    requires forall i :: 0 <= i < |transfers| ==> (i in kept <==> transfers[i].resource == resource)
    ensures IsFilter(Group(transfers, resource), transfers, kept)
  {
    if transfers == [] {
      FilterNothing<Transfer>(kept);
    } else {
      var front, last := transfers[..|transfers| - 1], transfers[|transfers| - 1];
      assert transfers == front + [last];
      GroupFilters(front, resource, kept);
      FilterOneMore(Group(front, resource), front, last, kept);
    }
  }

  lemma {:induction false} ResourcesAreExact(transfers: seq<Transfer>)
    ensures forall r :: r in Resources(transfers) <==> exists t :: t in transfers && t.resource == r
  {
    if transfers != [] {
      var front, last := transfers[..|transfers| - 1], transfers[|transfers| - 1];
      ResourcesAreExact(front);
      assert transfers == front + [last];
    }
  }

  lemma {:induction false} ResourcesDistinct(transfers: seq<Transfer>)
    ensures Distinct(Resources(transfers))
  {
    if transfers != [] {
      ResourcesDistinct(transfers[..|transfers| - 1]);
    }
  }

  ghost predicate FromClaim(e: Execution, claimed: seq<Transfer>, resources: seq<string>) {
    && e.phase == Collecting && DistinctTransfers(e.transfers)
    && forall t :: t in e.transfers ==> t in claimed && t.resource in resources
  }

  /** Executions for different resources share no proposal. */
  lemma DifferentResources(e: Execution, claimed: seq<Transfer>, resources: seq<string>, r: string)
    requires DistinctTransfers(claimed) && FromClaim(e, claimed, resources) && r !in resources
    ensures Keys(e.transfers) !! Keys(Group(claimed, r))
  {
    GroupIsExact(claimed, r);
    forall k | k in Keys(e.transfers) ensures k !in Keys(Group(claimed, r)) {
      var t :| t in e.transfers && t.key == k;
      forall u | u in Group(claimed, r) ensures u.key != k {
        assert t in claimed && u in claimed && t.resource != u.resource;
      }
    }
  }

  ghost predicate Split(launched: seq<Execution>, claimed: seq<Transfer>, resources: seq<string>) {
    && (forall i :: 0 <= i < |launched| ==> FromClaim(launched[i], claimed, resources))
    && (forall i, j :: 0 <= i < j < |launched| ==> Keys(launched[i].transfers) !! Keys(launched[j].transfers))
  }

  /** The launched executions split the claimed transfers without overlap. */
  lemma {:induction false} LaunchSplits(claimed: seq<Transfer>, resources: seq<string>, inputs: map<string, nat>)
    requires DistinctTransfers(claimed) && Distinct(resources)
    ensures Split(Launch(claimed, resources, inputs), claimed, resources)
  {
    if resources != [] {
      var front, r := resources[..|resources| - 1], resources[|resources| - 1];
      LaunchSplits(claimed, front, inputs);
      GroupIsExact(claimed, r);
      assert resources == front + [r];
      var before := Launch(claimed, front, inputs);
      forall i | 0 <= i < |before|
        ensures FromClaim(before[i], claimed, resources) && Keys(before[i].transfers) !! Keys(Group(claimed, r))
      {
        DifferentResources(before[i], claimed, front, r);
      }
    }
  }

  /** An execution of exactly the claimed transfers of one resource, with no signature for any of its inputs. */
  ghost predicate ExecutesResource(e: Execution, claimed: seq<Transfer>, r: string, inputs: map<string, nat>) {
    && r in inputs && e.phase == Collecting
    && (forall t :: t in e.transfers <==> t in claimed && t.resource == r)
    && |e.filled| == inputs[r] && forall i :: 0 <= i < |e.filled| ==> !e.filled[i]
  }

  lemma {:induction false} UnsignedIsEmpty(n: nat)
    ensures |Unsigned(n)| == n && forall i :: 0 <= i < n ==> !Unsigned(n)[i]
  {
    if n > 0 {
      UnsignedIsEmpty(n - 1);
    }
  }

  /** Every resource whose transaction can be built gets an execution, in order, and nothing else does. */
  lemma {:induction false} LaunchIsExact(claimed: seq<Transfer>, resources: seq<string>, inputs: map<string, nat>)
    returns (started: seq<string>)
    ensures |started| == |Launch(claimed, resources, inputs)|
    ensures forall r :: r in started <==> r in resources && r in inputs
    ensures forall i :: 0 <= i < |started| ==>
                          ExecutesResource(Launch(claimed, resources, inputs)[i], claimed, started[i], inputs)
  {
    started := [];
    if resources != [] {
      var front, r := resources[..|resources| - 1], resources[|resources| - 1];
      assert resources == front + [r];
      started := LaunchIsExact(claimed, front, inputs);
      if r in inputs {
        GroupIsExact(claimed, r);
        UnsignedIsEmpty(inputs[r]);
        started := started + [r];
      }
    }
  }

  /** The executions from `n` on execute the resources listed, which are the buildable ones of the claim. */
  ghost predicate StartsExactly(s: State, n: nat, claimed: seq<Transfer>, inputs: map<string, nat>,
                                started: seq<string>)
  {
    && |s.executions| == n + |started|
    && (forall r :: r in started <==> r in inputs && exists t :: t in claimed && t.resource == r)
    && forall i :: 0 <= i < |started| ==> ExecutesResource(s.executions[n + i], claimed, started[i], inputs)
  }

  /** After an Execute step the old executions are as they were, and the new ones are exactly those to be started. */
  lemma ExecuteStartsAll(s: State, step: Step) returns (started: seq<string>)
    requires step.Execute?
    ensures var s', n := Apply(s, step), |s.executions|;
            && n <= |s'.executions| && s'.executions[..n] == s.executions
            && StartsExactly(s', n, Claim(s.table, step.proposals).1, step.inputs, started)
  {
    var claimed := Claim(s.table, step.proposals).1;
    started := LaunchIsExact(claimed, Resources(claimed), step.inputs);
    ResourcesAreExact(claimed);
  }

  /** A new execution holds a key exactly if the key was claimed with a resource whose transaction could be built. */
  lemma NewlyHeldIff(s: State, n: nat, claimed: seq<Transfer>, inputs: map<string, nat>,
                     started: seq<string>, k: Triple)
    requires StartsExactly(s, n, claimed, inputs, started)
    ensures (exists i: nat :: i >= n && HeldBy(s, i, k)) <==>
              exists t :: t in claimed && t.key == k && t.resource in inputs
  {
    if t :| t in claimed && t.key == k && t.resource in inputs {
      var j :| 0 <= j < |started| && started[j] == t.resource;
      assert ExecutesResource(s.executions[n + j], claimed, started[j], inputs);
      assert HeldBy(s, n + j, k);
    }
    forall i: nat | i >= n && HeldBy(s, i, k)
      ensures exists t :: t in claimed && t.key == k && t.resource in inputs
    {
      assert ExecutesResource(s.executions[n + (i - n)], claimed, started[i - n], inputs);
      var t :| t in s.executions[i].transfers && t.key == k;
      assert t in claimed && t.resource == started[i - n];
    }
  }

  lemma {:induction false} KeyListCounts(transfers: seq<Transfer>, k: Triple)
    requires DistinctTransfers(transfers)
    ensures multiset(KeyList(transfers))[k] == if k in Keys(transfers) then 1 else 0
  {
    if transfers != [] {
      var front, last := transfers[..|transfers| - 1], transfers[|transfers| - 1];
      KeyListCounts(front, k);
      assert transfers == front + [last];
      KeysAppend(front, last);
      assert forall t :: t in front ==> t.key != last.key;
    }
  }

  // ----- every step keeps the invariant -----

  /** Who holds what after new executions were launched. */
  lemma LaunchHoldings(s: State, step: Step)
    requires Exclusive(s) && step.Execute?
    ensures var s', n, claimed := Apply(s, step), |s.executions|, Claim(s.table, step.proposals).1;
            && (forall i: nat, k :: HeldBy(s', i, k) && i < n ==> HeldBy(s, i, k) && k !in Keys(claimed))
            && (forall i: nat, k :: HeldBy(s', i, k) && i >= n ==> k in Keys(claimed))
            && OneHolder(s')
  {
    var s', n := Apply(s, step), |s.executions|;
    var claimed := Claim(s.table, step.proposals).1;
    var launched := Launch(claimed, Resources(claimed), step.inputs);
    ClaimIsExact(s.table, step.proposals);
    ResourcesDistinct(claimed);
    LaunchSplits(claimed, Resources(claimed), step.inputs);
    assert s'.executions == s.executions + launched;
    forall i: nat, k | HeldBy(s', i, k) && i < n
      ensures HeldBy(s, i, k) && k !in Keys(claimed)
    {
      assert HeldBy(s, i, k);
    }
    forall i: nat, k | HeldBy(s', i, k) && i >= n
      ensures k in Keys(launched[i - n].transfers) && k in Keys(claimed)
    {
      var t :| t in launched[i - n].transfers && t.key == k;
      assert FromClaim(launched[i - n], claimed, Resources(claimed));
      assert t in claimed;
    }
    forall i: nat | Live(s', i) ensures DistinctTransfers(s'.executions[i].transfers) {
      if i < n {
        assert Live(s, i);
      } else {
        assert FromClaim(launched[i - n], claimed, Resources(claimed));
      }
    }
  }

  lemma ExecuteKeepsExclusive(s: State, step: Step)
    requires Exclusive(s) && step.Execute?
    ensures Exclusive(Apply(s, step))
  {
    var s' := Apply(s, step);
    ClaimIsExact(s.table, step.proposals);
    LaunchHoldings(s, step);
    forall k | k in s'.sent
      ensures Status(s'.table, k) == Executed || exists i: nat :: BeingRecorded(s', i, k)
    {
      if Status(s.table, k) != Executed {
        var i: nat :| BeingRecorded(s, i, k);
        assert BeingRecorded(s', i, k);
      }
    }
  }

  /** Collecting a signature changes neither the table nor who holds what. */
  lemma SignKeepsHoldings(s: State, step: Step)
    requires Exclusive(s) && step.Sign? && Enabled(s, step)
    ensures OneHolder(Apply(s, step)) && HeldIsPending(Apply(s, step))
    ensures forall i: nat, k :: HeldBy(Apply(s, step), i, k) <==> HeldBy(s, i, k)
  {
    var s' := Apply(s, step);
    forall i: nat
      ensures Live(s', i) == Live(s, i) && (Live(s, i) ==> s'.executions[i].transfers == s.executions[i].transfers)
    { }
    forall i: nat, k ensures HeldBy(s', i, k) <==> HeldBy(s, i, k) { }
  }

  lemma SignKeepsExclusive(s: State, step: Step)
    requires Exclusive(s) && step.Sign? && Enabled(s, step)
    ensures Exclusive(Apply(s, step))
  {
    var s', e := Apply(s, step), s.executions[step.i];
    SignKeepsHoldings(s, step);
    forall k
      ensures s'.sent[k] <= 1
      ensures k in s'.sent ==> Status(s'.table, k) == Executed || exists i: nat :: BeingRecorded(s', i, k)
    {
      KeyListCounts(e.transfers, k);
      if k in Keys(e.transfers) {
        assert HeldBy(s, step.i, k);
        assert k !in s.sent;
        assert s'.sent != s.sent ==> BeingRecorded(s', step.i, k);
      } else if k in s.sent && Status(s.table, k) != Executed {
        var i: nat :| BeingRecorded(s, i, k);
        assert BeingRecorded(s', i, k);
      }
    }
  }

  lemma EndKeepsExclusive(s: State, step: Step)
    requires Exclusive(s) && (step.Record? || step.Abandon?) && Enabled(s, step)
    ensures Exclusive(Apply(s, step))
  {
    var s', e := Apply(s, step), s.executions[step.i];
    if step.Record? {
      SetAllIsExact(s.table, e.transfers, if e.phase.ok then Executed else Failed);
    }
    forall k | k in Keys(e.transfers) ensures HeldBy(s, step.i, k) { }
    forall i: nat, k | HeldBy(s', i, k) ensures HeldBy(s, i, k) && k !in Keys(e.transfers) {
      assert HeldBy(s, i, k);
    }
    forall i: nat | Live(s', i) ensures DistinctTransfers(s'.executions[i].transfers) {
      assert Live(s, i);
    }
    forall k | k in s'.sent
      ensures Status(s'.table, k) == Executed || exists i: nat :: BeingRecorded(s', i, k)
    {
      if Status(s.table, k) != Executed {
        var i: nat :| BeingRecorded(s, i, k);
        assert i != step.i ==> BeingRecorded(s', i, k);
      }
    }
  }

  lemma RetriedKeys(table: Table, deposits: seq<Transfer>, resource: string, k: Triple)
    requires Status(table, k) != Executed
    ensures k in Keys(Unexecuted(table, deposits, resource)) <==>
              exists d :: d in deposits && d.resource == resource && d.key == k
  {
    UnexecutedIsExact(table, deposits, resource);
  }

  lemma {:induction false} UnexecutedIsExact(table: Table, deposits: seq<Transfer>, resource: string)
    ensures forall d :: d in Unexecuted(table, deposits, resource) <==>
                          d in deposits && d.resource == resource && Status(table, d.key) != Executed
  {
    if deposits != [] {
      var front, last := deposits[..|deposits| - 1], deposits[|deposits| - 1];
      UnexecutedIsExact(table, front, resource);
      assert deposits == front + [last];
    }
  }

  /** A retry keeps executions exclusive exactly when it spares what live executions hold. */
  lemma RetryKeepsExclusiveIff(s: State, step: Step)
    requires Exclusive(s) && step.RetryDeposits?
    ensures Exclusive(Apply(s, step)) <==> SafeStep(s, step)
  {
    var s' := Apply(s, step);
    RetryIsExact(s.table, step.deposits, step.resource);
    forall i: nat, k ensures HeldBy(s', i, k) <==> HeldBy(s, i, k) { }
    if SafeStep(s, step) {
      forall i: nat, k | HeldBy(s', i, k) ensures Status(s'.table, k) == Pending {
        assert Held(s, k);
        RetriedKeys(s.table, step.deposits, step.resource, k);
      }
      forall i: nat | Live(s', i) ensures DistinctTransfers(s'.executions[i].transfers) {
        assert Live(s, i);
      }
      forall k | k in s'.sent && Status(s'.table, k) != Executed
        ensures exists i: nat :: BeingRecorded(s', i, k)
      {
        var i: nat :| BeingRecorded(s, i, k);
        assert BeingRecorded(s', i, k);
      }
    } else {
      var d :| d in step.deposits && d.resource == step.resource && Held(s, d.key);
      var i: nat :| HeldBy(s, i, d.key);
      RetriedKeys(s.table, step.deposits, step.resource, d.key);
      assert HeldBy(s', i, d.key) && Status(s'.table, d.key) == Failed;
    }
  }

  /** The keys listed for a transaction are those of its transfers. */
  lemma {:induction false} KeyListMembers(transfers: seq<Transfer>, k: Triple)
    ensures k in multiset(KeyList(transfers)) <==> k in Keys(transfers)
  {
    if transfers != [] {
      var front, last := transfers[..|transfers| - 1], transfers[|transfers| - 1];
      KeyListMembers(front, k);
      assert transfers == front + [last];
      KeysAppend(front, last);
    }
  }

  /** Launched executions have paid nothing yet, and the others keep what they have paid. */
  lemma LaunchedUnpaid(s: State, step: Step, i: nat, k: Triple)
    requires step.Execute?
    ensures Paid(Apply(s, step), i, k) <==> Paid(s, i, k)
  {
    var claimed := Claim(s.table, step.proposals).1;
    LaunchCollects(claimed, Resources(claimed), step.inputs);
  }

  lemma {:induction false} LaunchCollects(claimed: seq<Transfer>, resources: seq<string>, inputs: map<string, nat>)
    ensures forall i :: 0 <= i < |Launch(claimed, resources, inputs)| ==>
                          Launch(claimed, resources, inputs)[i].phase == Collecting
  {
    if resources != [] {
      LaunchCollects(claimed, resources[..|resources| - 1], inputs);
    }
  }

  /** Who has paid what after a step: as before, except that a last signature may add one transaction. */
  lemma PaidAfter(s: State, step: Step, i: nat, k: Triple)
    requires Enabled(s, step) && SentWhenSigned(s)
    ensures Paid(Apply(s, step), i, k) <==>
              Paid(s, i, k) || (Sends(s, step) && i == step.i && k in Keys(s.executions[i].transfers))
  {
    if step.Execute? {
      LaunchedUnpaid(s, step, i, k);
    }
  }

  /** The step signs the last open input, and the transaction is accepted. */
  predicate Sends(s: State, step: Step)
    requires Enabled(s, step)
  {
    step.Sign? && step.sendOk && Complete(s.executions[step.i].filled[step.slot := step.present])
  }

  /** What has been sent after a step. */
  lemma SentAfter(s: State, step: Step, k: Triple)
    requires Enabled(s, step)
    ensures k in Apply(s, step).sent <==>
              k in s.sent || (Sends(s, step) && k in Keys(s.executions[step.i].transfers))
  {
    if step.Sign? {
      KeyListMembers(s.executions[step.i].transfers, k);
    }
  }

  lemma SentIffPaid(s: State, step: Step, k: Triple)
    requires Enabled(s, step) && SentWhenSigned(s)
    ensures k in Apply(s, step).sent ==> exists i: nat :: Paid(Apply(s, step), i, k)
    ensures forall i: nat :: Paid(Apply(s, step), i, k) ==> k in Apply(s, step).sent
  {
    SentAfter(s, step, k);
    forall i: nat | Paid(Apply(s, step), i, k) ensures k in Apply(s, step).sent {
      PaidAfter(s, step, i, k);
    }
    if k in s.sent {
      var i: nat :| Paid(s, i, k);
      PaidAfter(s, step, i, k);
    } else if Sends(s, step) {
      PaidAfter(s, step, step.i, k);
    }
  }

  /** Every step, safe or not, sends only fully signed transactions. */
  lemma StepSendsWhenSigned(s: State, step: Step)
    requires Enabled(s, step) && SentWhenSigned(s)
    ensures SentWhenSigned(Apply(s, step))
  {
    BroadcastIsComplete(s, step);
    forall k ensures k in Apply(s, step).sent <==> exists i: nat :: Paid(Apply(s, step), i, k) {
      SentIffPaid(s, step, k);
    }
  }

  lemma BroadcastIsComplete(s: State, step: Step)
    requires Enabled(s, step) && SentWhenSigned(s)
    ensures forall i: nat :: i < |Apply(s, step).executions| && Apply(s, step).executions[i].phase.Broadcast? ==>
                               Complete(Apply(s, step).executions[i].filled)
  {
    if step.Execute? {
      var claimed := Claim(s.table, step.proposals).1;
      LaunchCollects(claimed, Resources(claimed), step.inputs);
    }
  }

  /** A retry keeps the invariant exactly when it spares what live executions hold. */
  lemma RetryKeepsInvIff(s: State, step: Step)
    requires Inv(s) && step.RetryDeposits?
    ensures Inv(Apply(s, step)) <==> SafeStep(s, step)
  {
    RetryKeepsExclusiveIff(s, step);
    StepSendsWhenSigned(s, step);
  }

  lemma StepKeepsInv(s: State, step: Step)
    requires Inv(s) && Enabled(s, step) && SafeStep(s, step)
    ensures Inv(Apply(s, step))
  {
    StepSendsWhenSigned(s, step);
    match step
    case Execute(_, _) => ExecuteKeepsExclusive(s, step);
    case Sign(_, _, _, _) => SignKeepsExclusive(s, step);
    case Record(_) => EndKeepsExclusive(s, step);
    case Abandon(_) => EndKeepsExclusive(s, step);
    case RetryDeposits(_, _) => RetryKeepsExclusiveIff(s, step);
  }

  lemma StepKeepsExecuted(s: State, step: Step, k: Triple)
    requires Exclusive(s) && Enabled(s, step) && Status(s.table, k) == Executed
    ensures Status(Apply(s, step).table, k) == Executed
  {
    match step
    case Execute(proposals, _) => ClaimIsExact(s.table, proposals);
    case Sign(_, _, _, _) =>
    case Abandon(_) =>
    case Record(i) =>
      SetAllIsExact(s.table, s.executions[i].transfers, if s.executions[i].phase.ok then Executed else Failed);
      assert k in Keys(s.executions[i].transfers) ==> HeldBy(s, i, k);
    case RetryDeposits(deposits, resource) => RetryIsExact(s.table, deposits, resource);
  }

  lemma {:induction false} RunKeepsInv(s: State, steps: seq<Step>, k: Triple)
    requires Inv(s) && Run(s, steps) && SafeRun(s, steps)
    ensures Inv(Final(s, steps))
    ensures Status(s.table, k) == Executed ==> Status(Final(s, steps).table, k) == Executed
    decreases |steps|
  {
    if steps != [] {
      StepKeepsInv(s, steps[0]);
      if Status(s.table, k) == Executed {
        StepKeepsExecuted(s, steps[0], k);
      }
      RunKeepsInv(Apply(s, steps[0]), steps[1..], k);
    }
  }

  lemma {:induction false} SplitRun(s: State, steps: seq<Step>, m: nat)
    requires Run(s, steps) && SafeRun(s, steps) && m <= |steps|
    ensures Run(s, steps[..m]) && SafeRun(s, steps[..m])
    ensures var s' := Final(s, steps[..m]);
            Run(s', steps[m..]) && SafeRun(s', steps[m..]) && Final(s', steps[m..]) == Final(s, steps)
    decreases m
  {
    if m == 0 {
      assert steps[0..] == steps;
    } else {
      SplitRun(Apply(s, steps[0]), steps[1..], m - 1);
      assert steps[..m][1..] == steps[1..][..m - 1] && steps[m..] == steps[1..][m - 1..];
    }
  }

  /**
   Over every run whose retries spare live executions, from any initial table: a proposal has at most
   one live execution and is Pending while it has one; once Executed, at whatever point of the run, it
   stays so; it is broadcast successfully at most once, and exactly if some execution did so with a
   signature for each of its inputs.
   */
  lemma ProposalsAreSafe(table: Table, steps: seq<Step>, m: nat, k: Triple)
    requires Run(State(table, [], multiset{}), steps) && SafeRun(State(table, [], multiset{}), steps) && m <= |steps|
    ensures Run(State(table, [], multiset{}), steps[..m])
    ensures var s := Final(State(table, [], multiset{}), steps);
            && (forall i: nat, j: nat :: HeldBy(s, i, k) && HeldBy(s, j, k) ==> i == j)
            && (Held(s, k) ==> Status(s.table, k) == Pending)
            && s.sent[k] <= 1
            && (k in s.sent <==> exists i: nat :: Paid(s, i, k))
    ensures Status(Final(State(table, [], multiset{}), steps[..m]).table, k) == Executed ==>
              Status(Final(State(table, [], multiset{}), steps).table, k) == Executed
  {
    var s0 := State(table, [], multiset{});
    SplitRun(s0, steps, m);
    RunKeepsInv(s0, steps[..m], k);
    RunKeepsInv(Final(s0, steps[..m]), steps[m..], k);
  }
}
