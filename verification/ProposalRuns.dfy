/** Executions of Bitcoin proposals over whole runs: claims, signatures, broadcasts and retries interleaved. */
module ProposalRuns {
  import opened PropStore
  import opened ProposalClaims

  /** `ok` says whether the transaction was broadcast successfully. */
  datatype Phase = Collecting | Broadcast(ok: bool) | Over(ok: bool)

  /** One watched execution: its transfers, and for each transaction input whether its signature is there. */
  datatype Execution = Execution(transfers: seq<Transfer>, filled: seq<bool>, phase: Phase)

  /** `sent` counts, per proposal, the transactions that were broadcast successfully. */
  datatype State = State(table: Table, executions: seq<Execution>, sent: multiset<Triple>)

  function KeyList(transfers: seq<Transfer>): seq<Triple> {
    if transfers == [] then [] else KeyList(transfers[..|transfers| - 1]) + [transfers[|transfers| - 1].key]
  }

  // ----- starting executions -----

  function Group(transfers: seq<Transfer>, resource: string): seq<Transfer> {
    if transfers == [] then []
    else
      var before, last := Group(transfers[..|transfers| - 1], resource), transfers[|transfers| - 1];
      if last.resource == resource then before + [last] else before
  }

  function Resources(transfers: seq<Transfer>): seq<string> {
    if transfers == [] then []
    else
      var rest, r := Resources(transfers[..|transfers| - 1]), transfers[|transfers| - 1].resource;
      if r in rest then rest else rest + [r]
  }

  function Unsigned(n: nat): seq<bool> {
    if n == 0 then [] else Unsigned(n - 1) + [false]
  }

  /** One execution per resource; `inputs` says how many inputs its transaction got, if one could be built. */
  function Launch(claimed: seq<Transfer>, resources: seq<string>, inputs: map<string, nat>): seq<Execution> {
    if resources == [] then []
    else
      var before, r := Launch(claimed, resources[..|resources| - 1], inputs), resources[|resources| - 1];
      if r in inputs then before + [Execution(Group(claimed, r), Unsigned(inputs[r]), Collecting)] else before
  }

  // ----- steps and runs -----

  datatype Step =
    | Execute(proposals: seq<Transfer>, inputs: map<string, nat>)
    | Sign(i: nat, slot: nat, present: bool, sendOk: bool)
    | Record(i: nat)
    | Abandon(i: nat)
    | RetryDeposits(deposits: seq<Transfer>, resource: string)

  predicate Complete(filled: seq<bool>) {
    forall i :: 0 <= i < |filled| ==> filled[i]
  }

  predicate Enabled(s: State, step: Step) {
    match step
    case Execute(_, _) => true
    case Sign(i, slot, _, _) =>
      i < |s.executions| && s.executions[i].phase == Collecting && slot < |s.executions[i].filled|
    case Record(i) => i < |s.executions| && s.executions[i].phase.Broadcast?
    case Abandon(i) => i < |s.executions| && s.executions[i].phase == Collecting
    case RetryDeposits(_, _) => true
  }

  function Apply(s: State, step: Step): State
    requires Enabled(s, step)
  {
    match step
    case Execute(proposals, inputs) =>
      var (table, claimed) := Claim(s.table, proposals);
      State(table, s.executions + Launch(claimed, Resources(claimed), inputs), s.sent)
    case Sign(i, slot, present, sendOk) =>
      var e := s.executions[i];
      var filled := e.filled[slot := present];
      if Complete(filled) then
        State(s.table, s.executions[i := e.(filled := filled, phase := Broadcast(sendOk))],
              if sendOk then s.sent + multiset(KeyList(e.transfers)) else s.sent)
      else s.(executions := s.executions[i := e.(filled := filled)])
    case Record(i) =>
      var e := s.executions[i];
      s.(table := SetAll(s.table, e.transfers, if e.phase.ok then Executed else Failed),
         executions := s.executions[i := e.(phase := Over(e.phase.ok))])
    case Abandon(i) => s.(executions := s.executions[i := s.executions[i].(phase := Over(false))])
    case RetryDeposits(deposits, resource) => s.(table := Retry(s.table, deposits, resource).0)
  }

  predicate Run(s: State, steps: seq<Step>)
    decreases |steps|
  {
    steps != [] ==> Enabled(s, steps[0]) && Run(Apply(s, steps[0]), steps[1..])
  }

  function Final(s: State, steps: seq<Step>): State
    requires Run(s, steps)
    decreases |steps|
  {
    if steps == [] then s else Final(Apply(s, steps[0]), steps[1..])
  }

  predicate Live(s: State, i: nat) {
    i < |s.executions| && !s.executions[i].phase.Over?
  }

  ghost predicate HeldBy(s: State, i: nat, k: Triple) {
    Live(s, i) && k in Keys(s.executions[i].transfers)
  }

  ghost predicate Held(s: State, k: Triple) {
    exists i: nat :: HeldBy(s, i, k)
  }

  /** A retry leaves alone whatever a live execution is working on. */
  ghost predicate SafeStep(s: State, step: Step) {
    step.RetryDeposits? ==> forall d :: d in step.deposits && d.resource == step.resource ==> !Held(s, d.key)
  }

  ghost predicate SafeRun(s: State, steps: seq<Step>)
    requires Run(s, steps)
    decreases |steps|
  {
    steps != [] ==> SafeStep(s, steps[0]) && SafeRun(Apply(s, steps[0]), steps[1..])
  }

  // ----- the invariant -----

  ghost predicate OneHolder(s: State) {
    && (forall i: nat :: Live(s, i) ==> DistinctTransfers(s.executions[i].transfers))
    && (forall i: nat, j: nat, k :: HeldBy(s, i, k) && HeldBy(s, j, k) ==> i == j)
  }

  ghost predicate HeldIsPending(s: State) {
    forall i: nat, k :: HeldBy(s, i, k) ==> Status(s.table, k) == Pending
  }

  ghost predicate BeingRecorded(s: State, i: nat, k: Triple) {
    HeldBy(s, i, k) && s.executions[i].phase == Broadcast(true)
  }

  ghost predicate SentOnce(s: State) {
    && (forall k :: s.sent[k] <= 1)
    && (forall k :: k in s.sent ==> Status(s.table, k) == Executed || exists i: nat :: BeingRecorded(s, i, k))
  }

  /** Execution `i` broadcast a transaction that pays `k`, with a signature for every input. */
  ghost predicate Paid(s: State, i: nat, k: Triple) {
    && i < |s.executions| && k in Keys(s.executions[i].transfers)
    && (s.executions[i].phase == Broadcast(true) || s.executions[i].phase == Over(true))
    && Complete(s.executions[i].filled)
  }

  /** No transaction leaves an execution before every input is signed. */
  ghost predicate SentWhenSigned(s: State) {
    && (forall i: nat :: i < |s.executions| && s.executions[i].phase.Broadcast? ==> Complete(s.executions[i].filled))
    && (forall k :: k in s.sent <==> exists i: nat :: Paid(s, i, k))
  }

  ghost predicate Exclusive(s: State) {
    OneHolder(s) && HeldIsPending(s) && SentOnce(s)
  }

  ghost predicate Inv(s: State) {
    Exclusive(s) && SentWhenSigned(s)
  }
}
