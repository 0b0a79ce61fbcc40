/** Splitting proposals for an EVM chain into batches by gas. */
module GasBatching {
  import opened Seqs
  import opened Filters
  import opened UInt64

  datatype Proposal = Proposal(id: nat, gasLimit: Option<uint64>)

  datatype Batch = Batch(proposals: seq<Proposal>, gasLimit: uint64)

  /** What a proposal is charged: its own limit, if it names one, and the cost of a transfer. */
  function Gas(p: Proposal, transferGasCost: uint64): uint64 {
    match p.gasLimit
    case Some(limit) => Add64(limit, transferGasCost)
    case None => transferGasCost
  }

  function TotalGas(proposals: seq<Proposal>, cost: uint64): nat {
    if proposals == [] then 0 else TotalGas(proposals[..|proposals| - 1], cost) + Gas(proposals[|proposals| - 1], cost)
  }

  function Concat(batches: seq<Batch>): seq<Proposal> {
    if batches == [] then [] else Concat(batches[..|batches| - 1]) + batches[|batches| - 1].proposals
  }

  function Recorded(batches: seq<Batch>): nat {
    if batches == [] then 0 else Recorded(batches[..|batches| - 1]) + batches[|batches| - 1].gasLimit
  }

  /** The proposals known not to be executed yet, in order. */
  function Unexecuted(proposals: seq<Proposal>, executed: seq<Option<bool>>): seq<Proposal>
    requires |executed| == |proposals|
  {
    if proposals == [] then []
    else
      var last := |proposals| - 1;
      Unexecuted(proposals[..last], executed[..last])
      + (if executed[last] == Some(false) then [proposals[last]] else [])
  }

  lemma {:induction false} UnexecutedFilters(proposals: seq<Proposal>, executed: seq<Option<bool>>, kept: set<int>)
    requires |executed| == |proposals|
    requires forall i :: 0 <= i < |proposals| ==> (i in kept <==> executed[i] == Some(false))
    ensures IsFilter(Unexecuted(proposals, executed), proposals, kept)
  {
    if proposals == [] {
      FilterNothing<Proposal>(kept);
    } else {
      var last := |proposals| - 1;
      var front := proposals[..last];
      assert proposals == front + [proposals[last]];
      UnexecutedFilters(front, executed[..last], kept);
      var before := Unexecuted(front, executed[..last]);
      assert before + [] == before;
      FilterOneMore(before, front, proposals[last], kept);
    }
  }

  lemma UnexecutedNext(proposals: seq<Proposal>, executed: seq<Option<bool>>, i: nat)
    requires i < |executed| == |proposals|
    ensures var before := Unexecuted(proposals[..i], executed[..i]);
            Unexecuted(proposals[..i + 1], executed[..i + 1]) ==
              if executed[i] == Some(false) then before + [proposals[i]] else before
    ensures executed[..i + 1] == executed[..i] + [executed[i]]
  {
    assert proposals[..i + 1][..i] == proposals[..i] && executed[..i + 1][..i] == executed[..i];
  }

  /** The gas limits that proposals name. */
  function Limits(proposals: seq<Proposal>): nat {
    if proposals == [] then 0
    else
      var last := proposals[|proposals| - 1];
      Limits(proposals[..|proposals| - 1]) + if last.gasLimit.Some? then last.gasLimit.value else 0
  }

  /** Where no sum wraps around, the total gas is one transfer per proposal plus the limits named. */
  lemma {:induction false} TotalGasIsExact(proposals: seq<Proposal>, cost: uint64)
    requires forall p :: p in proposals && p.gasLimit.Some? ==> p.gasLimit.value + cost < M
    ensures TotalGas(proposals, cost) == |proposals| * cost + Limits(proposals)
  {
    if proposals != [] {
      var front, last := proposals[..|proposals| - 1], proposals[|proposals| - 1];
      assert proposals == front + [last];
      TotalGasIsExact(front, cost);
      OneTransferMore(|front|, cost);
      assert Gas(last, cost) == cost + if last.gasLimit.Some? then last.gasLimit.value else 0;
    }
  }

  lemma OneTransferMore(n: nat, cost: nat)
    ensures (n + 1) * cost == n * cost + cost
  { }

  /** A batch is charged for its proposals, except the one that opened it. */
  function Charged(batches: seq<Batch>, i: nat): seq<Proposal>
    requires i < |batches|
  {
    if i > 0 && batches[i].proposals != [] then batches[i].proposals[1..] else batches[i].proposals
  }

  /** Every charge up to here stayed below the maximum. */
  ghost predicate BelowMax(proposals: seq<Proposal>, maxGas: uint64, cost: uint64) {
    forall j :: 0 <= j <= |proposals| ==> TotalGas(proposals[..j], cost) % M < maxGas
  }

  /** The proposals whose gas is recorded with batch i: those it is charged for and the one that closed it. */
  function Billed(batches: seq<Batch>, i: nat): seq<Proposal>
    requires i < |batches|
  {
    Charged(batches, i)
    + (if i + 1 < |batches| && batches[i + 1].proposals != [] then [batches[i + 1].proposals[0]] else [])
  }

  /** Batch i has proposals of its own unless it is the first, and its gas adds up. */
  ghost predicate GoodBatch(batches: seq<Batch>, i: nat, maxGas: uint64, cost: uint64)
    requires i < |batches|
  {
    && (i > 0 ==> batches[i].proposals != [])
    && batches[i].gasLimit == TotalGas(Billed(batches, i), cost) % M
    && (i < |batches| - 1 ==> batches[i].gasLimit >= maxGas)
    && (maxGas > 0 ==> BelowMax(Charged(batches, i), maxGas, cost))
  }

  /** Equal if the total fits into 64 bits, and modulo 2^64 in any case. */
  ghost predicate Matches(recorded: nat, total: nat) {
    (total < M ==> recorded == total) && recorded % M == total % M
  }

  /** All gas is recorded once. */
  ghost predicate AllRecorded(batches: seq<Batch>, pending: seq<Proposal>, cost: uint64) {
    Matches(Recorded(batches), TotalGas(pending, cost))
  }

  ghost predicate WellBatched(batches: seq<Batch>, pending: seq<Proposal>, maxGas: uint64, cost: uint64) {
    && |batches| >= 1 && Concat(batches) == pending
    && (forall i :: 0 <= i < |batches| ==> GoodBatch(batches, i, maxGas, cost))
    && AllRecorded(batches, pending, cost)
  }

  lemma TotalGasAppend(ps: seq<Proposal>, p: Proposal, cost: uint64)
    ensures TotalGas(ps + [p], cost) == TotalGas(ps, cost) + Gas(p, cost)
  {
    assert (ps + [p])[..|ps|] == ps;
  }

  lemma AppendBatch(done: seq<Batch>, b: Batch)
    ensures Concat(done + [b]) == Concat(done) + b.proposals
    ensures Recorded(done + [b]) == Recorded(done) + b.gasLimit
  {
    assert (done + [b])[..|done|] == done;
  }

  lemma AddGas(limit: uint64, ps: seq<Proposal>, p: Proposal, cost: uint64)
    requires limit == TotalGas(ps, cost) % M
    ensures Add64(limit, Gas(p, cost)) == TotalGas(ps + [p], cost) % M
  {
    TotalGasAppend(ps, p, cost);
  }

  lemma AddToRecord(recorded: nat, limit: uint64, gas: uint64, total: nat)
    requires Matches(recorded + limit, total)
    ensures Matches(recorded + Add64(limit, gas), total + gas)
  {
    var sum := limit + gas;
    assert Add64(limit, gas) == if sum < M then sum else sum - M;
    WrapOnce(recorded + sum);
    AddModulo(recorded + limit, total, gas);
  }

  lemma WrapOnce(x: int)
    ensures (x - M) % M == x % M
  { }

  lemma AddModulo(a: int, b: int, c: int)
    requires a % M == b % M
    ensures (a + c) % M == (b + c) % M
  { }

  /** Adding to the current batch records the gas of one more proposal. */
  lemma RecordOneMore(done: seq<Batch>, current: Batch, grown: Batch, pending: seq<Proposal>, p: Proposal, cost: uint64)
    requires AllRecorded(done + [current], pending, cost) && grown.gasLimit == Add64(current.gasLimit, Gas(p, cost))
    ensures AllRecorded(done + [grown], pending + [p], cost)
  {
    AppendBatch(done, current);
    AppendBatch(done, grown);
    TotalGasAppend(pending, p, cost);
    AddToRecord(Recorded(done), current.gasLimit, Gas(p, cost), TotalGas(pending, cost));
  }

  lemma BelowMaxAppend(ps: seq<Proposal>, p: Proposal, maxGas: uint64, cost: uint64)
    requires BelowMax(ps, maxGas, cost) && TotalGas(ps + [p], cost) % M < maxGas
    ensures BelowMax(ps + [p], maxGas, cost)
  {
    forall j | 0 <= j <= |ps| + 1 ensures TotalGas((ps + [p])[..j], cost) % M < maxGas {
      assert (ps + [p])[..j] == if j <= |ps| then ps[..j] else ps + [p];
    }
  }

  /** Finished batches stay good when the current one changes but keeps its first proposal. */
  lemma DoneStaysGood(done: seq<Batch>, current: Batch, grown: Batch, more: seq<Batch>, i: nat,
                      maxGas: uint64, cost: uint64)
    requires i < |done| && GoodBatch(done + [current], i, maxGas, cost)
    requires current.proposals != [] && grown.proposals != [] && current.proposals[0] == grown.proposals[0]
    ensures GoodBatch(done + [grown] + more, i, maxGas, cost)
  {
    var a, b := done + [current], done + [grown] + more;
    assert a[i] == b[i];
    assert Charged(a, i) == Charged(b, i);
    assert i + 1 < |done| ==> a[i + 1] == b[i + 1];
    assert Billed(a, i) == Billed(b, i);
  }

  /** The next proposal joins the current batch. */
  lemma ExtendKeepsBatches(done: seq<Batch>, current: Batch, pending: seq<Proposal>, p: Proposal,
                           maxGas: uint64, cost: uint64)
    requires WellBatched(done + [current], pending, maxGas, cost)
    requires Add64(current.gasLimit, Gas(p, cost)) < maxGas
    ensures WellBatched(done + [Batch(current.proposals + [p], Add64(current.gasLimit, Gas(p, cost)))],
                        pending + [p], maxGas, cost)
  {
    var grown, n := Batch(current.proposals + [p], Add64(current.gasLimit, Gas(p, cost))), |done|;
    var batches, batches' := done + [current], done + [grown];
    AppendBatch(done, current);
    AppendBatch(done, grown);
    RecordOneMore(done, current, grown, pending, p, cost);
    assert GoodBatch(batches, n, maxGas, cost);
    var charged := Charged(batches, n);
    assert Billed(batches, n) == charged;
    assert Charged(batches', n) == charged + [p] && Billed(batches', n) == charged + [p];
    AddGas(current.gasLimit, charged, p, cost);
    BelowMaxAppend(charged, p, maxGas, cost);
    forall i | 0 <= i < n ensures GoodBatch(batches', i, maxGas, cost) {
      assert GoodBatch(batches, i, maxGas, cost);
      DoneStaysGood(done, current, grown, [], i, maxGas, cost);
      assert done + [grown] + [] == batches';
    }
  }

  /** A closed batch records the proposal that closed it; the one that follows records nothing yet. */
  lemma ClosedAndOpened(done: seq<Batch>, current: Batch, closed: Batch, p: Proposal, maxGas: uint64, cost: uint64)
    requires GoodBatch(done + [current], |done|, maxGas, cost)
    requires closed == current.(gasLimit := Add64(current.gasLimit, Gas(p, cost))) && closed.gasLimit >= maxGas
    ensures GoodBatch(done + [closed] + [Batch([p], 0)], |done|, maxGas, cost)
    ensures GoodBatch(done + [closed] + [Batch([p], 0)], |done| + 1, maxGas, cost)
  {
    var n := |done|;
    var batches, batches' := done + [current], done + [closed] + [Batch([p], 0)];
    var charged := Charged(batches, n);
    assert Billed(batches, n) == charged && Charged(batches', n) == charged && Billed(batches', n) == charged + [p];
    AddGas(current.gasLimit, charged, p, cost);
    assert Charged(batches', n + 1) == [] && Billed(batches', n + 1) == [];
  }

  /** The next proposal is charged to the current batch, closes it and opens a new one. */
  lemma CloseKeepsBatches(done: seq<Batch>, current: Batch, pending: seq<Proposal>, p: Proposal,
                          maxGas: uint64, cost: uint64)
    requires WellBatched(done + [current], pending, maxGas, cost)
    requires Add64(current.gasLimit, Gas(p, cost)) >= maxGas
    ensures WellBatched(done + [current.(gasLimit := Add64(current.gasLimit, Gas(p, cost)))] + [Batch([p], 0)],
                        pending + [p], maxGas, cost)
  {
    var closed, n := current.(gasLimit := Add64(current.gasLimit, Gas(p, cost))), |done|;
    var batches, batches' := done + [current], done + [closed] + [Batch([p], 0)];
    AppendBatch(done, current);
    AppendBatch(done, closed);
    AppendBatch(done + [closed], Batch([p], 0));
    RecordOneMore(done, current, closed, pending, p, cost);
    assert GoodBatch(batches, n, maxGas, cost);
    ClosedAndOpened(done, current, closed, p, maxGas, cost);
    forall i | 0 <= i < |batches'| ensures GoodBatch(batches', i, maxGas, cost) {
      if i < n {
        assert GoodBatch(batches, i, maxGas, cost);
        DoneStaysGood(done, current, closed, [Batch([p], 0)], i, maxGas, cost);
      }
    }
  }

  lemma OneEmptyBatch(maxGas: uint64, cost: uint64)
    ensures WellBatched([] + [Batch([], 0)], [], maxGas, cost)
  {
    var batches := [] + [Batch([], 0)];
    AppendBatch([], Batch([], 0));
    assert Billed(batches, 0) == [] && Charged(batches, 0) == [];
  }

  /**
   Every unexecuted proposal lands in exactly one batch, in order. Only the first batch may be empty.
   What a batch records is the gas of its proposals except its first, plus that of the proposal that
   closed it; so the records add up to the whole, all but the last reach the maximum, and what a batch
   is charged for itself stays below it. An unknown execution state is an error.
   */
  method ProposalBatches(proposals: seq<Proposal>, executed: seq<Option<bool>>, maxGas: uint64, cost: uint64)
    returns (batches: Option<seq<Batch>>)
    requires |executed| == |proposals|
    ensures batches == None <==> None in executed
    ensures batches.Some? ==> WellBatched(batches.value, Unexecuted(proposals, executed), maxGas, cost)
  {
    var done, current := [], Batch([], 0);
    OneEmptyBatch(maxGas, cost);
    for i := 0 to |proposals|
      invariant WellBatched(done + [current], Unexecuted(proposals[..i], executed[..i]), maxGas, cost)
      invariant None !in executed[..i]
    {
      ghost var pending := Unexecuted(proposals[..i], executed[..i]);
      UnexecutedNext(proposals, executed, i);
      if executed[i] == None {
        return None;
      }
      if executed[i].value {
        continue;
      }
      ghost var before := current;
      current := current.(gasLimit := Add64(current.gasLimit, Gas(proposals[i], cost)));
      if current.gasLimit >= maxGas {
        CloseKeepsBatches(done, before, pending, proposals[i], maxGas, cost);
        done := done + [current];
        current := Batch([], 0);
        assert [] + [proposals[i]] == [proposals[i]];
      } else {
        ExtendKeepsBatches(done, before, pending, proposals[i], maxGas, cost);
      }
      current := current.(proposals := current.proposals + [proposals[i]]);
    }
    assert proposals[..|proposals|] == proposals && executed[..|executed|] == executed;
    return Some(done + [current]);
  }
}
