/** The unsigned Bitcoin transaction for a batch of proposals of one resource. */
module BtcRawTx {
  import opened Seqs
  import opened Sorting
  import opened UInt64
  import opened BtcTransaction

  datatype Proposal = Proposal(source: nat, nonce: nat, amount: uint64, recipient: string)

  datatype OutPoint = OutPoint(hash: string, vout: nat)

  datatype TxOut = TxOut(value: int, script: string)

  /** The Bitcoin library: scripts for addresses and data, and hashes for transaction ids, where they exist. */
  datatype Library = Library(
    payTo: string -> Option<string>,
    nullData: string -> Option<string>,
    txHash: string -> Option<string>)

  /** What the network answers: the metadata upload, the unspent outputs and two readings of the economy fee. */
  datatype Answers = Answers(
    cid: Option<string>,
    utxos: Option<seq<Utxo>>,
    estimateFee: Option<uint64>,
    finalFee: Option<uint64>)

  datatype Built = Built(txIn: seq<OutPoint>, txOut: seq<TxOut>, used: seq<Utxo>)

  // ----- the transaction as a function of the answers -----

  function Amount(proposals: seq<Proposal>): nat {
    if proposals == [] then 0 else Amount(proposals[..|proposals| - 1]) + proposals[|proposals| - 1].amount
  }

  function Payments(lib: Library, proposals: seq<Proposal>): Option<seq<TxOut>> {
    if proposals == [] then Some([])
    else
      var p := proposals[|proposals| - 1];
      match (Payments(lib, proposals[..|proposals| - 1]), lib.payTo(p.recipient))
      case (Some(outs), Some(script)) => Some(outs + [TxOut(Int64(p.amount), script)])
      case _ => None
  }

  function OutPoints(lib: Library, utxos: seq<Utxo>): Option<seq<OutPoint>> {
    if utxos == [] then Some([])
    else
      var u := utxos[|utxos| - 1];
      match (OutPoints(lib, utxos[..|utxos| - 1]), lib.txHash(u.txid))
      case (Some(points), Some(hash)) => Some(points + [OutPoint(hash, u.vout)])
      case _ => None
  }

  /** The output that points to the uploaded metadata. */
  function DataOutput(lib: Library, cid: Option<string>): Option<TxOut> {
    match cid
    case None => None
    case Some(c) =>
      match lib.nullData("syg_" + c)
      case None => None
      case Some(script) => Some(TxOut(0, script))
  }

  /** Payments in proposal order, then the metadata output. */
  function Outputs(lib: Library, proposals: seq<Proposal>, cid: Option<string>): Option<seq<TxOut>> {
    match (Payments(lib, proposals), DataOutput(lib, cid))
    case (Some(outs), Some(data)) => Some(outs + [data])
    case _ => None
  }

  function Selection(proposals: seq<Proposal>, utxos: seq<Utxo>, estimateFee: uint64): seq<Utxo>
    requires |proposals| < M / 2
  {
    var n := |proposals|;
    utxos[..Taken(utxos, Add64(Amount(proposals) % M, Fee(n, n, estimateFee)))]
  }

  function Change(proposals: seq<Proposal>, used: seq<Utxo>, finalFee: uint64): uint64
    requires |proposals| < M / 2 && |used| < M / 2
  {
    Sub64(Sub64(Total(used) % M, Fee(|used|, |proposals| + 1, finalFee)), Amount(proposals) % M)
  }

  function Build(lib: Library, proposals: seq<Proposal>, address: string, answers: Answers): (r: Option<Built>)
    requires |proposals| < M / 2 && (answers.utxos.Some? ==> |answers.utxos.value| < M / 2)
    ensures r.Some? ==> answers.utxos.Some? && r.value.used <= answers.utxos.value && |r.value.used| < M / 2
  {
    match (Outputs(lib, proposals, answers.cid), answers)
    case (Some(outs), Answers(_, Some(utxos), Some(estimateFee), Some(finalFee))) =>
      var used := Selection(proposals, utxos, estimateFee);
      (match OutPoints(lib, used)
       case None => None
       case Some(points) =>
         if Total(used) % M < Amount(proposals) % M then None
         else
           var change := Change(proposals, used, finalFee);
           if change == 0 then Some(Built(points, outs, used))
           else match lib.payTo(address)
             case None => None
             case Some(script) => Some(Built(points, outs + [TxOut(Int64(change), script)], used)))
    case _ => None
  }

  // ----- building it step by step -----

  class MsgTx {
    var txIn: seq<OutPoint>
    var txOut: seq<TxOut>

    constructor ()
      ensures txIn == [] && txOut == []
    {
      txIn, txOut := [], [];
    }

    method AddTxIn(point: OutPoint)
      modifies this`txIn
      ensures txIn == old(txIn) + [point]
    {
      txIn := txIn + [point];
    }

    method AddTxOut(out: TxOut)
      modifies this`txOut
      ensures txOut == old(txOut) + [out]
    {
      txOut := txOut + [out];
    }
  }

  lemma AddWraps(total: nat, amount: uint64)
    ensures Add64(total % M, amount) == (total + amount) % M
  { }

  method AddPayments(tx: MsgTx, lib: Library, proposals: seq<Proposal>) returns (amount: Option<uint64>)
    requires tx.txOut == []
    modifies tx`txOut
    ensures amount.Some? <==> Payments(lib, proposals).Some?
    ensures amount.Some? ==> amount.value == Amount(proposals) % M && Payments(lib, proposals) == Some(tx.txOut)
  {
    var outputAmount: uint64 := 0;
    for i := 0 to |proposals|
      invariant outputAmount == Amount(proposals[..i]) % M
      invariant Payments(lib, proposals[..i]) == Some(tx.txOut)
    {
      assert proposals[..i + 1][..i] == proposals[..i];
      var script := lib.payTo(proposals[i].recipient);
      if script == None {
        NoPayments(lib, proposals, i + 1);
        return None;
      }
      tx.AddTxOut(TxOut(Int64(proposals[i].amount), script.value));
      AddWraps(Amount(proposals[..i]), proposals[i].amount);
      outputAmount := Add64(outputAmount, proposals[i].amount);
    }
    assert proposals[..|proposals|] == proposals;
    return Some(outputAmount);
  }

  method AddOutputs(tx: MsgTx, lib: Library, proposals: seq<Proposal>, cid: Option<string>)
    returns (amount: Option<uint64>)
    requires tx.txOut == []
    modifies tx`txOut
    ensures amount == if Outputs(lib, proposals, cid).Some? then Some(Amount(proposals) % M) else None
    ensures amount.Some? ==> Outputs(lib, proposals, cid) == Some(tx.txOut)
  {
    amount := AddPayments(tx, lib, proposals);
    if amount == None || cid == None {
      return None;
    }
    var script := lib.nullData("syg_" + cid.value);
    if script == None {
      return None;
    }
    tx.AddTxOut(TxOut(0, script.value));
  }

  lemma {:induction false} NoPayments(lib: Library, proposals: seq<Proposal>, k: nat)
    requires k <= |proposals| && Payments(lib, proposals[..k]) == None
    ensures Payments(lib, proposals) == None
    decreases |proposals|
  {
    if k == |proposals| {
      assert proposals[..k] == proposals;
    } else {
      assert proposals[..|proposals| - 1][..k] == proposals[..k];
      NoPayments(lib, proposals[..|proposals| - 1], k);
    }
  }

  method AddInputs(tx: MsgTx, lib: Library, utxos: seq<Utxo>, target: uint64)
    returns (used: Option<seq<Utxo>>, inputAmount: uint64)
    requires tx.txIn == []
    modifies tx`txIn
    ensures var chosen := utxos[..Taken(utxos, target)];
            && used == (if OutPoints(lib, chosen).Some? then Some(chosen) else None)
            && (used.Some? ==> OutPoints(lib, chosen) == Some(tx.txIn) && inputAmount == Total(chosen) % M)
  {
    inputAmount := 0;
    var usedUtxos: seq<Utxo> := [];
    var i := 0;
    while i < |utxos|
      invariant i <= |utxos| && Taken(utxos, target) == TakenFrom(utxos, target, i)
      invariant usedUtxos == utxos[..i] && inputAmount == Gathered(utxos, i)
      invariant OutPoints(lib, utxos[..i]) == Some(tx.txIn)
    {
      assert utxos[..i + 1][..i] == utxos[..i];
      GatherOne(utxos, i);
      var hash := lib.txHash(utxos[i].txid);
      if hash == None {
        NoOutPoints(lib, utxos[..Taken(utxos, target)], i + 1);
        assert utxos[..Taken(utxos, target)][..i + 1] == utxos[..i + 1];
        return None, 0;
      }
      tx.AddTxIn(OutPoint(hash.value, utxos[i].vout));
      assert OutPoints(lib, utxos[..i + 1]) == Some(tx.txIn);
      usedUtxos := usedUtxos + [utxos[i]];
      assert usedUtxos == utxos[..i + 1];
      inputAmount := Add64(inputAmount, utxos[i].value);
      i := i + 1;
      if inputAmount > target {
        assert i == Taken(utxos, target);
        break;
      }
    }
    assert i == Taken(utxos, target);
    return Some(usedUtxos), inputAmount;
  }

  lemma {:induction false} NoOutPoints(lib: Library, utxos: seq<Utxo>, k: nat)
    requires k <= |utxos|
    ensures OutPoints(lib, utxos[..k]) == None ==> OutPoints(lib, utxos) == None
    decreases |utxos|
  {
    if k == |utxos| {
      assert utxos[..k] == utxos;
    } else {
      assert utxos[..|utxos| - 1][..k] == utxos[..k];
      NoOutPoints(lib, utxos[..|utxos| - 1], k);
    }
  }

  /** The answers hold the outputs as fetched; `ordered` is what the mempool client made of them. */
  method RawTx(lib: Library, proposals: seq<Proposal>, address: string, answers: Answers)
    returns (r: Option<Built>, ordered: Option<seq<Utxo>>)
    requires |proposals| < M / 2 && (answers.utxos.Some? ==> |answers.utxos.value| < M / 2)
    ensures ordered.Some? <==> answers.utxos.Some?
    ensures ordered.Some? ==> IsSortOf(ordered.value, answers.utxos.value, UtxoBefore)
    ensures ordered.Some? ==> |ordered.value| == |answers.utxos.value|
    ensures r == Build(lib, proposals, address, answers.(utxos := ordered))
  {
    ordered := None;
    if answers.utxos.Some? {
      var sorted := Utxos(answers.utxos.value);
      assert |multiset(sorted)| == |sorted| && |multiset(answers.utxos.value)| == |answers.utxos.value|;
      ordered := Some(sorted);
    }
    var tx := new MsgTx();
    var amount := AddOutputs(tx, lib, proposals, answers.cid);
    if amount == None || answers.estimateFee == None || ordered == None {
      return None, ordered;
    }
    var n := |proposals|;
    var estimate := Fee(n, n, answers.estimateFee.value);
    var used, inputAmount := AddInputs(tx, lib, ordered.value, Add64(amount.value, estimate));
    if used == None || inputAmount < amount.value || answers.finalFee == None {
      return None, ordered;
    }
    var fee := Fee(|used.value|, n + 1, answers.finalFee.value);
    var returnAmount := Sub64(Sub64(inputAmount, fee), amount.value);
    if returnAmount > 0 {
      var script := lib.payTo(address);
      if script == None {
        return None, ordered;
      }
      tx.AddTxOut(TxOut(Int64(returnAmount), script.value));
    }
    return Some(Built(tx.txIn, tx.txOut, used.value)), ordered;
  }

  // ----- who is paid what, and from where -----

  /** Every proposal has its own payment: its amount, to the script of its own recipient. */
  ghost predicate PaysEach(lib: Library, proposals: seq<Proposal>, outs: seq<TxOut>) {
    && |outs| == |proposals|
    && forall i :: 0 <= i < |outs| ==>
         outs[i].value == Int64(proposals[i].amount) && lib.payTo(proposals[i].recipient) == Some(outs[i].script)
  }

  ghost predicate AllPayable(lib: Library, proposals: seq<Proposal>) {
    forall i :: 0 <= i < |proposals| ==> lib.payTo(proposals[i].recipient).Some?
  }

  lemma {:induction false} PaymentsAreExact(lib: Library, proposals: seq<Proposal>)
    ensures Payments(lib, proposals).Some? <==> AllPayable(lib, proposals)
    ensures Payments(lib, proposals).Some? ==> PaysEach(lib, proposals, Payments(lib, proposals).value)
  {
    if proposals != [] {
      var front := proposals[..|proposals| - 1];
      PaymentsAreExact(lib, front);
      assert AllPayable(lib, proposals) <==> AllPayable(lib, front) && lib.payTo(proposals[|front|].recipient).Some?;
    }
  }

  /** Every output used has its own input, which points to it. */
  ghost predicate SpendsEach(lib: Library, used: seq<Utxo>, points: seq<OutPoint>) {
    && |points| == |used|
    && forall i :: 0 <= i < |points| ==>
         points[i].vout == used[i].vout && lib.txHash(used[i].txid) == Some(points[i].hash)
  }

  ghost predicate AllSpendable(lib: Library, used: seq<Utxo>) {
    forall i :: 0 <= i < |used| ==> lib.txHash(used[i].txid).Some?
  }

  lemma {:induction false} OutPointsAreExact(lib: Library, used: seq<Utxo>)
    ensures OutPoints(lib, used).Some? <==> AllSpendable(lib, used)
    ensures OutPoints(lib, used).Some? ==> SpendsEach(lib, used, OutPoints(lib, used).value)
  {
    if used != [] {
      var front := used[..|used| - 1];
      OutPointsAreExact(lib, front);
      assert AllSpendable(lib, used) <==> AllSpendable(lib, front) && lib.txHash(used[|front|].txid).Some?;
    }
  }

  /** The outputs after the payments: the metadata pointer and, unless it is zero, the change to the given address. */
  ghost predicate EndsWith(lib: Library, cid: string, address: string, change: uint64, outs: seq<TxOut>) {
    && |outs| == (if change == 0 then 1 else 2)
    && outs[0].value == 0 && lib.nullData("syg_" + cid) == Some(outs[0].script)
    && (change != 0 ==> outs[1].value == Int64(change) && lib.payTo(address) == Some(outs[1].script))
  }

  /** A transaction that is built pays every proposal its own amount, and spends exactly the outputs used. */
  lemma BuildIsExact(lib: Library, proposals: seq<Proposal>, address: string, answers: Answers)
    requires |proposals| < M / 2 && (answers.utxos.Some? ==> |answers.utxos.value| < M / 2)
    requires Build(lib, proposals, address, answers).Some?
    ensures answers.cid.Some? && answers.finalFee.Some?
    ensures var built, n := Build(lib, proposals, address, answers).value, |proposals|;
            && n <= |built.txOut| && PaysEach(lib, proposals, built.txOut[..n])
            && EndsWith(lib, answers.cid.value, address,
                        Change(proposals, built.used, answers.finalFee.value), built.txOut[n..])
            && SpendsEach(lib, built.used, built.txIn)
  {
    PaymentsAreExact(lib, proposals);
    var built, payments := Build(lib, proposals, address, answers).value, Payments(lib, proposals).value;
    OutPointsAreExact(lib, built.used);
    assert built.txOut[..|payments|] == payments;
  }

  lemma OutputsIff(lib: Library, proposals: seq<Proposal>, cid: Option<string>)
    ensures Outputs(lib, proposals, cid).Some? <==>
              AllPayable(lib, proposals) && cid.Some? && lib.nullData("syg_" + cid.value).Some?
  {
    PaymentsAreExact(lib, proposals);
  }

  /** The outputs can be spent, cover the payments, and change can be returned if there is any. */
  ghost predicate Usable(lib: Library, proposals: seq<Proposal>, address: string, used: seq<Utxo>, finalFee: uint64)
    requires |proposals| < M / 2 && |used| < M / 2
  {
    && AllSpendable(lib, used) && Total(used) % M >= Amount(proposals) % M
    && (Change(proposals, used, finalFee) == 0 || lib.payTo(address).Some?)
  }

  /** When a transaction can be built at all. */
  lemma BuildsIff(lib: Library, proposals: seq<Proposal>, address: string, answers: Answers)
    requires |proposals| < M / 2 && (answers.utxos.Some? ==> |answers.utxos.value| < M / 2)
    ensures Build(lib, proposals, address, answers).Some? <==>
              && Outputs(lib, proposals, answers.cid).Some?
              && answers.utxos.Some? && answers.estimateFee.Some? && answers.finalFee.Some?
              && Usable(lib, proposals, address,
                        Selection(proposals, answers.utxos.value, answers.estimateFee.value), answers.finalFee.value)
  {
    if answers.utxos.Some? && answers.estimateFee.Some? && answers.finalFee.Some? {
      OutPointsAreExact(lib, Selection(proposals, answers.utxos.value, answers.estimateFee.value));
    }
  }

  // ----- what the transaction is worth -----

  /** Amounts add up over any split of the proposals. */
  lemma {:induction false} AmountsAdd(a: seq<Proposal>, b: seq<Proposal>)
    ensures Amount(a + b) == Amount(a) + Amount(b)
    ensures |b| == 1 ==> Amount(b) == b[0].amount
    decreases |b|
  {
    if b == [] {
      assert a + b == a;
    } else {
      assert (a + b)[..|a + b| - 1] == a + b[..|b| - 1];
      AmountsAdd(a, b[..|b| - 1]);
    }
  }

  /** So do the values of outputs. */
  lemma {:induction false} ValuesAdd(a: seq<TxOut>, b: seq<TxOut>)
    ensures Value(a + b) == Value(a) + Value(b)
    ensures |b| == 1 ==> Value(b) == b[0].value
    decreases |b|
  {
    if b == [] {
      assert a + b == a;
    } else {
      assert (a + b)[..|a + b| - 1] == a + b[..|b| - 1];
      ValuesAdd(a, b[..|b| - 1]);
    }
  }

  function Value(outs: seq<TxOut>): int {
    if outs == [] then 0 else Value(outs[..|outs| - 1]) + outs[|outs| - 1].value
  }

  ghost predicate NonNegative(outs: seq<TxOut>) {
    forall out :: out in outs ==> out.value >= 0
  }

  lemma AppendOutput(outs: seq<TxOut>, out: TxOut)
    ensures Value(outs + [out]) == Value(outs) + out.value
    ensures NonNegative(outs + [out]) <==> NonNegative(outs) && out.value >= 0
  {
    assert (outs + [out])[..|outs|] == outs;
  }

  /** How many amounts do not fit a signed number. */
  function Large(proposals: seq<Proposal>): nat {
    if proposals == [] then 0
    else Large(proposals[..|proposals| - 1]) + if proposals[|proposals| - 1].amount < M / 2 then 0 else 1
  }

  /** The payments pay the amounts, each large one 2^64 short, and large ones are the negative ones. */
  lemma {:induction false} PaymentsPayAmounts(lib: Library, proposals: seq<Proposal>)
    requires Payments(lib, proposals).Some?
    ensures var outs := Payments(lib, proposals).value;
            && Value(outs) == Amount(proposals) - Large(proposals) * M
            && (NonNegative(outs) <==> Large(proposals) == 0)
  {
    if proposals != [] {
      var front, p := proposals[..|proposals| - 1], proposals[|proposals| - 1];
      PaymentsPayAmounts(lib, front);
      AppendOutput(Payments(lib, front).value, TxOut(Int64(p.amount), lib.payTo(p.recipient).value));
    }
  }

  lemma {:induction false} LargeAmounts(proposals: seq<Proposal>)
    ensures Amount(proposals) >= Large(proposals) * (M / 2)
  {
    if proposals != [] {
      LargeAmounts(proposals[..|proposals| - 1]);
    }
  }

  lemma SubWraps(a: uint64, b: uint64)
    ensures Sub64(a, b) == if a >= b then a - b else a - b + M
  {
    if a < b {
      assert Sub64(a, b) == (a - b + M) % M;
    }
  }

  /** Wrapped subtraction of fee and payments from the inputs, up to a multiple of 2^64. */
  lemma ChangeModulo(inputs: nat, fee: uint64, outputs: nat) returns (wraps: int)
    ensures Sub64(Sub64(inputs % M, fee), outputs % M) == inputs - fee - outputs + wraps * M
  {
    var left := Sub64(inputs % M, fee);
    SubWraps(inputs % M, fee);
    SubWraps(left, outputs % M);
    wraps := (if inputs % M >= fee then 0 else 1) + (if left >= outputs % M then 0 else 1) - inputs / M + outputs / M;
  }

  /** The outputs are the payments, the metadata and, unless it is zero, the change. */
  lemma BuiltValue(lib: Library, proposals: seq<Proposal>, address: string, answers: Answers)
    requires |proposals| < M / 2 && (answers.utxos.Some? ==> |answers.utxos.value| < M / 2)
    requires Build(lib, proposals, address, answers).Some?
    ensures var built := Build(lib, proposals, address, answers).value;
            var payments := Payments(lib, proposals).value;
            var change := Change(proposals, built.used, answers.finalFee.value);
            && Value(built.txOut) == Value(payments) + Int64(change)
            && (NonNegative(built.txOut) <==> NonNegative(payments) && change < M / 2)
  {
    var built := Build(lib, proposals, address, answers).value;
    var payments, data := Payments(lib, proposals).value, DataOutput(lib, answers.cid).value;
    AppendOutput(payments, data);
    if built.txOut != payments + [data] {
      AppendOutput(payments + [data], built.txOut[|payments| + 1]);
    }
  }

  /** Whatever the amounts and the fees, outputs and fee add up to the inputs modulo 2^64. */
  lemma BalancesModulo(lib: Library, proposals: seq<Proposal>, address: string, answers: Answers) returns (wraps: int)
    requires |proposals| < M / 2 && (answers.utxos.Some? ==> |answers.utxos.value| < M / 2)
    requires Build(lib, proposals, address, answers).Some?
    ensures var built := Build(lib, proposals, address, answers).value;
            var fee := Fee(|built.used|, |proposals| + 1, answers.finalFee.value);
            Value(built.txOut) + fee == Total(built.used) + wraps * M
  {
    var built := Build(lib, proposals, address, answers).value;
    var fee := Fee(|built.used|, |proposals| + 1, answers.finalFee.value);
    PaymentsPayAmounts(lib, proposals);
    wraps := ChangeModulo(Total(built.used), fee, Amount(proposals));
    BuiltValue(lib, proposals, address, answers);
    var change := Change(proposals, built.used, answers.finalFee.value);
    wraps := wraps - Large(proposals) - if change < M / 2 then 0 else 1;
  }

  /** Whatever the amounts and the fees, an output is negative exactly if a payment or the change passes 2^63. */
  lemma NegativeOutputIff(lib: Library, proposals: seq<Proposal>, address: string, answers: Answers)
    requires |proposals| < M / 2 && (answers.utxos.Some? ==> |answers.utxos.value| < M / 2)
    requires Build(lib, proposals, address, answers).Some?
    ensures var built := Build(lib, proposals, address, answers).value;
            NonNegative(built.txOut) <==>
              Large(proposals) == 0 && Change(proposals, built.used, answers.finalFee.value) < M / 2
  {
    PaymentsPayAmounts(lib, proposals);
    BuiltValue(lib, proposals, address, answers);
  }

  /** What is subtracted at most once below zero: the inputs cover the payments, maybe not the fee. */
  lemma ChangeOf(inputs: uint64, fee: uint64, outputs: uint64)
    requires outputs <= inputs
    ensures Sub64(Sub64(inputs, fee), outputs) == inputs - fee - outputs + if inputs >= outputs + fee then 0 else M
  {
    SubWraps(inputs, fee);
    SubWraps(Sub64(inputs, fee), outputs);
  }

  /**
   As long as inputs and payments fit 64 bits: payments, fee and change add up to the inputs exactly if
   the inputs cover payments and fee; otherwise the change is 2^64 too much.
   */
  lemma BalancesExactlyIff(lib: Library, proposals: seq<Proposal>, address: string, answers: Answers)
    requires |proposals| < M / 2 && (answers.utxos.Some? ==> |answers.utxos.value| < M / 2)
    requires Build(lib, proposals, address, answers).Some?
    requires Amount(proposals) < M && Total(Build(lib, proposals, address, answers).value.used) < M
    ensures var built := Build(lib, proposals, address, answers).value;
            var fee := Fee(|built.used|, |proposals| + 1, answers.finalFee.value);
            var change := Change(proposals, built.used, answers.finalFee.value);
            var inputs, payments := Total(built.used), Amount(proposals);
            && (payments + fee + change == inputs <==> inputs >= payments + fee)
            && payments + fee + change == inputs + if inputs >= payments + fee then 0 else M
  {
    var built := Build(lib, proposals, address, answers).value;
    var fee := Fee(|built.used|, |proposals| + 1, answers.finalFee.value);
    SmallIsUnchanged(Total(built.used));
    SmallIsUnchanged(Amount(proposals));
    ChangeOf(Total(built.used), fee, Amount(proposals));
  }

  /** The change read as signed, by what is left over after payments and fee. */
  lemma SignedChange(inputs: uint64, fee: uint64, outputs: uint64)
    requires outputs <= inputs
    ensures var change, surplus := Sub64(Sub64(inputs, fee), outputs), inputs - outputs - fee;
            && (change < M / 2 <==> 0 <= surplus < M / 2 || surplus < -(M / 2))
            && Int64(change) == surplus + (if surplus >= M / 2 then -M else if surplus < -(M / 2) then M else 0)
  {
    ChangeOf(inputs, fee, outputs);
  }

  /**
   What the outputs are worth and whether one is negative, by the surplus of the inputs over payments and
   fee. With everything below 2^63 they are worth the inputs without the fee, and none is negative
   exactly if there is no deficit.
   */
  ghost predicate BalanceLaw(inputs: int, payments: int, fee: int, large: int, value: int, nonNegative: bool) {
    var surplus := inputs - payments - fee;
    && (value + fee == inputs <==>
        (large == 0 && -(M / 2) <= surplus < M / 2) || (large == 1 && surplus < -(M / 2)))
    && (nonNegative <==> large == 0 && (0 <= surplus < M / 2 || surplus < -(M / 2)))
    && (inputs < M / 2 && fee < M / 2 ==> value + fee == inputs && (nonNegative <==> surplus >= 0))
  }

  lemma SignedBalance(inputs: uint64, fee: uint64, outputs: uint64, large: nat, value: int, nonNegative: bool)
    requires large * (M / 2) <= outputs <= inputs
    requires value == outputs - large * M + Int64(Sub64(Sub64(inputs, fee), outputs))
    requires nonNegative <==> large == 0 && Sub64(Sub64(inputs, fee), outputs) < M / 2
    ensures BalanceLaw(inputs, outputs, fee, large, value, nonNegative)
  {
    SignedChange(inputs, fee, outputs);
    assert large <= 1;
  }

  lemma BuiltCovers(lib: Library, proposals: seq<Proposal>, address: string, answers: Answers)
    requires |proposals| < M / 2 && (answers.utxos.Some? ==> |answers.utxos.value| < M / 2)
    requires Build(lib, proposals, address, answers).Some?
    requires Amount(proposals) < M && Total(Build(lib, proposals, address, answers).value.used) < M
    ensures var built := Build(lib, proposals, address, answers).value;
            var inputs, fee := Total(built.used), Fee(|built.used|, |proposals| + 1, answers.finalFee.value);
            && Amount(proposals) <= inputs
            && Change(proposals, built.used, answers.finalFee.value) == Sub64(Sub64(inputs, fee), Amount(proposals))
  {
    SmallIsUnchanged(Total(Build(lib, proposals, address, answers).value.used));
    SmallIsUnchanged(Amount(proposals));
  }

  /** The law holds for every transaction that is built, as long as inputs and payments fit 64 bits. */
  lemma TransactionBalances(lib: Library, proposals: seq<Proposal>, address: string, answers: Answers)
    requires |proposals| < M / 2 && (answers.utxos.Some? ==> |answers.utxos.value| < M / 2)
    requires Build(lib, proposals, address, answers).Some?
    requires Amount(proposals) < M && Total(Build(lib, proposals, address, answers).value.used) < M
    ensures var built := Build(lib, proposals, address, answers).value;
            BalanceLaw(Total(built.used), Amount(proposals), Fee(|built.used|, |proposals| + 1, answers.finalFee.value),
                       Large(proposals), Value(built.txOut), NonNegative(built.txOut))
  {
    var built := Build(lib, proposals, address, answers).value;
    var fee := Fee(|built.used|, |proposals| + 1, answers.finalFee.value);
    LargeAmounts(proposals);
    PaymentsPayAmounts(lib, proposals);
    BuiltValue(lib, proposals, address, answers);
    BuiltCovers(lib, proposals, address, answers);
    SignedBalance(Total(built.used), fee, Amount(proposals), Large(proposals),
                  Value(built.txOut), NonNegative(built.txOut));
  }

  // ----- transactions with a negative output -----

  lemma OneOfEach(lib: Library, p: Proposal, u: Utxo)
    requires lib.payTo(p.recipient).Some? && lib.txHash(u.txid).Some?
    ensures Amount([p]) == p.amount && Total([u]) == u.value
    ensures Payments(lib, [p]) == Some([TxOut(Int64(p.amount), lib.payTo(p.recipient).value)])
    ensures OutPoints(lib, [u]) == Some([OutPoint(lib.txHash(u.txid).value, u.vout)])
    ensures forall estimateFee :: Selection([p], [u], estimateFee) == [u]
  {
    assert [p][..0] == [] && [u][..0] == [] && [u][..1] == [u];
    assert Payments(lib, []) == Some([]) && OutPoints(lib, []) == Some([]);
    var out, point := TxOut(Int64(p.amount), lib.payTo(p.recipient).value), OutPoint(lib.txHash(u.txid).value, u.vout);
    assert [] + [out] == [out] && [] + [point] == [point];
    assert Amount([]) == 0 && Total([]) == 0;
    assert forall target: uint64 :: Taken([u], target) == 1;
  }

  lemma LowestFees()
    ensures Rate(0) == 5 && Fee(1, 2, 0) == 1240
  { }

  /** One payment from one unspent output that covers it but not the fee: the change is written as a negative output. */
  lemma ChangeCanBeNegative(lib: Library, p: Proposal, address: string, cid: string, u: Utxo) returns (built: Built)
    requires lib.payTo(p.recipient).Some? && lib.payTo(address).Some? && lib.txHash(u.txid).Some?
    requires DataOutput(lib, Some(cid)).Some?
    requires p.amount <= u.value < p.amount + 1240 < M / 2
    ensures Build(lib, [p], address, Answers(Some(cid), Some([u]), Some(0), Some(0))) == Some(built)
    ensures |built.txOut| == 3 && built.txOut[2].value == u.value - p.amount - 1240 < 0
  {
    OneOfEach(lib, p, u);
    LowestFees();
    SignedChange(u.value, 1240, p.amount);
    SmallIsUnchanged(u.value);
    SmallIsUnchanged(p.amount);
    var outs := [TxOut(p.amount, lib.payTo(p.recipient).value), DataOutput(lib, Some(cid)).value];
    var change := TxOut(u.value - p.amount - 1240, lib.payTo(address).value);
    built := Built([OutPoint(lib.txHash(u.txid).value, u.vout)], outs + [change], [u]);
    assert [outs[0]] + [outs[1]] == outs;
    assert Outputs(lib, [p], Some(cid)) == Some(outs);
    assert Int64(Change([p], [u], 0)) == change.value;
  }

  // ----- when change is guaranteed -----

  /**
   Inputs that pass the target and are fewer than the proposals always leave change, when both fee
   readings fall into one bucket and no sum overflows.
   */
  lemma EarlyStopLeavesChange(proposals: seq<Proposal>, utxos: seq<Utxo>, estimateFee: uint64, finalFee: uint64)
    requires |proposals| < M / 2 && |utxos| < M / 2
    requires Rate(finalFee) == Rate(estimateFee)
    requires 214 * |proposals| + 34 < M
    requires var used := Selection(proposals, utxos, estimateFee);
             && |used| < |proposals|
             && Amount(proposals) + PlainFee(|proposals|, |proposals|, Rate(estimateFee)) < Total(used) < M
    ensures var used := Selection(proposals, utxos, estimateFee);
            var fee := PlainFee(|used|, |proposals| + 1, Rate(finalFee));
            && Change(proposals, used, finalFee) == Total(used) - fee - Amount(proposals)
            && Change(proposals, used, finalFee) > 146 * Rate(finalFee)
  {
    var n, rate := |proposals|, Rate(estimateFee);
    var used := Selection(proposals, utxos, estimateFee);
    var estimate, fee := PlainFee(n, n, rate), PlainFee(|used|, n + 1, rate);
    FinalFeeIsLower(|used|, n, rate);
    FeeWithoutWrap(|used|, n + 1, finalFee);
    ChangeWithoutWrap(Total(used), fee, Amount(proposals), estimate);
  }

  lemma FinalFeeIsLower(used: nat, proposals: nat, rate: nat)
    requires used < proposals
    ensures PlainFee(used, proposals + 1, rate) + 146 * rate <= PlainFee(proposals, proposals, rate)
  {
    FeeAboveEstimate(used, proposals, rate);
    var saved := 180 * (proposals - used) - 34;
    assert saved >= 146;
    assert saved * rate >= 146 * rate;
    assert (180 * (used - proposals) + 34) * rate == -(saved * rate);
  }

  /** Leaving some unspent outputs over means that the target was passed. */
  lemma EarlyStopGathers(proposals: seq<Proposal>, utxos: seq<Utxo>, estimateFee: uint64)
    requires |proposals| < M / 2 && Total(utxos) < M
    requires var n := |proposals|;
             214 * n < M && Amount(proposals) + PlainFee(n, n, Rate(estimateFee)) < M
    requires |Selection(proposals, utxos, estimateFee)| < |utxos|
    ensures var n := |proposals|;
            Amount(proposals) + PlainFee(n, n, Rate(estimateFee)) < Total(Selection(proposals, utxos, estimateFee)) < M
  {
    var used, n := Selection(proposals, utxos, estimateFee), |proposals|;
    var estimate := PlainFee(n, n, Rate(estimateFee));
    FeeWithoutWrap(n, n, estimateFee);
    SmallIsUnchanged(Amount(proposals));
    SmallIsUnchanged(Amount(proposals) + estimate);
    TakenIsShortest(utxos, Amount(proposals) + estimate, |used|);
    TotalMonotone(utxos, |used|, |utxos|);
    assert utxos[..|utxos|] == utxos;
  }

  lemma ChangeWithoutWrap(inputs: nat, fee: nat, outputs: nat, estimate: nat)
    requires fee <= estimate && outputs + estimate < inputs < M
    ensures inputs % M == inputs && outputs % M == outputs
    ensures Sub64(Sub64(inputs, fee), outputs) == inputs - fee - outputs
  { }
}
