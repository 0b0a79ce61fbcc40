/** When relayers that see the same unspent outputs build the same Bitcoin transaction. */
module BtcAgreement {
  import opened Seqs
  import opened Sorting
  import opened Text
  import opened UInt64
  import opened BtcTransaction
  import opened BtcRawTx

  /** The order of the mempool client does not tell the two apart. */
  predicate SameOrigin(u: Utxo, v: Utxo) {
    u.blockTime == v.blockTime && u.txid == v.txid
  }

  /** Each of the first `n` outputs is the only one, at or after its place, from its transaction. */
  ghost predicate Unambiguous(r: seq<Utxo>, n: nat) {
    forall i, j :: 0 <= i < n && i < j < |r| && SameOrigin(r[i], r[j]) ==> r[i] == r[j]
  }

  lemma UnambiguousMeansNoTies(r: seq<Utxo>, n: nat)
    requires Sorted(r, UtxoBefore)
    ensures Unambiguous(r, n) <==> NoTiesBelow(r, UtxoBefore, n)
  {
    forall i, j | 0 <= i < j < |r| ensures UtxoBefore(r[i], r[j]) <==> !SameOrigin(r[i], r[j]) {
      assert !UtxoBefore(r[j], r[i]);
      TextOrder(r[i].txid, r[j].txid, []);
    }
  }

  lemma SameGathered(r: seq<Utxo>, r2: seq<Utxo>, n: nat, k: nat)
    requires k <= n <= |r| == |r2| && r[..n] == r2[..n]
    ensures Gathered(r, k) == Gathered(r2, k)
  {
    assert r[..k] == r[..n][..k] && r2[..k] == r2[..n][..k];
  }

  /** How many outputs are taken depends on those that are taken only. */
  lemma TakenByPrefix(r: seq<Utxo>, r2: seq<Utxo>, target: uint64)
    requires |r| == |r2| && r[..Taken(r, target)] == r2[..Taken(r, target)]
    ensures Taken(r2, target) == Taken(r, target)
  {
    var n, n2 := Taken(r, target), Taken(r2, target);
    if n2 < n {
      SameGathered(r, r2, n, n2);
    } else if n < n2 {
      SameGathered(r, r2, n, n);
    }
  }

  /** If the sorts first differ at a place that is taken in one, that place is taken in the other as well. */
  lemma TakenPastDifference(r: seq<Utxo>, r2: seq<Utxo>, target: uint64, i: nat)
    requires |r| == |r2| && i < Taken(r, target) && r[..i] == r2[..i]
    ensures i < Taken(r2, target)
  {
    var n2 := Taken(r2, target);
    if n2 <= i {
      SameGathered(r, r2, i, n2);
    }
  }

  /** All sorts of the outputs give the same inputs exactly when no taken output ties with a later one. */
  lemma SelectionIsCanonicalIff(r: seq<Utxo>, target: uint64)
    requires Sorted(r, UtxoBefore)
    ensures Unambiguous(r, Taken(r, target)) <==>
              forall r2 :: IsSortOf(r2, r, UtxoBefore) ==> r2[..Taken(r2, target)] == r[..Taken(r, target)]
  {
    var n := Taken(r, target);
    UnambiguousMeansNoTies(r, n);
    if Unambiguous(r, n) {
      forall r2 | IsSortOf(r2, r, UtxoBefore) ensures r2[..Taken(r2, target)] == r[..n] {
        PrefixIsForced(r, r2, UtxoBefore, n);
        TakenByPrefix(r, r2, target);
      }
    } else {
      var r2 := AnotherSelection(r, target);
    }
  }

  lemma AnotherSelection(r: seq<Utxo>, target: uint64) returns (r2: seq<Utxo>)
    requires Sorted(r, UtxoBefore) && !Unambiguous(r, Taken(r, target))
    ensures IsSortOf(r2, r, UtxoBefore) && |r2| == |r|
    ensures r2[..Taken(r2, target)] != r[..Taken(r, target)]
  {
    var n := Taken(r, target);
    UnambiguousMeansNoTies(r, n);
    var i: nat, j: nat :| i < n && i < j < |r| && r[i] != r[j] && !UtxoBefore(r[i], r[j]);
    UtxoOrder();
    r2 := TieIsAmbiguous(r, UtxoBefore, i, j);
    TakenPastDifference(r, r2, target, i);
    assert r2[..Taken(r2, target)][i] == r2[i] && r[..n][i] == r[i];
  }

  // ----- whole transactions -----

  predicate SameBucket(a: Option<uint64>, b: Option<uint64>) {
    a.Some? && b.Some? && a.value / FEE_ROUNDING_FACTOR == b.value / FEE_ROUNDING_FACTOR
  }

  /** What the inputs have to be worth more than. */
  function Target(proposals: seq<Proposal>, estimateFee: uint64): uint64
    requires |proposals| < M / 2
  {
    Add64(Amount(proposals) % M, Fee(|proposals|, |proposals|, estimateFee))
  }

  // ----- exactly when two answers lead to one transaction -----

  /** The outputs: payments, metadata and, unless it is zero, the change. */
  function OutputsWith(payments: seq<TxOut>, data: TxOut, change: uint64, script: string): seq<TxOut> {
    payments + [data] + if change == 0 then [] else [TxOut(Int64(change), script)]
  }

  lemma SameOutputs(payments: seq<TxOut>, data: TxOut, change: uint64, data': TxOut, change': uint64, script: string)
    ensures OutputsWith(payments, data, change, script) == OutputsWith(payments, data', change', script) <==>
              data == data' && change == change'
  {
    var outs, outs' := OutputsWith(payments, data, change, script), OutputsWith(payments, data', change', script);
    if outs == outs' {
      assert outs[|payments|] == data && outs'[|payments|] == data';
      assert change != 0 ==> outs[|payments| + 1].value == Int64(change);
      assert change' != 0 ==> outs'[|payments| + 1].value == Int64(change');
    }
  }

  lemma BuiltOutputs(lib: Library, proposals: seq<Proposal>, address: string, a: Answers)
    requires |proposals| < M / 2 && (a.utxos.Some? ==> |a.utxos.value| < M / 2)
    requires Build(lib, proposals, address, a).Some?
    ensures var built := Build(lib, proposals, address, a).value;
            var change := Change(proposals, built.used, a.finalFee.value);
            && built.used == Selection(proposals, a.utxos.value, a.estimateFee.value)
            && built.txOut == OutputsWith(Payments(lib, proposals).value, DataOutput(lib, a.cid).value, change,
                                          if lib.payTo(address).Some? then lib.payTo(address).value else "")
  { }

  /** Equal fees for one transaction size mean one bucket, where nothing wraps around. */
  lemma SameFeeIff(inputs: uint64, outputs: uint64, fee: uint64, fee': uint64)
    requires 0 < 180 * inputs + 34 * outputs < M
    requires PlainFee(inputs, outputs, Rate(fee)) < M && PlainFee(inputs, outputs, Rate(fee')) < M
    ensures Fee(inputs, outputs, fee) == Fee(inputs, outputs, fee') <==>
              fee / FEE_ROUNDING_FACTOR == fee' / FEE_ROUNDING_FACTOR
  {
    FeeWithoutWrap(inputs, outputs, fee);
    FeeWithoutWrap(inputs, outputs, fee');
    RateRoundsUp(fee, fee');
    SameProduct(180 * inputs + 34 * outputs, Rate(fee), Rate(fee'));
  }

  lemma SameProduct(size: nat, rate: nat, rate': nat)
    requires size > 0
    ensures size * rate == size * rate' <==> rate == rate'
  {
    if rate < rate' {
      assert size * rate' >= size * (rate + 1);
    } else if rate' < rate {
      assert size * rate >= size * (rate' + 1);
    }
  }

  /** Wrapped subtraction loses nothing, so equal change means equal fees. */
  lemma SameChangeIff(inputs: uint64, fee: uint64, fee': uint64, outputs: uint64)
    ensures Sub64(Sub64(inputs, fee), outputs) == Sub64(Sub64(inputs, fee'), outputs) <==> fee == fee'
  {
    SubWraps(inputs, fee);
    SubWraps(inputs, fee');
    SubWraps(Sub64(inputs, fee), outputs);
    SubWraps(Sub64(inputs, fee'), outputs);
  }

  /** The transaction's size and its fee, for one reading of the economy fee, fit 64 bits. */
  predicate FeeFits(inputs: nat, proposals: nat, economyFee: uint64) {
    180 * inputs + 34 * (proposals + 1) < M && PlainFee(inputs, proposals + 1, Rate(economyFee)) < M
  }

  /**
   Two relayers that can both build, with fees that fit 64 bits, build the same transaction if and only
   if they agree on the metadata output and the inputs, and read final fees from one bucket.
   */
  lemma BuildsAgreeIff(lib: Library, proposals: seq<Proposal>, address: string, a: Answers, b: Answers)
    requires |proposals| < M / 2 && (a.utxos.Some? ==> |a.utxos.value| < M / 2)
    requires b.utxos.Some? ==> |b.utxos.value| < M / 2
    requires Build(lib, proposals, address, a).Some? && Build(lib, proposals, address, b).Some?
    requires FeeFits(|Build(lib, proposals, address, a).value.used|, |proposals|, a.finalFee.value)
    requires FeeFits(|Build(lib, proposals, address, b).value.used|, |proposals|, b.finalFee.value)
    ensures Build(lib, proposals, address, a) == Build(lib, proposals, address, b) <==>
              && DataOutput(lib, a.cid) == DataOutput(lib, b.cid)
              && Selection(proposals, a.utxos.value, a.estimateFee.value) ==
                 Selection(proposals, b.utxos.value, b.estimateFee.value)
              && SameBucket(a.finalFee, b.finalFee)
  {
    BuiltOutputs(lib, proposals, address, a);
    BuiltOutputs(lib, proposals, address, b);
    var ours, theirs := Build(lib, proposals, address, a).value, Build(lib, proposals, address, b).value;
    if ours.used == theirs.used {
      SameChangeForUsed(proposals, ours.used, a.finalFee.value, b.finalFee.value);
      SameOutputs(Payments(lib, proposals).value,
                  DataOutput(lib, a.cid).value, Change(proposals, ours.used, a.finalFee.value),
                  DataOutput(lib, b.cid).value, Change(proposals, ours.used, b.finalFee.value),
                  if lib.payTo(address).Some? then lib.payTo(address).value else "");
    }
  }

  lemma SameChangeForUsed(proposals: seq<Proposal>, used: seq<Utxo>, fee: uint64, fee': uint64)
    requires |proposals| < M / 2 && |used| < M / 2
    requires FeeFits(|used|, |proposals|, fee) && FeeFits(|used|, |proposals|, fee')
    ensures Change(proposals, used, fee) == Change(proposals, used, fee') <==>
              fee / FEE_ROUNDING_FACTOR == fee' / FEE_ROUNDING_FACTOR
  {
    var n := |proposals| + 1;
    SameFeeIff(|used|, n, fee, fee');
    SameChangeIff(Total(used) % M, Fee(|used|, n, fee), Fee(|used|, n, fee'), Amount(proposals) % M);
  }

  /**
   Relayers that sorted the same outputs, in whatever way, and read fees from the same buckets build the
   same transaction if no output taken by one of them ties with a later one.
   */
  lemma RelayersBuildTheSame(lib: Library, proposals: seq<Proposal>, address: string, a: Answers, b: Answers)
    requires |proposals| < M / 2 && a.utxos.Some? && b.utxos.Some? && |a.utxos.value| < M / 2
    requires Sorted(a.utxos.value, UtxoBefore) && IsSortOf(b.utxos.value, a.utxos.value, UtxoBefore)
    requires |b.utxos.value| == |a.utxos.value| && a.cid == b.cid
    requires SameBucket(a.estimateFee, b.estimateFee) && SameBucket(a.finalFee, b.finalFee)
    requires Unambiguous(a.utxos.value, Taken(a.utxos.value, Target(proposals, a.estimateFee.value)))
    ensures Build(lib, proposals, address, a) == Build(lib, proposals, address, b)
  {
    SelectionIsCanonicalIff(a.utxos.value, Target(proposals, a.estimateFee.value));
    RateRoundsUp(a.estimateFee.value, b.estimateFee.value);
    RateRoundsUp(a.finalFee.value, b.finalFee.value);
    assert Selection(proposals, a.utxos.value, a.estimateFee.value) ==
           Selection(proposals, b.utxos.value, b.estimateFee.value);
  }

  /** A transaction that can be built is built by every relayer exactly when no taken output ties with a later one. */
  lemma RelayersBuildTheSameIff(lib: Library, proposals: seq<Proposal>, address: string, a: Answers)
    requires |proposals| < M / 2 && a.utxos.Some? && |a.utxos.value| < M / 2 && a.estimateFee.Some?
    requires Sorted(a.utxos.value, UtxoBefore) && Build(lib, proposals, address, a).Some?
    ensures Unambiguous(a.utxos.value, Taken(a.utxos.value, Target(proposals, a.estimateFee.value))) <==>
              forall r2 :: IsSortOf(r2, a.utxos.value, UtxoBefore) && |r2| == |a.utxos.value| ==>
                Build(lib, proposals, address, a.(utxos := Some(r2))) == Build(lib, proposals, address, a)
  {
    var r, target := a.utxos.value, Target(proposals, a.estimateFee.value);
    if Unambiguous(r, Taken(r, target)) {
      forall r2 | IsSortOf(r2, r, UtxoBefore) && |r2| == |r|
        ensures Build(lib, proposals, address, a.(utxos := Some(r2))) == Build(lib, proposals, address, a)
      {
        RelayersBuildTheSame(lib, proposals, address, a, a.(utxos := Some(r2)));
      }
    } else {
      var r2 := AnotherSelection(r, target);
      assert Selection(proposals, r2, a.estimateFee.value) != Selection(proposals, r, a.estimateFee.value);
      assert Build(lib, proposals, address, a.(utxos := Some(r2))) != Build(lib, proposals, address, a);
    }
  }

  /** Two outputs of one transaction, each enough for the payment: relayers that sort them differently diverge. */
  lemma TwinOutputsDiverge(lib: Library, proposals: seq<Proposal>, address: string, a: Answers, u: Utxo, v: Utxo)
    requires |proposals| < M / 2 && a.utxos == Some([u, v]) && a.estimateFee.Some?
    requires SameOrigin(u, v) && u.vout != v.vout
    requires u.value > Target(proposals, a.estimateFee.value) && v.value > Target(proposals, a.estimateFee.value)
    requires Build(lib, proposals, address, a).Some?
    ensures IsSortOf([u, v], [u, v], UtxoBefore) && IsSortOf([v, u], [u, v], UtxoBefore)
    ensures var ours := Build(lib, proposals, address, a);
            var theirs := Build(lib, proposals, address, a.(utxos := Some([v, u])));
            ours != theirs && (theirs.Some? ==> ours.value.txIn != theirs.value.txIn)
  {
    TextOrder(u.txid, u.txid, []);
    FirstIsEnough(u, v, Target(proposals, a.estimateFee.value));
    FirstIsEnough(v, u, Target(proposals, a.estimateFee.value));
    OnePoint(lib, u);
    OnePoint(lib, v);
  }

  lemma OnePoint(lib: Library, u: Utxo)
    ensures OutPoints(lib, [u]).Some? ==>
              |OutPoints(lib, [u]).value| == 1 && OutPoints(lib, [u]).value[0].vout == u.vout
  {
    assert [u][..0] == [];
    assert OutPoints(lib, []) == Some([]);
  }

  lemma FirstIsEnough(u: Utxo, v: Utxo, target: uint64)
    requires u.value > target
    ensures [u, v][..Taken([u, v], target)] == [u]
  {
    assert [u, v][..1] == [u] && [u][..0] == [];
    assert Total([]) == 0 && Gathered([u, v], 1) == u.value;
  }
}
