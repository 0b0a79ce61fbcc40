/**
 Building the Bitcoin transaction that pays a batch of proposals: unspent outputs in block order,
 greedy input selection, fee and change in 64-bit arithmetic.
 */
module BtcTransaction {
  import opened Sorting
  import opened Text
  import opened UInt64

  // ----- unspent outputs -----

  datatype Utxo = Utxo(txid: string, vout: nat, value: uint64, blockTime: uint64)

  predicate UtxoBefore(u: Utxo, v: Utxo) {
    if u.blockTime == v.blockTime then TextBefore(u.txid, v.txid) else u.blockTime < v.blockTime
  }

  lemma UtxoOrder()
    ensures StrictWeakOrder(UtxoBefore)
  {
    forall u, v | UtxoBefore(u, v) ensures !UtxoBefore(v, u) {
      TextOrder(u.txid, v.txid, []);
    }
    forall u, v, w | UtxoBefore(u, w) ensures UtxoBefore(u, v) || UtxoBefore(v, w) {
      TextOrder(u.txid, v.txid, w.txid);
    }
  }

  /** Older blocks come first, and within a block the lexicographically smaller transaction id. */
  lemma SortedByAge(utxos: seq<Utxo>, i: nat, j: nat)
    requires Sorted(utxos, UtxoBefore) && i < j < |utxos|
    ensures utxos[i].blockTime <= utxos[j].blockTime
    ensures utxos[i].blockTime == utxos[j].blockTime ==> !exists k: nat :: BeforeAt(utxos[j].txid, utxos[i].txid, k)
  {
    assert !UtxoBefore(utxos[j], utxos[i]);
    TextIsLexicographic(utxos[j].txid, utxos[i].txid);
  }

  /** The fetched outputs in the order every relayer uses. */
  method Utxos(fetched: seq<Utxo>) returns (utxos: seq<Utxo>)
    ensures IsSortOf(utxos, fetched, UtxoBefore)
  {
    UtxoOrder();
    var a := new Utxo[|fetched|](i requires 0 <= i < |fetched| => fetched[i]);
    assert a[..] == fetched;
    Sort(a, UtxoBefore);
    return a[..];
  }

  /** Different outputs never share block time and transaction. */
  ghost predicate DistinctOrigins(utxos: seq<Utxo>) {
    forall u, v :: u in utxos && v in utxos && u != v ==> u.blockTime != v.blockTime || u.txid != v.txid
  }

  /** All relayers order the same outputs alike exactly when no two of them come from one transaction. */
  lemma UtxoOrderIsCanonicalIff(fetched: seq<Utxo>)
    ensures DistinctOrigins(fetched) <==>
              forall r1, r2 :: IsSortOf(r1, fetched, UtxoBefore) && IsSortOf(r2, fetched, UtxoBefore) ==> r1 == r2
  {
    UtxoOrder();
    SortIsCanonicalIff(fetched, UtxoBefore);
    forall u, v | u in fetched && v in fetched && u != v
      ensures (UtxoBefore(u, v) || UtxoBefore(v, u)) <==> (u.blockTime != v.blockTime || u.txid != v.txid)
    {
      TextOrder(u.txid, v.txid, u.txid);
    }
  }

  // ----- fee -----

  const INPUT_SIZE: uint64 := 180
  const OUTPUT_SIZE: uint64 := 34
  const FEE_ROUNDING_FACTOR: uint64 := 5

  function Rate(economyFee: uint64): uint64 {
    Add64(Mul64(economyFee / FEE_ROUNDING_FACTOR, FEE_ROUNDING_FACTOR), FEE_ROUNDING_FACTOR)
  }

  function Fee(inputs: uint64, outputs: uint64, economyFee: uint64): uint64 {
    Mul64(Add64(Mul64(inputs, INPUT_SIZE), Mul64(outputs, OUTPUT_SIZE)), Rate(economyFee))
  }

  /**
   The rate is the next multiple of five above the economy fee, unless that wraps around, which happens
   for the largest fee only; and exactly the fees of one bucket of five share a rate.
   */
  lemma RateRoundsUp(economyFee: uint64, other: uint64)
    ensures economyFee < Rate(economyFee) <= economyFee + 5 && Rate(economyFee) % 5 == 0 <==> economyFee != M - 1
    ensures Rate(other) == Rate(economyFee) <==> other / FEE_ROUNDING_FACTOR == economyFee / FEE_ROUNDING_FACTOR
  {
    assert forall e: uint64 :: e != M - 1 ==> Rate(e) == e / FEE_ROUNDING_FACTOR * FEE_ROUNDING_FACTOR + 5;
    assert Rate(M - 1) == 4;
  }

  /** The fee as a plain number. */
  function PlainFee(inputs: nat, outputs: nat, rate: nat): nat {
    (180 * inputs + 34 * outputs) * rate
  }

  lemma FeeWithoutWrap(inputs: uint64, outputs: uint64, economyFee: uint64)
    requires 180 * inputs + 34 * outputs < M && PlainFee(inputs, outputs, Rate(economyFee)) < M
    ensures Fee(inputs, outputs, economyFee) == PlainFee(inputs, outputs, Rate(economyFee))
  {
    MulSmall(inputs, INPUT_SIZE);
    MulSmall(outputs, OUTPUT_SIZE);
    SmallIsUnchanged(180 * inputs + 34 * outputs);
    MulSmall(180 * inputs + 34 * outputs, Rate(economyFee));
  }

  lemma MulSmall(a: uint64, b: uint64)
    requires a * b < M
    ensures Mul64(a, b) == a * b
  {
    SmallIsUnchanged(a * b);
  }

  /** How far the final fee lies above the estimate made before the inputs were known. */
  lemma FeeAboveEstimate(utxos: nat, proposals: nat, rate: nat)
    ensures PlainFee(utxos, proposals + 1, rate) - PlainFee(proposals, proposals, rate) ==
            (180 * (utxos - proposals) + 34) * rate
  { }

  // ----- input selection -----

  function Total(utxos: seq<Utxo>): nat {
    if utxos == [] then 0 else Total(utxos[..|utxos| - 1]) + utxos[|utxos| - 1].value
  }

  /** Values of unspent outputs add up over any split. */
  lemma {:induction false} TotalsAdd(a: seq<Utxo>, b: seq<Utxo>)
    ensures Total(a + b) == Total(a) + Total(b)
    ensures |b| == 1 ==> Total(b) == b[0].value
    decreases |b|
  {
    if b == [] {
      assert a + b == a;
    } else {
      assert (a + b)[..|a + b| - 1] == a + b[..|b| - 1];
      TotalsAdd(a, b[..|b| - 1]);
    }
  }

  /** What the loop accumulates over the first `k` outputs. */
  function Gathered(utxos: seq<Utxo>, k: nat): uint64
    requires k <= |utxos|
  {
    Total(utxos[..k]) % M
  }

  lemma GatherOne(utxos: seq<Utxo>, k: nat)
    requires k < |utxos|
    ensures Gathered(utxos, k + 1) == Add64(Gathered(utxos, k), utxos[k].value)
  {
    assert utxos[..k + 1][..k] == utxos[..k];
  }

  /** How many outputs are taken: the first count, beyond `k`, that gathers more than the target. */
  function TakenFrom(utxos: seq<Utxo>, target: uint64, k: nat): (n: nat)
    requires k <= |utxos|
    ensures k <= n <= |utxos|
    ensures k < |utxos| ==> k < n
    ensures forall j :: k < j < n ==> Gathered(utxos, j) <= target
    ensures n == |utxos| || Gathered(utxos, n) > target
    decreases |utxos| - k
  {
    if k == |utxos| then k
    else if Gathered(utxos, k + 1) > target then k + 1
    else TakenFrom(utxos, target, k + 1)
  }

  function Taken(utxos: seq<Utxo>, target: uint64): nat {
    TakenFrom(utxos, target, 0)
  }

  /** Without overflow the chosen inputs are the shortest prefix worth more than the target, or everything. */
  lemma TakenIsShortest(utxos: seq<Utxo>, target: uint64, k: nat)
    requires Total(utxos) < M && k <= |utxos|
    ensures k < Taken(utxos, target) ==> Total(utxos[..k]) <= target
    ensures Taken(utxos, target) <= k && Taken(utxos, target) < |utxos| ==> Total(utxos[..k]) > target
  {
    var n := Taken(utxos, target);
    GatheredIsTotal(utxos, k);
    GatheredIsTotal(utxos, n);
    if n <= k {
      TotalMonotone(utxos, n, k);
    } else if k == 0 {
      assert utxos[..k] == [];
    }
  }

  lemma GatheredIsTotal(utxos: seq<Utxo>, k: nat)
    requires Total(utxos) < M && k <= |utxos|
    ensures Gathered(utxos, k) == Total(utxos[..k])
  {
    assert utxos[..|utxos|] == utxos;
    TotalMonotone(utxos, k, |utxos|);
    SmallIsUnchanged(Total(utxos[..k]));
  }

  lemma {:induction false} TotalMonotone(utxos: seq<Utxo>, i: nat, j: nat)
    requires i <= j <= |utxos|
    ensures Total(utxos[..i]) <= Total(utxos[..j])
    decreases j
  {
    if i < j {
      TotalMonotone(utxos, i, j - 1);
      assert utxos[..j][..j - 1] == utxos[..j - 1];
    }
  }
}
