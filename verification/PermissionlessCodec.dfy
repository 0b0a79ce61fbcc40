/** Permissionless generic deposits: parsed from calldata on one chain, printed as proposal data on another. */
module PermissionlessCodec {
  import opened Seqs
  import opened Bytes

  datatype Payload = Payload(
    functionSig: seq<byte>,
    contract: seq<byte>,
    maxFee: seq<byte>,
    depositor: seq<byte>,
    executionData: seq<byte>)

  /** `OutOfRange` is a run that ends in a slice bounds failure. */
  datatype Parsed = Parsed(payload: Payload, gasLimit: nat) | TooShort | OutOfRange

  function FunctionSigEnd(c: seq<byte>): nat
    requires |c| >= 76
  {
    34 + Number(c[32..34])
  }

  function ContractEnd(c: seq<byte>): nat
    requires |c| >= 76 && FunctionSigEnd(c) < |c|
  {
    FunctionSigEnd(c) + 1 + c[FunctionSigEnd(c)]
  }

  function DepositorEnd(c: seq<byte>): nat
    requires |c| >= 76 && FunctionSigEnd(c) < |c| && ContractEnd(c) < |c|
  {
    ContractEnd(c) + 1 + c[ContractEnd(c)]
  }

  /** All three length prefixes stay within the calldata. */
  predicate Fits(c: seq<byte>)
    requires |c| >= 76
  {
    FunctionSigEnd(c) < |c| && ContractEnd(c) < |c| && DepositorEnd(c) <= |c|
  }

  function HandleDeposit(c: seq<byte>): Parsed {
    if |c| < 76 then TooShort
    else if !Fits(c) then OutOfRange
    else
      var sigEnd, contractEnd, depositorEnd := FunctionSigEnd(c), ContractEnd(c), DepositorEnd(c);
      Parsed(Payload(c[34..sigEnd], c[sigEnd + 1..contractEnd], c[..32],
                     c[contractEnd + 1..depositorEnd], c[depositorEnd..]),
             Number(c[..32]) % 0x1_0000_0000_0000_0000)
  }

  function Proposal(p: Payload): seq<byte> {
    LeftPad(p.maxFee, 32)
    + Word(|p.functionSig|, 2) + p.functionSig
    + [|p.contract| % 256] + p.contract
    + [|p.depositor| % 256] + p.depositor
    + p.executionData
  }

  /** What is written parses back to the payload if it is writable, and restores any calldata that it came from. */
  method WriteProposal(p: Payload) returns (data: seq<byte>)
    ensures data == Proposal(p)
    ensures HandleDeposit(data).Parsed? && HandleDeposit(data).payload == p <==> Writable(p)
    ensures forall c :: HandleDeposit(c).Parsed? && HandleDeposit(c).payload == p ==> data == c
  {
    data := LeftPad(p.maxFee, 32);
    data := data + Word(|p.functionSig|, 2);
    data := data + p.functionSig;
    data := data + [|p.contract| % 256];
    data := data + p.contract;
    data := data + [|p.depositor| % 256];
    data := data + p.depositor;
    data := data + p.executionData;
    ParseUndoesPrintIff(p);
    forall c | HandleDeposit(c).Parsed? && HandleDeposit(c).payload == p ensures data == c {
      PrintUndoesParse(c);
    }
  }

  /** The handler on an untyped payload: a field of another type is an error. */
  method PermissionlessGenericMessageHandler(fields: seq<Field>) returns (ok: bool, data: seq<byte>)
    requires |fields| >= 5
    ensures ok <==> forall i :: 0 <= i < 5 ==> fields[i].Raw?
    ensures ok ==> data == Proposal(Payload(fields[0].b, fields[1].b, fields[2].b, fields[3].b, fields[4].b))
  {
    if !fields[0].Raw? || !fields[1].Raw? || !fields[2].Raw? || !fields[3].Raw? || !fields[4].Raw? {
      return false, [];
    }
    data := WriteProposal(Payload(fields[0].b, fields[1].b, fields[2].b, fields[3].b, fields[4].b));
    return true, data;
  }

  /** Printing what was parsed gives back the calldata, byte for byte. */
  lemma PrintUndoesParse(c: seq<byte>)
    requires HandleDeposit(c).Parsed?
    ensures Proposal(HandleDeposit(c).payload) == c
  {
    var sigEnd, contractEnd, depositorEnd := FunctionSigEnd(c), ContractEnd(c), DepositorEnd(c);
    WordInvertsNumber(c[32..34]);
    Join(c, 0, 32, 34);
    Join(c, 0, 34, sigEnd);
    SizedJoin(c, sigEnd, contractEnd);
    SizedJoin(c, contractEnd, depositorEnd);
    Join(c, 0, depositorEnd, |c|);
  }

  /** A length byte and the field it announces continue what was read so far. */
  lemma SizedJoin(c: seq<byte>, at: nat, end: nat)
    requires at < end <= |c| && end == at + 1 + c[at]
    ensures c[..at] + [|c[at + 1..end]| % 256] + c[at + 1..end] == c[..end]
  {
    assert c[..at] + [c[at]] == c[..at + 1];
    Join(c, 0, at + 1, end);
  }

  /** A payload whose lengths can be written down, in calldata that is long enough to be read. */
  predicate Writable(p: Payload) {
    && |p.maxFee| == 32 && |p.functionSig| < 0x1_0000 && |p.contract| < 256 && |p.depositor| < 256
    && |Proposal(p)| >= 76
  }

  /** A field with its length in front of it. */
  function Sized(s: seq<byte>): seq<byte>
    requires |s| < 256
  {
    [|s|] + s
  }

  /** What follows the function signature. */
  function Rest(p: Payload): seq<byte>
    requires Writable(p)
  {
    Sized(p.contract) + (Sized(p.depositor) + p.executionData)
  }

  lemma PrintedNested(p: Payload)
    requires Writable(p)
    ensures Proposal(p) == p.maxFee + (Word(|p.functionSig|, 2) + (p.functionSig + Rest(p)))
  {
    assert Rest(p) == [|p.contract|] + p.contract + [|p.depositor|] + p.depositor + p.executionData;
  }

  lemma Peel(a: seq<byte>, b: seq<byte>)
    ensures (a + b)[..|a|] == a && (a + b)[|a|..] == b
  { }

  lemma PrintedHeader(p: Payload)
    requires Writable(p)
    ensures var c, sigEnd := Proposal(p), 34 + |p.functionSig|;
            && c[..32] == p.maxFee && Number(c[32..34]) == |p.functionSig|
            && sigEnd <= |c| && c[34..sigEnd] == p.functionSig && c[sigEnd..] == Rest(p)
  {
    var sig, length := p.functionSig, Word(|p.functionSig|, 2);
    NumberOfWord(|sig|, 2);
    TwoBytes();
    WordLength(|sig|, 2);
    PrintedNested(p);
    var c := Proposal(p);
    Peel(p.maxFee, length + (sig + Rest(p)));
    Peel(length, sig + Rest(p));
    Peel(sig, Rest(p));
    assert c[32..34] == c[32..][..2] && c[34..] == c[32..][2..];
    assert c[34..34 + |sig|] == c[34..][..|sig|] && c[34 + |sig|..] == c[34..][|sig|..];
  }

  lemma TwoBytes()
    ensures Pow256(2) == 0x1_0000
  {
    assert Pow256(1) == 256 * Pow256(0);
  }

  /** Reading the two sized fields and the remainder from any position. */
  lemma ReadRest(c: seq<byte>, at: nat, p: Payload)
    requires Writable(p) && at <= |c| && c[at..] == Rest(p)
    ensures var contractEnd := at + 1 + |p.contract|;
            var depositorEnd := contractEnd + 1 + |p.depositor|;
            && depositorEnd <= |c| && c[at] == |p.contract| && c[contractEnd] == |p.depositor|
            && c[at + 1..contractEnd] == p.contract && c[contractEnd + 1..depositorEnd] == p.depositor
            && c[depositorEnd..] == p.executionData
  {
    var contractEnd := at + 1 + |p.contract|;
    var depositorEnd := contractEnd + 1 + |p.depositor|;
    Peel(Sized(p.contract), Sized(p.depositor) + p.executionData);
    Peel(Sized(p.depositor), p.executionData);
    assert c[at] == c[at..][0];
    assert c[at + 1..contractEnd] == c[at..][..|Sized(p.contract)|][1..];
    assert c[contractEnd..] == c[at..][|Sized(p.contract)|..];
    assert c[contractEnd] == c[contractEnd..][0];
    assert c[contractEnd + 1..depositorEnd] == c[contractEnd..][..|Sized(p.depositor)|][1..];
    assert c[depositorEnd..] == c[contractEnd..][|Sized(p.depositor)|..];
  }

  lemma ParseUndoesPrint(p: Payload)
    requires Writable(p)
    ensures HandleDeposit(Proposal(p)).Parsed? && HandleDeposit(Proposal(p)).payload == p
  {
    PrintedHeader(p);
    ReadRest(Proposal(p), 34 + |p.functionSig|, p);
  }

  /** Parsing a printed payload gives it back exactly when the payload is writable. */
  lemma ParseUndoesPrintIff(p: Payload)
    ensures (HandleDeposit(Proposal(p)).Parsed? && HandleDeposit(Proposal(p)).payload == p) <==> Writable(p)
  {
    var c := Proposal(p);
    if Writable(p) {
      ParseUndoesPrint(p);
    }
    if HandleDeposit(c).Parsed? {
      TwoBytes();
      NumberBound(c[32..34]);
    }
  }

  /** The layout of a deposit, field by field, and the gas limit: the last eight bytes of the fee. */
  lemma LayoutIsParsed(fee: seq<byte>, sig: seq<byte>, contract: seq<byte>, depositor: seq<byte>, data: seq<byte>)
    returns (c: seq<byte>)
    requires |fee| == 32 && |sig| < 0x1_0000 && |contract| < 256 && |depositor| < 256
    requires |sig| + |contract| + |depositor| + |data| >= 40
    ensures c == fee + Word(|sig|, 2) + sig + [|contract|] + contract + [|depositor|] + depositor + data
    ensures HandleDeposit(c) == Parsed(Payload(sig, contract, fee, depositor, data), Number(fee[24..]))
  {
    c := fee + Word(|sig|, 2) + sig + [|contract|] + contract + [|depositor|] + depositor + data;
    var p := Payload(sig, contract, fee, depositor, data);
    assert c == Proposal(p);
    assert Writable(p);
    ParseUndoesPrint(p);
    assert c[..32] == fee;
    LowBytes(fee, fee[24..]);
  }
}
