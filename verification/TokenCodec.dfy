/** ERC20 and ERC721 deposits: parsed from calldata, printed as proposal data. */
module TokenCodec {
  import opened Seqs
  import opened Bytes

  const OPTIONAL_REVERT_GAS := 100000

  /** How many bytes a number takes. */
  const WORD: nat := 32

  /** The length a 32-byte word is taken for: its low 64 bits, signed. */
  function LengthAt(c: seq<byte>, at: nat): int
    requires at + 32 <= |c|
  {
    LowInt64(Number(c[at..at + 32]))
  }

  /** A length word that means what it says. */
  predicate ShortLength(c: seq<byte>, at: nat)
    requires at + 32 <= |c|
  {
    Number(c[at..at + 32]) < 0x8000_0000_0000_0000
  }

  lemma ShortLengthIff(v: nat)
    ensures v < 0x8000_0000_0000_0000 <==> LowInt64(v) == v
  { }

  lemma PowerOf256(k: nat)
    requires k >= 8
    ensures Pow256(k) > 0x8000_0000_0000_0000
    decreases k
  {
    if k == 8 {
      EightBytes();
    } else {
      PowerOf256(k - 1);
    }
  }

  lemma LengthWord(length: nat, width: nat)
    requires length < 0x8000_0000_0000_0000 && width >= 8
    ensures |Word(length, width)| == width
  {
    PowerOf256(width);
    WordLength(length, width);
  }

  /** A length plus 2^64 fits a word too, and is taken for the length. */
  lemma LongLengthWord(length: nat, width: nat)
    requires length < 0x8000_0000_0000_0000 && width >= 9
    ensures |Word(0x1_0000_0000_0000_0000 + length, width)| == width
    ensures LowInt64(0x1_0000_0000_0000_0000 + length) == length
  {
    PowerOf256(width - 1);
    assert Pow256(width) == 256 * Pow256(width - 1);
    WordLength(0x1_0000_0000_0000_0000 + length, width);
  }

  /** A value that is read as the given length: the length itself, or 2^64 more. */
  predicate ReadAs(value: nat, length: nat) {
    length < 0x8000_0000_0000_0000 && (value == length || value == 0x1_0000_0000_0000_0000 + length)
  }

  lemma ReadWord(value: nat, length: nat, width: nat)
    requires ReadAs(value, length) && width >= 9
    ensures |Word(value, width)| == width && Number(Word(value, width)) == value && LowInt64(value) == length
  {
    NumberOfWord(value, width);
    if value == length {
      LengthWord(length, width);
    } else {
      LongLengthWord(length, width);
    }
  }

  /** A length word is reproduced from the length read exactly when it is short. */
  lemma LengthReprintedIff(word: seq<byte>, length: nat)
    requires |word| == 32 && length == LowInt64(Number(word))
    ensures Word(length, WORD) == word <==> Number(word) < 0x8000_0000_0000_0000
  {
    ShortLengthIff(Number(word));
    WordInvertsNumber(word);
    NumberOfWord(length, WORD);
  }

  /** Two layouts with pieces of equal size are equal exactly when the pieces that may differ are. */
  lemma SamePieces(a: seq<byte>, word1: seq<byte>, word1': seq<byte>, x: seq<byte>,
                   word2: seq<byte>, word2': seq<byte>, y: seq<byte>)
    requires |word1| == |word1'| && |word2| == |word2'|
    ensures a + word1 + x + word2 + y == a + word1' + x + word2' + y <==> word1 == word1' && word2 == word2'
  {
    var s, s' := a + word1 + x + word2 + y, a + word1' + x + word2' + y;
    var i, j := |a|, |a| + |word1| + |x|;
    assert s[i..i + |word1|] == word1 && s'[i..i + |word1|] == word1';
    assert s[j..j + |word2|] == word2 && s'[j..j + |word2|] == word2';
  }

  // ----- ERC20 -----

  datatype Erc20Payload = Erc20Payload(amount: seq<byte>, recipient: seq<byte>, optional: Option<seq<byte>>)

  /** `OutOfRange` stands for a slice bound beyond the calldata or the handler response. */
  datatype Erc20Parsed = Erc20Parsed(payload: Erc20Payload, gasLimit: Option<nat>) | Erc20TooShort | Erc20OutOfRange

  predicate Erc20Fits(c: seq<byte>)
    requires |c| >= 84
  {
    0 <= LengthAt(c, 32) && 64 + LengthAt(c, 32) <= |c|
  }

  /** Where the recipient ends. */
  function RecipientEnd(c: seq<byte>): nat
    requires |c| >= 84 && Erc20Fits(c)
  {
    64 + LengthAt(c, 32)
  }

  predicate HasMessage(c: seq<byte>)
    requires |c| >= 84 && Erc20Fits(c)
  {
    |c| > RecipientEnd(c) + 32
  }

  /** The first `width` bytes of a number are worth the number exactly when it fits into them. */
  lemma CutWordIff(sum: nat, width: nat)
    ensures |Word(sum, width)| >= width
    ensures Number(Word(sum, width)[..width]) == sum <==> sum < Pow256(width)
  {
    WordLength(sum, width);
    NumberOfWord(sum, width);
    var cut := Word(sum, width)[..width];
    NumberBound(cut);
    if sum < Pow256(width) {
      assert cut == Word(sum, width);
    }
  }

  /** The gas word with the revert gas added; a carry out of 256 bits pushes the lowest byte out. */
  function RaisedWord(word: seq<byte>): (w: seq<byte>)
    ensures |w| == |word|
    ensures Number(w) == Number(word) + OPTIONAL_REVERT_GAS <==> Number(word) + OPTIONAL_REVERT_GAS < Pow256(|word|)
  {
    CutWordIff(Number(word) + OPTIONAL_REVERT_GAS, |word|);
    Word(Number(word) + OPTIONAL_REVERT_GAS, |word|)[..|word|]
  }

  /** The calldata after the handler has run. */
  function Rewritten(c: seq<byte>): (r: seq<byte>)
    requires |c| >= 84 && Erc20Fits(c)
    ensures |r| == |c|
  {
    var e := RecipientEnd(c);
    if HasMessage(c) then c[..e] + RaisedWord(c[e..e + 32]) + c[e + 32..] else c
  }

  function ParseErc20(c: seq<byte>, handlerResponse: seq<byte>): Erc20Parsed {
    if |c| < 84 then Erc20TooShort
    else if !Erc20Fits(c) || 0 < |handlerResponse| < 32 then Erc20OutOfRange
    else
      var e := RecipientEnd(c);
      Erc20Parsed(
        Erc20Payload(if |handlerResponse| > 0 then handlerResponse[..32] else c[..32], c[64..e],
                     if HasMessage(c) then Some(Rewritten(c)[e..]) else None),
        if HasMessage(c) then Some((Number(c[e..e + 32]) + OPTIONAL_REVERT_GAS) % 0x1_0000_0000_0000_0000) else None)
  }

  /**
   The handler works on the caller's buffer: the payload consists of slices of it, and the gas word is
   raised in place. The slices for amount and recipient are the same before and after.
   */
  method HandleErc20Deposit(calldata: array<byte>, handlerResponse: seq<byte>) returns (r: Erc20Parsed)
    modifies calldata
    ensures r == ParseErc20(old(calldata[..]), handlerResponse)
    ensures calldata[..] == if r.Erc20Parsed? then Rewritten(old(calldata[..])) else old(calldata[..])
    ensures r.Erc20Parsed? ==>
              var e := RecipientEnd(old(calldata[..]));
              && calldata[..e] == old(calldata[..e])
              && (|handlerResponse| == 0 ==> r.payload.amount == calldata[..32])
              && r.payload.recipient == calldata[64..e]
              && (r.payload.optional.Some? ==> r.payload.optional.value == calldata[e..])
  {
    if calldata.Length < 84 {
      return Erc20TooShort;
    }
    ghost var c := calldata[..];
    assert calldata[32..64] == c[32..64];
    var length := LowInt64(Number(calldata[32..64]));
    if length < 0 || 64 + length > calldata.Length || 0 < |handlerResponse| < 32 {
      return Erc20OutOfRange;
    }
    var amount := if |handlerResponse| > 0 then handlerResponse[..32] else calldata[..32];
    var e := 64 + length;
    var recipient := calldata[64..e];
    if calldata.Length <= 96 + length {
      return Erc20Parsed(Erc20Payload(amount, recipient, None), None);
    }
    assert calldata[e..e + 32] == c[e..e + 32];
    var maxFee := Number(calldata[e..e + 32]) + OPTIONAL_REVERT_GAS;
    CopyInto(calldata, e, Word(maxFee, WORD)[..32]);
    assert calldata[..] == Rewritten(c);
    assert calldata[..e] == c[..e];
    assert amount == if |handlerResponse| > 0 then handlerResponse[..32] else calldata[..e][..32];
    assert recipient == calldata[..e][64..];
    return Erc20Parsed(Erc20Payload(amount, recipient, Some(calldata[e..])), Some(maxFee % 0x1_0000_0000_0000_0000));
  }

  /** Overwriting part of a buffer. */
  method CopyInto(a: array<byte>, at: nat, source: seq<byte>)
    requires at + |source| <= a.Length
    modifies a
    ensures a[..] == old(a[..at]) + source + old(a[at + |source|..])
  {
    for i := 0 to |source|
      invariant a[..at + i] == old(a[..at]) + source[..i]
      invariant a[at + i..] == old(a[at + i..])
    {
      a[at + i] := source[i];
    }
    assert a[..] == a[..at + |source|] + a[at + |source|..];
  }

  function PrintErc20(p: Erc20Payload): seq<byte> {
    LeftPad(p.amount, WORD) + Word(|p.recipient|, WORD) + p.recipient
    + (if p.optional.Some? then p.optional.value else [])
  }

  /** The handler on an untyped payload of two or three fields. */
  method ERC20MessageHandler(fields: seq<Field>) returns (ok: bool, data: seq<byte>)
    ensures ok <==> (|fields| == 2 || |fields| == 3) && forall i :: 0 <= i < |fields| ==> fields[i].Raw?
    ensures ok ==> data == PrintErc20(Erc20Payload(fields[0].b, fields[1].b,
                                                   if |fields| == 3 then Some(fields[2].b) else None))
  {
    if (|fields| != 2 && |fields| != 3) || !fields[0].Raw? || !fields[1].Raw? {
      return false, [];
    }
    data := LeftPad(fields[0].b, WORD);
    data := data + Word(|fields[1].b|, WORD);
    data := data + fields[1].b;
    if |fields| == 3 {
      if !fields[2].Raw? {
        return false, [];
      }
      data := data + fields[2].b;
    }
    return true, data;
  }

  /** The amount that counts: the converted one if the handler returned one, else the one in the calldata. */
  function Converted(c: seq<byte>, response: seq<byte>): seq<byte>
    requires |c| >= 32 && (response == [] || |response| >= 32)
  {
    if response == [] then c[..32] else response[..32]
  }

  /** The calldata through the recipient, or the whole rewritten calldata if there is a message. */
  function Relayed(c: seq<byte>): (r: seq<byte>)
    requires |c| >= 84 && Erc20Fits(c)
    ensures |r| >= 64
  {
    if HasMessage(c) then Rewritten(c) else c[..RecipientEnd(c)]
  }

  /**
   The proposal data is the amount that counts, followed by the rest of the calldata, through the recipient
   or through the rewritten message; exactly when the length word is short.
   */
  lemma Erc20PrintsIff(c: seq<byte>, response: seq<byte>)
    requires ParseErc20(c, response).Erc20Parsed?
    ensures response != [] ==> |response| >= 32 && ParseErc20(c, response).payload.amount == response[..32]
    ensures response == [] ==> ParseErc20(c, response).payload.amount == c[..32]
    ensures PrintErc20(ParseErc20(c, response).payload) == Converted(c, response) + Relayed(c)[32..]
            <==> ShortLength(c, 32)
  {
    var p := ParseErc20(c, response).payload;
    var message := if p.optional.Some? then p.optional.value else [];
    LengthReprintedIff(c[32..64], |p.recipient|);
    LengthWord(|p.recipient|, WORD);
    RelayedPieces(c, message);
    SamePieces(p.amount, Word(|p.recipient|, WORD), c[32..64], p.recipient, [], [], message);
    PiecesOfTwo(p.amount, Word(|p.recipient|, WORD), p.recipient, message);
    PiecesOfTwo(p.amount, c[32..64], p.recipient, message);
  }

  lemma PiecesOfTwo(a: seq<byte>, word: seq<byte>, x: seq<byte>, y: seq<byte>)
    ensures a + word + x + [] + y == a + word + x + y
    ensures a + (word + x + y) == a + word + x + y
  { }

  /** What is relayed after the amount. */
  lemma RelayedPieces(c: seq<byte>, message: seq<byte>)
    requires |c| >= 84 && Erc20Fits(c) && message == if HasMessage(c) then Rewritten(c)[RecipientEnd(c)..] else []
    ensures Relayed(c)[32..] == c[32..64] + c[64..RecipientEnd(c)] + message
  {
    var e := RecipientEnd(c);
    MessageFollows(c, message);
    Join(c, 32, 64, e);
    assert Relayed(c) == c[..e] + message;
    assert Relayed(c)[32..] == c[32..e] + message;
  }

  /** Without a handler response the calldata itself is relayed; exactly when the length word is short. */
  lemma Erc20PrintUndoesParseIff(c: seq<byte>)
    requires ParseErc20(c, []).Erc20Parsed?
    ensures PrintErc20(ParseErc20(c, []).payload) == (if HasMessage(c) then Rewritten(c) else c[..RecipientEnd(c)])
            <==> ShortLength(c, 32)
  {
    Erc20PrintsIff(c, []);
    var r := Relayed(c);
    assert r[..32] == c[..32];
    Join(r, 0, 32, |r|);
  }

  /** There is a gas limit exactly with a message: the last eight bytes of the raised word, unless it carries over. */
  lemma GasLimitIff(c: seq<byte>, response: seq<byte>)
    requires ParseErc20(c, response).Erc20Parsed?
    ensures ParseErc20(c, response).gasLimit.Some? <==> HasMessage(c)
    ensures var e := RecipientEnd(c);
            HasMessage(c) && Number(c[e..e + 32]) + OPTIONAL_REVERT_GAS < Pow256(|c[e..e + 32]|) ==>
              ParseErc20(c, response).gasLimit == Some(Number(Rewritten(c)[e + 24..e + 32]))
  {
    var e := RecipientEnd(c);
    if HasMessage(c) {
      RewriteRaisesGasIff(c);
      var raised := Rewritten(c)[e..e + 32];
      assert raised[24..] == Rewritten(c)[e + 24..e + 32];
      LowBytes(raised, raised[24..]);
    }
  }

  /** Calldata whose length word is 2^64 too large parses all the same, and is not printed back. */
  lemma Erc20LongLength(amount: seq<byte>, value: nat, recipient: seq<byte>) returns (c: seq<byte>)
    requires |amount| == 32 && |recipient| >= 20 && ReadAs(value, |recipient|)
    ensures c == amount + Word(value, WORD) + recipient && ParseErc20(c, []).Erc20Parsed?
    ensures ParseErc20(c, []).payload == Erc20Payload(amount, recipient, None)
    ensures PrintErc20(ParseErc20(c, []).payload) == c <==> value == |recipient|
  {
    c := amount + Word(value, WORD) + recipient;
    ReadWord(value, |recipient|, WORD);
    Replaced(amount, Word(value, WORD), recipient);
    assert c[32..64] == Word(value, WORD) && c[64..] == recipient;
    assert c[..|c|] == c && c[64..|c|] == recipient;
    Erc20PrintUndoesParseIff(c);
  }

  /** The layout of calldata with a message: the gas word is raised, and the message follows it. */
  lemma Erc20LayoutWithMessage(amount: seq<byte>, recipient: seq<byte>, gas: seq<byte>, message: seq<byte>)
    returns (c: seq<byte>)
    requires |amount| == 32 == |gas| && 20 <= |recipient| < 0x8000_0000_0000_0000 && message != []
    ensures c == amount + Word(|recipient|, WORD) + recipient + gas + message && ParseErc20(c, []).Erc20Parsed?
    ensures ParseErc20(c, []).payload == Erc20Payload(amount, recipient, Some(RaisedWord(gas) + message))
  {
    var word := Word(|recipient|, WORD);
    c := amount + word + recipient + gas + message;
    ReadWord(|recipient|, |recipient|, WORD);
    Erc721Pieces(amount, word, recipient, gas, message);
    var e := 64 + |recipient|;
    assert c[32..64] == word && c[e..e + 32] == gas;
    assert RecipientEnd(c) == e && HasMessage(c);
    Replaced(c[..e], RaisedWord(gas), message);
    assert Rewritten(c)[e..] == RaisedWord(gas) + message;
  }

  /** What is expected after the recipient. */
  lemma MessageFollows(c: seq<byte>, message: seq<byte>)
    requires |c| >= 84 && Erc20Fits(c) && message == if HasMessage(c) then Rewritten(c)[RecipientEnd(c)..] else []
    ensures c[..RecipientEnd(c)] + message == if HasMessage(c) then Rewritten(c) else c[..RecipientEnd(c)]
  {
    if HasMessage(c) {
      var e, r := RecipientEnd(c), Rewritten(c);
      assert r[..e] == c[..e];
      Join(r, 0, e, |r|);
    }
  }

  /** The rewrite adds the revert gas exactly when the sum stays below 2^256; nothing else changes. */
  lemma RewriteRaisesGasIff(c: seq<byte>)
    requires |c| >= 84 && Erc20Fits(c) && HasMessage(c)
    ensures var e, r := RecipientEnd(c), Rewritten(c);
            var word, raised := c[e..e + 32], r[e..e + 32];
            && r[..e] == c[..e] && r[e + 32..] == c[e + 32..]
            && (Number(raised) == Number(word) + OPTIONAL_REVERT_GAS <==>
                Number(word) + OPTIONAL_REVERT_GAS < Pow256(|word|))
  {
    var e, r := RecipientEnd(c), Rewritten(c);
    var word := c[e..e + 32];
    Replaced(c[..e], RaisedWord(word), c[e + 32..]);
  }

  lemma Replaced(a: seq<byte>, b: seq<byte>, c: seq<byte>)
    ensures var s := a + b + c; s[..|a|] == a && s[|a|..|a| + |b|] == b && s[|a| + |b|..] == c
  { }

  // ----- ERC721 -----

  datatype Erc721Payload = Erc721Payload(tokenId: seq<byte>, recipient: seq<byte>, metadata: seq<byte>)

  datatype Erc721Parsed = Erc721Parsed(payload: Erc721Payload) | Erc721TooShort | Erc721OutOfRange

  /** Where the metadata length starts, when the recipient fits. */
  function MetadataAt(c: seq<byte>): Option<nat>
    requires |c| >= 64
  {
    var length := LengthAt(c, 32);
    if 0 <= length && 64 + length + 32 <= |c| then Some(64 + length) else None
  }

  function MetadataEnd(c: seq<byte>): Option<nat>
    requires |c| >= 64 && MetadataAt(c).Some?
  {
    var at := MetadataAt(c).value;
    var length := LengthAt(c, at);
    if Number(c[at..at + 32]) == 0 then Some(at + 32)
    else if 0 <= length && at + 32 + length <= |c| then Some(at + 32 + length)
    else None
  }

  function HandleErc721Deposit(c: seq<byte>): Erc721Parsed {
    if |c| < 64 then Erc721TooShort
    else if MetadataAt(c) == None || MetadataEnd(c) == None then Erc721OutOfRange
    else
      var at := MetadataAt(c).value;
      Erc721Parsed(Erc721Payload(c[..32], c[64..at], c[at + 32..MetadataEnd(c).value]))
  }

  function PrintErc721(p: Erc721Payload): seq<byte> {
    LeftPad(p.tokenId, WORD) + Word(|p.recipient|, WORD) + p.recipient + Word(|p.metadata|, WORD) + p.metadata
  }

  method ERC721MessageHandler(fields: seq<Field>) returns (ok: bool, data: seq<byte>)
    ensures ok <==> |fields| == 3 && forall i :: 0 <= i < 3 ==> fields[i].Raw?
    ensures ok ==> data == PrintErc721(Erc721Payload(fields[0].b, fields[1].b, fields[2].b))
  {
    if |fields| != 3 || !fields[0].Raw? || !fields[1].Raw? || !fields[2].Raw? {
      return false, [];
    }
    data := LeftPad(fields[0].b, WORD);
    data := data + Word(|fields[1].b|, WORD);
    data := data + fields[1].b;
    data := data + Word(|fields[2].b|, WORD);
    data := data + fields[2].b;
    return true, data;
  }

  lemma JoinFive(c: seq<byte>, i: nat, j: nat, k: nat, l: nat, end: nat)
    requires i <= j <= k <= l <= end <= |c|
    ensures c[..end] == c[..i] + c[i..j] + c[j..k] + c[k..l] + c[l..end]
  {
    Join(c, 0, i, j);
    Join(c, 0, j, k);
    Join(c, 0, k, l);
    Join(c, 0, l, end);
  }

  /** The proposal data is the calldata through the metadata exactly when both length words are short. */
  lemma Erc721PrintUndoesParseIff(c: seq<byte>)
    requires HandleErc721Deposit(c).Erc721Parsed?
    ensures PrintErc721(HandleErc721Deposit(c).payload) == c[..MetadataEnd(c).value]
            <==> ShortLength(c, 32) && ShortLength(c, MetadataAt(c).value)
  {
    var at, end, p := MetadataAt(c).value, MetadataEnd(c).value, HandleErc721Deposit(c).payload;
    LengthReprintedIff(c[32..64], |p.recipient|);
    LengthReprintedIff(c[at..at + 32], |p.metadata|);
    LengthWord(|p.recipient|, WORD);
    LengthWord(|p.metadata|, WORD);
    JoinFive(c, 32, 64, at, at + 32, end);
    SamePieces(c[..32], Word(|p.recipient|, WORD), c[32..64], p.recipient,
               Word(|p.metadata|, WORD), c[at..at + 32], p.metadata);
  }

  /** The same for either length word of an ERC721 deposit. */
  lemma Erc721LongLength(tokenId: seq<byte>, value: nat, recipient: seq<byte>, value': nat, metadata: seq<byte>)
    returns (c: seq<byte>)
    requires |tokenId| == 32 && ReadAs(value, |recipient|) && ReadAs(value', |metadata|)
    ensures c == tokenId + Word(value, WORD) + recipient + Word(value', WORD) + metadata
    ensures HandleErc721Deposit(c) == Erc721Parsed(Erc721Payload(tokenId, recipient, metadata))
    ensures PrintErc721(Erc721Payload(tokenId, recipient, metadata)) == c <==>
              value == |recipient| && value' == |metadata|
  {
    var word, word' := Word(value, WORD), Word(value', WORD);
    c := tokenId + word + recipient + word' + metadata;
    ReadWord(value, |recipient|, WORD);
    ReadWord(value', |metadata|, WORD);
    Erc721Pieces(tokenId, word, recipient, word', metadata);
    var at := 64 + |recipient|;
    assert c[32..64] == word && c[at..at + 32] == word';
    assert MetadataAt(c) == Some(at) && MetadataEnd(c) == Some(|c|);
    assert c[..|c|] == c && c[at + 32..|c|] == metadata;
    Erc721PrintUndoesParseIff(c);
  }

  lemma Erc721Pieces(a: seq<byte>, word: seq<byte>, x: seq<byte>, word': seq<byte>, y: seq<byte>)
    requires |a| == |word| == |word'| == 32
    ensures var c, at := a + word + x + word' + y, 64 + |x|;
            && |c| == at + 32 + |y| && c[..32] == a && c[32..64] == word && c[64..at] == x
            && c[at..at + 32] == word' && c[at + 32..] == y
  { }
}
