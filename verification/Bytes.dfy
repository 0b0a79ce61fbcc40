/** Big-endian numbers in byte strings, as `big.Int` and left padding produce and read them. */
module Bytes {

  type byte = x: int | 0 <= x < 256

  /** One entry of an untyped message payload. */
  datatype Field = Raw(b: seq<byte>) | Other

  function Pow256(k: nat): nat {
    if k == 0 then 1 else 256 * Pow256(k - 1)
  }

  function Number(s: seq<byte>): nat {
    if s == [] then 0 else 256 * Number(s[..|s| - 1]) + s[|s| - 1]
  }

  /** The shortest big-endian form: no leading zero, nothing at all for 0. */
  function Minimal(n: nat): seq<byte> {
    if n == 0 then [] else Minimal(n / 256) + [n % 256]
  }

  function Zeros(n: nat): (s: seq<byte>)
    ensures |s| == n && forall i :: 0 <= i < n ==> s[i] == 0
  {
    if n == 0 then [] else Zeros(n - 1) + [0]
  }

  /** Padding to a width; what is already as long stays as it is. */
  function LeftPad(s: seq<byte>, width: nat): seq<byte> {
    if |s| >= width then s else Zeros(width - |s|) + s
  }

  function Word(n: nat, width: nat): seq<byte> {
    LeftPad(Minimal(n), width)
  }

  /** Reading a big.Int as a signed 64-bit number keeps the low 64 bits. */
  function LowInt64(v: nat): int {
    var low := v % 0x1_0000_0000_0000_0000;
    if low < 0x8000_0000_0000_0000 then low else low - 0x1_0000_0000_0000_0000
  }

  lemma {:induction false} NumberBound(s: seq<byte>)
    ensures Number(s) < Pow256(|s|)
  {
    if s != [] {
      NumberBound(s[..|s| - 1]);
    }
  }

  lemma {:induction false} NumberOfMinimal(n: nat)
    ensures Number(Minimal(n)) == n
  {
    if n != 0 {
      NumberOfMinimal(n / 256);
      assert Minimal(n)[..|Minimal(n)| - 1] == Minimal(n / 256);
    }
  }

  lemma {:induction false} NumberOfPadded(zeros: nat, s: seq<byte>)
    ensures Number(Zeros(zeros) + s) == Number(s)
    decreases |s|, zeros
  {
    if s == [] {
      if zeros > 0 {
        NumberOfPadded(zeros - 1, []);
        assert Zeros(zeros) + [] == Zeros(zeros - 1) + [0];
        assert (Zeros(zeros) + [])[..zeros - 1] == Zeros(zeros - 1) + [];
      }
    } else {
      var front := s[..|s| - 1];
      NumberOfPadded(zeros, front);
      assert (Zeros(zeros) + s)[..|Zeros(zeros) + s| - 1] == Zeros(zeros) + front;
    }
  }

  lemma NumberOfWord(n: nat, width: nat)
    ensures Number(Word(n, width)) == n
  {
    NumberOfMinimal(n);
    if |Minimal(n)| < width {
      NumberOfPadded(width - |Minimal(n)|, Minimal(n));
    }
  }

  lemma {:induction false} MinimalLength(n: nat, k: nat)
    ensures |Minimal(n)| <= k <==> n < Pow256(k)
    decreases n
  {
    if n == 0 {
      NumberBound(Zeros(k));
    } else if k > 0 {
      MinimalLength(n / 256, k - 1);
    }
  }

  /** A number below 256^width becomes exactly `width` bytes. */
  lemma WordLength(n: nat, width: nat)
    ensures |Word(n, width)| == width <==> n < Pow256(width)
    ensures |Word(n, width)| >= width
  {
    MinimalLength(n, width);
  }

  /** Padding the minimal form of a number back to the old width undoes reading it. */
  lemma {:induction false} WordInvertsNumber(s: seq<byte>)
    ensures Word(Number(s), |s|) == s
  {
    if s != [] {
      var front, last := s[..|s| - 1], s[|s| - 1];
      WordInvertsNumber(front);
      NumberBound(front);
      MinimalLength(Number(front), |front|);
      if Number(s) == 0 {
        assert s == Zeros(|front|) + [0] && Minimal(0) == [];
        assert Word(0, |s|) == Zeros(|s|) + [];
      } else {
        assert Minimal(Number(s)) == Minimal(Number(front)) + [last];
        assert s == front + [last];
      }
    }
  }

  /** A number is its high bytes, shifted, plus its low bytes. */
  lemma {:induction false} NumberOfJoined(high: seq<byte>, low: seq<byte>)
    ensures Number(high + low) == Number(high) * Pow256(|low|) + Number(low)
    decreases |low|
  {
    if low == [] {
      assert high + low == high;
    } else {
      var front := low[..|low| - 1];
      NumberOfJoined(high, front);
      assert (high + low)[..|high + low| - 1] == high + front;
      Distribute(Number(high), Pow256(|front|));
    }
  }

  lemma Distribute(n: nat, p: nat)
    ensures 256 * (n * p) == n * (256 * p)
  { }

  lemma EightBytes()
    ensures Pow256(8) == 0x1_0000_0000_0000_0000
  {
    assert Pow256(2) == 256 * Pow256(1) && Pow256(1) == 256 * Pow256(0);
    assert Pow256(4) == 256 * Pow256(3) && Pow256(3) == 256 * Pow256(2);
    assert Pow256(6) == 256 * Pow256(5) && Pow256(5) == 256 * Pow256(4);
    assert Pow256(8) == 256 * Pow256(7) && Pow256(7) == 256 * Pow256(6);
  }

  /** The low 64 bits of a number are its last eight bytes. */
  lemma LowBytes(s: seq<byte>, low: seq<byte>)
    requires |low| == 8 <= |s| && low == s[|s| - 8..]
    ensures Number(s) % 0x1_0000_0000_0000_0000 == Number(low)
  {
    var high := s[..|s| - 8];
    assert s == high + low;
    NumberOfJoined(high, low);
    EightBytes();
    NumberBound(low);
    Remainder(Number(high), Number(low));
  }

  lemma Remainder(high: nat, low: nat)
    requires low < 0x1_0000_0000_0000_0000
    ensures (high * 0x1_0000_0000_0000_0000 + low) % 0x1_0000_0000_0000_0000 == low
  { }
}
