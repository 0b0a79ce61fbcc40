/** Unsigned 64-bit arithmetic, which wraps around. */
module UInt64 {

  const M := 0x1_0000_0000_0000_0000

  type uint64 = x: int | 0 <= x < M

  function Add64(a: uint64, b: uint64): uint64 { (a + b) % M }
  function Sub64(a: uint64, b: uint64): uint64 { (a - b) % M }
  function Mul64(a: uint64, b: uint64): uint64 { (a * b) % M }

  /** Reinterpreting as a signed number. */
  function Int64(a: uint64): int { if a < M / 2 then a else a - M }

  lemma SmallIsUnchanged(x: nat)
    requires x < M
    ensures x % M == x
  { }
}
