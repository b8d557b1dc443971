/** 32-bit sequence numbers compared by signed difference (section 3.4 of RFC 9293). */
module SerialNumbers {
  const MODULUS := 0x1_0000_0000
  const HALF := 0x8000_0000

  type uint32 = x: int | 0 <= x < MODULUS

  function Add32(a: uint32, n: int): uint32 {
    (a + n) % MODULUS
  }

  function Sub32(a: uint32, b: uint32): uint32 {
    (a - b) % MODULUS
  }

  function ToInt32(a: uint32): int {
    if a < HALF then a else a - MODULUS
  }

  predicate SeqBefore(a: uint32, b: uint32) {
    ToInt32(Sub32(a, b)) < 0
  }

  predicate SeqAfter(a: uint32, b: uint32) {
    SeqBefore(b, a)
  }

  /** The comparison agrees with the order of true stream offsets as long as the two are less
      than 2^31 apart, wherever the stream lies relative to the 2^32 wrap. */
  lemma SeqAfterIsOffsetOrder(base: uint32, x: int, y: int)
    requires -HALF < x - y < HALF
    ensures SeqAfter(Add32(base, x), Add32(base, y)) <==> x > y
    ensures Add32(base, x) == Add32(base, y) <==> x == y
  {
  }

  lemma SubOffsets(base: uint32, x: int, y: int)
    requires 0 <= x - y < MODULUS
    ensures Sub32(Add32(base, x), Add32(base, y)) == x - y
  {
  }

  lemma AddOffsets(base: uint32, x: int, y: int)
    ensures Add32(Add32(base, x), y) == Add32(base, x + y)
  {
  }

  /** Any two distinct sequence numbers are ordered one way, except exactly antipodal ones,
      which count as ordered both ways. */
  lemma ComparisonIsTotalExceptAntipodes(a: uint32, b: uint32)
    ensures SeqBefore(a, b) || SeqBefore(b, a) <==> a != b
    ensures SeqBefore(a, b) && SeqBefore(b, a) <==> Sub32(a, b) == HALF
  {
  }
}
