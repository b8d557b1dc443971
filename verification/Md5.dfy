/** The MD5 used for client fingerprints: the block function, and the loop that feeds it. */
module Md5 {
  import opened Bytes
  import opened Sequences

  type word = bv32

  datatype Registers<W> = Registers(a: W, b: W, c: W, d: W)

  type State = Registers<word>

  const START: State := Registers(0x67452301, 0xefcdab89, 0x98badcfe, 0x10325476)

  /** The table of constants, in four rows. */
  const K1: seq<word> := [
    0xd76aa478, 0xe8c7b756, 0x242070db, 0xc1bdceee, 0xf57c0faf, 0x4787c62a, 0xa8304613, 0xfd469501,
    0x698098d8, 0x8b44f7af, 0xffff5bb1, 0x895cd7be, 0x6b901122, 0xfd987193, 0xa679438e, 0x49b40821]
  const K2: seq<word> := [
    0xf61e2562, 0xc040b340, 0x265e5a51, 0xe9b6c7aa, 0xd62f105d, 0x02441453, 0xd8a1e681, 0xe7d3fbc8,
    0x21e1cde6, 0xc33707d6, 0xf4d50d87, 0x455a14ed, 0xa9e3e905, 0xfcefa3f8, 0x676f02d9, 0x8d2a4c8a]
  const K3: seq<word> := [
    0xfffa3942, 0x8771f681, 0x6d9d6122, 0xfde5380c, 0xa4beea44, 0x4bdecfa9, 0xf6bb4b60, 0xbebfbc70,
    0x289b7ec6, 0xeaa127fa, 0xd4ef3085, 0x04881d05, 0xd9d4d039, 0xe6db99e5, 0x1fa27cf8, 0xc4ac5665]
  const K4: seq<word> := [
    0xf4292244, 0x432aff97, 0xab9423a7, 0xfc93a039, 0x655b59c3, 0x8f0ccc92, 0xffeff47d, 0x85845dd1,
    0x6fa87e4f, 0xfe2ce6e0, 0xa3014314, 0x4e0811a1, 0xf7537e82, 0xbd3af235, 0x2ad7d2bb, 0xeb86d391]

  /** The four rows of the shift table, one for each round. */
  const S1: seq<nat> := [7, 12, 17, 22, 7, 12, 17, 22, 7, 12, 17, 22, 7, 12, 17, 22]
  const S2: seq<nat> := [5, 9, 14, 20, 5, 9, 14, 20, 5, 9, 14, 20, 5, 9, 14, 20]
  const S3: seq<nat> := [4, 11, 16, 23, 4, 11, 16, 23, 4, 11, 16, 23, 4, 11, 16, 23]
  const S4: seq<nat> := [6, 10, 15, 21, 6, 10, 15, 21, 6, 10, 15, 21, 6, 10, 15, 21]

  function Rol(x: word, s: nat): word
    requires s <= 32
  {
    (x << s) | (x >> (32 - s))
  }

  function Constant(i: nat): word
    requires i < 64
  {
    if i < 16 then K1[i] else if i < 32 then K2[i - 16] else if i < 48 then K3[i - 32] else K4[i - 48]
  }

  lemma ShiftRows(k: nat)
    requires k < 16
    ensures |S1| == |S2| == |S3| == |S4| == 16
    ensures S1[k] == [7, 12, 17, 22][k % 4] && S2[k] == [5, 9, 14, 20][k % 4]
    ensures S3[k] == [4, 11, 16, 23][k % 4] && S4[k] == [6, 10, 15, 21][k % 4]
  {
  }

  function CodeShift(i: nat): (s: nat)
    requires i < 64
    ensures s <= 32
  {
    hide S1, S2, S3, S4;
    ShiftRows(i % 16);
    if i < 16 then S1[i] else if i < 32 then S2[i - 16] else if i < 48 then S3[i - 32] else S4[i - 48]
  }

  function Sum(f: word, a: word, k: word, m: word): word {
    f + a + k + m
  }

  function Turned(b: word, x: word, s: nat): word
    requires s <= 32
  {
    b + Rol(x, s)
  }

  function F(x: word, y: word, z: word): word {
    (x & y) | (!x & z)
  }

  function H(x: word, y: word, z: word): word {
    x ^ y ^ z
  }

  function I(x: word, y: word, z: word): word {
    y ^ (x | !z)
  }

  /** The second round's function is the first's with its arguments turned round. */
  function Choice(i: nat, b: word, c: word, d: word): word {
    if i < 16 then F(b, c, d)
    else if i < 32 then F(d, b, c)
    else if i < 48 then H(b, c, d)
    else I(b, c, d)
  }

  function Index(i: nat): (g: nat)
    requires i < 64
    ensures g < 16
  {
    if i < 16 then i else if i < 32 then (5 * i + 1) % 16 else if i < 48 then (3 * i + 5) % 16 else 7 * i % 16
  }

  /** The four variables move one place on, the new value among them. */
  function Advance<W>(s: Registers<W>, w: W): Registers<W> {
    Registers(s.d, w, s.b, s.c)
  }

  /** Step i of the block loop. */
  function Shuffle(s: State, m: seq<word>, i: nat): State
    requires |m| == 16 && i < 64
  {
    Advance(s, Turned(s.b, Sum(Choice(i, s.b, s.c, s.d), s.a, Constant(i), m[Index(i)]), CodeShift(i)))
  }

  function Shuffles(s: State, m: seq<word>, i: nat): State
    requires |m| == 16 && i <= 64
  {
    if i == 0 then s else Shuffle(Shuffles(s, m, i - 1), m, i - 1)
  }

  function WordAt(block: seq<byte>, i: nat): word
    requires 4 * i + 3 < |block|
  {
    (block[4 * i] as word) | ((block[4 * i + 1] as word) << 8) | ((block[4 * i + 2] as word) << 16)
    | ((block[4 * i + 3] as word) << 24)
  }

  function Words(block: seq<byte>): (m: seq<word>)
    requires |block| == 64
    ensures |m| == 16
  {
    seq(16, i requires 0 <= i < 16 => WordAt(block, i))
  }

  function Added(x: word, y: word): word {
    x + y
  }

  function Plus(s: State, t: State): State {
    Registers(Added(s.a, t.a), Added(s.b, t.b), Added(s.c, t.c), Added(s.d, t.d))
  }

  // ---------------------------------------------------------------- the standard's block function

  function G(x: word, y: word, z: word): word {
    (x & z) | (y & !z)
  }

  /** The functions of the four rounds of section 3.4 of RFC 1321. */
  function Auxiliary(round: nat, x: word, y: word, z: word): word {
    if round == 0 then F(x, y, z) else if round == 1 then G(x, y, z) else if round == 2 then H(x, y, z) else I(x, y, z)
  }

  /** The order in which the later rounds of section 3.4 use the words of the block. */
  const SECOND: seq<nat> := [1, 6, 11, 0, 5, 10, 15, 4, 9, 14, 3, 8, 13, 2, 7, 12]
  const THIRD: seq<nat> := [5, 8, 11, 14, 1, 4, 7, 10, 13, 0, 3, 6, 9, 12, 15, 2]
  const FOURTH: seq<nat> := [0, 7, 14, 5, 12, 3, 10, 1, 8, 15, 6, 13, 4, 11, 2, 9]

  const SHIFTS: seq<seq<nat>> := [[7, 12, 17, 22], [5, 9, 14, 20], [4, 11, 16, 23], [6, 10, 15, 21]]

  function Order(i: nat): (k: nat)
    requires i < 64
    ensures k < 16
  {
    if i < 16 then i else if i < 32 then SECOND[i - 16] else if i < 48 then THIRD[i - 32] else FOURTH[i - 48]
  }

  function Shift(i: nat): (s: nat)
    requires i < 64
    ensures s <= 32
  {
    SHIFTS[i / 16][i % 4]
  }

  function StandardSum(a: word, f: word, x: word, t: word): word {
    a + f + x + t
  }

  /** b + ((a + F(b,c,d) + X[k] + T[i]) <<< s). */
  function Mixed(q: State, m: seq<word>, i: nat): word
    requires |m| == 16 && i < 64
  {
    Turned(q.b, StandardSum(q.a, Auxiliary(i / 16, q.b, q.c, q.d), m[Order(i)], Constant(i)), Shift(i))
  }

  /** The registers in the roles operation i gives them: [ABCD], [DABC], [CDAB], [BCDA], and again. */
  function Renamed<W>(r: Registers<W>, i: nat): Registers<W> {
    if i % 4 == 0 then r
    else if i % 4 == 1 then Registers(r.d, r.a, r.b, r.c)
    else if i % 4 == 2 then Registers(r.c, r.d, r.a, r.b)
    else Registers(r.b, r.c, r.d, r.a)
  }

  /** Setting the register that operation i calls a. */
  function Assigned<W>(r: Registers<W>, i: nat, w: W): Registers<W> {
    if i % 4 == 0 then r.(a := w)
    else if i % 4 == 1 then r.(d := w)
    else if i % 4 == 2 then r.(c := w)
    else r.(b := w)
  }

  /** One operation on four registers that stay in place. */
  function Operation(r: State, m: seq<word>, i: nat): State
    requires |m| == 16 && i < 64
  {
    Assigned(r, i, Mixed(Renamed(r, i), m, i))
  }

  function Operations(r: State, m: seq<word>, i: nat): State
    requires |m| == 16 && i <= 64
  {
    if i == 0 then r else Operation(Operations(r, m, i - 1), m, i - 1)
  }

  /** The standard's block function: 64 operations, then the old registers are added. */
  function Compress(s: State, block: seq<byte>): State
    requires |block| == 64
  {
    Plus(s, Operations(s, Words(block), 64))
  }

  lemma SecondAgrees(k: nat)
    requires k < 16
    ensures |SECOND| == 16 && SECOND[k] == (5 * (k + 16) + 1) % 16
  {
  }

  lemma ThirdAgrees(k: nat)
    requires k < 16
    ensures |THIRD| == 16 && THIRD[k] == (3 * (k + 32) + 5) % 16
  {
  }

  lemma FourthAgrees(k: nat)
    requires k < 16
    ensures |FOURTH| == 16 && FOURTH[k] == 7 * (k + 48) % 16
  {
  }

  lemma OrdersAgree(i: nat)
    requires i < 64
    ensures Order(i) == Index(i)
  {
    hide SECOND, THIRD, FOURTH;
    if 16 <= i < 32 {
      SecondAgrees(i - 16);
    } else if 32 <= i < 48 {
      ThirdAgrees(i - 32);
    } else if 48 <= i {
      FourthAgrees(i - 48);
    }
  }

  lemma ShiftsAgree(i: nat)
    requires i < 64
    ensures Shift(i) == CodeShift(i)
  {
    hide S1, S2, S3, S4;
    ShiftRows(i % 16);
    assert i % 16 % 4 == i % 4;
  }

  lemma TurnedRound(b: word, c: word, d: word)
    ensures F(d, b, c) == G(b, c, d)
  {
  }

  lemma ChoiceIsAuxiliary(i: nat, b: word, c: word, d: word)
    requires i < 64
    ensures Choice(i, b, c, d) == Auxiliary(i / 16, b, c, d)
  {
    hide F, G, H, I;
    TurnedRound(b, c, d);
  }

  lemma SumCommutes(f: word, a: word, k: word, m: word)
    ensures Sum(f, a, k, m) == StandardSum(a, f, m, k)
  {
  }

  lemma ShuffleIsMixed(s: State, m: seq<word>, i: nat)
    requires |m| == 16 && i < 64
    ensures Shuffle(s, m, i) == Advance(s, Mixed(s, m, i))
  {
    hide Order, Shift, CodeShift, Index, Choice, Auxiliary, Constant, Sum, StandardSum, Turned, Advance;
    OrdersAgree(i);
    ShiftsAgree(i);
    ChoiceIsAuxiliary(i, s.b, s.c, s.d);
    SumCommutes(Choice(i, s.b, s.c, s.d), s.a, Constant(i), m[Index(i)]);
  }

  lemma AdvanceIsAssigned<W>(r: Registers<W>, i: nat, w: W)
    ensures Advance(Renamed(r, i), w) == Renamed(Assigned(r, i, w), i + 1)
  {
  }

  lemma ShuffleIsOperation(r: State, m: seq<word>, i: nat)
    requires |m| == 16 && i < 64
    ensures Shuffle(Renamed(r, i), m, i) == Renamed(Operation(r, m, i), i + 1)
  {
    hide Mixed, Shuffle, Renamed, Assigned, Advance;
    ShuffleIsMixed(Renamed(r, i), m, i);
    AdvanceIsAssigned(r, i, Mixed(Renamed(r, i), m, i));
  }

  lemma {:induction false} ShufflesAreOperations(s: State, m: seq<word>, i: nat)
    requires |m| == 16 && i <= 64
    ensures Shuffles(s, m, i) == Renamed(Operations(s, m, i), i)
  {
    hide Shuffle, Operation;
    if i > 0 {
      ShufflesAreOperations(s, m, i - 1);
      ShuffleIsOperation(Operations(s, m, i - 1), m, i - 1);
    }
  }

  /** The words of a block, read in place. */
  method ReadWords(p: seq<byte>) returns (m: array<word>)
    requires |p| == 64
    ensures fresh(m) && m[..] == Words(p)
  {
    hide WordAt;
    m := new word[16];
    var i: nat := 0;
    while i < 16
      invariant i <= 16
      invariant forall k | 0 <= k < i :: m[k] == WordAt(p, k)
    {
      m[i] := WordAt(p, i);
      i := i + 1;
    }
  }

  method Choose(i: nat, b: word, c: word, d: word) returns (f: word, g: nat)
    requires i < 64
    ensures f == Choice(i, b, c, d) && g == Index(i)
  {
    hide F, H, I;
    if i < 16 {
      f := F(b, c, d);
      g := i;
    } else if i < 32 {
      f := F(d, b, c);
      g := (5 * i + 1) % 16;
    } else if i < 48 {
      f := H(b, c, d);
      g := (3 * i + 5) % 16;
    } else {
      f := I(b, c, d);
      g := 7 * i % 16;
    }
  }

  method Mix(s: State, f: word, m: array<word>, g: nat, i: nat) returns (t: State)
    requires m.Length == 16 && g < 16 && i < 64
    requires f == Choice(i, s.b, s.c, s.d) && g == Index(i)
    ensures t == Shuffle(s, m[..], i)
  {
    hide Choice, Constant, CodeShift, Sum, Turned;
    assert m[..][g] == m[g];
    t := Registers(s.d, Turned(s.b, Sum(f, s.a, Constant(i), m[g]), CodeShift(i)), s.b, s.c);
  }

  lemma ShufflesStart(s: State, m: seq<word>)
    requires |m| == 16
    ensures Shuffles(s, m, 0) == s
  {
  }

  lemma ShufflesStep(s: State, m: seq<word>, i: nat)
    requires |m| == 16 && i < 64
    ensures Shuffles(s, m, i + 1) == Shuffle(Shuffles(s, m, i), m, i)
  {
  }

  class Context {
    var a: word
    var b: word
    var c: word
    var d: word

    function Contents(): State
      reads this
    {
      Registers(a, b, c, d)
    }

    constructor ()
      ensures Contents() == START
    {
      a, b, c, d := 0x67452301, 0xefcdab89, 0x98badcfe, 0x10325476;
    }

    method Add(s: State)
      modifies this
      ensures Contents() == Plus(old(Contents()), s)
    {
      hide Added;
      a, b, c, d := Added(a, s.a), Added(b, s.b), Added(c, s.c), Added(d, s.d);
    }

    method Process(p: seq<byte>)
      requires |p| == 64
      modifies this
      ensures Contents() == Compress(old(Contents()), p)
    {
      hide Words, Operations, Shuffles, Shuffle, Choice, Index, Plus;
      var m := ReadWords(p);
      var s := Contents();
      var i := 0;
      ShufflesStart(s, Words(p));
      while i < 64
        invariant 0 <= i <= 64
        invariant Contents() == old(Contents()) && m[..] == Words(p)
        invariant s == Shuffles(Contents(), m[..], i)
      {
        ShufflesStep(Contents(), m[..], i);
        var f, g := Choose(i, s.b, s.c, s.d);
        s := Mix(s, f, m, g, i);
        i := i + 1;
      }
      ShufflesAreOperations(Contents(), Words(p), 64);
      Add(s);
    }
  }

  // ---------------------------------------------------------------- padding

  function Zeros(k: nat): (z: seq<byte>)
    ensures |z| == k
  {
    seq(k, _ => 0 as byte)
  }

  const U64: nat := 0x1_0000_0000_0000_0000

  function Power256(k: nat): nat {
    if k == 0 then 1 else 0x100 * Power256(k - 1)
  }

  lemma {:induction false} PowerPositive(k: nat)
    ensures Power256(k) > 0
  {
    if k > 0 {
      PowerPositive(k - 1);
    }
  }

  /** Byte k, lowest first, of the 64-bit count of bits in n bytes. */
  function LengthByte(n: nat, k: nat): byte {
    PowerPositive(k);
    (8 * n % U64 / Power256(k) % 0x100) as byte
  }

  function LengthBytes(n: nat): (bytes: seq<byte>)
    ensures |bytes| == 8
  {
    seq(8, k requires 0 <= k < 8 => LengthByte(n, k))
  }

  /** The zero bytes of section 3.1 of RFC 1321. */
  function ZeroCount(n: nat): nat {
    (119 - n % 64) % 64
  }

  /** The message with its padding and length, sections 3.1 and 3.2 of RFC 1321. */
  function Padded(message: seq<byte>): seq<byte> {
    message + [0x80] + Zeros(ZeroCount(|message|)) + LengthBytes(|message|)
  }

  /** The padded message is whole blocks, and no shorter padding would leave room for just the length. */
  lemma PaddingIsLeast(message: seq<byte>, fewer: nat)
    requires fewer < ZeroCount(|message|)
    ensures |Padded(message)| % 64 == 0
    ensures (|message| + 1 + ZeroCount(|message|)) % 64 == 56
    ensures (|message| + 1 + fewer) % 64 != 56
  {
    PaddedSize(message);
    var n := |message|;
    assert n == 64 * (n / 64) + n % 64;
  }

  lemma PaddedSize(message: seq<byte>)
    ensures |Padded(message)| % 64 == 0
    ensures ZeroCount(|message|) == if |message| % 64 < 56 then 55 - |message| % 64 else 119 - |message| % 64
  {
    var n := |message|;
    assert n == 64 * (n / 64) + n % 64;
  }

  /** The block function over a whole number of blocks. */
  function Fold(s: State, blocks: seq<byte>): State
    requires |blocks| % 64 == 0
    decreases |blocks|
  {
    if blocks == [] then s else Fold(Compress(s, blocks[..64]), blocks[64..])
  }

  lemma {:induction false} FoldOneMore(s: State, blocks: seq<byte>, off: nat)
    requires off % 64 == 0 && off + 64 <= |blocks|
    ensures Fold(s, blocks[..off + 64]) == Compress(Fold(s, blocks[..off]), blocks[off..off + 64])
    decreases off
  {
    hide Compress;
    var upTo, first := blocks[..off + 64], blocks[..64];
    assert blocks[0..off + 64] == upTo;
    SliceOfSlice(blocks, 0, off + 64, 64, off + 64);
    assert upTo[64..off + 64] == upTo[64..];
    if off == 0 {
      assert upTo[..64] == first && upTo[64..] == [];
      assert blocks[..0] == [] && blocks[0..64] == first;
    } else {
      var rest := blocks[64..];
      assert upTo[..64] == first && upTo[64..] == rest[..off];
      assert blocks[..off][..64] == first && blocks[..off][64..] == rest[..off - 64];
      assert rest[off - 64..off] == blocks[off..off + 64];
      FoldOneMore(Compress(s, first), rest, off - 64);
    }
  }

  lemma {:induction false} FoldConcat(s: State, a: seq<byte>, b: seq<byte>)
    requires |a| % 64 == 0 && |b| % 64 == 0
    ensures Fold(s, a + b) == Fold(Fold(s, a), b)
    decreases |a|
  {
    hide Compress;
    if a == [] {
      assert a + b == b;
    } else {
      assert (a + b)[..64] == a[..64] && (a + b)[64..] == a[64..] + b;
      FoldConcat(Compress(s, a[..64]), a[64..], b);
    }
  }

  // ---------------------------------------------------------------- the digest

  const HEX: string := "0123456789abcdef"

  function Word(s: State, i: nat): word {
    if i == 0 then s.a else if i == 1 then s.b else if i == 2 then s.c else s.d
  }

  function ByteOf(w: word, j: nat): byte
    requires j < 4
  {
    (if j == 0 then w & 0xFF else if j == 1 then (w >> 8) & 0xFF else if j == 2 then (w >> 16) & 0xFF
     else (w >> 24) & 0xFF) as byte
  }

  function OutByte(s: State, k: nat): byte {
    ByteOf(Word(s, k / 4), k % 4)
  }

  function HexHigh(b: byte): char {
    HEX[(b >> 4) as nat]
  }

  function HexLow(b: byte): char {
    HEX[(b & 15) as nat]
  }

  /** The sixteen output bytes in lower-case hexadecimal. */
  predicate IsDigest(digest: string, s: State) {
    |digest| == 32
    && forall k | 0 <= k < 16 :: digest[2 * k] == HexHigh(OutByte(s, k)) && digest[2 * k + 1] == HexLow(OutByte(s, k))
  }

  lemma HexDistinct(i: nat, j: nat)
    requires i < 16 && j < 16 && HEX[i] == HEX[j]
    ensures i == j
  {
  }

  lemma HexInjective(b: byte, c: byte)
    requires HexHigh(b) == HexHigh(c) && HexLow(b) == HexLow(c)
    ensures b == c
  {
    HexDistinct((b >> 4) as nat, (c >> 4) as nat);
    HexDistinct((b & 15) as nat, (c & 15) as nat);
  }

  lemma WordInjective(v: word, w: word)
    requires ByteOf(v, 0) == ByteOf(w, 0) && ByteOf(v, 1) == ByteOf(w, 1)
    requires ByteOf(v, 2) == ByteOf(w, 2) && ByteOf(v, 3) == ByteOf(w, 3)
    ensures v == w
  {
    assert v & 0xFF == w & 0xFF;
    assert (v >> 8) & 0xFF == (w >> 8) & 0xFF;
    assert (v >> 16) & 0xFF == (w >> 16) & 0xFF;
    assert (v >> 24) & 0xFF == (w >> 24) & 0xFF;
  }

  lemma SameBytes(s: State, t: State, digest: string, k: nat)
    requires IsDigest(digest, s) && IsDigest(digest, t) && k < 16
    ensures OutByte(s, k) == OutByte(t, k)
  {
    hide OutByte, HexHigh, HexLow;
    HexInjective(OutByte(s, k), OutByte(t, k));
  }

  lemma SameWord(s: State, t: State, digest: string, i: nat)
    requires IsDigest(digest, s) && IsDigest(digest, t) && i < 4
    ensures Word(s, i) == Word(t, i)
  {
    hide IsDigest, ByteOf;
    forall j | 0 <= j < 4
      ensures ByteOf(Word(s, i), j) == ByteOf(Word(t, i), j)
    {
      SameBytes(s, t, digest, 4 * i + j);
      assert (4 * i + j) / 4 == i && (4 * i + j) % 4 == j;
    }
    WordInjective(Word(s, i), Word(t, i));
  }

  /** A digest names one final state: two inputs collide only if the block function brought them together. */
  lemma DigestIdentifiesState(s: State, t: State, digest: string)
    requires IsDigest(digest, s)
    ensures IsDigest(digest, t) <==> s == t
  {
    hide IsDigest;
    if IsDigest(digest, t) {
      SameWord(s, t, digest, 0);
      SameWord(s, t, digest, 1);
      SameWord(s, t, digest, 2);
      SameWord(s, t, digest, 3);
    }
  }

  // ---------------------------------------------------------------- the driver

  method FillPadding(data: seq<byte>, off: nat, tail: array<byte>) returns (at: nat)
    requires off <= |data| && |data| - off < 64 && tail.Length == 128
    requires off % 64 == 0
    modifies tail
    ensures at == 56 || at == 120
    ensures tail[..at] == data[off..] + [0x80] + Zeros(ZeroCount(|data|))
  {
    hide ZeroCount;
    var rem := |data| - off;
    CopyRest(data, off, tail);
    tail[rem] := 0x80;
    var padlen := if rem < 56 then 56 - rem else 120 - rem;
    at := rem + padlen;
    PaddedSize(data);
    assert tail[..rem + 1] == data[off..] + [0x80];
    FillZeros(tail, rem + 1, at);
  }

  method CopyRest(data: seq<byte>, off: nat, tail: array<byte>)
    requires off <= |data| && |data| - off <= tail.Length
    modifies tail
    ensures tail[..|data| - off] == data[off..]
  {
    var rem := |data| - off;
    var i: nat := 0;
    while i < rem
      invariant i <= rem
      invariant tail[..i] == data[off..off + i]
    {
      tail[i] := data[off + i];
      i := i + 1;
    }
  }

  method FillZeros(tail: array<byte>, from: nat, to: nat)
    requires from <= to <= tail.Length
    modifies tail
    ensures tail[..to] == old(tail[..from]) + Zeros(to - from)
  {
    var i := from;
    while i < to
      invariant from <= i <= to
      invariant tail[..from] == old(tail[..from])
      invariant forall k | from <= k < i :: tail[k] == 0
    {
      tail[i] := 0;
      i := i + 1;
    }
    assert tail[from..to] == Zeros(to - from);
    assert tail[..to] == tail[..from] + tail[from..to];
  }

  method WriteLength(n: nat, tail: array<byte>, at: nat)
    requires at + 8 <= tail.Length
    modifies tail
    ensures tail[..at] == old(tail[..at])
    ensures forall k | 0 <= k < 8 :: tail[at + k] == LengthByte(n, k)
  {
    hide LengthByte;
    var i: nat := 0;
    while i < 8
      invariant i <= 8
      invariant tail[..at] == old(tail[..at])
      invariant forall k | 0 <= k < i :: tail[at + k] == LengthByte(n, k)
    {
      tail[at + i] := LengthByte(n, i);
      i := i + 1;
    }
  }

  /** The bytes after the last whole block, padded: one block, or two when the length does not fit. */
  method FillTail(data: seq<byte>, off: nat, tail: array<byte>) returns (total: nat)
    requires off <= |data| && |data| - off < 64 && tail.Length == 128
    requires off % 64 == 0
    modifies tail
    ensures total == 64 || total == 128
    ensures tail[..total] == Padded(data)[off..] && |Padded(data)| == off + total
  {
    hide LengthByte, ZeroCount;
    var at := FillPadding(data, off, tail);
    WriteLength(|data|, tail, at);
    total := at + 8;
    assert tail[..total] == tail[..at] + LengthBytes(|data|);
    PaddedFrom(data, off);
  }

  lemma PaddedFrom(data: seq<byte>, off: nat)
    requires off <= |data|
    ensures |Padded(data)| >= off
    ensures Padded(data)[off..] == data[off..] + [0x80] + Zeros(ZeroCount(|data|)) + LengthBytes(|data|)
  {
  }

  function DigestState(input: seq<byte>): State {
    PaddedSize(input);
    Fold(START, Padded(input))
  }

  /** The loop over whole blocks followed by the padded tail is the block function folded over the
      padded message, for every length. */
  method Hash(input: seq<byte>) returns (digest: string)
    ensures IsDigest(digest, DigestState(input))
  {
    hide Compress, Fold, Padded, IsDigest;
    var ctx := new Context();
    var n := |input|;
    var off := 0;
    FoldNothing(START, input);
    while n - off >= 64
      invariant 0 <= off <= n && off % 64 == 0
      invariant ctx.Contents() == Fold(START, input[..off])
    {
      FoldOneMore(START, input, off);
      ctx.Process(input[off..off + 64]);
      off := off + 64;
    }
    var tail := new byte[128];
    var total := FillTail(input, off, tail);
    PaddedSize(input);
    ghost var middle := ctx.Contents();
    ghost var rest := tail[..total];
    FoldNothing(middle, rest);
    var i := 0;
    while i < total
      invariant 0 <= i <= total && i % 64 == 0
      invariant tail[..total] == rest
      invariant ctx.Contents() == Fold(middle, rest[..i])
    {
      FoldOneMore(middle, rest, i);
      assert tail[i..i + 64] == rest[i..i + 64];
      ctx.Process(tail[i..i + 64]);
      i := i + 64;
    }
    assert rest[..total] == rest;
    FoldConcat(START, input[..off], rest);
    PaddedSplits(input, off);
    digest := Digest(ctx);
  }

  lemma PaddedSplits(data: seq<byte>, off: nat)
    requires off <= |data|
    ensures off <= |Padded(data)| && Padded(data) == data[..off] + Padded(data)[off..]
  {
    assert Padded(data)[..off] == data[..off];
  }

  lemma FoldNothing(s: State, blocks: seq<byte>)
    ensures Fold(s, blocks[..0]) == s
  {
  }

  method Digest(ctx: Context) returns (s: string)
    ensures IsDigest(s, ctx.Contents())
  {
    var out := new byte[16];
    var i: nat := 0;
    ghost var state := ctx.Contents();
    hide ByteOf, HexHigh, HexLow;
    while i < 4
      invariant i <= 4
      invariant forall k | 0 <= k < 4 * i :: out[k] == OutByte(state, k)
    {
      var v := if i == 0 then ctx.a else if i == 1 then ctx.b else if i == 2 then ctx.c else ctx.d;
      var j: nat := 0;
      while j < 4
        invariant j <= 4
        invariant forall k | 0 <= k < 4 * i + j :: out[k] == OutByte(state, k)
      {
        out[i * 4 + j] := ByteOf(v, j);
        OutByteAt(state, i, j);
        j := j + 1;
      }
      i := i + 1;
    }
    s := HexString(out);
  }

  lemma OutByteAt(s: State, i: nat, j: nat)
    requires j < 4
    ensures OutByte(s, 4 * i + j) == ByteOf(Word(s, i), j)
  {
    hide ByteOf;
    assert (4 * i + j) / 4 == i && (4 * i + j) % 4 == j;
  }

  method HexString(out: array<byte>) returns (s: string)
    requires out.Length == 16
    ensures |s| == 32
    ensures forall k | 0 <= k < 16 :: s[2 * k] == HexHigh(out[k]) && s[2 * k + 1] == HexLow(out[k])
  {
    hide HexHigh, HexLow;
    s := "";
    var i: nat := 0;
    while i < 16
      invariant i <= 16 && |s| == 2 * i
      invariant forall k | 0 <= k < i :: s[2 * k] == HexHigh(out[k]) && s[2 * k + 1] == HexLow(out[k])
    {
      s := s + [HexHigh(out[i])] + [HexLow(out[i])];
      i := i + 1;
    }
  }
}