/** A known answer: the digest of "abc" in section A.5 of RFC 1321. */
module Md5Vector {
  import opened Bytes
  import opened Md5

  const MESSAGE: seq<byte> := [0x61, 0x62, 0x63]

  // ---------------------------------------------------------------- its only block

  /** The words of the padded message: the text and the byte behind it, zeros, and the count of bits. */
  function Abc(g: nat): word {
    if g == 0 then 0x80636261 else if g == 14 then 24 else 0
  }

  ghost predicate AbcBlock(m: seq<word>) {
    |m| == 16 && forall g | 0 <= g < 16 :: m[g] == Abc(g)
  }

  // ---------------------------------------------------------------- the 64 steps

  /** The constant, the shift and the word of step i. */
  predicate Entry(i: nat, k: word, r: nat, g: nat) {
    i < 64 && r <= 32 && Constant(i) == k && CodeShift(i) == r && Index(i) == g
  }

  lemma Next(a: word, b: word, c: word, d: word, m: seq<word>, i: nat, k: word, r: nat, g: nat, x: word, w: word)
    requires AbcBlock(m) && Entry(i, k, r, g) && Shuffles(START, m, i) == Registers(a, b, c, d)
    requires r <= 32 && x == Abc(g) && Turned(b, Sum(Choice(i, b, c, d), a, k, x), r) == w
    ensures Shuffles(START, m, i + 1) == Registers(d, w, b, c)
  {
    ShufflesStep(START, m, i);
    hide Turned, Sum, Choice, Constant, CodeShift, Shuffles, Index, Abc;
  }

  lemma Entries0()
    ensures Entry(0, 0xd76aa478, 7, 0)
    ensures Entry(1, 0xe8c7b756, 12, 1)
    ensures Entry(2, 0x242070db, 17, 2)
    ensures Entry(3, 0xc1bdceee, 22, 3)
  {
  }

  lemma Entries4()
    ensures Entry(4, 0xf57c0faf, 7, 4)
    ensures Entry(5, 0x4787c62a, 12, 5)
    ensures Entry(6, 0xa8304613, 17, 6)
    ensures Entry(7, 0xfd469501, 22, 7)
  {
  }

  lemma Entries8()
    ensures Entry(8, 0x698098d8, 7, 8)
    ensures Entry(9, 0x8b44f7af, 12, 9)
    ensures Entry(10, 0xffff5bb1, 17, 10)
    ensures Entry(11, 0x895cd7be, 22, 11)
  {
  }

  lemma Entries12()
    ensures Entry(12, 0x6b901122, 7, 12)
    ensures Entry(13, 0xfd987193, 12, 13)
    ensures Entry(14, 0xa679438e, 17, 14)
    ensures Entry(15, 0x49b40821, 22, 15)
  {
  }

  lemma Entries16()
    ensures Entry(16, 0xf61e2562, 5, 1)
    ensures Entry(17, 0xc040b340, 9, 6)
    ensures Entry(18, 0x265e5a51, 14, 11)
    ensures Entry(19, 0xe9b6c7aa, 20, 0)
  {
  }

  lemma Entries20()
    ensures Entry(20, 0xd62f105d, 5, 5)
    ensures Entry(21, 0x02441453, 9, 10)
    ensures Entry(22, 0xd8a1e681, 14, 15)
    ensures Entry(23, 0xe7d3fbc8, 20, 4)
  {
  }

  lemma Entries24()
    ensures Entry(24, 0x21e1cde6, 5, 9)
    ensures Entry(25, 0xc33707d6, 9, 14)
    ensures Entry(26, 0xf4d50d87, 14, 3)
    ensures Entry(27, 0x455a14ed, 20, 8)
  {
  }

  lemma Entries28()
    ensures Entry(28, 0xa9e3e905, 5, 13)
    ensures Entry(29, 0xfcefa3f8, 9, 2)
    ensures Entry(30, 0x676f02d9, 14, 7)
    ensures Entry(31, 0x8d2a4c8a, 20, 12)
  {
  }

  lemma Entries32()
    ensures Entry(32, 0xfffa3942, 4, 5)
    ensures Entry(33, 0x8771f681, 11, 8)
    ensures Entry(34, 0x6d9d6122, 16, 11)
    ensures Entry(35, 0xfde5380c, 23, 14)
  {
  }

  lemma Entries36()
    ensures Entry(36, 0xa4beea44, 4, 1)
    ensures Entry(37, 0x4bdecfa9, 11, 4)
    ensures Entry(38, 0xf6bb4b60, 16, 7)
    ensures Entry(39, 0xbebfbc70, 23, 10)
  {
  }

  lemma Entries40()
    ensures Entry(40, 0x289b7ec6, 4, 13)
    ensures Entry(41, 0xeaa127fa, 11, 0)
    ensures Entry(42, 0xd4ef3085, 16, 3)
    ensures Entry(43, 0x04881d05, 23, 6)
  {
  }

  lemma Entries44()
    ensures Entry(44, 0xd9d4d039, 4, 9)
    ensures Entry(45, 0xe6db99e5, 11, 12)
    ensures Entry(46, 0x1fa27cf8, 16, 15)
    ensures Entry(47, 0xc4ac5665, 23, 2)
  {
  }

  lemma Entries48()
    ensures Entry(48, 0xf4292244, 6, 0)
    ensures Entry(49, 0x432aff97, 10, 7)
    ensures Entry(50, 0xab9423a7, 15, 14)
    ensures Entry(51, 0xfc93a039, 21, 5)
  {
  }

  lemma Entries52()
    ensures Entry(52, 0x655b59c3, 6, 12)
    ensures Entry(53, 0x8f0ccc92, 10, 3)
    ensures Entry(54, 0xffeff47d, 15, 10)
    ensures Entry(55, 0x85845dd1, 21, 1)
  {
  }

  lemma Entries56()
    ensures Entry(56, 0x6fa87e4f, 6, 8)
    ensures Entry(57, 0xfe2ce6e0, 10, 15)
    ensures Entry(58, 0xa3014314, 15, 6)
    ensures Entry(59, 0x4e0811a1, 21, 13)
  {
  }

  lemma Entries60()
    ensures Entry(60, 0xf7537e82, 6, 4)
    ensures Entry(61, 0xbd3af235, 10, 11)
    ensures Entry(62, 0x2ad7d2bb, 15, 2)
    ensures Entry(63, 0xeb86d391, 21, 9)
  {
  }

  lemma FirstRound(m: seq<word>)
    requires AbcBlock(m)
    ensures Shuffles(START, m, 16) == Registers(0xdda9b9a6, 0x72aff2e0, 0xe396856b, 0xa1051895)
  {
    ShufflesStart(START, m);
    Entries0();
    Entries4();
    Entries8();
    Entries12();
    hide Shuffles, Entry, Rol, AbcBlock;
    Next(0x67452301, 0xefcdab89, 0x98badcfe, 0x10325476, m, 0, 0xd76aa478, 7, 0, 0x80636261, 0xd6d117b4);
    Next(0x10325476, 0xd6d117b4, 0xefcdab89, 0x98badcfe, m, 1, 0xe8c7b756, 12, 1, 0x00000000, 0x344a8432);
    Next(0x98badcfe, 0x344a8432, 0xd6d117b4, 0xefcdab89, m, 2, 0x242070db, 17, 2, 0x00000000, 0x2f6fbd72);
    Next(0xefcdab89, 0x2f6fbd72, 0x344a8432, 0xd6d117b4, m, 3, 0xc1bdceee, 22, 3, 0x00000000, 0x7ad956f2);
    Next(0xd6d117b4, 0x7ad956f2, 0x2f6fbd72, 0x344a8432, m, 4, 0xf57c0faf, 7, 4, 0x00000000, 0xc73741ef);
    Next(0x344a8432, 0xc73741ef, 0x7ad956f2, 0x2f6fbd72, m, 5, 0x4787c62a, 12, 5, 0x00000000, 0x8bac3051);
    Next(0x2f6fbd72, 0x8bac3051, 0xc73741ef, 0x7ad956f2, m, 6, 0xa8304613, 17, 6, 0x00000000, 0x207dc67b);
    Next(0x7ad956f2, 0x207dc67b, 0x8bac3051, 0xc73741ef, m, 7, 0xfd469501, 22, 7, 0x00000000, 0x928d99f6);
    Next(0xc73741ef, 0x928d99f6, 0x207dc67b, 0x8bac3051, m, 8, 0x698098d8, 7, 8, 0x00000000, 0x854b3712);
    Next(0x8bac3051, 0x854b3712, 0x928d99f6, 0x207dc67b, m, 9, 0x8b44f7af, 12, 9, 0x00000000, 0x74e2f284);
    Next(0x207dc67b, 0x74e2f284, 0x854b3712, 0x928d99f6, m, 10, 0xffff5bb1, 17, 10, 0x00000000, 0x3020401c);
    Next(0x928d99f6, 0x3020401c, 0x74e2f284, 0x854b3712, m, 11, 0x895cd7be, 22, 11, 0x00000000, 0x5ed49596);
    Next(0x854b3712, 0x5ed49596, 0x3020401c, 0x74e2f284, m, 12, 0x6b901122, 7, 12, 0x00000000, 0xdda9b9a6);
    Next(0x74e2f284, 0xdda9b9a6, 0x5ed49596, 0x3020401c, m, 13, 0xfd987193, 12, 13, 0x00000000, 0xa1051895);
    Next(0x3020401c, 0xa1051895, 0xdda9b9a6, 0x5ed49596, m, 14, 0xa679438e, 17, 14, 0x00000018, 0xe396856b);
    Next(0x5ed49596, 0xe396856b, 0xa1051895, 0xdda9b9a6, m, 15, 0x49b40821, 22, 15, 0x00000000, 0x72aff2e0);
  }

  lemma SecondRound(m: seq<word>)
    requires AbcBlock(m)
    ensures Shuffles(START, m, 32) == Registers(0x790a77fb, 0x726342d3, 0xa62884aa, 0x9f47e4f8)
  {
    FirstRound(m);
    Entries16();
    Entries20();
    Entries24();
    Entries28();
    hide Shuffles, Entry, Rol, AbcBlock;
    Next(0xdda9b9a6, 0x72aff2e0, 0xe396856b, 0xa1051895, m, 16, 0xf61e2562, 5, 1, 0x00000000, 0x3e9e9126);
    Next(0xa1051895, 0x3e9e9126, 0x72aff2e0, 0xe396856b, m, 17, 0xc040b340, 9, 6, 0x00000000, 0x4a1d804e);
    Next(0xe396856b, 0x4a1d804e, 0x3e9e9126, 0x72aff2e0, m, 18, 0x265e5a51, 14, 11, 0x00000000, 0xe25e1652);
    Next(0x72aff2e0, 0xe25e1652, 0x4a1d804e, 0x3e9e9126, m, 19, 0xe9b6c7aa, 20, 0, 0x80636261, 0xb5b204e4);
    Next(0x3e9e9126, 0xb5b204e4, 0xe25e1652, 0x4a1d804e, m, 20, 0xd62f105d, 5, 5, 0x00000000, 0x59a8ffda);
    Next(0x4a1d804e, 0x59a8ffda, 0xb5b204e4, 0xe25e1652, m, 21, 0x02441453, 9, 10, 0x00000000, 0x6d002f1e);
    Next(0xe25e1652, 0x6d002f1e, 0x59a8ffda, 0xb5b204e4, m, 22, 0xd8a1e681, 14, 15, 0x00000000, 0xabfc7920);
    Next(0xb5b204e4, 0xabfc7920, 0x6d002f1e, 0x59a8ffda, m, 23, 0xe7d3fbc8, 20, 4, 0x00000000, 0x47092c07);
    Next(0x59a8ffda, 0x47092c07, 0xabfc7920, 0x6d002f1e, m, 24, 0x21e1cde6, 5, 9, 0x00000000, 0xb7f268cf);
    Next(0x6d002f1e, 0xb7f268cf, 0x47092c07, 0xabfc7920, m, 25, 0xc33707d6, 9, 14, 0x00000018, 0x09388eff);
    Next(0xabfc7920, 0x09388eff, 0xb7f268cf, 0x47092c07, m, 26, 0xf4d50d87, 14, 3, 0x00000000, 0xfe1623b1);
    Next(0x47092c07, 0xfe1623b1, 0x09388eff, 0xb7f268cf, m, 27, 0x455a14ed, 20, 8, 0x00000000, 0x786acb8f);
    Next(0xb7f268cf, 0x786acb8f, 0xfe1623b1, 0x09388eff, m, 28, 0xa9e3e905, 5, 13, 0x00000000, 0x790a77fb);
    Next(0x09388eff, 0x790a77fb, 0x786acb8f, 0xfe1623b1, m, 29, 0xfcefa3f8, 9, 2, 0x00000000, 0x9f47e4f8);
    Next(0xfe1623b1, 0x9f47e4f8, 0x790a77fb, 0x786acb8f, m, 30, 0x676f02d9, 14, 7, 0x00000000, 0xa62884aa);
    Next(0x786acb8f, 0xa62884aa, 0x9f47e4f8, 0x790a77fb, m, 31, 0x8d2a4c8a, 20, 12, 0x00000000, 0x726342d3);
  }

  lemma ThirdRound(m: seq<word>)
    requires AbcBlock(m)
    ensures Shuffles(START, m, 48) == Registers(0x7f2e507b, 0x7beb9700, 0x8fae6399, 0x99d9679d)
  {
    SecondRound(m);
    Entries32();
    Entries36();
    Entries40();
    Entries44();
    hide Shuffles, Entry, Rol, AbcBlock;
    Next(0x790a77fb, 0x726342d3, 0xa62884aa, 0x9f47e4f8, m, 32, 0xfffa3942, 4, 5, 0x00000000, 0xb3707ebf);
    Next(0x9f47e4f8, 0xb3707ebf, 0x726342d3, 0xa62884aa, m, 33, 0x8771f681, 11, 8, 0x00000000, 0x60127b2e);
    Next(0xa62884aa, 0x60127b2e, 0xb3707ebf, 0x726342d3, m, 34, 0x6d9d6122, 16, 11, 0x00000000, 0x8d212ff5);
    Next(0x726342d3, 0x8d212ff5, 0x60127b2e, 0xb3707ebf, m, 35, 0xfde5380c, 23, 14, 0x00000018, 0x3b0875c7);
    Next(0xb3707ebf, 0x3b0875c7, 0x8d212ff5, 0x60127b2e, m, 36, 0xa4beea44, 4, 1, 0x00000000, 0x21b117b9);
    Next(0x60127b2e, 0x21b117b9, 0x3b0875c7, 0x8d212ff5, m, 37, 0x4bdecfa9, 11, 4, 0x00000000, 0x6e7429d5);
    Next(0x8d212ff5, 0x6e7429d5, 0x21b117b9, 0x3b0875c7, m, 38, 0xf6bb4b60, 16, 7, 0x00000000, 0x3575227e);
    Next(0x3b0875c7, 0x3575227e, 0x6e7429d5, 0x21b117b9, m, 39, 0xbebfbc70, 23, 10, 0x00000000, 0x5a2f5ea5);
    Next(0x21b117b9, 0x5a2f5ea5, 0x3575227e, 0x6e7429d5, m, 40, 0x289b7ec6, 4, 13, 0x00000000, 0x11de1779);
    Next(0x6e7429d5, 0x11de1779, 0x5a2f5ea5, 0x3575227e, m, 41, 0xeaa127fa, 11, 0, 0x80636261, 0xfadcaa38);
    Next(0x3575227e, 0xfadcaa38, 0x11de1779, 0x5a2f5ea5, m, 42, 0xd4ef3085, 16, 3, 0x00000000, 0x31c465ca);
    Next(0x5a2f5ea5, 0x31c465ca, 0xfadcaa38, 0x11de1779, m, 43, 0x04881d05, 23, 6, 0x00000000, 0x4c6124f4);
    Next(0x11de1779, 0x4c6124f4, 0x31c465ca, 0xfadcaa38, m, 44, 0xd9d4d039, 4, 9, 0x00000000, 0x7f2e507b);
    Next(0xfadcaa38, 0x7f2e507b, 0x4c6124f4, 0x31c465ca, m, 45, 0xe6db99e5, 11, 12, 0x00000000, 0x99d9679d);
    Next(0x31c465ca, 0x99d9679d, 0x7f2e507b, 0x4c6124f4, m, 46, 0x1fa27cf8, 16, 15, 0x00000000, 0x8fae6399);
    Next(0x4c6124f4, 0x8fae6399, 0x99d9679d, 0x7f2e507b, m, 47, 0xc4ac5665, 23, 2, 0x00000000, 0x7beb9700);
  }

  lemma FourthRound(m: seq<word>)
    requires AbcBlock(m)
    ensures Shuffles(START, m, 64) == Registers(0x310ade8f, 0xc08226b3, 0xe484b9d8, 0x624d8cb2)
  {
    ThirdRound(m);
    Entries48();
    Entries52();
    Entries56();
    Entries60();
    hide Shuffles, Entry, Rol, AbcBlock;
    Next(0x7f2e507b, 0x7beb9700, 0x8fae6399, 0x99d9679d, m, 48, 0xf4292244, 6, 0, 0x80636261, 0x7b201df8);
    Next(0x99d9679d, 0x7b201df8, 0x7beb9700, 0x8fae6399, m, 49, 0x432aff97, 10, 7, 0x00000000, 0xf4e8e96e);
    Next(0x8fae6399, 0xf4e8e96e, 0x7b201df8, 0x7beb9700, m, 50, 0xab9423a7, 15, 14, 0x00000018, 0xb298cefd);
    Next(0x7beb9700, 0xb298cefd, 0xf4e8e96e, 0x7b201df8, m, 51, 0xfc93a039, 21, 5, 0x00000000, 0x8bf025c4);
    Next(0x7b201df8, 0x8bf025c4, 0xb298cefd, 0xf4e8e96e, m, 52, 0x655b59c3, 6, 12, 0x00000000, 0x06cc5e8a);
    Next(0xf4e8e96e, 0x06cc5e8a, 0x8bf025c4, 0xb298cefd, m, 53, 0x8f0ccc92, 10, 3, 0x00000000, 0x5b0d97aa);
    Next(0xb298cefd, 0x5b0d97aa, 0x06cc5e8a, 0x8bf025c4, m, 54, 0xffeff47d, 15, 10, 0x00000000, 0x7d632dd0);
    Next(0x8bf025c4, 0x7d632dd0, 0x5b0d97aa, 0x06cc5e8a, m, 55, 0x85845dd1, 21, 1, 0x00000000, 0x3bfa2c27);
    Next(0x06cc5e8a, 0x3bfa2c27, 0x7d632dd0, 0x5b0d97aa, m, 56, 0x6fa87e4f, 6, 8, 0x00000000, 0x7f81cc35);
    Next(0x5b0d97aa, 0x7f81cc35, 0x3bfa2c27, 0x7d632dd0, m, 57, 0xfe2ce6e0, 10, 15, 0x00000000, 0x094454ab);
    Next(0x7d632dd0, 0x094454ab, 0x7f81cc35, 0x3bfa2c27, m, 58, 0xa3014314, 15, 6, 0x00000000, 0x4f9dbe3f);
    Next(0x3bfa2c27, 0x4f9dbe3f, 0x094454ab, 0x7f81cc35, m, 59, 0x4e0811a1, 21, 13, 0x00000000, 0x7327d604);
    Next(0x7f81cc35, 0x7327d604, 0x4f9dbe3f, 0x094454ab, m, 60, 0xf7537e82, 6, 4, 0x00000000, 0x310ade8f);
    Next(0x094454ab, 0x310ade8f, 0x7327d604, 0x4f9dbe3f, m, 61, 0xbd3af235, 10, 11, 0x00000000, 0x624d8cb2);
    Next(0x4f9dbe3f, 0x624d8cb2, 0x310ade8f, 0x7327d604, m, 62, 0x2ad7d2bb, 15, 2, 0x00000000, 0xe484b9d8);
    Next(0x7327d604, 0xe484b9d8, 0x624d8cb2, 0x310ade8f, m, 63, 0xeb86d391, 21, 9, 0x00000000, 0xc08226b3);
  }

  // ---------------------------------------------------------------- the digest

  lemma PowerLarge(k: nat)
    requires k > 0
    ensures Power256(k) >= 0x100
  {
    PowerPositive(k - 1);
  }

  lemma NothingOver(n: nat, d: nat)
    requires n < d
    ensures n / d == 0
  {
  }

  lemma LengthOfThree(k: nat)
    requires k < 8
    ensures LengthByte(3, k) == if k == 0 then 24 else 0
  {
    if k > 0 {
      PowerLarge(k);
      NothingOver(24, Power256(k));
    }
    hide Power256;
    assert Power256(0) == 1 && 8 * 3 % U64 == 24;
  }

  lemma PaddedMessage()
    ensures var p := Padded(MESSAGE);
            && |p| == 64 && p[..4] == [0x61, 0x62, 0x63, 0x80] && p[56] == 24
            && forall k | 4 <= k < 64 && k != 56 :: p[k] == 0
  {
    assert ZeroCount(3) == 52;
    forall k | 0 <= k < 8
      ensures LengthBytes(3)[k] == if k == 0 then 24 else 0
    {
      LengthOfThree(k);
    }
    hide LengthBytes, ZeroCount;
  }

  lemma OneWord(a: byte, b: byte, c: byte, d: byte, block: seq<byte>, i: nat)
    requires 4 * i + 3 < |block| && block[4 * i..4 * i + 4] == [a, b, c, d]
    ensures WordAt(block, i)
            == (a as word) | ((b as word) << 8) | ((c as word) << 16) | ((d as word) << 24)
  {
    var four := block[4 * i..4 * i + 4];
    assert four[0] == a && four[1] == b && four[2] == c && four[3] == d;
  }

  lemma MessageWords()
    ensures |Padded(MESSAGE)| == 64 && AbcBlock(Words(Padded(MESSAGE)))
  {
    PaddedMessage();
    var p := Padded(MESSAGE);
    hide Padded, WordAt;
    forall g | 0 <= g < 16
      ensures WordAt(p, g) == Abc(g)
    {
      assert g > 0 ==> p[4 * g] == (if g == 14 then 24 else 0) && p[4 * g + 1] == 0;
      assert g > 0 ==> p[4 * g + 2] == 0 && p[4 * g + 3] == 0;
      assert p[4 * g..4 * g + 4] == [p[4 * g], p[4 * g + 1], p[4 * g + 2], p[4 * g + 3]];
      OneWord(p[4 * g], p[4 * g + 1], p[4 * g + 2], p[4 * g + 3], p, g);
      assert g == 0 ==> p[..4][0] == p[0] && p[..4][1] == p[1] && p[..4][2] == p[2] && p[..4][3] == p[3];
    }
  }

  lemma OneBlock(s: State, p: seq<byte>)
    requires |p| == 64
    ensures Fold(s, p) == Compress(s, p)
  {
    hide Compress;
    assert p[..64] == p && p[64..] == [];
    assert Fold(s, p) == Fold(Compress(s, p), []);
  }

  lemma Registered(r: State, m: seq<word>)
    requires |m| == 16
    ensures Operations(r, m, 64) == Shuffles(r, m, 64)
  {
    ShufflesAreOperations(r, m, 64);
    hide Operations, Shuffles;
  }

  lemma FinalSum()
    ensures Plus(START, Registers(0x310ade8f, 0xc08226b3, 0xe484b9d8, 0x624d8cb2))
            == Registers(0x98500190, 0xb04fd23c, 0x7d3f96d6, 0x727fe128)
  {
  }

  lemma FinalState()
    ensures DigestState(MESSAGE) == Registers(0x98500190, 0xb04fd23c, 0x7d3f96d6, 0x727fe128)
  {
    hide Padded, Words, Operations, Shuffles, AbcBlock, Fold, Plus;
    MessageWords();
    var p := Padded(MESSAGE);
    FourthRound(Words(p));
    Registered(START, Words(p));
    FinalSum();
    OneBlock(START, p);
  }

  /** Eight digits of the digest, of one of the four words. */
  predicate Quarter(d: string, s: State, q: nat) {
    |d| == 8 && forall j | 0 <= j < 4 ::
      d[2 * j] == HexHigh(OutByte(s, 4 * q + j)) && d[2 * j + 1] == HexLow(OutByte(s, 4 * q + j))
  }

  lemma FourQuarters(a: string, b: string, c: string, d: string, s: State)
    requires Quarter(a, s, 0) && Quarter(b, s, 1) && Quarter(c, s, 2) && Quarter(d, s, 3)
    ensures IsDigest(a + b + c + d, s)
  {
    hide OutByte, HexHigh, HexLow;
    var all := a + b + c + d;
    forall k | 0 <= k < 16
      ensures all[2 * k] == HexHigh(OutByte(s, k)) && all[2 * k + 1] == HexLow(OutByte(s, k))
    {
      var part := if k < 4 then a else if k < 8 then b else if k < 12 then c else d;
      assert all[2 * k] == part[2 * (k % 4)] && all[2 * k + 1] == part[2 * (k % 4) + 1];
    }
  }

  lemma DigitsA(s: State)
    requires s.a == 0x98500190
    ensures Quarter("90015098", s, 0)
  {
    assert ByteOf(s.a, 0) == 0x90;
    assert ByteOf(s.a, 1) == 0x01;
    assert ByteOf(s.a, 2) == 0x50;
    assert ByteOf(s.a, 3) == 0x98;
    hide ByteOf;
  }

  lemma DigitsB(s: State)
    requires s.b == 0xb04fd23c
    ensures Quarter("3cd24fb0", s, 1)
  {
    assert ByteOf(s.b, 0) == 0x3c;
    assert ByteOf(s.b, 1) == 0xd2;
    assert ByteOf(s.b, 2) == 0x4f;
    assert ByteOf(s.b, 3) == 0xb0;
    hide ByteOf;
  }

  lemma DigitsC(s: State)
    requires s.c == 0x7d3f96d6
    ensures Quarter("d6963f7d", s, 2)
  {
    assert ByteOf(s.c, 0) == 0xd6;
    assert ByteOf(s.c, 1) == 0x96;
    assert ByteOf(s.c, 2) == 0x3f;
    assert ByteOf(s.c, 3) == 0x7d;
    hide ByteOf;
  }

  lemma DigitsD(s: State)
    requires s.d == 0x727fe128
    ensures Quarter("28e17f72", s, 3)
  {
    assert ByteOf(s.d, 0) == 0x28;
    assert ByteOf(s.d, 1) == 0xe1;
    assert ByteOf(s.d, 2) == 0x7f;
    assert ByteOf(s.d, 3) == 0x72;
    hide ByteOf;
  }

  /** The digest of "abc". */
  lemma AbcDigest()
    ensures IsDigest("90015098" + "3cd24fb0" + "d6963f7d" + "28e17f72", DigestState(MESSAGE))
  {
    FinalState();
    var s := DigestState(MESSAGE);
    hide DigestState, Quarter, IsDigest;
    DigitsA(s);
    DigitsB(s);
    DigitsC(s);
    DigitsD(s);
    FourQuarters("90015098", "3cd24fb0", "d6963f7d", "28e17f72", s);
  }
}
