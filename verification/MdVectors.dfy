/**
 The test vector "abc" of section A.5 of RFC 1321 and of RFC 1320, which the self tests of
 src/modules/crypto/md5.c and md4.c use: it takes every step, constant and rotation.
 */
module MdVectors {
  import opened MdState
  import opened BitLogic
  import opened Words
  import opened HashStream
  import opened MdHash
  import Md4
  import Md5
  import Tables = Md5Tables

  const ABC: seq<bv8> := [0x61, 0x62, 0x63]

  const START := Quad(0x67452301, 0xefcdab89, 0x98badcfe, 0x10325476)

  // The words of the one block that "abc" is padded to.
  function AbcWord(t: nat): bv32 { if t == 0 then 0x80636261 else if t == 14 then 24 else 0 }

  predicate AbcWords(block: seq<bv8>) {
    |block| == 64 && forall t :: 0 <= t < 16 ==> Word(block, t) == AbcWord(t)
  }

  lemma BlockAt(block: seq<bv8>, i: nat)
    requires block == RfcPadded(ABC) && i < 64
    ensures |block| == 64
    ensures block[i] ==
      (if i == 0 then 0x61 else if i == 1 then 0x62 else if i == 2 then 0x63 else if i == 3 then 0x80
       else if i == 56 then 24 else 0)
  {
    hide Zeros, LittleEndian;
    ZerosAt(52);
    LengthField();
    assert ZeroCount(3, 56, 64) == 52;
    assert block == ABC + [0x80] + Zeros(52) + [24, 0, 0, 0, 0, 0, 0, 0];
  }

  lemma Padding(block: seq<bv8>)
    requires block == RfcPadded(ABC)
    ensures AbcWords(block)
  {
    hide Join32, RfcPadded;
    BlockAt(block, 0);
    Joined();
    forall t | 0 <= t < 16 ensures Word(block, t) == AbcWord(t) {
      var b := block[4 * t..4 * t + 4];
      BlockAt(block, 4 * t);
      BlockAt(block, 4 * t + 1);
      BlockAt(block, 4 * t + 2);
      BlockAt(block, 4 * t + 3);
      assert b[0] == block[4 * t] && b[1] == block[4 * t + 1] && b[2] == block[4 * t + 2] && b[3] == block[4 * t + 3];
    }
  }

  lemma LengthField()
    ensures LittleEndian(24, 8) == [24, 0, 0, 0, 0, 0, 0, 0]
  {
    var none := LittleEndian(0, 3);
    assert none == [0, 0, 0];
    var some := LittleEndian(0, 6);
    assert some == [0, 0, 0] + none;
  }

  lemma Joined()
    ensures Join32(0x80, 0x63, 0x62, 0x61) == 0x80636261 && Join32(0, 0, 0, 24) == 24 && Join32(0, 0, 0, 0) == 0
  {
  }

  // --- MD5 ---

  // --- MD5 ---

  predicate After5(block: seq<bv8>, n: nat, q: Quad)
    requires |block| == 64 && |Tables.KORDER| == 64 && n <= 64
  {
    Md5.Steps(START, block, Tables.KORDER, n) == q
  }

  // Step `n` takes the word `w`, rotates by `s`, adds constant `j` of row `r` and makes `b`.
  lemma Next5(block: seq<bv8>, n: nat, q: Quad, w: bv32, s: bv8, r: nat, j: nat, k: bv32, b: bv32)
    requires AbcWords(block) && |Tables.KORDER| == 64 && n == 4 * r + j < 64 && j < 4 && Md5.Rorder(n) == s
    requires Tables.Row(r)[j] == k && w == AbcWord(Md5.Worder(n)) && After5(block, n, q)
    requires Md5.Mixed(q.a, q.b, Md5.RfcFunction(n, q.b, q.c, q.d), w, s, k) == b
    ensures After5(block, n + 1, Quad(q.d, b, q.b, q.c))
  {
    hide Md5.Mixed, Md5.RfcFunction, Md5.Rorder, Md5.Worder, AbcWord, Tables.KORDER, Tables.Row, Word;
    KeyOf(n, r, j);
    assert Md5.Steps(START, block, Tables.KORDER, n + 1) == Md5.Step(q, block, Tables.KORDER, n);
    assert Word(block, Md5.Worder(n)) == w;
  }

  lemma KeyOf(n: nat, r: nat, j: nat)
    requires n == 4 * r + j < 64 && j < 4
    ensures |Tables.KORDER| == 64 && Tables.KORDER[n] == Tables.Row(r)[j]
  {
    hide Tables.KORDER, Tables.Row;
    Tables.RowAt(n);
  }

  lemma Md5Steps0(block: seq<bv8>)
    requires AbcWords(block) && |Tables.KORDER| == 64
    requires After5(block, 0, Quad(0x67452301, 0xefcdab89, 0x98badcfe, 0x10325476))
    ensures After5(block, 8, Quad(0xc73741ef, 0x928d99f6, 0x207dc67b, 0x8bac3051))
  {
    hide AbcWords, Md5.Steps, Tables.KORDER;
    Next5(block, 0, Quad(0x67452301, 0xefcdab89, 0x98badcfe, 0x10325476), 0x80636261, 7, 0, 0, 0xd76aa478, 0xd6d117b4);
    Next5(block, 1, Quad(0x10325476, 0xd6d117b4, 0xefcdab89, 0x98badcfe), 0, 12, 0, 1, 0xe8c7b756, 0x344a8432);
    Next5(block, 2, Quad(0x98badcfe, 0x344a8432, 0xd6d117b4, 0xefcdab89), 0, 17, 0, 2, 0x242070db, 0x2f6fbd72);
    Next5(block, 3, Quad(0xefcdab89, 0x2f6fbd72, 0x344a8432, 0xd6d117b4), 0, 22, 0, 3, 0xc1bdceee, 0x7ad956f2);
    Next5(block, 4, Quad(0xd6d117b4, 0x7ad956f2, 0x2f6fbd72, 0x344a8432), 0, 7, 1, 0, 0xf57c0faf, 0xc73741ef);
    Next5(block, 5, Quad(0x344a8432, 0xc73741ef, 0x7ad956f2, 0x2f6fbd72), 0, 12, 1, 1, 0x4787c62a, 0x8bac3051);
    Next5(block, 6, Quad(0x2f6fbd72, 0x8bac3051, 0xc73741ef, 0x7ad956f2), 0, 17, 1, 2, 0xa8304613, 0x207dc67b);
    Next5(block, 7, Quad(0x7ad956f2, 0x207dc67b, 0x8bac3051, 0xc73741ef), 0, 22, 1, 3, 0xfd469501, 0x928d99f6);
  }

  lemma Md5Steps8(block: seq<bv8>)
    requires AbcWords(block) && |Tables.KORDER| == 64
    requires After5(block, 8, Quad(0xc73741ef, 0x928d99f6, 0x207dc67b, 0x8bac3051))
    ensures After5(block, 16, Quad(0xdda9b9a6, 0x72aff2e0, 0xe396856b, 0xa1051895))
  {
    hide AbcWords, Md5.Steps, Tables.KORDER;
    Next5(block, 8, Quad(0xc73741ef, 0x928d99f6, 0x207dc67b, 0x8bac3051), 0, 7, 2, 0, 0x698098d8, 0x854b3712);
    Next5(block, 9, Quad(0x8bac3051, 0x854b3712, 0x928d99f6, 0x207dc67b), 0, 12, 2, 1, 0x8b44f7af, 0x74e2f284);
    Next5(block, 10, Quad(0x207dc67b, 0x74e2f284, 0x854b3712, 0x928d99f6), 0, 17, 2, 2, 0xffff5bb1, 0x3020401c);
    Next5(block, 11, Quad(0x928d99f6, 0x3020401c, 0x74e2f284, 0x854b3712), 0, 22, 2, 3, 0x895cd7be, 0x5ed49596);
    Next5(block, 12, Quad(0x854b3712, 0x5ed49596, 0x3020401c, 0x74e2f284), 0, 7, 3, 0, 0x6b901122, 0xdda9b9a6);
    Next5(block, 13, Quad(0x74e2f284, 0xdda9b9a6, 0x5ed49596, 0x3020401c), 0, 12, 3, 1, 0xfd987193, 0xa1051895);
    Next5(block, 14, Quad(0x3020401c, 0xa1051895, 0xdda9b9a6, 0x5ed49596), 24, 17, 3, 2, 0xa679438e, 0xe396856b);
    Next5(block, 15, Quad(0x5ed49596, 0xe396856b, 0xa1051895, 0xdda9b9a6), 0, 22, 3, 3, 0x49b40821, 0x72aff2e0);
  }

  lemma Md5Steps16(block: seq<bv8>)
    requires AbcWords(block) && |Tables.KORDER| == 64
    requires After5(block, 16, Quad(0xdda9b9a6, 0x72aff2e0, 0xe396856b, 0xa1051895))
    ensures After5(block, 24, Quad(0x59a8ffda, 0x47092c07, 0xabfc7920, 0x6d002f1e))
  {
    hide AbcWords, Md5.Steps, Tables.KORDER;
    Next5(block, 16, Quad(0xdda9b9a6, 0x72aff2e0, 0xe396856b, 0xa1051895), 0, 5, 4, 0, 0xf61e2562, 0x3e9e9126);
    Next5(block, 17, Quad(0xa1051895, 0x3e9e9126, 0x72aff2e0, 0xe396856b), 0, 9, 4, 1, 0xc040b340, 0x4a1d804e);
    Next5(block, 18, Quad(0xe396856b, 0x4a1d804e, 0x3e9e9126, 0x72aff2e0), 0, 14, 4, 2, 0x265e5a51, 0xe25e1652);
    Next5(block, 19, Quad(0x72aff2e0, 0xe25e1652, 0x4a1d804e, 0x3e9e9126),
      0x80636261, 20, 4, 3, 0xe9b6c7aa, 0xb5b204e4);
    Next5(block, 20, Quad(0x3e9e9126, 0xb5b204e4, 0xe25e1652, 0x4a1d804e), 0, 5, 5, 0, 0xd62f105d, 0x59a8ffda);
    Next5(block, 21, Quad(0x4a1d804e, 0x59a8ffda, 0xb5b204e4, 0xe25e1652), 0, 9, 5, 1, 0x02441453, 0x6d002f1e);
    Next5(block, 22, Quad(0xe25e1652, 0x6d002f1e, 0x59a8ffda, 0xb5b204e4), 0, 14, 5, 2, 0xd8a1e681, 0xabfc7920);
    Next5(block, 23, Quad(0xb5b204e4, 0xabfc7920, 0x6d002f1e, 0x59a8ffda), 0, 20, 5, 3, 0xe7d3fbc8, 0x47092c07);
  }

  lemma Md5Steps24(block: seq<bv8>)
    requires AbcWords(block) && |Tables.KORDER| == 64
    requires After5(block, 24, Quad(0x59a8ffda, 0x47092c07, 0xabfc7920, 0x6d002f1e))
    ensures After5(block, 32, Quad(0x790a77fb, 0x726342d3, 0xa62884aa, 0x9f47e4f8))
  {
    hide AbcWords, Md5.Steps, Tables.KORDER;
    Next5(block, 24, Quad(0x59a8ffda, 0x47092c07, 0xabfc7920, 0x6d002f1e), 0, 5, 6, 0, 0x21e1cde6, 0xb7f268cf);
    Next5(block, 25, Quad(0x6d002f1e, 0xb7f268cf, 0x47092c07, 0xabfc7920), 24, 9, 6, 1, 0xc33707d6, 0x09388eff);
    Next5(block, 26, Quad(0xabfc7920, 0x09388eff, 0xb7f268cf, 0x47092c07), 0, 14, 6, 2, 0xf4d50d87, 0xfe1623b1);
    Next5(block, 27, Quad(0x47092c07, 0xfe1623b1, 0x09388eff, 0xb7f268cf), 0, 20, 6, 3, 0x455a14ed, 0x786acb8f);
    Next5(block, 28, Quad(0xb7f268cf, 0x786acb8f, 0xfe1623b1, 0x09388eff), 0, 5, 7, 0, 0xa9e3e905, 0x790a77fb);
    Next5(block, 29, Quad(0x09388eff, 0x790a77fb, 0x786acb8f, 0xfe1623b1), 0, 9, 7, 1, 0xfcefa3f8, 0x9f47e4f8);
    Next5(block, 30, Quad(0xfe1623b1, 0x9f47e4f8, 0x790a77fb, 0x786acb8f), 0, 14, 7, 2, 0x676f02d9, 0xa62884aa);
    Next5(block, 31, Quad(0x786acb8f, 0xa62884aa, 0x9f47e4f8, 0x790a77fb), 0, 20, 7, 3, 0x8d2a4c8a, 0x726342d3);
  }

  lemma Md5Steps32(block: seq<bv8>)
    requires AbcWords(block) && |Tables.KORDER| == 64
    requires After5(block, 32, Quad(0x790a77fb, 0x726342d3, 0xa62884aa, 0x9f47e4f8))
    ensures After5(block, 40, Quad(0x21b117b9, 0x5a2f5ea5, 0x3575227e, 0x6e7429d5))
  {
    hide AbcWords, Md5.Steps, Tables.KORDER;
    Next5(block, 32, Quad(0x790a77fb, 0x726342d3, 0xa62884aa, 0x9f47e4f8), 0, 4, 8, 0, 0xfffa3942, 0xb3707ebf);
    Next5(block, 33, Quad(0x9f47e4f8, 0xb3707ebf, 0x726342d3, 0xa62884aa), 0, 11, 8, 1, 0x8771f681, 0x60127b2e);
    Next5(block, 34, Quad(0xa62884aa, 0x60127b2e, 0xb3707ebf, 0x726342d3), 0, 16, 8, 2, 0x6d9d6122, 0x8d212ff5);
    Next5(block, 35, Quad(0x726342d3, 0x8d212ff5, 0x60127b2e, 0xb3707ebf), 24, 23, 8, 3, 0xfde5380c, 0x3b0875c7);
    Next5(block, 36, Quad(0xb3707ebf, 0x3b0875c7, 0x8d212ff5, 0x60127b2e), 0, 4, 9, 0, 0xa4beea44, 0x21b117b9);
    Next5(block, 37, Quad(0x60127b2e, 0x21b117b9, 0x3b0875c7, 0x8d212ff5), 0, 11, 9, 1, 0x4bdecfa9, 0x6e7429d5);
    Next5(block, 38, Quad(0x8d212ff5, 0x6e7429d5, 0x21b117b9, 0x3b0875c7), 0, 16, 9, 2, 0xf6bb4b60, 0x3575227e);
    Next5(block, 39, Quad(0x3b0875c7, 0x3575227e, 0x6e7429d5, 0x21b117b9), 0, 23, 9, 3, 0xbebfbc70, 0x5a2f5ea5);
  }

  lemma Md5Steps40(block: seq<bv8>)
    requires AbcWords(block) && |Tables.KORDER| == 64
    requires After5(block, 40, Quad(0x21b117b9, 0x5a2f5ea5, 0x3575227e, 0x6e7429d5))
    ensures After5(block, 48, Quad(0x7f2e507b, 0x7beb9700, 0x8fae6399, 0x99d9679d))
  {
    hide AbcWords, Md5.Steps, Tables.KORDER;
    Next5(block, 40, Quad(0x21b117b9, 0x5a2f5ea5, 0x3575227e, 0x6e7429d5), 0, 4, 10, 0, 0x289b7ec6, 0x11de1779);
    Next5(block, 41, Quad(0x6e7429d5, 0x11de1779, 0x5a2f5ea5, 0x3575227e),
      0x80636261, 11, 10, 1, 0xeaa127fa, 0xfadcaa38);
    Next5(block, 42, Quad(0x3575227e, 0xfadcaa38, 0x11de1779, 0x5a2f5ea5), 0, 16, 10, 2, 0xd4ef3085, 0x31c465ca);
    Next5(block, 43, Quad(0x5a2f5ea5, 0x31c465ca, 0xfadcaa38, 0x11de1779), 0, 23, 10, 3, 0x04881d05, 0x4c6124f4);
    Next5(block, 44, Quad(0x11de1779, 0x4c6124f4, 0x31c465ca, 0xfadcaa38), 0, 4, 11, 0, 0xd9d4d039, 0x7f2e507b);
    Next5(block, 45, Quad(0xfadcaa38, 0x7f2e507b, 0x4c6124f4, 0x31c465ca), 0, 11, 11, 1, 0xe6db99e5, 0x99d9679d);
    Next5(block, 46, Quad(0x31c465ca, 0x99d9679d, 0x7f2e507b, 0x4c6124f4), 0, 16, 11, 2, 0x1fa27cf8, 0x8fae6399);
    Next5(block, 47, Quad(0x4c6124f4, 0x8fae6399, 0x99d9679d, 0x7f2e507b), 0, 23, 11, 3, 0xc4ac5665, 0x7beb9700);
  }

  lemma Md5Steps48(block: seq<bv8>)
    requires AbcWords(block) && |Tables.KORDER| == 64
    requires After5(block, 48, Quad(0x7f2e507b, 0x7beb9700, 0x8fae6399, 0x99d9679d))
    ensures After5(block, 56, Quad(0x06cc5e8a, 0x3bfa2c27, 0x7d632dd0, 0x5b0d97aa))
  {
    hide AbcWords, Md5.Steps, Tables.KORDER;
    Next5(block, 48, Quad(0x7f2e507b, 0x7beb9700, 0x8fae6399, 0x99d9679d),
      0x80636261, 6, 12, 0, 0xf4292244, 0x7b201df8);
    Next5(block, 49, Quad(0x99d9679d, 0x7b201df8, 0x7beb9700, 0x8fae6399), 0, 10, 12, 1, 0x432aff97, 0xf4e8e96e);
    Next5(block, 50, Quad(0x8fae6399, 0xf4e8e96e, 0x7b201df8, 0x7beb9700), 24, 15, 12, 2, 0xab9423a7, 0xb298cefd);
    Next5(block, 51, Quad(0x7beb9700, 0xb298cefd, 0xf4e8e96e, 0x7b201df8), 0, 21, 12, 3, 0xfc93a039, 0x8bf025c4);
    Next5(block, 52, Quad(0x7b201df8, 0x8bf025c4, 0xb298cefd, 0xf4e8e96e), 0, 6, 13, 0, 0x655b59c3, 0x06cc5e8a);
    Next5(block, 53, Quad(0xf4e8e96e, 0x06cc5e8a, 0x8bf025c4, 0xb298cefd), 0, 10, 13, 1, 0x8f0ccc92, 0x5b0d97aa);
    Next5(block, 54, Quad(0xb298cefd, 0x5b0d97aa, 0x06cc5e8a, 0x8bf025c4), 0, 15, 13, 2, 0xffeff47d, 0x7d632dd0);
    Next5(block, 55, Quad(0x8bf025c4, 0x7d632dd0, 0x5b0d97aa, 0x06cc5e8a), 0, 21, 13, 3, 0x85845dd1, 0x3bfa2c27);
  }

  lemma Md5Steps56(block: seq<bv8>)
    requires AbcWords(block) && |Tables.KORDER| == 64
    requires After5(block, 56, Quad(0x06cc5e8a, 0x3bfa2c27, 0x7d632dd0, 0x5b0d97aa))
    ensures After5(block, 64, Quad(0x310ade8f, 0xc08226b3, 0xe484b9d8, 0x624d8cb2))
  {
    hide AbcWords, Md5.Steps, Tables.KORDER;
    Next5(block, 56, Quad(0x06cc5e8a, 0x3bfa2c27, 0x7d632dd0, 0x5b0d97aa), 0, 6, 14, 0, 0x6fa87e4f, 0x7f81cc35);
    Next5(block, 57, Quad(0x5b0d97aa, 0x7f81cc35, 0x3bfa2c27, 0x7d632dd0), 0, 10, 14, 1, 0xfe2ce6e0, 0x094454ab);
    Next5(block, 58, Quad(0x7d632dd0, 0x094454ab, 0x7f81cc35, 0x3bfa2c27), 0, 15, 14, 2, 0xa3014314, 0x4f9dbe3f);
    Next5(block, 59, Quad(0x3bfa2c27, 0x4f9dbe3f, 0x094454ab, 0x7f81cc35), 0, 21, 14, 3, 0x4e0811a1, 0x7327d604);
    Next5(block, 60, Quad(0x7f81cc35, 0x7327d604, 0x4f9dbe3f, 0x094454ab), 0, 6, 15, 0, 0xf7537e82, 0x310ade8f);
    Next5(block, 61, Quad(0x094454ab, 0x310ade8f, 0x7327d604, 0x4f9dbe3f), 0, 10, 15, 1, 0xbd3af235, 0x624d8cb2);
    Next5(block, 62, Quad(0x4f9dbe3f, 0x624d8cb2, 0x310ade8f, 0x7327d604), 0, 15, 15, 2, 0x2ad7d2bb, 0xe484b9d8);
    Next5(block, 63, Quad(0x7327d604, 0xe484b9d8, 0x624d8cb2, 0x310ade8f), 0, 21, 15, 3, 0xeb86d391, 0xc08226b3);
  }

  // --- MD4 ---

  predicate After4(block: seq<bv8>, n: nat, q: Quad)
    requires |block| == 64 && n <= 48
  {
    Md4.Steps(START, block, n) == q
  }

  lemma Next4(block: seq<bv8>, n: nat, q: Quad, w: bv32, s: bv8, b: bv32)
    requires AbcWords(block) && n < 48 && Md4.Rotation(n) == s && w == AbcWord(Md4.WordOrder(n)) && After4(block, n, q)
    requires Rol32(Add(q.a, Md4.Addend(n, Md4.RfcFunction(n, q.b, q.c, q.d), w)), s) == b
    ensures After4(block, n + 1, Quad(q.d, b, q.b, q.c))
  {
    hide Rol32, Add, Md4.Addend, Word;
  }

  lemma Md4Steps0(block: seq<bv8>)
    requires AbcWords(block) && After4(block, 0, Quad(0x67452301, 0xefcdab89, 0x98badcfe, 0x10325476))
    ensures After4(block, 8, Quad(0xe98a3ac6, 0x613b2bc8, 0x97854e65, 0x0f435cf0))
  {
    hide AbcWords, Md4.Steps;
    Next4(block, 0, Quad(0x67452301, 0xefcdab89, 0x98badcfe, 0x10325476), 0x80636261, 3, 0x031b1304);
    Next4(block, 1, Quad(0x10325476, 0x031b1304, 0xefcdab89, 0x98badcfe), 0, 7, 0xee123855);
    Next4(block, 2, Quad(0x98badcfe, 0xee123855, 0x031b1304, 0xefcdab89), 0, 11, 0xd38454e4);
    Next4(block, 3, Quad(0xefcdab89, 0xd38454e4, 0xee123855, 0x031b1304), 0, 19, 0xf66d8f45);
    Next4(block, 4, Quad(0x031b1304, 0xf66d8f45, 0xd38454e4, 0xee123855), 0, 3, 0xe98a3ac6);
    Next4(block, 5, Quad(0xee123855, 0xe98a3ac6, 0xf66d8f45, 0xd38454e4), 0, 7, 0x0f435cf0);
    Next4(block, 6, Quad(0xd38454e4, 0x0f435cf0, 0xe98a3ac6, 0xf66d8f45), 0, 11, 0x97854e65);
    Next4(block, 7, Quad(0xf66d8f45, 0x97854e65, 0x0f435cf0, 0xe98a3ac6), 0, 19, 0x613b2bc8);
  }

  lemma Md4Steps8(block: seq<bv8>)
    requires AbcWords(block) && After4(block, 8, Quad(0xe98a3ac6, 0x613b2bc8, 0x97854e65, 0x0f435cf0))
    ensures After4(block, 16, Quad(0xa299a540, 0xda717395, 0x24baadcb, 0x04e19293))
  {
    hide AbcWords, Md4.Steps;
    Next4(block, 8, Quad(0xe98a3ac6, 0x613b2bc8, 0x97854e65, 0x0f435cf0), 0, 3, 0xc65cc9b7);
    Next4(block, 9, Quad(0x0f435cf0, 0xc65cc9b7, 0x613b2bc8, 0x97854e65), 0, 7, 0x6e365830);
    Next4(block, 10, Quad(0x97854e65, 0x6e365830, 0xc65cc9b7, 0x613b2bc8), 0, 11, 0x15d2eef5);
    Next4(block, 11, Quad(0x613b2bc8, 0x15d2eef5, 0x6e365830, 0xc65cc9b7), 0, 19, 0xa7d13acb);
    Next4(block, 12, Quad(0xc65cc9b7, 0xa7d13acb, 0x15d2eef5, 0x6e365830), 0, 3, 0xa299a540);
    Next4(block, 13, Quad(0x6e365830, 0xa299a540, 0xa7d13acb, 0x15d2eef5), 0, 7, 0x04e19293);
    Next4(block, 14, Quad(0x15d2eef5, 0x04e19293, 0xa299a540, 0xa7d13acb), 24, 11, 0x24baadcb);
    Next4(block, 15, Quad(0xa7d13acb, 0x24baadcb, 0x04e19293, 0xa299a540), 0, 19, 0xda717395);
  }

  lemma Md4Steps16(block: seq<bv8>)
    requires AbcWords(block) && After4(block, 16, Quad(0xa299a540, 0xda717395, 0x24baadcb, 0x04e19293))
    ensures After4(block, 24, Quad(0x8e5c895d, 0x4ec68171, 0xbd68a784, 0x8abf3b85))
  {
    hide AbcWords, Md4.Steps;
    Next4(block, 16, Quad(0xa299a540, 0xda717395, 0x24baadcb, 0x04e19293), 0x80636261, 3, 0x1389a66c);
    Next4(block, 17, Quad(0x04e19293, 0x1389a66c, 0xda717395, 0x24baadcb), 0, 5, 0x43b67f2e);
    Next4(block, 18, Quad(0x24baadcb, 0x43b67f2e, 0x1389a66c, 0xda717395), 0, 9, 0xdd3d21a5);
    Next4(block, 19, Quad(0xda717395, 0xdd3d21a5, 0x43b67f2e, 0x1389a66c), 0, 13, 0x228b5116);
    Next4(block, 20, Quad(0x1389a66c, 0x228b5116, 0xdd3d21a5, 0x43b67f2e), 0, 3, 0x8e5c895d);
    Next4(block, 21, Quad(0x43b67f2e, 0x8e5c895d, 0x228b5116, 0xdd3d21a5), 0, 5, 0x8abf3b85);
    Next4(block, 22, Quad(0xdd3d21a5, 0x8abf3b85, 0x8e5c895d, 0x228b5116), 0, 9, 0xbd68a784);
    Next4(block, 23, Quad(0x228b5116, 0xbd68a784, 0x8abf3b85, 0x8e5c895d), 0, 13, 0x4ec68171);
  }

  lemma Md4Steps24(block: seq<bv8>)
    requires AbcWords(block) && After4(block, 24, Quad(0x8e5c895d, 0x4ec68171, 0xbd68a784, 0x8abf3b85))
    ensures After4(block, 32, Quad(0x7296594c, 0x8e531b8f, 0x3dd42422, 0x4e7e1748))
  {
    hide AbcWords, Md4.Steps;
    Next4(block, 24, Quad(0x8e5c895d, 0x4ec68171, 0xbd68a784, 0x8abf3b85), 0, 3, 0xbe6d33db);
    Next4(block, 25, Quad(0x8abf3b85, 0xbe6d33db, 0x4ec68171, 0xbd68a784), 0, 5, 0x75cb1df4);
    Next4(block, 26, Quad(0xbd68a784, 0x75cb1df4, 0xbe6d33db, 0x4ec68171), 0, 9, 0x74661d2d);
    Next4(block, 27, Quad(0x4ec68171, 0x74661d2d, 0x75cb1df4, 0xbe6d33db), 24, 13, 0x0323e3b7);
    Next4(block, 28, Quad(0xbe6d33db, 0x0323e3b7, 0x74661d2d, 0x75cb1df4), 0, 3, 0x7296594c);
    Next4(block, 29, Quad(0x75cb1df4, 0x7296594c, 0x0323e3b7, 0x74661d2d), 0, 5, 0x4e7e1748);
    Next4(block, 30, Quad(0x74661d2d, 0x4e7e1748, 0x7296594c, 0x0323e3b7), 0, 9, 0x3dd42422);
    Next4(block, 31, Quad(0x0323e3b7, 0x3dd42422, 0x4e7e1748, 0x7296594c), 0, 13, 0x8e531b8f);
  }

  lemma Md4Steps32(block: seq<bv8>)
    requires AbcWords(block) && After4(block, 32, Quad(0x7296594c, 0x8e531b8f, 0x3dd42422, 0x4e7e1748))
    ensures After4(block, 40, Quad(0x74a13dc8, 0x71a2ad97, 0x03f2b578, 0x99e6af11))
  {
    hide AbcWords, Md4.Steps;
    Next4(block, 32, Quad(0x7296594c, 0x8e531b8f, 0x3dd42422, 0x4e7e1748), 0x80636261, 3, 0xfe66819a);
    Next4(block, 33, Quad(0x4e7e1748, 0xfe66819a, 0x8e531b8f, 0x3dd42422), 0, 9, 0x73824016);
    Next4(block, 34, Quad(0x3dd42422, 0x73824016, 0xfe66819a, 0x8e531b8f), 0, 11, 0x2f4e3583);
    Next4(block, 35, Quad(0x8e531b8f, 0x2f4e3583, 0x73824016, 0xfe66819a), 0, 15, 0xfd9fcfeb);
    Next4(block, 36, Quad(0xfe66819a, 0xfd9fcfeb, 0x2f4e3583, 0x73824016), 0, 3, 0x74a13dc8);
    Next4(block, 37, Quad(0x73824016, 0x74a13dc8, 0xfd9fcfeb, 0x2f4e3583), 0, 9, 0x99e6af11);
    Next4(block, 38, Quad(0x2f4e3583, 0x99e6af11, 0x74a13dc8, 0xfd9fcfeb), 0, 11, 0x03f2b578);
    Next4(block, 39, Quad(0xfd9fcfeb, 0x03f2b578, 0x99e6af11, 0x74a13dc8), 24, 15, 0x71a2ad97);
  }

  lemma LastWords()
    ensures Md4.WordOrder(40) == 1 && Md4.WordOrder(41) == 9 && Md4.WordOrder(42) == 5 && Md4.WordOrder(43) == 13
    ensures Md4.WordOrder(44) == 3 && Md4.WordOrder(45) == 11 && Md4.WordOrder(46) == 7 && Md4.WordOrder(47) == 15
  {
  }

  lemma Md4Steps40(block: seq<bv8>)
    requires AbcWords(block) && After4(block, 40, Quad(0x74a13dc8, 0x71a2ad97, 0x03f2b578, 0x99e6af11))
    ensures After4(block, 48, Quad(0x12bc25a3, 0x630a7626, 0x4f4fe461, 0x8d405204))
  {
    LastWords();
    hide AbcWords, Md4.Steps, Md4.WordOrder;
    Next4(block, 40, Quad(0x74a13dc8, 0x71a2ad97, 0x03f2b578, 0x99e6af11), 0, 3, 0x798f0b3e);
    Next4(block, 41, Quad(0x99e6af11, 0x798f0b3e, 0x71a2ad97, 0x03f2b578), 0, 9, 0x3f5d0629);
    Next4(block, 42, Quad(0x03f2b578, 0x3f5d0629, 0x798f0b3e, 0x71a2ad97), 0, 11, 0xea0ccd51);
    Next4(block, 43, Quad(0x71a2ad97, 0xea0ccd51, 0x3f5d0629, 0x798f0b3e), 0, 15, 0xacbf46ad);
    Next4(block, 44, Quad(0x798f0b3e, 0xacbf46ad, 0xea0ccd51, 0x3f5d0629), 0, 3, 0x12bc25a3);
    Next4(block, 45, Quad(0x3f5d0629, 0x12bc25a3, 0xacbf46ad, 0xea0ccd51), 0, 9, 0x8d405204);
    Next4(block, 46, Quad(0xea0ccd51, 0x8d405204, 0x12bc25a3, 0xacbf46ad), 0, 11, 0x4f4fe461);
    Next4(block, 47, Quad(0xacbf46ad, 0x4f4fe461, 0x8d405204, 0x12bc25a3), 0, 15, 0x630a7626);
  }

  // --- the digests ---

  lemma FoldOne(f: Compression<bv32>, block: seq<bv8>)
    requires |block| == 64
    ensures Fold(f, 64, IV, block) == f(IV, block)
  {
    hide IV;
    assert block[..64] == block && |block[64..]| == 0;
  }

  lemma Words5(block: seq<bv8>)
    requires block == RfcPadded(ABC)
    ensures Fold(Compress5, 64, IV, block) == [0x98500190, 0xb04fd23c, 0x7d3f96d6, 0x727fe128]
  {
    Padding(block);
    assert |Tables.KORDER| == 64;
    assert After5(block, 0, START);
    Md5Steps0(block);
    Md5Steps8(block);
    Md5Steps16(block);
    Md5Steps24(block);
    Md5Steps32(block);
    Md5Steps40(block);
    Md5Steps48(block);
    Md5Steps56(block);
    hide AbcWords, RfcPadded, Md5.Steps, Tables.KORDER;
    FoldOne(Compress5, block);
  }

  // The digest of "abc" is what the RFC and the self test of the code say.
  lemma Abc5()
    ensures RfcHash(Compress5, ABC) == [
      0x90, 0x01, 0x50, 0x98, 0x3c, 0xd2, 0x4f, 0xb0, 0xd6, 0x96, 0x3f, 0x7d, 0x28, 0xe1, 0x7f, 0x72]
  {
    hide Fold, RfcPadded, Output, Store32L, Compress5, IV;
    Words5(RfcPadded(ABC));
    OutputFour(0x98500190, 0xb04fd23c, 0x7d3f96d6, 0x727fe128);
    Stored5();
  }

  lemma Stored5()
    ensures Store32L(0x98500190) == [0x90, 0x01, 0x50, 0x98]
    ensures Store32L(0xb04fd23c) == [0x3c, 0xd2, 0x4f, 0xb0]
    ensures Store32L(0x7d3f96d6) == [0xd6, 0x96, 0x3f, 0x7d]
    ensures Store32L(0x727fe128) == [0x28, 0xe1, 0x7f, 0x72]
  {
  }

  lemma Words4(block: seq<bv8>)
    requires block == RfcPadded(ABC)
    ensures Fold(Compress4, 64, IV, block) == [0x7a0148a4, 0x52d821af, 0xe80ac15f, 0x9d72a67a]
  {
    Padding(block);
    assert After4(block, 0, START);
    Md4Steps0(block);
    Md4Steps8(block);
    Md4Steps16(block);
    Md4Steps24(block);
    Md4Steps32(block);
    Md4Steps40(block);
    hide AbcWords, RfcPadded, Md4.Steps;
    FoldOne(Compress4, block);
  }

  // The digest of "abc" is what the RFC and the self test of the code say.
  lemma Abc4()
    ensures RfcHash(Compress4, ABC) == [
      0xa4, 0x48, 0x01, 0x7a, 0xaf, 0x21, 0xd8, 0x52, 0x5f, 0xc1, 0x0a, 0xe8, 0x7a, 0xa6, 0x72, 0x9d]
  {
    hide Fold, RfcPadded, Output, Store32L, Compress4, IV;
    Words4(RfcPadded(ABC));
    OutputFour(0x7a0148a4, 0x52d821af, 0xe80ac15f, 0x9d72a67a);
    Stored4();
  }

  lemma Stored4()
    ensures Store32L(0x7a0148a4) == [0xa4, 0x48, 0x01, 0x7a]
    ensures Store32L(0x52d821af) == [0xaf, 0x21, 0xd8, 0x52]
    ensures Store32L(0xe80ac15f) == [0x5f, 0xc1, 0x0a, 0xe8]
    ensures Store32L(0x9d72a67a) == [0x7a, 0xa6, 0x72, 0x9d]
  {
  }

  lemma OutputFour(a: bv32, b: bv32, c: bv32, d: bv32)
    ensures Output([a, b, c, d]) == Store32L(a) + Store32L(b) + Store32L(c) + Store32L(d)
  {
    hide Store32L;
    assert [a][..0] == [] && [a, b][..1] == [a] && [a, b, c][..2] == [a, b] && [a, b, c, d][..3] == [a, b, c];
    assert Output([a]) == Store32L(a);
    assert Output([a, b]) == Output([a]) + Store32L(b);
    assert Output([a, b, c]) == Output([a, b]) + Store32L(c);
  }
}
