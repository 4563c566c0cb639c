/**
 Blowfish (src/modules/crypto/blowfish.c): the unrolled encryption and decryption and the
 self-feeding key schedule, against the cipher's published definition, for any tables.
 */
module WordXor {
  type Word = bv32

  function Xor(a: Word, b: Word): Word { a ^ b }

  // Modulo 2^32.
  function Plus(a: Word, b: Word): Word { a + b }

  lemma XorCancels(a: Word, b: Word)
    ensures Xor(Xor(a, b), b) == a
  {
  }

  lemma XorSwaps(a: Word, b: Word, c: Word)
    ensures Xor(Xor(a, b), c) == Xor(Xor(a, c), b)
  {
    hide Xor;
    XorAssociates(a, b, c);
    XorAssociates(a, c, b);
    XorCommutes(b, c);
  }

  lemma XorAssociates(a: Word, b: Word, c: Word)
    ensures Xor(Xor(a, b), c) == Xor(a, Xor(b, c))
  {
  }

  lemma XorCommutes(a: Word, b: Word)
    ensures Xor(a, b) == Xor(b, a)
  {
  }

  lemma XorZero(a: Word)
    ensures Xor(a, 0) == a
  {
  }

  lemma XorFlips(a: Word, b: Word)
    ensures Xor(a, Xor(a, b)) == b
  {
  }

  // The key loop's way of joining four bytes.
  function Shifted(a: Word, b: bv8): Word { (a << 8) | (b as bv32) }

  lemma FourShifts(b3: bv8, b2: bv8, b1: bv8, b0: bv8)
    ensures Shifted(Shifted(Shifted(Shifted(0, b3), b2), b1), b0)
         == (((b3 as bv32) << 24) | ((b2 as bv32) << 16)) | (((b1 as bv32) << 8) | (b0 as bv32))
  {
  }
}

module Blowfish {
  import opened WordXor
  import opened Words

  // The four tables in one row: S[x][y] is entry 256 * x + y.
  function F(s: seq<Word>, x: Word): Word
    requires |s| == 1024
  {
    var sum := Plus(s[Byte3(x) as nat], s[256 + Byte2(x) as nat]);
    Plus(Xor(sum, s[512 + Byte1(x) as nat]), s[768 + Byte0(x) as nat])
  }

  datatype Halves = Halves(l: Word, r: Word)

  // --- the published cipher ---

  // One round: key the left half, mix the right half, and swap.
  function Round(k: seq<Word>, s: seq<Word>, h: Halves, i: nat): Halves
    requires |k| == 18 && |s| == 1024 && i < 16
  {
    var l := Xor(h.l, k[i]);
    Halves(Xor(h.r, F(s, l)), l)
  }

  function Rounds(k: seq<Word>, s: seq<Word>, h: Halves, n: nat): Halves
    requires |k| == 18 && |s| == 1024 && n <= 16
  {
    if n == 0 then h else Round(k, s, Rounds(k, s, h, n - 1), n - 1)
  }

  // Sixteen rounds, the last swap undone, and the last two keys.
  function Crypt(k: seq<Word>, s: seq<Word>, h: Halves): Halves
    requires |k| == 18 && |s| == 1024
  {
    var e := Rounds(k, s, h, 16);
    Halves(Xor(e.r, k[17]), Xor(e.l, k[16]))
  }

  // Decryption is encryption with the keys in reverse order.
  function Reversed(k: seq<Word>): (r: seq<Word>)
    requires |k| == 18
    ensures |r| == 18
  {
    seq(18, i requires 0 <= i < 18 => k[17 - i])
  }

  // --- one way and back ---

  // The inverse of a round.
  function Unround(k: seq<Word>, s: seq<Word>, e: Halves, i: nat): Halves
    requires |k| == 18 && |s| == 1024 && i < 16
  {
    Halves(Xor(e.r, k[i]), Xor(e.l, F(s, e.r)))
  }

  // Undoes the last `n` of sixteen rounds.
  function Unrounds(k: seq<Word>, s: seq<Word>, e: Halves, n: nat): Halves
    requires |k| == 18 && |s| == 1024 && n <= 16
  {
    if n == 0 then e else Unround(k, s, Unrounds(k, s, e, n - 1), 16 - n)
  }

  lemma {:induction false} UnroundsUndo(k: seq<Word>, s: seq<Word>, h: Halves, n: nat)
    requires |k| == 18 && |s| == 1024 && n <= 16
    ensures Unrounds(k, s, Rounds(k, s, h, 16), n) == Rounds(k, s, h, 16 - n)
  {
    hide Xor, F;
    if n > 0 {
      UnroundsUndo(k, s, h, n - 1);
      var e := Rounds(k, s, h, 16 - n);
      assert Rounds(k, s, h, 16 - (n - 1)) == Round(k, s, e, 16 - n);
      XorCancels(e.l, k[16 - n]);
      XorCancels(e.r, F(s, Xor(e.l, k[16 - n])));
    }
  }

  // What the decryption loop starts from.
  function Unkeyed(k: seq<Word>, h: Halves): Halves
    requires |k| == 18
  {
    Halves(Xor(h.r, k[16]), Xor(h.l, k[17]))
  }

  // Undoing rounds runs in step with the rounds under reversed keys, one key ahead.
  lemma {:induction false} InStep(k: seq<Word>, s: seq<Word>, h: Halves, n: nat)
    requires |k| == 18 && |s| == 1024 && n <= 16
    ensures var u, p, q := Unrounds(k, s, Unkeyed(k, h), n), Rounds(Reversed(k), s, h, n), Reversed(k);
      u.r == Xor(p.l, q[n]) && u.l == Xor(p.r, q[n + 1])
  {
    hide Xor, F;
    if n > 0 {
      InStep(k, s, h, n - 1);
      var p, q := Rounds(Reversed(k), s, h, n - 1), Reversed(k);
      XorSwaps(p.r, q[n], F(s, Xor(p.l, q[n - 1])));
    }
  }

  lemma UnroundsIsReversed(k: seq<Word>, s: seq<Word>, h: Halves)
    requires |k| == 18 && |s| == 1024
    ensures Unrounds(k, s, Unkeyed(k, h), 16) == Crypt(Reversed(k), s, h)
  {
    hide Xor, F, Unrounds, Rounds;
    InStep(k, s, h, 16);
  }

  // Decrypting undoes encrypting, for every schedule.
  lemma DecryptEncrypt(k: seq<Word>, s: seq<Word>, h: Halves)
    requires |k| == 18 && |s| == 1024
    ensures Crypt(Reversed(k), s, Crypt(k, s, h)) == h
  {
    hide Xor, F, Unrounds, Rounds;
    var e := Rounds(k, s, h, 16);
    XorCancels(e.l, k[16]);
    XorCancels(e.r, k[17]);
    assert Unkeyed(k, Crypt(k, s, h)) == e;
    UnroundsIsReversed(k, s, Crypt(k, s, h));
    UnroundsUndo(k, s, h, 16);
    assert Rounds(k, s, h, 0) == h by { NoRounds(k, s, h); }
  }

  lemma NoRounds(k: seq<Word>, s: seq<Word>, h: Halves)
    requires |k| == 18 && |s| == 1024
    ensures Rounds(k, s, h, 0) == h
  {
  }

  // Encrypting undoes decrypting.
  lemma EncryptDecrypt(k: seq<Word>, s: seq<Word>, h: Halves)
    requires |k| == 18 && |s| == 1024
    ensures Crypt(k, s, Crypt(Reversed(k), s, h)) == h
  {
    hide Crypt;
    assert Reversed(Reversed(k)) == k;
    DecryptEncrypt(Reversed(k), s, h);
  }

  // --- what a round reads ---

  // The bytes of the word select one entry of each table, the highest byte one of the first.
  lemma FReads(s: seq<Word>, b: seq<bv8>)
    requires |s| == 1024 && |b| == 4
    ensures F(s, Load32H(b))
         == Plus(Xor(Plus(s[b[0] as nat], s[256 + b[1] as nat]), s[512 + b[2] as nat]), s[768 + b[3] as nat])
  {
    hide Join32, Byte3, Byte2, Byte1, Byte0, Plus, Xor;
    BytesOfJoin(b[0], b[1], b[2], b[3]);
  }

  // Every second of the keys from `i` on.
  function KeySum(k: seq<Word>, i: nat, n: nat): Word
    requires n > 0 ==> i + 2 * n - 2 < |k|
  {
    if n == 0 then 0 else Xor(KeySum(k, i, n - 1), k[i + 2 * n - 2])
  }

  // With empty tables only the keys are left: the even ones on one half, the odd ones on the
  // other.
  lemma NoTables(k: seq<Word>, s: seq<Word>, h: Halves)
    requires |k| == 18 && |s| == 1024 && forall i :: 0 <= i < 1024 ==> s[i] == 0
    ensures Crypt(k, s, h) == Halves(Xor(h.r, KeySum(k, 1, 9)), Xor(h.l, KeySum(k, 0, 9)))
  {
    hide Xor, F, Rounds;
    RoundsEmpty(k, s, h, 8);
    XorAssociates(h.l, KeySum(k, 0, 8), k[16]);
    XorAssociates(h.r, KeySum(k, 1, 8), k[17]);
  }

  lemma {:induction false} RoundsEmpty(k: seq<Word>, s: seq<Word>, h: Halves, n: nat)
    requires |k| == 18 && |s| == 1024 && n <= 8 && forall i :: 0 <= i < 1024 ==> s[i] == 0
    ensures Rounds(k, s, h, 2 * n) == Halves(Xor(h.l, KeySum(k, 0, n)), Xor(h.r, KeySum(k, 1, n)))
  {
    hide Xor, F;
    if n == 0 {
      XorZero(h.l);
      XorZero(h.r);
    } else {
      RoundsEmpty(k, s, h, n - 1);
      var e := Rounds(k, s, h, 2 * n - 2);
      var m := Round(k, s, e, 2 * n - 2);
      assert Rounds(k, s, h, 2 * n - 1) == m;
      FEmpty(s, m.r);
      FEmpty(s, Xor(m.l, k[2 * n - 1]));
      XorZero(e.r);
      XorZero(m.r);
      XorAssociates(h.l, KeySum(k, 0, n - 1), k[2 * n - 2]);
      XorAssociates(h.r, KeySum(k, 1, n - 1), k[2 * n - 1]);
    }
  }

  lemma FEmpty(s: seq<Word>, x: Word)
    requires |s| == 1024 && forall i :: 0 <= i < 1024 ==> s[i] == 0
    ensures F(s, x) == 0
  {
  }

  // --- blocks of bytes ---

  function FromBytes(b: seq<bv8>): Halves
    requires |b| == 8
  {
    Halves(Load32H(b[..4]), Load32H(b[4..]))
  }

  function ToBytes(h: Halves): (b: seq<bv8>)
    ensures |b| == 8
  {
    Store32H(h.l) + Store32H(h.r)
  }

  lemma BytesRoundTrip(h: Halves, b: seq<bv8>)
    requires |b| == 8
    ensures FromBytes(ToBytes(h)) == h && ToBytes(FromBytes(b)) == b
  {
    hide Load32H, Store32H;
    LoadStore32(h.l, b[..4]);
    LoadStore32(h.r, b[4..]);
    assert ToBytes(h)[..4] == Store32H(h.l) && ToBytes(h)[4..] == Store32H(h.r);
    assert b == b[..4] + b[4..];
  }

  function Encrypted(k: seq<Word>, s: seq<Word>, b: seq<bv8>): (r: seq<bv8>)
    requires |k| == 18 && |s| == 1024 && |b| == 8
    ensures |r| == 8
  {
    ToBytes(Crypt(k, s, FromBytes(b)))
  }

  function Decrypted(k: seq<Word>, s: seq<Word>, b: seq<bv8>): (r: seq<bv8>)
    requires |k| == 18 && |s| == 1024 && |b| == 8
    ensures |r| == 8
  {
    Encrypted(Reversed(k), s, b)
  }

  lemma Inverse(k: seq<Word>, s: seq<Word>, b: seq<bv8>)
    requires |k| == 18 && |s| == 1024 && |b| == 8
    ensures Decrypted(k, s, Encrypted(k, s, b)) == b && Encrypted(k, s, Decrypted(k, s, b)) == b
  {
    hide Crypt, FromBytes, ToBytes, Reversed;
    var h := FromBytes(b);
    DecryptEncrypt(k, s, h);
    EncryptDecrypt(k, s, h);
    BytesRoundTrip(Crypt(k, s, h), b);
    BytesRoundTrip(Crypt(Reversed(k), s, h), b);
  }

  function EncryptedTimes(k: seq<Word>, s: seq<Word>, b: seq<bv8>, n: nat): (r: seq<bv8>)
    requires |k| == 18 && |s| == 1024 && |b| == 8
    ensures |r| == 8
  {
    if n == 0 then b else Encrypted(k, s, EncryptedTimes(k, s, b, n - 1))
  }

  function DecryptedTimes(k: seq<Word>, s: seq<Word>, b: seq<bv8>, n: nat): (r: seq<bv8>)
    requires |k| == 18 && |s| == 1024 && |b| == 8
    ensures |r| == 8
  {
    if n == 0 then b else Decrypted(k, s, DecryptedTimes(k, s, b, n - 1))
  }

  // Any number of encryptions is undone one decryption at a time.
  lemma {:induction false} TimesUndone(k: seq<Word>, s: seq<Word>, b: seq<bv8>, n: nat, m: nat)
    requires |k| == 18 && |s| == 1024 && |b| == 8 && m <= n
    ensures DecryptedTimes(k, s, EncryptedTimes(k, s, b, n), m) == EncryptedTimes(k, s, b, n - m)
  {
    hide Encrypted, Decrypted;
    if m > 0 {
      TimesUndone(k, s, b, n, m - 1);
      Inverse(k, s, EncryptedTimes(k, s, b, n - m));
    }
  }

  // --- the code ---

  datatype Status = CryptOk | InvalidKeysize | InvalidRounds

  class Schedule {
    const K: array<Word>
    const S: array<Word>

    ghost predicate Valid() { K.Length == 18 && S.Length == 1024 && K != S }

    constructor ()
      ensures Valid() && fresh(K) && fresh(S)
    {
      K := new Word[18];
      S := new Word[1024];
    }

    // blowfish_ecb_encrypt; `ct` may be `pt`.
    method Encrypt(pt: array<bv8>, ct: array<bv8>)
      requires Valid() && pt.Length == 8 && ct.Length == 8
      modifies ct
      ensures ct[..] == Encrypted(K[..], S[..], old(pt[..]))
    {
      hide Xor, F, Load32H, Store32H, Rounds;
      ghost var k, s, h := K[..], S[..], FromBytes(pt[..]);
      assert pt[..][..4] == pt[..4] && pt[..][4..] == pt[4..];
      var L, R := Load32H(pt[..4]), Load32H(pt[4..]);
      var r := 0;
      NoRounds(k, s, h);
      while r < 16
        invariant r <= 16 && r % 4 == 0 && Halves(L, R) == Rounds(k, s, h, r)
      {
        TwoRounds(k, s, h, r);
        TwoRounds(k, s, h, r + 2);
        L := Xor(L, K[r]);     R := Xor(R, F(S[..], L));
        R := Xor(R, K[r + 1]); L := Xor(L, F(S[..], R));
        L := Xor(L, K[r + 2]); R := Xor(R, F(S[..], L));
        R := Xor(R, K[r + 3]); L := Xor(L, F(S[..], R));
        r := r + 4;
      }
      R := Xor(R, K[17]);
      L := Xor(L, K[16]);
      StoreHalves(ct, R, L);
    }

    // blowfish_ecb_decrypt; `pt` may be `ct`.
    method Decrypt(ct: array<bv8>, pt: array<bv8>)
      requires Valid() && pt.Length == 8 && ct.Length == 8
      modifies pt
      ensures pt[..] == Decrypted(K[..], S[..], old(ct[..]))
    {
      hide Xor, F, Load32H, Store32H, Unrounds, Crypt, Reversed;
      ghost var k, s, h := K[..], S[..], FromBytes(ct[..]);
      assert ct[..][..4] == ct[..4] && ct[..][4..] == ct[4..];
      var R, L := Load32H(ct[..4]), Load32H(ct[4..]);
      R := Xor(R, K[17]);
      L := Xor(L, K[16]);
      ghost var e := Unkeyed(k, h);
      var r := 15;
      NoUnrounds(k, s, e);
      while r > 0
        invariant -1 <= r <= 15 && r % 4 == 3 && Halves(L, R) == Unrounds(k, s, e, 15 - r)
      {
        TwoUnrounds(k, s, e, 15 - r);
        TwoUnrounds(k, s, e, 17 - r);
        L := Xor(L, F(S[..], R)); R := Xor(R, K[r]);
        R := Xor(R, F(S[..], L)); L := Xor(L, K[r - 1]);
        L := Xor(L, F(S[..], R)); R := Xor(R, K[r - 2]);
        R := Xor(R, F(S[..], L)); L := Xor(L, K[r - 3]);
        r := r - 4;
      }
      UnroundsIsReversed(k, s, h);
      StoreHalves(pt, L, R);
    }

    // The self-test's use: `n` encryptions in place, then `n` decryptions.
    method ThereAndBack(B: array<bv8>, n: nat)
      requires Valid() && B.Length == 8
      modifies B
      ensures B[..] == old(B[..])
    {
      hide Encrypted, Decrypted;
      ghost var k, s, b := K[..], S[..], B[..];
      for y := 0 to n
        invariant K[..] == k && S[..] == s && B[..] == EncryptedTimes(k, s, b, y)
      {
        Encrypt(B, B);
      }
      for y := 0 to n
        invariant K[..] == k && S[..] == s && B[..] == DecryptedTimes(k, s, EncryptedTimes(k, s, b, n), y)
      {
        Decrypt(B, B);
      }
      TimesUndone(k, s, b, n, n);
    }
  }

  // STORE32H twice
  method StoreHalves(out: array<bv8>, a: Word, b: Word)
    requires out.Length == 8
    modifies out
    ensures out[..] == ToBytes(Halves(a, b))
  {
    hide Store32H;
    var x, y := Store32H(a), Store32H(b);
    forall i | 0 <= i < 8 {
      out[i] := if i < 4 then x[i] else y[i - 4];
    }
    assert out[..] == x + y;
  }

  // Two swapping rounds are two steps without swaps.
  lemma TwoRounds(k: seq<Word>, s: seq<Word>, h: Halves, n: nat)
    requires |k| == 18 && |s| == 1024 && n <= 14
    ensures var e := Rounds(k, s, h, n);
      var l := Xor(e.l, k[n]);
      var r := Xor(Xor(e.r, F(s, l)), k[n + 1]);
      Rounds(k, s, h, n + 2) == Halves(Xor(l, F(s, r)), r)
  {
    hide Xor, F;
    assert Rounds(k, s, h, n + 2) == Round(k, s, Rounds(k, s, h, n + 1), n + 1);
  }

  lemma TwoUnrounds(k: seq<Word>, s: seq<Word>, e: Halves, n: nat)
    requires |k| == 18 && |s| == 1024 && n <= 14
    ensures var u := Unrounds(k, s, e, n);
      var l := Xor(u.l, F(s, u.r));
      var r := Xor(u.r, k[15 - n]);
      Unrounds(k, s, e, n + 2) == Halves(Xor(l, k[14 - n]), Xor(r, F(s, l)))
  {
    hide Xor, F;
    assert Unrounds(k, s, e, n + 2) == Unround(k, s, Unrounds(k, s, e, n + 1), 16 - (n + 2));
  }

  lemma NoUnrounds(k: seq<Word>, s: seq<Word>, e: Halves)
    requires |k| == 18 && |s| == 1024
    ensures Unrounds(k, s, e, 0) == e
  {
  }
}
