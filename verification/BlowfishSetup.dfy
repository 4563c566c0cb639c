/**
 blowfish_setup of src/modules/crypto/blowfish.c: which key bytes reach which word, and the
 schedule fed by its own encryptions.
 */
module BlowfishSetup {
  import opened Blowfish
  import opened WordXor
  import opened Words

  // --- what the schedule is ---

  // The key bytes used in order, over and over.
  function KeyByte(key: seq<bv8>, i: nat): bv8
    requires key != []
  {
    key[i % |key|]
  }

  // Four key bytes as the big-endian word for P entry `x`.
  function KeyWord(key: seq<bv8>, x: nat): Word
    requires key != []
  {
    Load32H([KeyByte(key, 4 * x), KeyByte(key, 4 * x + 1), KeyByte(key, 4 * x + 2), KeyByte(key, 4 * x + 3)])
  }

  // The P entries with the key mixed in.
  function Mixed(p: seq<Word>, key: seq<bv8>): (k: seq<Word>)
    requires |p| == 18 && key != []
    ensures |k| == 18
  {
    seq(18, x requires 0 <= x < 18 => Xor(p[x], KeyWord(key, x)))
  }

  // The 18 P entries and the 1024 S entries in one row, and the last encryption.
  datatype State = State(t: seq<Word>, h: Halves)
  {
    predicate Valid() { |t| == 1042 }
  }

  // The encryption under the current tables takes the place of the next two entries.
  function Step(c: State, j: nat): (r: State)
    requires c.Valid() && j < 521
    ensures r.Valid()
  {
    var e := Crypt(c.t[..18], c.t[18..], c.h);
    State(c.t[2 * j := e.l][2 * j + 1 := e.r], e)
  }

  function Chain(t: seq<Word>, n: nat): (r: State)
    requires |t| == 1042 && n <= 521
    ensures r.Valid()
  {
    if n == 0 then State(t, Halves(0, 0)) else Step(Chain(t, n - 1), n - 1)
  }

  function Scheduled(p: seq<Word>, s: seq<Word>, key: seq<bv8>): (t: seq<Word>)
    requires |p| == 18 && |s| == 1024 && key != []
    ensures |t| == 1042
  {
    Chain(Mixed(p, key) + s, 521).t
  }

  // --- properties of the schedule ---

  // Each entry is written once, by its own step: before it holds what it held at the
  // start, afterwards half of that step's encryption.
  lemma {:induction false} WrittenOnce(t: seq<Word>, n: nat, j: nat)
    requires |t| == 1042 && n <= 521 && j < 521
    ensures var c, i := Chain(t, n), 2 * j;
      if j < n then c.t[i] == Chain(t, j + 1).h.l && c.t[i + 1] == Chain(t, j + 1).h.r
      else c.t[i] == t[i] && c.t[i + 1] == t[i + 1]
  {
    hide Crypt;
    if n > 0 {
      WrittenOnce(t, n - 1, j);
    }
  }

  // The words at `2 * j` of the schedule `f` are the words before them, encrypted under the
  // new words before them and the old ones of `t` from there on.
  predicate Fed(t: seq<Word>, f: seq<Word>, j: nat)
    requires |t| == |f| == 1042 && j < 521
  {
    var row := f[..2 * j] + t[2 * j..];
    var last := if j == 0 then Halves(0, 0) else Halves(f[2 * j - 2], f[2 * j - 1]);
    Halves(f[2 * j], f[2 * j + 1]) == Crypt(row[..18], row[18..], last)
  }

  lemma ChainFed(t: seq<Word>, j: nat)
    requires |t| == 1042 && j < 521
    ensures Fed(t, Chain(t, 521).t, j)
  {
    hide Crypt, Chain;
    var f, row := Chain(t, 521).t, Chain(t, j).t;
    forall i | 0 <= i < 1042 ensures row[i] == (f[..2 * j] + t[2 * j..])[i] {
      WrittenOnce(t, j, i / 2);
      WrittenOnce(t, 521, i / 2);
      assert i == 2 * (i / 2) || i == 2 * (i / 2) + 1;
    }
    assert row == f[..2 * j] + t[2 * j..];
    WrittenOnce(t, 521, j);
    ChainStep(t, j);
    if j > 0 {
      WrittenOnce(t, 521, j - 1);
    }
  }

  lemma ChainStep(t: seq<Word>, j: nat)
    requires |t| == 1042 && j < 521
    ensures Chain(t, 0).h == Halves(0, 0)
    ensures Chain(t, j + 1).h == Crypt(Chain(t, j).t[..18], Chain(t, j).t[18..], Chain(t, j).h)
  {
    hide Crypt;
  }

  // The whole schedule: it starts from P with the key bytes xored in, over and over, and T.
  lemma ScheduledRows(p: seq<Word>, s: seq<Word>, key: seq<bv8>, t: seq<Word>, j: nat)
    requires |p| == 18 && |s| == 1024 && key != [] && |t| == 1042 && t[18..] == s && j < 521
    requires forall x :: 0 <= x < 18 ==> t[x] == Xor(p[x], Load32H(
      [key[4 * x % |key|], key[(4 * x + 1) % |key|], key[(4 * x + 2) % |key|], key[(4 * x + 3) % |key|]]))
    ensures Fed(t, Scheduled(p, s, key), j)
  {
    hide Chain, Fed, Load32H, Xor;
    assert t == Mixed(p, key) + s;
    ChainFed(t, j);
  }

  // The words mixed in are equal exactly when the first 72 bytes of the repeated keys are.
  lemma SameMixIff(p: seq<Word>, key: seq<bv8>, other: seq<bv8>)
    requires |p| == 18 && key != [] && other != []
    ensures Mixed(p, key) == Mixed(p, other) <==> forall i :: 0 <= i < 72 ==> KeyByte(key, i) == KeyByte(other, i)
  {
    hide KeyByte, Load32H, Xor, KeyWord;
    if Mixed(p, key) == Mixed(p, other) {
      forall i | 0 <= i < 72 ensures KeyByte(key, i) == KeyByte(other, i) {
        var x := i / 4;
        assert Mixed(p, key)[x] == Mixed(p, other)[x];
        XorInjective(p[x], KeyWord(key, x), KeyWord(other, x));
        WordBytes(key, other, x);
        assert i == 4 * x + i % 4;
      }
    }
    if forall i :: 0 <= i < 72 ==> KeyByte(key, i) == KeyByte(other, i) {
      forall x | 0 <= x < 18 ensures Mixed(p, key)[x] == Mixed(p, other)[x] {
        WordBytes(key, other, x);
      }
    }
  }

  lemma XorInjective(a: Word, b: Word, c: Word)
    requires Xor(a, b) == Xor(a, c)
    ensures b == c
  {
    XorFlips(a, b);
    XorFlips(a, c);
  }

  lemma WordBytes(key: seq<bv8>, other: seq<bv8>, x: nat)
    requires key != [] && other != []
    ensures KeyWord(key, x) == KeyWord(other, x) <==>
      && KeyByte(key, 4 * x) == KeyByte(other, 4 * x) && KeyByte(key, 4 * x + 1) == KeyByte(other, 4 * x + 1)
      && KeyByte(key, 4 * x + 2) == KeyByte(other, 4 * x + 2) && KeyByte(key, 4 * x + 3) == KeyByte(other, 4 * x + 3)
  {
    hide KeyByte, Load32H, Store32H;
    var a := [KeyByte(key, 4 * x), KeyByte(key, 4 * x + 1), KeyByte(key, 4 * x + 2), KeyByte(key, 4 * x + 3)];
    var b := [KeyByte(other, 4 * x), KeyByte(other, 4 * x + 1), KeyByte(other, 4 * x + 2), KeyByte(other, 4 * x + 3)];
    LoadStore32(0, a);
    LoadStore32(0, b);
    assert a == b <==> a[0] == b[0] && a[1] == b[1] && a[2] == b[2] && a[3] == b[3];
  }

  // A key and the same key written twice give the same schedule.
  lemma DoubledKey(p: seq<Word>, s: seq<Word>, key: seq<bv8>)
    requires |p| == 18 && |s| == 1024 && key != []
    ensures Scheduled(p, s, key + key) == Scheduled(p, s, key)
  {
    hide Mixed, Chain;
    forall i | 0 <= i < 72 ensures KeyByte(key + key, i) == KeyByte(key, i) {
      DoubleIndex(i, |key|);
    }
    SameMixIff(p, key + key, key);
  }

  lemma DoubleIndex(i: nat, n: nat)
    requires n > 0
    ensures i % (2 * n) < n ==> i % (2 * n) == i % n
    ensures i % (2 * n) >= n ==> i % (2 * n) - n == i % n
  {
    var q, r := i / (2 * n), i % (2 * n);
    assert i == n * (2 * q) + r && n * (2 * q + 1) == n * (2 * q) + n;
    if r < n {
      ModUnique(i, n, 2 * q, r);
    } else {
      ModUnique(i, n, 2 * q + 1, r - n);
    }
  }

  // --- the code ---

  // The bytes of P entry `x`; `y` runs through the key and wraps.
  method NextWord(key: seq<bv8>, keylen: nat, y: nat, ghost x: nat) returns (A: Word, y': nat)
    requires 8 <= keylen <= 56 && keylen <= |key| && y == 4 * x % keylen
    ensures A == KeyWord(key[..keylen], x) && y' == (4 * x + 4) % keylen
  {
    hide Shifted, KeyWord, Load32H;
    A, y' := 0, y;
    var z := 0;
    ghost var used := key[..keylen];
    while z < 4
      invariant z <= 4 && y' == (4 * x + z) % keylen && A == Joined(used, x, z)
    {
      A := Shifted(A, key[y']);
      StepIndex(4 * x + z, keylen);
      y' := y' + 1;
      if y' == keylen { y' := 0; }
      z := z + 1;
    }
    JoinedIsWord(used, x);
  }

  function Joined(key: seq<bv8>, x: nat, z: nat): Word
    requires key != []
  {
    if z == 0 then 0 else Shifted(Joined(key, x, z - 1), KeyByte(key, 4 * x + z - 1))
  }

  lemma JoinedIsWord(key: seq<bv8>, x: nat)
    requires key != []
    ensures Joined(key, x, 4) == KeyWord(key, x)
  {
    hide Shifted, KeyByte, Join32;
    JoinShifts(KeyByte(key, 4 * x), KeyByte(key, 4 * x + 1), KeyByte(key, 4 * x + 2), KeyByte(key, 4 * x + 3));
    assert Joined(key, x, 1) == Shifted(0, KeyByte(key, 4 * x));
    assert Joined(key, x, 2) == Shifted(Joined(key, x, 1), KeyByte(key, 4 * x + 1));
    assert Joined(key, x, 3) == Shifted(Joined(key, x, 2), KeyByte(key, 4 * x + 2));
  }

  lemma JoinShifts(b3: bv8, b2: bv8, b1: bv8, b0: bv8)
    ensures Shifted(Shifted(Shifted(Shifted(0, b3), b2), b1), b0) == Join32(b3, b2, b1, b0)
  {
    FourShifts(b3, b2, b1, b0);
  }

  lemma StepIndex(i: nat, n: nat)
    requires n > 0
    ensures (i + 1) % n == if i % n + 1 == n then 0 else i % n + 1
  {
    var q, r := i / n, i % n;
    assert n * (q + 1) == n * q + n;
    if r + 1 == n {
      ModUnique(i + 1, n, q + 1, 0);
    } else {
      ModUnique(i + 1, n, q, r + 1);
    }
  }

  // Overwrites two words of a table with the encryption of the running block.
  method Feed(skey: Schedule, B: array<bv8>, ghost j: nat, ghost c: State)
    requires skey.Valid() && B.Length == 8 && j < 521 && c.Valid()
    requires skey.K[..] == c.t[..18] && skey.S[..] == c.t[18..] && B[..] == ToBytes(c.h)
    modifies B
    ensures B[..] == ToBytes(Step(c, j).h)
  {
    hide Crypt, ToBytes, FromBytes;
    BytesRoundTrip(c.h, B[..]);
    skey.Encrypt(B, B);
  }

  // blowfish_setup.  The tables are untouched when the key length or the round count is
  // refused.
  method Setup(P: seq<Word>, T: seq<Word>, key: seq<bv8>, keylen: int, num_rounds: int, skey: Schedule)
    returns (status: Status)
    requires |P| == 18 && |T| == 1024 && skey.Valid()
    requires 8 <= keylen <= 56 ==> keylen <= |key|
    modifies skey.K, skey.S
    ensures status == if keylen < 8 || keylen > 56 then InvalidKeysize
                      else if num_rounds != 0 && num_rounds != 16 then InvalidRounds else CryptOk
    ensures status != CryptOk ==> skey.K[..] == old(skey.K[..]) && skey.S[..] == old(skey.S[..])
    ensures status == CryptOk ==> skey.K[..] + skey.S[..] == Scheduled(P, T, key[..keylen])
    ensures status == CryptOk ==>
      forall j :: 0 <= j < 521 ==> Fed(Mixed(P, key[..keylen]) + T, skey.K[..] + skey.S[..], j)
  {
    hide Mixed, Chain, Fed;
    if keylen < 8 || keylen > 56 { return InvalidKeysize; }
    if num_rounds != 0 && num_rounds != 16 { return InvalidRounds; }
    LoadKey(P, key, keylen, skey.K);
    label Loaded:
    // copy sboxes
    forall i | 0 <= i < 1024 {
      skey.S[i] := T[i];
    }
    assert skey.K[..] == old@Loaded(skey.K[..]);
    assert skey.S[..] == T && skey.K[..] == Mixed(P, key[..keylen]);
    FeedTables(skey, Mixed(P, key[..keylen]) + T);
    forall j | 0 <= j < 521 ensures Fed(Mixed(P, key[..keylen]) + T, skey.K[..] + skey.S[..], j) {
      ChainFed(Mixed(P, key[..keylen]) + T, j);
    }
    return CryptOk;
  }

  // load in key bytes
  method LoadKey(P: seq<Word>, key: seq<bv8>, keylen: nat, K: array<Word>)
    requires |P| == 18 && K.Length == 18 && 8 <= keylen <= 56 && keylen <= |key|
    modifies K
    ensures K[..] == Mixed(P, key[..keylen])
  {
    hide KeyWord;
    var x, y := 0, 0;
    while x < 18
      invariant x <= 18 && y == 4 * x % keylen
      invariant forall i :: 0 <= i < x ==> K[i] == Xor(P[i], KeyWord(key[..keylen], i))
    {
      var A;
      A, y := NextWord(key, keylen, y, x);
      K[x] := Xor(P[x], A);
      x := x + 1;
    }
  }

  // encrypt K array, then encrypt S array
  method FeedTables(skey: Schedule, ghost t: seq<Word>)
    requires skey.Valid() && skey.K[..] + skey.S[..] == t
    modifies skey.K, skey.S
    ensures skey.K[..] + skey.S[..] == Chain(t, 521).t
  {
    hide Crypt, ToBytes, FromBytes, Step;
    var K, S := skey.K, skey.S;
    var B := new bv8[8](_ => 0);
    ghost var j: nat := 0;
    ZeroBlock(B[..]);
    var x := 0;
    while x < 18
      invariant 0 <= x <= 18 && x == 2 * j
      invariant K[..] + S[..] == Chain(t, j).t && B[..] == ToBytes(Chain(t, j).h)
    {
      ghost var c := Chain(t, j);
      Feed(skey, B, j, c);
      StepWrites(c, j);
      Rows(K[..], S[..], 2 * j, Step(c, j).h);
      CopyHalves(K, x, B, Step(c, j).h);
      x, j := x + 2, j + 1;
    }
    x := 0;
    while x < 4
      invariant 0 <= x <= 4 && j == 9 + 128 * x
      invariant K[..] + S[..] == Chain(t, j).t && B[..] == ToBytes(Chain(t, j).h)
    {
      var y := 0;
      while y < 256
        invariant 0 <= y <= 256 && 2 * j == 18 + 256 * x + y
        invariant K[..] + S[..] == Chain(t, j).t && B[..] == ToBytes(Chain(t, j).h)
      {
        ghost var c := Chain(t, j);
        Feed(skey, B, j, c);
        StepWrites(c, j);
        Rows(K[..], S[..], 2 * j, Step(c, j).h);
        CopyHalves(S, 256 * x + y, B, Step(c, j).h);
        y, j := y + 2, j + 1;
      }
      x := x + 1;
    }
  }

  // copy it
  method CopyHalves(a: array<Word>, i: nat, B: array<bv8>, ghost h: Halves)
    requires i + 2 <= a.Length && B.Length == 8 && B[..] == ToBytes(h)
    modifies a
    ensures a[..] == old(a[..])[i := h.l][i + 1 := h.r]
  {
    hide Load32H, ToBytes;
    BytesRoundTrip(h, B[..]);
    assert B[..][..4] == B[..4] && B[..][4..] == B[4..];
    a[i] := Load32H(B[..4]);
    a[i + 1] := Load32H(B[4..]);
  }

  lemma StepWrites(c: State, j: nat)
    requires c.Valid() && j < 521
    ensures Step(c, j).t == c.t[2 * j := Step(c, j).h.l][2 * j + 1 := Step(c, j).h.r]
  {
    hide Crypt;
  }

  // Writing a pair in one of the tables is writing it in the row of both.
  lemma Rows(k: seq<Word>, s: seq<Word>, i: nat, h: Halves)
    requires |k| == 18 && |s| == 1024 && i % 2 == 0 && i < 1042
    ensures i < 18 ==> k[i := h.l][i + 1 := h.r] + s == (k + s)[i := h.l][i + 1 := h.r]
    ensures i >= 18 ==> k + s[i - 18 := h.l][i - 17 := h.r] == (k + s)[i := h.l][i + 1 := h.r]
  {
  }

  lemma ZeroBlock(b: seq<bv8>)
    requires |b| == 8 && forall i :: 0 <= i < 8 ==> b[i] == 0
    ensures b == ToBytes(Halves(0, 0))
  {
    assert Store32H(0) == [0, 0, 0, 0];
  }
}
