/**
 SHA-512 end to end: init, any sequence of process calls and done, against the hash of
 the whole message in FIPS 180-4.
 */
module Sha512Hash {
  import opened Shared
  import opened Words
  import opened HashStream
  import opened Sha512
  import Tables = Sha512Tables

  // The compression function for the streaming loop; it is only used on 8 words and a
  // block of 128 bytes.
  function Compress(s: seq<bv64>, block: seq<bv8>): seq<bv64> {
    if |s| == 8 && |block| == 128 && |Tables.K| == 80 then Compressed(s, block, Tables.K) else s
  }

  // Either form of sha512_compress computes it.
  method CompressBlock(s: seq<bv64>, block: seq<bv8>, small: bool) returns (r: seq<bv64>)
    requires |s| == 8 && |block| == 128
    ensures r == Compress(s, block)
  {
    hide Compressed;
    var state := new bv64[8](i requires 0 <= i < 8 => s[i]);
    assert state[..] == s;
    if small {
      CompressSmall(state, block, Tables.K);
    } else {
      CompressUnrolled(state, block, Tables.K);
    }
    r := state[..];
  }

  // Section 5.1.2 of FIPS 180-4: 0x80, zeros, and the bit length in 128 bits.
  function FipsPadded(msg: seq<bv8>): seq<bv8> {
    Padded(msg, 112, 128, BigEndian(8 * |msg|, 16))
  }

  function Output(s: seq<bv64>): seq<bv8> {
    if s == [] then [] else Output(s[..|s| - 1]) + Store64H(s[|s| - 1])
  }

  // Sections 6.4.1 and 6.4.2 of FIPS 180-4.
  function FipsHash(msg: seq<bv8>): seq<bv8> {
    Output(Fold(Compress, 128, Tables.IV, FipsPadded(msg)))
  }

  // What the code pads with: eight zero bytes and a 64-bit counter.
  function CodePadded(msg: seq<bv8>): seq<bv8> {
    Padded(msg, 112, 128, Zeros(8) + StoreCountH(Bits(|msg|)))
  }

  // sha512_init, sha512_process for every chunk, sha512_done.
  method Hash(chunks: seq<seq<bv8>>) returns (out: seq<bv8>)
    ensures out == Output(Fold(Compress, 128, Tables.IV, CodePadded(Flatten(chunks))))
    ensures 8 * |Flatten(chunks)| < TWO64 ==> out == FipsHash(Flatten(chunks))
  {
    hide Fold, Padded, Output, TWO64, Bits, Zeros, StoreCountH, Compress, Tables.K, Tables.IV;
    var words := HashChunks(Compress, Tables.IV, 128, 112, 120, StoreCountH, chunks);
    if 8 * |Flatten(chunks)| < TWO64 {
      assert TWO64 > 0;
      PaddingAgrees(Flatten(chunks));
    }
    out := StoreWords(words);
  }

  // copy output
  method StoreWords(words: seq<bv64>) returns (out: seq<bv8>)
    ensures out == Output(words)
  {
    hide Store64H;
    out := [];
    var i := 0;
    assert words[..0] == [];
    while i < |words|
      invariant i <= |words| && out == Output(words[..i])
    {
      out := out + Store64H(words[i]);
      OutputStep(words, i);
      i := i + 1;
    }
    assert words[..i] == words;
  }

  lemma OutputStep(s: seq<bv64>, i: nat)
    requires i < |s|
    ensures Output(s[..i + 1]) == Output(s[..i]) + Store64H(s[i])
  {
    assert s[..i + 1][..i] == s[..i];
  }

  // --- the length field ---

  function High(n: nat, d: nat): nat
    requires d > 0
  {
    n / d
  }

  lemma {:induction false} BigEndianSplit(n: nat, hi: nat, lo: nat)
    ensures BigEndian(n, hi + lo) == BigEndian(High(n, Power256(lo)), hi) + BigEndian(n, lo)
    decreases lo
  {
    if lo > 0 {
      BigEndianSplit(n / 256, hi, lo - 1);
      DivDiv(n, Power256(lo - 1));
    }
  }

  lemma DivDiv(n: nat, p: nat)
    requires p > 0
    ensures n / 256 / p == n / (256 * p)
  {
    ModSplit(n, p);
    var a, b := n / 256 / p, n / (256 * p);
    assert n == 256 * (p * a + n / 256 % p) + n % 256;
    assert n == (256 * p) * b + n % (256 * p);
    assert (256 * p) * a == 256 * (p * a);
    SameFactor(256 * p, a, b);
  }

  lemma SameFactor(d: nat, a: nat, b: nat)
    requires d > 0 && d * a == d * b
    ensures a == b
  {
    SmallMultiple(d, a - b);
  }

  lemma {:induction false} LowBytes(n: nat, width: nat)
    ensures BigEndian(n % Power256(width), width) == BigEndian(n, width)
  {
    if width > 0 {
      var p := Power256(width - 1);
      LowBytes(n / 256, width - 1);
      ModSplit(n, p);
      var m := n % (256 * p);
      assert m / 256 == n / 256 % p && m % 256 == n % 256;
    }
  }

  lemma {:induction false} ZerosAreBigEndian(width: nat)
    ensures Zeros(width) == BigEndian(0, width)
  {
    if width > 0 {
      ZerosAreBigEndian(width - 1);
    }
  }

  // The code's length field is the standard's exactly for messages below 2^64 bits.
  lemma FieldAgrees(n: nat)
    requires n < TWO64 * TWO64
    ensures Zeros(8) + StoreCountH(n % TWO64) == BigEndian(n, 16) <==> n < TWO64
  {
    hide TWO64, BigEndian, StoreCountH, Power256, Zeros;
    EightBytes();
    CountIsBigEndian(n % TWO64);
    LowBytes(n, 8);
    BigEndianSplit(n, 8, 8);
    ZerosAreBigEndian(8);
    BigEndianValue(n / TWO64, 8);
    BigEndianValue(0, 8);
    HighPart(n, TWO64);
    if BigEndian(0, 8) + BigEndian(n, 8) == BigEndian(n / TWO64, 8) + BigEndian(n, 8) {
      assert BigEndian(0, 8) == (BigEndian(0, 8) + BigEndian(n, 8))[..8] == BigEndian(n / TWO64, 8);
    }
  }

  lemma HighPart(n: nat, d: nat)
    requires d > 0 && n < d * d
    ensures n / d < d && (n / d == 0 <==> n < d) && n / d % d == n / d && 0 % d == 0
  {
    assert d * (d - n / d) == d * d - n + n % d;
    PositiveFactor(d, d - n / d);
    if n < d {
      SmallMod(n, d);
      assert d * (n / d) == 0;
      SmallMultiple(d, n / d);
    }
    SmallMod(n / d, d);
    SmallMod(0, d);
  }

  lemma PositiveFactor(d: nat, c: int)
    requires d * c > 0
    ensures c > 0
  {
  }

  lemma PaddingAgrees(msg: seq<bv8>)
    requires 8 * |msg| < TWO64 * TWO64
    ensures CodePadded(msg) == FipsPadded(msg) <==> 8 * |msg| < TWO64
  {
    hide TWO64, Zeros, StoreCountH, BigEndian, ZeroCount;
    FieldAgrees(8 * |msg|);
    var head := msg + [0x80] + Zeros(ZeroCount(|msg|, 112, 128));
    var a, b := Zeros(8) + StoreCountH(Bits(|msg|)), BigEndian(8 * |msg|, 16);
    assert CodePadded(msg) == head + a && FipsPadded(msg) == head + b;
    assert (head + a)[|head|..] == a && (head + b)[|head|..] == b;
  }
}
