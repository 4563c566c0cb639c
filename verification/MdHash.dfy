/**
 MD5 and MD4 end to end: init, any sequence of process calls and done, against the hash of
 the whole message in RFC 1321 and RFC 1320.
 */
module MdHash {
  import opened Shared
  import opened Words
  import opened HashStream
  import Md4
  import Md5
  import Tables = Md5Tables

  // The compression functions for the streaming loop; they are only used on 4 words and a
  // block of 64 bytes.
  function Compress5(s: seq<bv32>, block: seq<bv8>): seq<bv32> {
    if |s| == 4 && |block| == 64 && |Tables.KORDER| == 64 then Md5.Compressed(s, block, Tables.KORDER) else s
  }

  function Compress4(s: seq<bv32>, block: seq<bv8>): seq<bv32> {
    if |s| == 4 && |block| == 64 then Md4.Compressed(s, block) else s
  }

  // The forms of md5_compress, and md4_compress, compute them.
  method CompressBlock5(s: seq<bv32>, block: seq<bv8>, small: bool) returns (r: seq<bv32>)
    requires |s| == 4 && |block| == 64
    ensures r == Compress5(s, block)
  {
    hide Md5.Compressed;
    var state := new bv32[4](i requires 0 <= i < 4 => s[i]);
    assert state[..] == s;
    if small {
      Md5.CompressSmall(state, block, Tables.KORDER);
    } else {
      Md5.CompressUnrolled(state, block, Tables.KORDER);
    }
    r := state[..];
  }

  method CompressBlock4(s: seq<bv32>, block: seq<bv8>) returns (r: seq<bv32>)
    requires |s| == 4 && |block| == 64
    ensures r == Compress4(s, block)
  {
    hide Md4.Compressed;
    var state := new bv32[4](i requires 0 <= i < 4 => s[i]);
    assert state[..] == s;
    Md4.Compress(state, block);
    r := state[..];
  }

  const IV: seq<bv32> := [0x67452301, 0xefcdab89, 0x98badcfe, 0x10325476]

  // Sections 3.1 and 3.2 of both: 0x80, zeros, and the low 64 bits of the bit length,
  // low-order byte first.
  function RfcPadded(msg: seq<bv8>): seq<bv8> {
    Padded(msg, 56, 64, LittleEndian(8 * |msg|, 8))
  }

  // Section 3.5: the words, low-order byte first.
  function Output(s: seq<bv32>): seq<bv8> {
    if s == [] then [] else Output(s[..|s| - 1]) + Store32L(s[|s| - 1])
  }

  function RfcHash(f: Compression<bv32>, msg: seq<bv8>): seq<bv8> {
    Output(Fold(f, 64, IV, RfcPadded(msg)))
  }

  // md5_init, md5_process for every chunk, md5_done.
  method Hash5(chunks: seq<seq<bv8>>) returns (out: seq<bv8>)
    ensures out == RfcHash(Compress5, Flatten(chunks))
  {
    hide Fold, Padded, Output, LittleEndian, Bits, Zeros, StoreCountL, Compress5, Tables.KORDER, IV;
    var words := HashChunks(Compress5, IV, 64, 56, 56, StoreCountL, chunks);
    FieldAgrees(|Flatten(chunks)|);
    out := StoreWords(words);
  }

  // md4_init, md4_process for every chunk, md4_done.
  method Hash4(chunks: seq<seq<bv8>>) returns (out: seq<bv8>)
    ensures out == RfcHash(Compress4, Flatten(chunks))
  {
    hide Fold, Padded, Output, LittleEndian, Bits, Zeros, StoreCountL, Compress4, IV;
    var words := HashChunks(Compress4, IV, 64, 56, 56, StoreCountL, chunks);
    FieldAgrees(|Flatten(chunks)|);
    out := StoreWords(words);
  }

  // copy output
  method StoreWords(words: seq<bv32>) returns (out: seq<bv8>)
    ensures out == Output(words)
  {
    hide Store32L;
    out := [];
    var i := 0;
    assert words[..0] == [];
    while i < |words|
      invariant i <= |words| && out == Output(words[..i])
    {
      out := out + Store32L(words[i]);
      assert words[..i + 1][..i] == words[..i];
      i := i + 1;
    }
    assert words[..i] == words;
  }

  // The 64-bit counter holds exactly the bytes the length field needs, for any length.
  lemma FieldAgrees(n: nat)
    ensures Zeros(0) + StoreCountL(Bits(n)) == LittleEndian(8 * n, 8)
  {
    hide LittleEndian, StoreCountL, Power256, TWO64;
    CountIsLittleEndian(Bits(n));
    LowBytes(8 * n, 8);
    EightBytes();
  }

  lemma {:induction false} LowBytes(n: nat, width: nat)
    ensures LittleEndian(n % Power256(width), width) == LittleEndian(n, width)
  {
    if width > 0 {
      var p := Power256(width - 1);
      LowBytes(n / 256, width - 1);
      ModSplit(n, p);
      var m := n % (256 * p);
      assert m / 256 == n / 256 % p && m % 256 == n % 256;
    }
  }
}
