/**
 The bitwise functions of the hashes as the sources write them, with an operation saved,
 and as their standards define them.
 */
module BitLogic {

  // --- SHA-512: section 4.1.3 of FIPS 180-4 ---

  function FipsCh(x: bv64, y: bv64, z: bv64): bv64 { (x & y) ^ (!x & z) }

  function FipsMaj(x: bv64, y: bv64, z: bv64): bv64 { (x & y) ^ (x & z) ^ (y & z) }

  function Ch(x: bv64, y: bv64, z: bv64): bv64 { z ^ (x & (y ^ z)) }

  function Maj(x: bv64, y: bv64, z: bv64): bv64 { ((x | y) & z) | (x & y) }

  lemma ChSame(x: bv64, y: bv64, z: bv64)
    ensures Ch(x, y, z) == FipsCh(x, y, z)
  {
    assert z ^ (x & (y ^ z)) == (x & y) ^ (!x & z);
  }

  lemma MajSame(x: bv64, y: bv64, z: bv64)
    ensures Maj(x, y, z) == FipsMaj(x, y, z)
  {
    assert ((x | y) & z) | (x & y) == (x & y) ^ (x & z) ^ (y & z);
  }

  // --- MD5 and MD4: section 3.4 of RFC 1321 and of RFC 1320 ---

  function RfcF(x: bv32, y: bv32, z: bv32): bv32 { (x & y) | (!x & z) }

  function Rfc1321G(x: bv32, y: bv32, z: bv32): bv32 { (x & z) | (y & !z) }

  function Rfc1320G(x: bv32, y: bv32, z: bv32): bv32 { (x & y) | (x & z) | (y & z) }

  function RfcH(x: bv32, y: bv32, z: bv32): bv32 { x ^ y ^ z }

  function Rfc1321I(x: bv32, y: bv32, z: bv32): bv32 { y ^ (x | !z) }

  function F(x: bv32, y: bv32, z: bv32): bv32 { z ^ (x & (y ^ z)) }

  function Md5G(x: bv32, y: bv32, z: bv32): bv32 { y ^ (z & (y ^ x)) }

  function Md4G(x: bv32, y: bv32, z: bv32): bv32 { (x & y) | (z & (x | y)) }

  lemma FSame(x: bv32, y: bv32, z: bv32)
    ensures F(x, y, z) == RfcF(x, y, z)
  {
    assert z ^ (x & (y ^ z)) == (x & y) | (!x & z);
  }

  lemma Md5GSame(x: bv32, y: bv32, z: bv32)
    ensures Md5G(x, y, z) == Rfc1321G(x, y, z)
  {
    assert y ^ (z & (y ^ x)) == (x & z) | (y & !z);
  }

  lemma Md4GSame(x: bv32, y: bv32, z: bv32)
    ensures Md4G(x, y, z) == Rfc1320G(x, y, z)
  {
    assert (x & y) | (z & (x | y)) == (x & y) | (x & z) | (y & z);
  }

  // Addition modulo 2^32.
  function Add(x: bv32, y: bv32): bv32 { x + y }
}
