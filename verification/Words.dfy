/**
 Bytes and machine words: the portable load, store and rotate macros of
 src/modules/crypto/tomcrypt_macros.h, with ulong32 taken as 32 bits.
 */
module Words {
  import Bytes

  // --- 32 bits ---

  // byte(x, 3) to byte(x, 0)
  function Byte3(x: bv32): bv8 { ((x >> 24) & 255) as bv8 }

  function Byte2(x: bv32): bv8 { ((x >> 16) & 255) as bv8 }

  function Byte1(x: bv32): bv8 { ((x >> 8) & 255) as bv8 }

  function Byte0(x: bv32): bv8 { (x & 255) as bv8 }

  function Store32H(x: bv32): (r: seq<bv8>)
    ensures |r| == 4
  {
    [Byte3(x), Byte2(x), Byte1(x), Byte0(x)]
  }

  function Store32L(x: bv32): (r: seq<bv8>)
    ensures |r| == 4
  {
    [Byte0(x), Byte1(x), Byte2(x), Byte3(x)]
  }

  function Join32(b3: bv8, b2: bv8, b1: bv8, b0: bv8): bv32 {
    (((b3 as bv32) << 24) | ((b2 as bv32) << 16)) | (((b1 as bv32) << 8) | (b0 as bv32))
  }

  function Load32H(b: seq<bv8>): bv32
    requires |b| == 4
  {
    Join32(b[0], b[1], b[2], b[3])
  }

  function Load32L(b: seq<bv8>): bv32
    requires |b| == 4
  {
    Join32(b[3], b[2], b[1], b[0])
  }

  lemma JoinBytes(x: bv32)
    ensures Join32(Byte3(x), Byte2(x), Byte1(x), Byte0(x)) == x
  {
  }

  lemma BytesOfJoin(b3: bv8, b2: bv8, b1: bv8, b0: bv8)
    ensures var x := Join32(b3, b2, b1, b0);
      Byte3(x) == b3 && Byte2(x) == b2 && Byte1(x) == b1 && Byte0(x) == b0
  {
  }

  // Loading and storing a word are inverse to each other, in either byte order.
  lemma LoadStore32(x: bv32, b: seq<bv8>)
    requires |b| == 4
    ensures Load32H(Store32H(x)) == x && Store32H(Load32H(b)) == b
    ensures Load32L(Store32L(x)) == x && Store32L(Load32L(b)) == b
  {
    hide Join32, Byte3, Byte2, Byte1, Byte0;
    JoinBytes(x);
    BytesOfJoin(b[0], b[1], b[2], b[3]);
    BytesOfJoin(b[3], b[2], b[1], b[0]);
  }

  // ROL, ROLc
  function Rol32(x: bv32, n: bv8): bv32
    requires 0 < n < 32
  {
    (x << n) | (x >> (32 - n))
  }

  // --- 64 bits ---

  // ROR64c
  function Ror64(x: bv64, n: bv8): bv64
    requires 0 < n < 64
  {
    (x >> n) | (x << (64 - n))
  }

  function Load64H(b: seq<bv8>): bv64
    requires |b| == 8
  {
    ((((b[0] as bv64) << 56) | ((b[1] as bv64) << 48)) | (((b[2] as bv64) << 40) | ((b[3] as bv64) << 32))) |
    ((((b[4] as bv64) << 24) | ((b[5] as bv64) << 16)) | (((b[6] as bv64) << 8) | (b[7] as bv64)))
  }

  function Store64H(x: bv64): (r: seq<bv8>)
    ensures |r| == 8
  {
    [((x >> 56) & 255) as bv8, ((x >> 48) & 255) as bv8, ((x >> 40) & 255) as bv8, ((x >> 32) & 255) as bv8,
     ((x >> 24) & 255) as bv8, ((x >> 16) & 255) as bv8, ((x >> 8) & 255) as bv8, (x & 255) as bv8]
  }

  // --- a 64-bit counter, as a number below TWO64 ---

  const TWO64: nat := 0x1_0000_0000_0000_0000

  type ulong64 = n: nat | n < TWO64

  // The bit length of `n` bytes, as the counter holds it.
  function Bits(n: nat): ulong64 { 8 * n % TWO64 }

  function Byte(n: nat): bv8 { (n % 256) as bv8 }

  // STORE64H and STORE64L on the counter.
  function StoreCountH(n: nat): (r: seq<bv8>)
    ensures |r| == 8
  {
    [Byte(n / 0x100_0000_0000_0000), Byte(n / 0x1_0000_0000_0000), Byte(n / 0x100_0000_0000), Byte(n / 0x1_0000_0000),
     Byte(n / 0x100_0000), Byte(n / 0x1_0000), Byte(n / 0x100), Byte(n)]
  }

  function StoreCountL(n: nat): (r: seq<bv8>)
    ensures |r| == 8
  {
    [Byte(n), Byte(n / 0x100), Byte(n / 0x1_0000), Byte(n / 0x100_0000),
     Byte(n / 0x1_0000_0000), Byte(n / 0x100_0000_0000), Byte(n / 0x1_0000_0000_0000), Byte(n / 0x100_0000_0000_0000)]
  }

  // The low `width` bytes of a number, most significant first.
  function BigEndian(n: nat, width: nat): (r: seq<bv8>)
    ensures |r| == width
  {
    if width == 0 then [] else BigEndian(n / 256, width - 1) + [Byte(n)]
  }

  // The low `width` bytes of a number, least significant first.
  function LittleEndian(n: nat, width: nat): (r: seq<bv8>)
    ensures |r| == width
  {
    if width == 0 then [] else [Byte(n)] + LittleEndian(n / 256, width - 1)
  }

  // The number that bytes stand for, most significant first.
  function FromBigEndian(b: seq<bv8>): nat {
    if b == [] then 0 else 256 * FromBigEndian(b[..|b| - 1]) + (b[|b| - 1] as nat)
  }

  function Power256(n: nat): (p: nat)
    ensures p > 0
  {
    if n == 0 then 1 else 256 * Power256(n - 1)
  }

  lemma ByteValue(n: nat)
    ensures (Byte(n) as nat) == n % 256
  {
    Bytes.SmallValue(n % 256);
  }

  // Writing a number that fits and reading it back.
  lemma {:induction false} BigEndianValue(n: nat, width: nat)
    ensures FromBigEndian(BigEndian(n, width)) == n % Power256(width)
  {
    if width > 0 {
      var b := BigEndian(n, width);
      assert b[..|b| - 1] == BigEndian(n / 256, width - 1);
      BigEndianValue(n / 256, width - 1);
      ByteValue(n);
      var p := Power256(width - 1);
      ModSplit(n, p);
    }
  }

  lemma ModSplit(n: nat, p: nat)
    requires p > 0
    ensures 256 * (n / 256 % p) + n % 256 == n % (256 * p)
  {
    var q, r := n / 256, n % 256;
    var a, b := q / p, q % p;
    assert q == p * a + b;
    assert n == 256 * (p * a + b) + r == (256 * p) * a + (256 * b + r);
    assert 256 * b + r < 256 * p;
    ModUnique(n, 256 * p, a, 256 * b + r);
  }

  lemma ModUnique(n: nat, d: nat, a: nat, r: nat)
    requires n == d * a + r && r < d
    ensures n % d == r
  {
    var c: int := n / d - a;
    assert d * c == r - n % d;
    SmallMultiple(d, c);
  }

  lemma SmallMultiple(d: int, c: int)
    requires -d < d * c < d
    ensures c == 0
  {
  }

  lemma CountIsBigEndian(n: nat)
    ensures StoreCountH(n) == BigEndian(n, 8)
  {
    hide Byte, BigEndian;
    BigEndianQuad(n, 4);
    BigEndianQuad(n / 0x1_0000_0000, 0);
    Quarters(n);
  }

  lemma Quarters(n: nat)
    ensures n / 0x1_0000_0000 / 0x100_0000 == n / 0x100_0000_0000_0000
    ensures n / 0x1_0000_0000 / 0x1_0000 == n / 0x1_0000_0000_0000
    ensures n / 0x1_0000_0000 / 0x100 == n / 0x100_0000_0000
  {
  }

  lemma BigEndianQuad(n: nat, width: nat)
    ensures BigEndian(n, width + 4)
         == BigEndian(n / 0x1_0000_0000, width) + [Byte(n / 0x100_0000), Byte(n / 0x1_0000), Byte(n / 0x100), Byte(n)]
  {
    hide Byte, BigEndian;
    BigEndianPair(n, width + 2);
    BigEndianPair(n / 0x1_0000, width);
    assert n / 0x1_0000 / 0x1_0000 == n / 0x1_0000_0000 && n / 0x1_0000 / 0x100 == n / 0x100_0000;
  }

  lemma BigEndianPair(n: nat, width: nat)
    ensures BigEndian(n, width + 2) == BigEndian(n / 0x1_0000, width) + [Byte(n / 0x100), Byte(n)]
  {
    hide Byte;
    assert BigEndian(n, width + 2) == BigEndian(n / 0x100, width + 1) + [Byte(n)];
    assert n / 0x100 / 0x100 == n / 0x1_0000;
  }

  lemma CountIsLittleEndian(n: nat)
    ensures StoreCountL(n) == LittleEndian(n, 8)
  {
    hide Byte, LittleEndian;
    LittleEndianQuad(n, 4);
    LittleEndianQuad(n / 0x1_0000_0000, 0);
    Quarters(n);
  }

  lemma LittleEndianQuad(n: nat, width: nat)
    ensures LittleEndian(n, width + 4)
         == [Byte(n), Byte(n / 0x100), Byte(n / 0x1_0000),
             Byte(n / 0x100_0000)] + LittleEndian(n / 0x1_0000_0000, width)
  {
    hide Byte, LittleEndian;
    LittleEndianPair(n, width + 2);
    LittleEndianPair(n / 0x1_0000, width);
    assert n / 0x1_0000 / 0x1_0000 == n / 0x1_0000_0000 && n / 0x1_0000 / 0x100 == n / 0x100_0000;
  }

  lemma LittleEndianPair(n: nat, width: nat)
    ensures LittleEndian(n, width + 2) == [Byte(n), Byte(n / 0x100)] + LittleEndian(n / 0x1_0000, width)
  {
    hide Byte;
    assert LittleEndian(n, width + 2) == [Byte(n)] + LittleEndian(n / 0x100, width + 1);
    assert n / 0x100 / 0x100 == n / 0x1_0000;
  }

  lemma EightBytes()
    ensures Power256(8) == TWO64 && Power256(16) == TWO64 * TWO64
  {
    assert Power256(4) == 0x1_0000_0000;
    assert Power256(8) == 0x1_0000_0000 * Power256(4);
    assert Power256(12) == 0x1_0000_0000 * Power256(8);
    assert Power256(16) == 0x1_0000_0000 * Power256(12);
  }
}
