/**
 MD4 (src/modules/crypto/md4.c): the unrolled compression function against the steps of
 section 3.4 of RFC 1320.
 */
module Md4 {
  import opened BitLogic
  import opened MdState
  import opened Words

  // --- RFC 1320 ---

  // The function of step `i`.
  function RfcFunction(i: nat, x: bv32, y: bv32, z: bv32): bv32 {
    if i < 16 then RfcF(x, y, z) else if i < 32 then Rfc1320G(x, y, z) else RfcH(x, y, z)
  }

  // The message word of step `i`.
  function WordOrder(i: nat): (k: nat)
    ensures k < 16
  {
    var j := i % 16;
    if i < 16 then j
    else if i < 32 then 4 * (j % 4) + j / 4
    else
      match j
      case 0 => 0
      case 1 => 8
      case 2 => 4
      case 3 => 12
      case 4 => 2
      case 5 => 10
      case 6 => 6
      case 7 => 14
      case 8 => 1
      case 9 => 9
      case 10 => 5
      case 11 => 13
      case 12 => 3
      case 13 => 11
      case 14 => 7
      case _ => 15
  }

  // The rotation of step `i`.
  function Rotation(i: nat): (s: bv8)
    ensures 0 < s < 32
  {
    var j := i % 4;
    if i < 16 then (if j == 0 then 3 else if j == 1 then 7 else if j == 2 then 11 else 19)
    else if i < 32 then (if j == 0 then 3 else if j == 1 then 5 else if j == 2 then 9 else 13)
    else (if j == 0 then 3 else if j == 1 then 9 else if j == 2 then 11 else 15)
  }

  // What step `i` adds to the variable: rounds 2 and 3 have a constant.
  function Addend(i: nat, f: bv32, x: bv32): bv32 {
    if i < 16 then Add(f, x) else if i < 32 then Add(Add(f, x), 0x5a827999) else Add(Add(f, x), 0x6ed9eba1)
  }

  // Step `i`; the variables then change places.
  function Step(q: Quad, block: seq<bv8>, i: nat): Quad
    requires |block| == 64 && i < 48
  {
    var sum := Add(q.a, Addend(i, RfcFunction(i, q.b, q.c, q.d), Word(block, WordOrder(i))));
    Quad(q.d, Rol32(sum, Rotation(i)), q.b, q.c)
  }

  function Steps(q: Quad, block: seq<bv8>, n: nat): Quad
    requires |block| == 64 && n <= 48
  {
    if n == 0 then q else Step(Steps(q, block, n - 1), block, n - 1)
  }

  // One block: 48 steps from the chaining words, added back to them.
  function Compressed(s: seq<bv32>, block: seq<bv8>): (r: seq<bv32>)
    requires |s| == 4 && |block| == 64
    ensures |r| == 4
  {
    Fed(s, Steps(ToQuad(s), block, 48))
  }

  // --- the macros of the source ---

  function FF(a: bv32, b: bv32, c: bv32, d: bv32, x: bv32, s: bv8): bv32
    requires 0 < s < 32
  {
    Rol32(Add(a, Add(F(b, c, d), x)), s)
  }

  function GG(a: bv32, b: bv32, c: bv32, d: bv32, x: bv32, s: bv8): bv32
    requires 0 < s < 32
  {
    Rol32(Add(a, Add(Add(Md4G(b, c, d), x), 0x5a827999)), s)
  }

  function HH(a: bv32, b: bv32, c: bv32, d: bv32, x: bv32, s: bv8): bv32
    requires 0 < s < 32
  {
    Rol32(Add(a, Add(Add(RfcH(b, c, d), x), 0x6ed9eba1)), s)
  }

  // The macro that the source uses in step `i`.
  function Macro(i: nat, a: bv32, b: bv32, c: bv32, d: bv32, x: bv32, s: bv8): bv32
    requires 0 < s < 32
  {
    if i < 16 then FF(a, b, c, d, x, s) else if i < 32 then GG(a, b, c, d, x, s) else HH(a, b, c, d, x, s)
  }

  lemma MacroStep(q: Quad, block: seq<bv8>, i: nat)
    requires |block| == 64 && i < 48
    ensures Step(q, block, i)
         == Quad(q.d, Macro(i, q.a, q.b, q.c, q.d, Word(block, WordOrder(i)), Rotation(i)), q.b, q.c)
  {
    hide Add, Word, Rol32, RfcF, Rfc1320G, RfcH, F, Md4G, WordOrder, Rotation;
    FSame(q.b, q.c, q.d);
    Md4GSame(q.b, q.c, q.d);
  }

  // --- md4_compress ---

  // Four steps bring every variable back to its name.
  lemma FourSteps(q: Quad, block: seq<bv8>, i: nat, a: bv32, b: bv32, c: bv32, d: bv32)
    requires |block| == 64 && i + 4 <= 48
    requires var p := Steps(q, block, i);
      && a == Macro(i, p.a, p.b, p.c, p.d, Word(block, WordOrder(i)), Rotation(i))
      && d == Macro(i + 1, p.d, a, p.b, p.c, Word(block, WordOrder(i + 1)), Rotation(i + 1))
      && c == Macro(i + 2, p.c, d, a, p.b, Word(block, WordOrder(i + 2)), Rotation(i + 2))
      && b == Macro(i + 3, p.b, c, d, a, Word(block, WordOrder(i + 3)), Rotation(i + 3))
    ensures Steps(q, block, i + 4) == Quad(a, b, c, d)
  {
    hide Macro, Word, WordOrder, Rotation, Step;
    var p := Steps(q, block, i);
    MacroStep(p, block, i);
    var p1 := Quad(p.d, a, p.b, p.c);
    assert Steps(q, block, i + 1) == p1;
    MacroStep(p1, block, i + 1);
    var p2 := Quad(p.c, d, a, p.b);
    assert Steps(q, block, i + 2) == p2;
    MacroStep(p2, block, i + 2);
    var p3 := Quad(p.b, c, d, a);
    assert Steps(q, block, i + 3) == p3;
    MacroStep(p3, block, i + 3);
  }

  lemma FourFF(q: Quad, block: seq<bv8>, i: nat, p: Quad, a: bv32, b: bv32, c: bv32, d: bv32)
    requires |block| == 64 && 0 <= i <= 12 && i % 4 == 0 && p == Steps(q, block, i)
    requires a == FF(p.a, p.b, p.c, p.d, Word(block, WordOrder(i)), 3)
    requires d == FF(p.d, a, p.b, p.c, Word(block, WordOrder(i + 1)), 7)
    requires c == FF(p.c, d, a, p.b, Word(block, WordOrder(i + 2)), 11)
    requires b == FF(p.b, c, d, a, Word(block, WordOrder(i + 3)), 19)
    ensures Steps(q, block, i + 4) == Quad(a, b, c, d)
  {
    hide Steps, Word, WordOrder, FF, GG, HH;
    FourSteps(q, block, i, a, b, c, d);
  }

  lemma FourGG(q: Quad, block: seq<bv8>, i: nat, p: Quad, a: bv32, b: bv32, c: bv32, d: bv32)
    requires |block| == 64 && 16 <= i <= 28 && i % 4 == 0 && p == Steps(q, block, i)
    requires a == GG(p.a, p.b, p.c, p.d, Word(block, WordOrder(i)), 3)
    requires d == GG(p.d, a, p.b, p.c, Word(block, WordOrder(i + 1)), 5)
    requires c == GG(p.c, d, a, p.b, Word(block, WordOrder(i + 2)), 9)
    requires b == GG(p.b, c, d, a, Word(block, WordOrder(i + 3)), 13)
    ensures Steps(q, block, i + 4) == Quad(a, b, c, d)
  {
    hide Steps, Word, WordOrder, FF, GG, HH;
    FourSteps(q, block, i, a, b, c, d);
  }

  lemma FourHH(q: Quad, block: seq<bv8>, i: nat, p: Quad, a: bv32, b: bv32, c: bv32, d: bv32)
    requires |block| == 64 && 32 <= i <= 44 && i % 4 == 0 && p == Steps(q, block, i)
    requires a == HH(p.a, p.b, p.c, p.d, Word(block, WordOrder(i)), 3)
    requires d == HH(p.d, a, p.b, p.c, Word(block, WordOrder(i + 1)), 9)
    requires c == HH(p.c, d, a, p.b, Word(block, WordOrder(i + 2)), 11)
    requires b == HH(p.b, c, d, a, Word(block, WordOrder(i + 3)), 15)
    ensures Steps(q, block, i + 4) == Quad(a, b, c, d)
  {
    hide Steps, Word, WordOrder, FF, GG, HH;
    FourSteps(q, block, i, a, b, c, d);
  }

  // The message words in the order the unrolled steps name them.
  lemma Words1()
    ensures WordOrder(0) == 0 && WordOrder(1) == 1 && WordOrder(2) == 2 && WordOrder(3) == 3
    ensures WordOrder(4) == 4 && WordOrder(5) == 5 && WordOrder(6) == 6 && WordOrder(7) == 7
    ensures WordOrder(8) == 8 && WordOrder(9) == 9 && WordOrder(10) == 10 && WordOrder(11) == 11
    ensures WordOrder(12) == 12 && WordOrder(13) == 13 && WordOrder(14) == 14 && WordOrder(15) == 15
  {
  }

  lemma Words2()
    ensures WordOrder(16) == 0 && WordOrder(17) == 4 && WordOrder(18) == 8 && WordOrder(19) == 12
    ensures WordOrder(20) == 1 && WordOrder(21) == 5 && WordOrder(22) == 9 && WordOrder(23) == 13
    ensures WordOrder(24) == 2 && WordOrder(25) == 6 && WordOrder(26) == 10 && WordOrder(27) == 14
    ensures WordOrder(28) == 3 && WordOrder(29) == 7 && WordOrder(30) == 11 && WordOrder(31) == 15
  {
  }

  lemma Words3()
    ensures WordOrder(32) == 0 && WordOrder(33) == 8 && WordOrder(34) == 4 && WordOrder(35) == 12
    ensures WordOrder(36) == 2 && WordOrder(37) == 10 && WordOrder(38) == 6 && WordOrder(39) == 14
    ensures WordOrder(40) == 1 && WordOrder(41) == 9 && WordOrder(42) == 5 && WordOrder(43) == 13
    ensures WordOrder(44) == 3 && WordOrder(45) == 11 && WordOrder(46) == 7 && WordOrder(47) == 15
  {
  }

  // Round 1.
  method FirstRound(x: seq<bv32>, p: Quad, ghost q: Quad, ghost block: seq<bv8>) returns (r: Quad)
    requires |x| == 16 && |block| == 64 && p == Steps(q, block, 0)
    requires forall t :: 0 <= t < 16 ==> x[t] == Word(block, t)
    ensures r == Steps(q, block, 16)
  {
    hide Word, WordOrder, FF, GG, HH, Steps;
    Words1();
    var a, b, c, d := p.a, p.b, p.c, p.d;
    ghost var p0 := p;
    a := FF(a, b, c, d, x[0], 3);
    d := FF(d, a, b, c, x[1], 7);
    c := FF(c, d, a, b, x[2], 11);
    b := FF(b, c, d, a, x[3], 19);
    FourFF(q, block, 0, p0, a, b, c, d);
    p0 := Quad(a, b, c, d);
    a := FF(a, b, c, d, x[4], 3);
    d := FF(d, a, b, c, x[5], 7);
    c := FF(c, d, a, b, x[6], 11);
    b := FF(b, c, d, a, x[7], 19);
    FourFF(q, block, 4, p0, a, b, c, d);
    p0 := Quad(a, b, c, d);
    a := FF(a, b, c, d, x[8], 3);
    d := FF(d, a, b, c, x[9], 7);
    c := FF(c, d, a, b, x[10], 11);
    b := FF(b, c, d, a, x[11], 19);
    FourFF(q, block, 8, p0, a, b, c, d);
    p0 := Quad(a, b, c, d);
    a := FF(a, b, c, d, x[12], 3);
    d := FF(d, a, b, c, x[13], 7);
    c := FF(c, d, a, b, x[14], 11);
    b := FF(b, c, d, a, x[15], 19);
    FourFF(q, block, 12, p0, a, b, c, d);
    r := Quad(a, b, c, d);
  }

  // Round 2.
  method SecondRound(x: seq<bv32>, p: Quad, ghost q: Quad, ghost block: seq<bv8>) returns (r: Quad)
    requires |x| == 16 && |block| == 64 && p == Steps(q, block, 16)
    requires forall t :: 0 <= t < 16 ==> x[t] == Word(block, t)
    ensures r == Steps(q, block, 32)
  {
    hide Word, WordOrder, FF, GG, HH, Steps;
    Words2();
    var a, b, c, d := p.a, p.b, p.c, p.d;
    ghost var p0 := p;
    a := GG(a, b, c, d, x[0], 3);
    d := GG(d, a, b, c, x[4], 5);
    c := GG(c, d, a, b, x[8], 9);
    b := GG(b, c, d, a, x[12], 13);
    FourGG(q, block, 16, p0, a, b, c, d);
    p0 := Quad(a, b, c, d);
    a := GG(a, b, c, d, x[1], 3);
    d := GG(d, a, b, c, x[5], 5);
    c := GG(c, d, a, b, x[9], 9);
    b := GG(b, c, d, a, x[13], 13);
    FourGG(q, block, 20, p0, a, b, c, d);
    p0 := Quad(a, b, c, d);
    a := GG(a, b, c, d, x[2], 3);
    d := GG(d, a, b, c, x[6], 5);
    c := GG(c, d, a, b, x[10], 9);
    b := GG(b, c, d, a, x[14], 13);
    FourGG(q, block, 24, p0, a, b, c, d);
    p0 := Quad(a, b, c, d);
    a := GG(a, b, c, d, x[3], 3);
    d := GG(d, a, b, c, x[7], 5);
    c := GG(c, d, a, b, x[11], 9);
    b := GG(b, c, d, a, x[15], 13);
    FourGG(q, block, 28, p0, a, b, c, d);
    r := Quad(a, b, c, d);
  }

  // Round 3.
  method ThirdRound(x: seq<bv32>, p: Quad, ghost q: Quad, ghost block: seq<bv8>) returns (r: Quad)
    requires |x| == 16 && |block| == 64 && p == Steps(q, block, 32)
    requires forall t :: 0 <= t < 16 ==> x[t] == Word(block, t)
    ensures r == Steps(q, block, 48)
  {
    hide Word, WordOrder, FF, GG, HH, Steps;
    Words3();
    var a, b, c, d := p.a, p.b, p.c, p.d;
    ghost var p0 := p;
    a := HH(a, b, c, d, x[0], 3);
    d := HH(d, a, b, c, x[8], 9);
    c := HH(c, d, a, b, x[4], 11);
    b := HH(b, c, d, a, x[12], 15);
    FourHH(q, block, 32, p0, a, b, c, d);
    p0 := Quad(a, b, c, d);
    a := HH(a, b, c, d, x[2], 3);
    d := HH(d, a, b, c, x[10], 9);
    c := HH(c, d, a, b, x[6], 11);
    b := HH(b, c, d, a, x[14], 15);
    FourHH(q, block, 36, p0, a, b, c, d);
    p0 := Quad(a, b, c, d);
    a := HH(a, b, c, d, x[1], 3);
    d := HH(d, a, b, c, x[9], 9);
    c := HH(c, d, a, b, x[5], 11);
    b := HH(b, c, d, a, x[13], 15);
    FourHH(q, block, 40, p0, a, b, c, d);
    p0 := Quad(a, b, c, d);
    a := HH(a, b, c, d, x[3], 3);
    d := HH(d, a, b, c, x[11], 9);
    c := HH(c, d, a, b, x[7], 11);
    b := HH(b, c, d, a, x[15], 15);
    FourHH(q, block, 44, p0, a, b, c, d);
    r := Quad(a, b, c, d);
  }

  method Compress(state: array<bv32>, buf: seq<bv8>)
    requires state.Length == 4 && |buf| == 64
    modifies state
    ensures state[..] == Compressed(old(state[..]), buf)
  {
    hide Add, Word, Step;
    var q := Quad(state[0], state[1], state[2], state[3]);
    assert q == ToQuad(state[..]);
    var x := LoadWords(buf);
    var w := x[..];
    var r := FirstRound(w, q, q, buf);
    r := SecondRound(w, r, q, buf);
    r := ThirdRound(w, r, q, buf);
    Feedback(state, r);
  }
}
