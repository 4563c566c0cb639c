/**
 MD5 (src/modules/crypto/md5.c): both forms of the compression function against the steps
 of section 3.4 of RFC 1321, for any table of additive constants.
 */
module Md5 {
  import opened BitLogic
  import opened MdState
  import opened Words

  // --- RFC 1321 ---

  // The function of step `i`.
  function RfcFunction(i: nat, x: bv32, y: bv32, z: bv32): bv32 {
    if i < 16 then RfcF(x, y, z) else if i < 32 then Rfc1321G(x, y, z)
    else if i < 48 then RfcH(x, y, z) else Rfc1321I(x, y, z)
  }

  // The message word of step `i`.
  function Worder(i: nat): (k: nat)
    ensures i < 64 ==> k < 16
  {
    if i < 16 then i else if i < 32 then (5 * i + 1) % 16 else if i < 48 then (3 * i + 5) % 16 else (7 * i) % 16
  }

  // The rotation of step `i`.
  function Rorder(i: nat): (s: bv8)
    ensures 0 < s < 32
  {
    var j := i % 4;
    if i < 16 then (if j == 0 then 7 else if j == 1 then 12 else if j == 2 then 17 else 22)
    else if i < 32 then (if j == 0 then 5 else if j == 1 then 9 else if j == 2 then 14 else 20)
    else if i < 48 then (if j == 0 then 4 else if j == 1 then 11 else if j == 2 then 16 else 23)
    else (if j == 0 then 6 else if j == 1 then 10 else if j == 2 then 15 else 21)
  }

  // a + f + M + t, rotated, plus b.
  function Mixed(a: bv32, b: bv32, f: bv32, m: bv32, s: bv8, t: bv32): bv32
    requires 0 < s < 32
  {
    Add(Rol32(Add(Add(Add(a, f), m), t), s), b)
  }

  // Step `i`; the variables then change places.
  function Step(q: Quad, block: seq<bv8>, k: seq<bv32>, i: nat): Quad
    requires |block| == 64 && i < 64 && |k| == 64
  {
    Quad(q.d, Mixed(q.a, q.b, RfcFunction(i, q.b, q.c, q.d), Word(block, Worder(i)), Rorder(i), k[i]), q.b, q.c)
  }

  function Steps(q: Quad, block: seq<bv8>, k: seq<bv32>, n: nat): Quad
    requires |block| == 64 && n <= 64 && |k| == 64
  {
    if n == 0 then q else Step(Steps(q, block, k, n - 1), block, k, n - 1)
  }

  // One block: 64 steps from the chaining words, added back to them.
  function Compressed(s: seq<bv32>, block: seq<bv8>, k: seq<bv32>): (r: seq<bv32>)
    requires |s| == 4 && |block| == 64 && |k| == 64
    ensures |r| == 4
  {
    Fed(s, Steps(ToQuad(s), block, k, 64))
  }

  // --- the macros of the source ---

  function FF(a: bv32, b: bv32, c: bv32, d: bv32, m: bv32, s: bv8, t: bv32): bv32
    requires 0 < s < 32
  {
    Mixed(a, b, F(b, c, d), m, s, t)
  }

  function GG(a: bv32, b: bv32, c: bv32, d: bv32, m: bv32, s: bv8, t: bv32): bv32
    requires 0 < s < 32
  {
    Mixed(a, b, Md5G(b, c, d), m, s, t)
  }

  function HH(a: bv32, b: bv32, c: bv32, d: bv32, m: bv32, s: bv8, t: bv32): bv32
    requires 0 < s < 32
  {
    Mixed(a, b, RfcH(b, c, d), m, s, t)
  }

  function II(a: bv32, b: bv32, c: bv32, d: bv32, m: bv32, s: bv8, t: bv32): bv32
    requires 0 < s < 32
  {
    Mixed(a, b, Rfc1321I(b, c, d), m, s, t)
  }

  // The macro that the source uses in step `i`.
  function Macro(i: nat, a: bv32, b: bv32, c: bv32, d: bv32, m: bv32, s: bv8, t: bv32): bv32
    requires 0 < s < 32
  {
    if i < 16 then FF(a, b, c, d, m, s, t) else if i < 32 then GG(a, b, c, d, m, s, t)
    else if i < 48 then HH(a, b, c, d, m, s, t) else II(a, b, c, d, m, s, t)
  }

  lemma MacroStep(q: Quad, block: seq<bv8>, k: seq<bv32>, i: nat)
    requires |block| == 64 && i < 64 && |k| == 64
    ensures Step(q, block, k, i)
         == Quad(q.d, Macro(i, q.a, q.b, q.c, q.d, Word(block, Worder(i)), Rorder(i), k[i]), q.b, q.c)
  {
    hide Mixed, Word, RfcF, Rfc1321G, RfcH, Rfc1321I, F, Md5G, Worder, Rorder;
    FSame(q.b, q.c, q.d);
    Md5GSame(q.b, q.c, q.d);
  }

  // --- the two forms of md5_compress ---

  // md5_compress with LTC_SMALL_CODE: four loops of table-driven steps; the variables
  // move round after every step.
  method CompressSmall(state: array<bv32>, buf: seq<bv8>, k: seq<bv32>)
    requires state.Length == 4 && |buf| == 64 && |k| == 64
    modifies state
    ensures state[..] == Compressed(old(state[..]), buf, k)
  {
    hide Add, Word, FF, GG, HH, II, Step, Rorder;
    var W := LoadWords(buf);
    var a, b, c, d := state[0], state[1], state[2], state[3];
    ghost var q := ToQuad(state[..]);
    var i := 0;
    while i < 16
      invariant 0 <= i <= 16 && Quad(a, b, c, d) == Steps(q, buf, k, i) && state[..] == old(state[..])
      invariant forall t :: 0 <= t < 16 ==> W[t] == Word(buf, t)
    {
      MacroStep(Quad(a, b, c, d), buf, k, i);
      a := FF(a, b, c, d, W[Worder(i)], Rorder(i), k[i]);
      a, b, c, d := d, a, b, c;
      i := i + 1;
    }
    while i < 32
      invariant 16 <= i <= 32 && Quad(a, b, c, d) == Steps(q, buf, k, i) && state[..] == old(state[..])
      invariant forall t :: 0 <= t < 16 ==> W[t] == Word(buf, t)
    {
      MacroStep(Quad(a, b, c, d), buf, k, i);
      a := GG(a, b, c, d, W[Worder(i)], Rorder(i), k[i]);
      a, b, c, d := d, a, b, c;
      i := i + 1;
    }
    while i < 48
      invariant 32 <= i <= 48 && Quad(a, b, c, d) == Steps(q, buf, k, i) && state[..] == old(state[..])
      invariant forall t :: 0 <= t < 16 ==> W[t] == Word(buf, t)
    {
      MacroStep(Quad(a, b, c, d), buf, k, i);
      a := HH(a, b, c, d, W[Worder(i)], Rorder(i), k[i]);
      a, b, c, d := d, a, b, c;
      i := i + 1;
    }
    while i < 64
      invariant 48 <= i <= 64 && Quad(a, b, c, d) == Steps(q, buf, k, i) && state[..] == old(state[..])
      invariant forall t :: 0 <= t < 16 ==> W[t] == Word(buf, t)
    {
      MacroStep(Quad(a, b, c, d), buf, k, i);
      a := II(a, b, c, d, W[Worder(i)], Rorder(i), k[i]);
      a, b, c, d := d, a, b, c;
      i := i + 1;
    }
    Feedback(state, Quad(a, b, c, d));
  }

  // Four steps bring every variable back to its name.
  lemma FourSteps(q: Quad, block: seq<bv8>, k: seq<bv32>, i: nat, a: bv32, b: bv32, c: bv32, d: bv32)
    requires |block| == 64 && i + 4 <= 64 && |k| == 64
    requires var p := Steps(q, block, k, i);
      && a == Macro(i, p.a, p.b, p.c, p.d, Word(block, Worder(i)), Rorder(i), k[i])
      && d == Macro(i + 1, p.d, a, p.b, p.c, Word(block, Worder(i + 1)), Rorder(i + 1), k[i + 1])
      && c == Macro(i + 2, p.c, d, a, p.b, Word(block, Worder(i + 2)), Rorder(i + 2), k[i + 2])
      && b == Macro(i + 3, p.b, c, d, a, Word(block, Worder(i + 3)), Rorder(i + 3), k[i + 3])
    ensures Steps(q, block, k, i + 4) == Quad(a, b, c, d)
  {
    hide Macro, Word, Worder, Rorder, Step;
    var p := Steps(q, block, k, i);
    MacroStep(p, block, k, i);
    var p1 := Quad(p.d, a, p.b, p.c);
    assert Steps(q, block, k, i + 1) == p1;
    MacroStep(p1, block, k, i + 1);
    var p2 := Quad(p.c, d, a, p.b);
    assert Steps(q, block, k, i + 2) == p2;
    MacroStep(p2, block, k, i + 2);
    var p3 := Quad(p.b, c, d, a);
    assert Steps(q, block, k, i + 3) == p3;
    MacroStep(p3, block, k, i + 3);
  }

  lemma FourFF(q: Quad, block: seq<bv8>, k: seq<bv32>, i: nat, p: Quad, a: bv32, b: bv32, c: bv32, d: bv32)
    requires |block| == 64 && 0 <= i <= 12 && i % 4 == 0 && |k| == 64 && p == Steps(q, block, k, i)
    requires a == FF(p.a, p.b, p.c, p.d, Word(block, Worder(i)), 7, k[i])
    requires d == FF(p.d, a, p.b, p.c, Word(block, Worder(i + 1)), 12, k[i + 1])
    requires c == FF(p.c, d, a, p.b, Word(block, Worder(i + 2)), 17, k[i + 2])
    requires b == FF(p.b, c, d, a, Word(block, Worder(i + 3)), 22, k[i + 3])
    ensures Steps(q, block, k, i + 4) == Quad(a, b, c, d)
  {
    hide Steps, Word, Worder, FF, GG, HH, II;
    FourSteps(q, block, k, i, a, b, c, d);
  }

  lemma FourGG(q: Quad, block: seq<bv8>, k: seq<bv32>, i: nat, p: Quad, a: bv32, b: bv32, c: bv32, d: bv32)
    requires |block| == 64 && 16 <= i <= 28 && i % 4 == 0 && |k| == 64 && p == Steps(q, block, k, i)
    requires a == GG(p.a, p.b, p.c, p.d, Word(block, Worder(i)), 5, k[i])
    requires d == GG(p.d, a, p.b, p.c, Word(block, Worder(i + 1)), 9, k[i + 1])
    requires c == GG(p.c, d, a, p.b, Word(block, Worder(i + 2)), 14, k[i + 2])
    requires b == GG(p.b, c, d, a, Word(block, Worder(i + 3)), 20, k[i + 3])
    ensures Steps(q, block, k, i + 4) == Quad(a, b, c, d)
  {
    hide Steps, Word, Worder, FF, GG, HH, II;
    FourSteps(q, block, k, i, a, b, c, d);
  }

  lemma FourHH(q: Quad, block: seq<bv8>, k: seq<bv32>, i: nat, p: Quad, a: bv32, b: bv32, c: bv32, d: bv32)
    requires |block| == 64 && 32 <= i <= 44 && i % 4 == 0 && |k| == 64 && p == Steps(q, block, k, i)
    requires a == HH(p.a, p.b, p.c, p.d, Word(block, Worder(i)), 4, k[i])
    requires d == HH(p.d, a, p.b, p.c, Word(block, Worder(i + 1)), 11, k[i + 1])
    requires c == HH(p.c, d, a, p.b, Word(block, Worder(i + 2)), 16, k[i + 2])
    requires b == HH(p.b, c, d, a, Word(block, Worder(i + 3)), 23, k[i + 3])
    ensures Steps(q, block, k, i + 4) == Quad(a, b, c, d)
  {
    hide Steps, Word, Worder, FF, GG, HH, II;
    FourSteps(q, block, k, i, a, b, c, d);
  }

  lemma FourII(q: Quad, block: seq<bv8>, k: seq<bv32>, i: nat, p: Quad, a: bv32, b: bv32, c: bv32, d: bv32)
    requires |block| == 64 && 48 <= i <= 60 && i % 4 == 0 && |k| == 64 && p == Steps(q, block, k, i)
    requires a == II(p.a, p.b, p.c, p.d, Word(block, Worder(i)), 6, k[i])
    requires d == II(p.d, a, p.b, p.c, Word(block, Worder(i + 1)), 10, k[i + 1])
    requires c == II(p.c, d, a, p.b, Word(block, Worder(i + 2)), 15, k[i + 2])
    requires b == II(p.b, c, d, a, Word(block, Worder(i + 3)), 21, k[i + 3])
    ensures Steps(q, block, k, i + 4) == Quad(a, b, c, d)
  {
    hide Steps, Word, Worder, FF, GG, HH, II;
    FourSteps(q, block, k, i, a, b, c, d);
  }

  // The message words in the order the unrolled steps name them.
  lemma Words2()
    ensures Worder(16) == 1 && Worder(17) == 6 && Worder(18) == 11 && Worder(19) == 0
    ensures Worder(20) == 5 && Worder(21) == 10 && Worder(22) == 15 && Worder(23) == 4
    ensures Worder(24) == 9 && Worder(25) == 14 && Worder(26) == 3 && Worder(27) == 8
    ensures Worder(28) == 13 && Worder(29) == 2 && Worder(30) == 7 && Worder(31) == 12
  {
  }

  lemma Words3()
    ensures Worder(32) == 5 && Worder(33) == 8 && Worder(34) == 11 && Worder(35) == 14
    ensures Worder(36) == 1 && Worder(37) == 4 && Worder(38) == 7 && Worder(39) == 10
    ensures Worder(40) == 13 && Worder(41) == 0 && Worder(42) == 3 && Worder(43) == 6
    ensures Worder(44) == 9 && Worder(45) == 12 && Worder(46) == 15 && Worder(47) == 2
  {
  }

  lemma Words4()
    ensures Worder(48) == 0 && Worder(49) == 7 && Worder(50) == 14 && Worder(51) == 5
    ensures Worder(52) == 12 && Worder(53) == 3 && Worder(54) == 10 && Worder(55) == 1
    ensures Worder(56) == 8 && Worder(57) == 15 && Worder(58) == 6 && Worder(59) == 13
    ensures Worder(60) == 4 && Worder(61) == 11 && Worder(62) == 2 && Worder(63) == 9
  {
  }

  // The first sixteen unrolled steps.
  method FirstRound(W: seq<bv32>, k: seq<bv32>, p: Quad, ghost q: Quad, ghost block: seq<bv8>) returns (r: Quad)
    requires |W| == 16 && |k| == 64 && |block| == 64 && p == Steps(q, block, k, 0)
    requires forall t :: 0 <= t < 16 ==> W[t] == Word(block, t)
    ensures r == Steps(q, block, k, 16)
  {
    hide Word, FF, GG, HH, II, Steps;
    var a, b, c, d := p.a, p.b, p.c, p.d;
    ghost var p0 := p;
    a := FF(a, b, c, d, W[0], 7, k[0]);
    d := FF(d, a, b, c, W[1], 12, k[1]);
    c := FF(c, d, a, b, W[2], 17, k[2]);
    b := FF(b, c, d, a, W[3], 22, k[3]);
    FourFF(q, block, k, 0, p0, a, b, c, d);
    p0 := Quad(a, b, c, d);
    a := FF(a, b, c, d, W[4], 7, k[4]);
    d := FF(d, a, b, c, W[5], 12, k[5]);
    c := FF(c, d, a, b, W[6], 17, k[6]);
    b := FF(b, c, d, a, W[7], 22, k[7]);
    FourFF(q, block, k, 4, p0, a, b, c, d);
    p0 := Quad(a, b, c, d);
    a := FF(a, b, c, d, W[8], 7, k[8]);
    d := FF(d, a, b, c, W[9], 12, k[9]);
    c := FF(c, d, a, b, W[10], 17, k[10]);
    b := FF(b, c, d, a, W[11], 22, k[11]);
    FourFF(q, block, k, 8, p0, a, b, c, d);
    p0 := Quad(a, b, c, d);
    a := FF(a, b, c, d, W[12], 7, k[12]);
    d := FF(d, a, b, c, W[13], 12, k[13]);
    c := FF(c, d, a, b, W[14], 17, k[14]);
    b := FF(b, c, d, a, W[15], 22, k[15]);
    FourFF(q, block, k, 12, p0, a, b, c, d);
    r := Quad(a, b, c, d);
  }

  // The second sixteen unrolled steps.
  method SecondRound(W: seq<bv32>, k: seq<bv32>, p: Quad, ghost q: Quad, ghost block: seq<bv8>) returns (r: Quad)
    requires |W| == 16 && |k| == 64 && |block| == 64 && p == Steps(q, block, k, 16)
    requires forall t :: 0 <= t < 16 ==> W[t] == Word(block, t)
    ensures r == Steps(q, block, k, 32)
  {
    hide Word, Worder, FF, GG, HH, II, Steps;
    Words2();
    var a, b, c, d := p.a, p.b, p.c, p.d;
    ghost var p0 := p;
    a := GG(a, b, c, d, W[1], 5, k[16]);
    d := GG(d, a, b, c, W[6], 9, k[17]);
    c := GG(c, d, a, b, W[11], 14, k[18]);
    b := GG(b, c, d, a, W[0], 20, k[19]);
    FourGG(q, block, k, 16, p0, a, b, c, d);
    p0 := Quad(a, b, c, d);
    a := GG(a, b, c, d, W[5], 5, k[20]);
    d := GG(d, a, b, c, W[10], 9, k[21]);
    c := GG(c, d, a, b, W[15], 14, k[22]);
    b := GG(b, c, d, a, W[4], 20, k[23]);
    FourGG(q, block, k, 20, p0, a, b, c, d);
    p0 := Quad(a, b, c, d);
    a := GG(a, b, c, d, W[9], 5, k[24]);
    d := GG(d, a, b, c, W[14], 9, k[25]);
    c := GG(c, d, a, b, W[3], 14, k[26]);
    b := GG(b, c, d, a, W[8], 20, k[27]);
    FourGG(q, block, k, 24, p0, a, b, c, d);
    p0 := Quad(a, b, c, d);
    a := GG(a, b, c, d, W[13], 5, k[28]);
    d := GG(d, a, b, c, W[2], 9, k[29]);
    c := GG(c, d, a, b, W[7], 14, k[30]);
    b := GG(b, c, d, a, W[12], 20, k[31]);
    FourGG(q, block, k, 28, p0, a, b, c, d);
    r := Quad(a, b, c, d);
  }

  // The third sixteen unrolled steps.
  method ThirdRound(W: seq<bv32>, k: seq<bv32>, p: Quad, ghost q: Quad, ghost block: seq<bv8>) returns (r: Quad)
    requires |W| == 16 && |k| == 64 && |block| == 64 && p == Steps(q, block, k, 32)
    requires forall t :: 0 <= t < 16 ==> W[t] == Word(block, t)
    ensures r == Steps(q, block, k, 48)
  {
    hide Word, Worder, FF, GG, HH, II, Steps;
    Words3();
    var a, b, c, d := p.a, p.b, p.c, p.d;
    ghost var p0 := p;
    a := HH(a, b, c, d, W[5], 4, k[32]);
    d := HH(d, a, b, c, W[8], 11, k[33]);
    c := HH(c, d, a, b, W[11], 16, k[34]);
    b := HH(b, c, d, a, W[14], 23, k[35]);
    FourHH(q, block, k, 32, p0, a, b, c, d);
    p0 := Quad(a, b, c, d);
    a := HH(a, b, c, d, W[1], 4, k[36]);
    d := HH(d, a, b, c, W[4], 11, k[37]);
    c := HH(c, d, a, b, W[7], 16, k[38]);
    b := HH(b, c, d, a, W[10], 23, k[39]);
    FourHH(q, block, k, 36, p0, a, b, c, d);
    p0 := Quad(a, b, c, d);
    a := HH(a, b, c, d, W[13], 4, k[40]);
    d := HH(d, a, b, c, W[0], 11, k[41]);
    c := HH(c, d, a, b, W[3], 16, k[42]);
    b := HH(b, c, d, a, W[6], 23, k[43]);
    FourHH(q, block, k, 40, p0, a, b, c, d);
    p0 := Quad(a, b, c, d);
    a := HH(a, b, c, d, W[9], 4, k[44]);
    d := HH(d, a, b, c, W[12], 11, k[45]);
    c := HH(c, d, a, b, W[15], 16, k[46]);
    b := HH(b, c, d, a, W[2], 23, k[47]);
    FourHH(q, block, k, 44, p0, a, b, c, d);
    r := Quad(a, b, c, d);
  }

  // The fourth sixteen unrolled steps.
  method FourthRound(W: seq<bv32>, k: seq<bv32>, p: Quad, ghost q: Quad, ghost block: seq<bv8>) returns (r: Quad)
    requires |W| == 16 && |k| == 64 && |block| == 64 && p == Steps(q, block, k, 48)
    requires forall t :: 0 <= t < 16 ==> W[t] == Word(block, t)
    ensures r == Steps(q, block, k, 64)
  {
    hide Word, Worder, FF, GG, HH, II, Steps;
    Words4();
    var a, b, c, d := p.a, p.b, p.c, p.d;
    ghost var p0 := p;
    a := II(a, b, c, d, W[0], 6, k[48]);
    d := II(d, a, b, c, W[7], 10, k[49]);
    c := II(c, d, a, b, W[14], 15, k[50]);
    b := II(b, c, d, a, W[5], 21, k[51]);
    FourII(q, block, k, 48, p0, a, b, c, d);
    p0 := Quad(a, b, c, d);
    a := II(a, b, c, d, W[12], 6, k[52]);
    d := II(d, a, b, c, W[3], 10, k[53]);
    c := II(c, d, a, b, W[10], 15, k[54]);
    b := II(b, c, d, a, W[1], 21, k[55]);
    FourII(q, block, k, 52, p0, a, b, c, d);
    p0 := Quad(a, b, c, d);
    a := II(a, b, c, d, W[8], 6, k[56]);
    d := II(d, a, b, c, W[15], 10, k[57]);
    c := II(c, d, a, b, W[6], 15, k[58]);
    b := II(b, c, d, a, W[13], 21, k[59]);
    FourII(q, block, k, 56, p0, a, b, c, d);
    p0 := Quad(a, b, c, d);
    a := II(a, b, c, d, W[4], 6, k[60]);
    d := II(d, a, b, c, W[11], 10, k[61]);
    c := II(c, d, a, b, W[2], 15, k[62]);
    b := II(b, c, d, a, W[9], 21, k[63]);
    FourII(q, block, k, 60, p0, a, b, c, d);
    r := Quad(a, b, c, d);
  }

  // md5_compress as it is built by default: all 64 steps written out.
  method CompressUnrolled(state: array<bv32>, buf: seq<bv8>, k: seq<bv32>)
    requires state.Length == 4 && |buf| == 64 && |k| == 64
    modifies state
    ensures state[..] == Compressed(old(state[..]), buf, k)
  {
    hide Add, Word, Step;
    var W := LoadWords(buf);
    var w := W[..];
    var q := Quad(state[0], state[1], state[2], state[3]);
    assert q == ToQuad(state[..]);
    var r := FirstRound(w, k, q, q, buf);
    r := SecondRound(w, k, r, q, buf);
    r := ThirdRound(w, k, r, q, buf);
    r := FourthRound(w, k, r, q, buf);
    Feedback(state, r);
  }
}
