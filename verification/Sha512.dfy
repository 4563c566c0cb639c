/**
 SHA-512 (src/modules/crypto/sha512.c): both forms of the compression function against the
 80-round loop of section 6.4.2 of FIPS 180-4, for any table of round constants.
 */
module Sha512 {
  import opened BitLogic
  import opened Words

  // Addition modulo 2^64.
  function Add(x: bv64, y: bv64): bv64 { x + y }

  // --- FIPS 180-4 ---

  function Sigma0(x: bv64): bv64 { Ror64(x, 28) ^ Ror64(x, 34) ^ Ror64(x, 39) }

  function Sigma1(x: bv64): bv64 { Ror64(x, 14) ^ Ror64(x, 18) ^ Ror64(x, 41) }

  function Gamma0(x: bv64): bv64 { Ror64(x, 1) ^ Ror64(x, 8) ^ (x >> 7) }

  function Gamma1(x: bv64): bv64 { Ror64(x, 19) ^ Ror64(x, 61) ^ (x >> 6) }

  // The working variables.
  datatype Vars = Vars(a: bv64, b: bv64, c: bv64, d: bv64, e: bv64, f: bv64, g: bv64, h: bv64)

  // Word `t` of the message schedule.
  function Schedule(block: seq<bv8>, t: nat): bv64
    requires |block| == 128
  {
    if t < 16 then Load64H(block[8 * t..8 * t + 8])
    else Add(Add(Add(Gamma1(Schedule(block, t - 2)), Schedule(block, t - 7)), Gamma0(Schedule(block, t - 15))),
             Schedule(block, t - 16))
  }

  function FipsT1(e: bv64, f: bv64, g: bv64, h: bv64, k: bv64, w: bv64): bv64 {
    Add(Add(Add(Add(h, Sigma1(e)), FipsCh(e, f, g)), k), w)
  }

  function FipsT2(a: bv64, b: bv64, c: bv64): bv64 { Add(Sigma0(a), FipsMaj(a, b, c)) }

  function Round(v: Vars, k: bv64, w: bv64): Vars {
    var t1, t2 := FipsT1(v.e, v.f, v.g, v.h, k, w), FipsT2(v.a, v.b, v.c);
    Vars(Add(t1, t2), v.a, v.b, v.c, Add(v.d, t1), v.e, v.f, v.g)
  }

  // The first `t` rounds.
  function Rounds(v: Vars, block: seq<bv8>, k: seq<bv64>, t: nat): Vars
    requires |block| == 128 && t <= |k|
  {
    if t == 0 then v else Round(Rounds(v, block, k, t - 1), k[t - 1], Schedule(block, t - 1))
  }

  function ToVars(s: seq<bv64>): Vars
    requires |s| == 8
  {
    Vars(s[0], s[1], s[2], s[3], s[4], s[5], s[6], s[7])
  }

  // One block: 80 rounds from the chaining words, added back to them.
  function Compressed(s: seq<bv64>, block: seq<bv8>, k: seq<bv64>): (r: seq<bv64>)
    requires |s| == 8 && |block| == 128 && |k| == 80
    ensures |r| == 8
  {
    Fed(s, Rounds(ToVars(s), block, k, 80))
  }

  function Fed(s: seq<bv64>, v: Vars): (r: seq<bv64>)
    requires |s| == 8
    ensures |r| == 8
  {
    [Add(s[0], v.a), Add(s[1], v.b), Add(s[2], v.c), Add(s[3], v.d),
     Add(s[4], v.e), Add(s[5], v.f), Add(s[6], v.g), Add(s[7], v.h)]
  }

  // --- the macros of the source ---

  function T0(e: bv64, f: bv64, g: bv64, h: bv64, k: bv64, w: bv64): bv64 {
    Add(Add(Add(Add(h, Sigma1(e)), Ch(e, f, g)), k), w)
  }

  function T1(a: bv64, b: bv64, c: bv64): bv64 { Add(Sigma0(a), Maj(a, b, c)) }

  lemma RoundSame(a: bv64, b: bv64, c: bv64, e: bv64, f: bv64, g: bv64, h: bv64, k: bv64, w: bv64)
    ensures T0(e, f, g, h, k, w) == FipsT1(e, f, g, h, k, w) && T1(a, b, c) == FipsT2(a, b, c)
  {
    hide Add, Ch, Maj, FipsCh, FipsMaj, Sigma0, Sigma1;
    ChSame(e, f, g);
    MajSame(a, b, c);
  }

  // --- the two forms of sha512_compress ---

  // W[0..79]
  method Expand(buf: seq<bv8>) returns (W: array<bv64>)
    requires |buf| == 128
    ensures fresh(W) && W.Length == 80 && forall t :: 0 <= t < 80 ==> W[t] == Schedule(buf, t)
  {
    hide Add, Load64H, Gamma0, Gamma1;
    W := new bv64[80];
    var i := 0;
    while i < 16
      invariant i <= 16 && forall t :: 0 <= t < i ==> W[t] == Schedule(buf, t)
    {
      W[i] := Load64H(buf[8 * i..8 * i + 8]);
      i := i + 1;
    }
    while i < 80
      invariant 16 <= i <= 80 && forall t :: 0 <= t < i ==> W[t] == Schedule(buf, t)
    {
      W[i] := Add(Add(Add(Gamma1(W[i - 2]), W[i - 7]), Gamma0(W[i - 15])), W[i - 16]);
      i := i + 1;
    }
  }

  // The array holds the working variables.
  ghost predicate Holds(S: array<bv64>, v: Vars)
    reads S
  {
    && S.Length == 8
    && S[0] == v.a && S[1] == v.b && S[2] == v.c && S[3] == v.d
    && S[4] == v.e && S[5] == v.f && S[6] == v.g && S[7] == v.h
  }

  // copy state into S
  method CopyState(state: array<bv64>) returns (S: array<bv64>)
    requires state.Length == 8
    ensures fresh(S) && Holds(S, ToVars(state[..]))
  {
    S := new bv64[8];
    var i := 0;
    while i < 8
      invariant i <= 8 && forall j :: 0 <= j < i ==> S[j] == state[j]
    {
      S[i] := state[i];
      i := i + 1;
    }
  }

  // feedback
  method Feedback(state: array<bv64>, S: array<bv64>, ghost v: Vars)
    requires state.Length == 8 && Holds(S, v) && state != S
    modifies state
    ensures state[..] == Fed(old(state[..]), v)
  {
    hide Add;
    var i := 0;
    while i < 8
      invariant
        i <= 8 && forall j :: 0 <= j < 8 ==> state[j] == if j < i then Add(old(state[j]), S[j]) else old(state[j])
    {
      state[i] := Add(state[i], S[i]);
      i := i + 1;
    }
    FedIs(old(state[..]), v, state[..]);
  }

  lemma FedIs(s: seq<bv64>, v: Vars, r: seq<bv64>)
    requires |s| == 8 && |r| == 8
    requires r[0] == Add(s[0], v.a) && r[1] == Add(s[1], v.b) && r[2] == Add(s[2], v.c) && r[3] == Add(s[3], v.d)
    requires r[4] == Add(s[4], v.e) && r[5] == Add(s[5], v.f) && r[6] == Add(s[6], v.g) && r[7] == Add(s[7], v.h)
    ensures r == Fed(s, v)
  {
    hide Add;
  }

  // One round of the small form: the variables shift through the array.
  method ShiftRound(S: array<bv64>, k: bv64, w: bv64, ghost v: Vars)
    requires Holds(S, v)
    modifies S
    ensures Holds(S, Round(v, k, w))
  {
    hide Add, T0, T1, FipsT1, FipsT2;
    RoundSame(S[0], S[1], S[2], S[4], S[5], S[6], S[7], k, w);
    var t0 := T0(S[4], S[5], S[6], S[7], k, w);
    var t1 := T1(S[0], S[1], S[2]);
    S[7] := S[6];
    S[6] := S[5];
    S[5] := S[4];
    S[4] := Add(S[3], t0);
    S[3] := S[2];
    S[2] := S[1];
    S[1] := S[0];
    S[0] := Add(t0, t1);
  }

  // sha512_compress with LTC_SMALL_CODE.
  method CompressSmall(state: array<bv64>, buf: seq<bv8>, k: seq<bv64>)
    requires state.Length == 8 && |buf| == 128 && |k| == 80
    modifies state
    ensures state[..] == Compressed(old(state[..]), buf, k)
  {
    hide Holds, Schedule, Round, Fed;
    var W := Expand(buf);
    var S := CopyState(state);
    ghost var v := ToVars(state[..]);
    var i := 0;
    while i < 80
      invariant i <= 80 && Holds(S, Rounds(v, buf, k, i))
      invariant state[..] == old(state[..])
      invariant forall t :: 0 <= t < 80 ==> W[t] == Schedule(buf, t)
    {
      ShiftRound(S, k[i], W[i], Rounds(v, buf, k, i));
      i := i + 1;
    }
    Feedback(state, S, Rounds(v, buf, k, 80));
  }

  // RND: the new values of `d` and `h`; the round's other results are its arguments,
  // which the next RND takes under other names.
  method Rnd(a: bv64, b: bv64, c: bv64, d: bv64, e: bv64, f: bv64, g: bv64, h: bv64, k: bv64, w: bv64)
    returns (d': bv64, h': bv64)
    ensures Vars(h', a, b, c, d', e, f, g) == Round(Vars(a, b, c, d, e, f, g, h), k, w)
  {
    hide Add, T0, T1, FipsT1, FipsT2;
    RoundSame(a, b, c, e, f, g, h, k, w);
    var t0 := T0(e, f, g, h, k, w);
    var t1 := T1(a, b, c);
    d' := Add(d, t0);
    h' := Add(t0, t1);
  }

  // The variables halfway through a turn: `a` stands where `e` stood.
  ghost predicate HoldsHalfway(S: array<bv64>, v: Vars)
    reads S
  {
    && S.Length == 8
    && S[4] == v.a && S[5] == v.b && S[6] == v.c && S[7] == v.d
    && S[0] == v.e && S[1] == v.f && S[2] == v.g && S[3] == v.h
  }

  function Four(v: Vars, k: seq<bv64>, w: seq<bv64>, i: nat): Vars
    requires i + 4 <= |k| && i + 4 <= |w|
  {
    Round(Round(Round(Round(v, k[i], w[i]), k[i + 1], w[i + 1]), k[i + 2], w[i + 2]), k[i + 3], w[i + 3])
  }

  method FirstFour(S: array<bv64>, k: seq<bv64>, w: seq<bv64>, i: nat, ghost v: Vars)
    requires Holds(S, v) && i + 4 <= |k| && i + 4 <= |w|
    modifies S
    ensures HoldsHalfway(S, Four(v, k, w, i))
  {
    hide Round;
    S[3], S[7] := Rnd(S[0], S[1], S[2], S[3], S[4], S[5], S[6], S[7], k[i], w[i]);
    S[2], S[6] := Rnd(S[7], S[0], S[1], S[2], S[3], S[4], S[5], S[6], k[i + 1], w[i + 1]);
    S[1], S[5] := Rnd(S[6], S[7], S[0], S[1], S[2], S[3], S[4], S[5], k[i + 2], w[i + 2]);
    S[0], S[4] := Rnd(S[5], S[6], S[7], S[0], S[1], S[2], S[3], S[4], k[i + 3], w[i + 3]);
  }

  method LastFour(S: array<bv64>, k: seq<bv64>, w: seq<bv64>, i: nat, ghost v: Vars)
    requires HoldsHalfway(S, v) && i + 4 <= |k| && i + 4 <= |w|
    modifies S
    ensures Holds(S, Four(v, k, w, i))
  {
    hide Round;
    S[7], S[3] := Rnd(S[4], S[5], S[6], S[7], S[0], S[1], S[2], S[3], k[i], w[i]);
    S[6], S[2] := Rnd(S[3], S[4], S[5], S[6], S[7], S[0], S[1], S[2], k[i + 1], w[i + 1]);
    S[5], S[1] := Rnd(S[2], S[3], S[4], S[5], S[6], S[7], S[0], S[1], k[i + 2], w[i + 2]);
    S[4], S[0] := Rnd(S[1], S[2], S[3], S[4], S[5], S[6], S[7], S[0], k[i + 3], w[i + 3]);
  }

  lemma FourRounds(v: Vars, block: seq<bv8>, k: seq<bv64>, w: seq<bv64>, t: nat)
    requires |block| == 128 && t + 4 <= |k| && t + 4 <= |w|
    requires forall j :: 0 <= j < |w| ==> w[j] == Schedule(block, j)
    ensures Four(Rounds(v, block, k, t), k, w, t) == Rounds(v, block, k, t + 4)
  {
    hide Round, Schedule;
    assert Rounds(v, block, k, t + 2) == Round(Round(Rounds(v, block, k, t), k[t], w[t]), k[t + 1], w[t + 1]);
  }

  // sha512_compress as it is built by default: eight rounds per turn of the loop, in
  // which the array elements take over each other's roles.
  method CompressUnrolled(state: array<bv64>, buf: seq<bv8>, k: seq<bv64>)
    requires state.Length == 8 && |buf| == 128 && |k| == 80
    modifies state
    ensures state[..] == Compressed(old(state[..]), buf, k)
  {
    hide Holds, HoldsHalfway, Schedule, Rounds, Four, Fed;
    var W := Expand(buf);
    var S := CopyState(state);
    ghost var v := ToVars(state[..]);
    NoRounds(v, buf, k);
    var w := W[..];
    var i := 0;
    while i < 80
      invariant i <= 80 && i % 8 == 0 && Holds(S, Rounds(v, buf, k, i))
      invariant state[..] == old(state[..])
    {
      FirstFour(S, k, w, i, Rounds(v, buf, k, i));
      FourRounds(v, buf, k, w, i);
      LastFour(S, k, w, i + 4, Rounds(v, buf, k, i + 4));
      FourRounds(v, buf, k, w, i + 4);
      i := i + 8;
    }
    Feedback(state, S, Rounds(v, buf, k, 80));
  }

  lemma NoRounds(v: Vars, block: seq<bv8>, k: seq<bv64>)
    requires |block| == 128
    ensures Rounds(v, block, k, 0) == v
  {
  }
}
