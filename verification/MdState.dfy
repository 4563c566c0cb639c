/**
 What MD4 and MD5 share: the chaining variables, the words of a block, and adding the result
 of the steps to the chaining words.
 */
module MdState {
  import opened BitLogic
  import opened Words

  // The four chaining variables.
  datatype Quad = Quad(a: bv32, b: bv32, c: bv32, d: bv32)

  // Word `t` of a block.
  function Word(block: seq<bv8>, t: nat): bv32
    requires |block| == 64 && t < 16
  {
    Load32L(block[4 * t..4 * t + 4])
  }

  function Fed(s: seq<bv32>, q: Quad): (r: seq<bv32>)
    requires |s| == 4
    ensures |r| == 4
  {
    [Add(s[0], q.a), Add(s[1], q.b), Add(s[2], q.c), Add(s[3], q.d)]
  }

  function ToQuad(s: seq<bv32>): Quad
    requires |s| == 4
  {
    Quad(s[0], s[1], s[2], s[3])
  }

  // W[0..15]
  method LoadWords(buf: seq<bv8>) returns (W: array<bv32>)
    requires |buf| == 64
    ensures fresh(W) && W.Length == 16 && forall t :: 0 <= t < 16 ==> W[t] == Word(buf, t)
  {
    hide Load32L;
    W := new bv32[16];
    var i := 0;
    while i < 16
      invariant i <= 16 && forall t :: 0 <= t < i ==> W[t] == Word(buf, t)
    {
      W[i] := Load32L(buf[4 * i..4 * i + 4]);
      i := i + 1;
    }
  }

  method Feedback(state: array<bv32>, q: Quad)
    requires state.Length == 4
    modifies state
    ensures state[..] == Fed(old(state[..]), q)
  {
    hide Add;
    state[0] := Add(state[0], q.a);
    state[1] := Add(state[1], q.b);
    state[2] := Add(state[2], q.c);
    state[3] := Add(state[3], q.d);
  }
}
