/**
 MD2 (src/modules/crypto/md2.c): one pass that compresses and updates the checksum block by
 block, against the two passes of RFC 1319, for any substitution table.
 */
module Md2 {
  import opened Shared
  import opened Words
  import opened HashStream

  type Table = t: seq<bv8> | |t| == 256 witness seq(256, _ => 0)

  function At(pi: Table, x: bv8): bv8 { pi[x as nat] }

  // A byte changed by the table entry that the byte `x` selects.
  function Mixed(pi: Table, b: bv8, x: bv8): bv8 { b ^ At(pi, x) }

  // --- RFC 1319 ---

  // Section 3.1: between 1 and 16 bytes, each holding their number.
  function Pad(n: nat): (p: seq<bv8>)
    ensures |p| == 16 - n % 16
  {
    Copies(16 - n % 16, (16 - n % 16) as bv8)
  }

  function Copies(n: nat, b: bv8): (s: seq<bv8>)
    ensures |s| == n
  {
    if n == 0 then [] else Copies(n - 1, b) + [b]
  }

  // Section 3.2 with the recurrence of the reference source: the checksum after `j` bytes
  // of a block, `l` being the byte carried in.
  function CheckBytes(pi: Table, c: seq<bv8>, l: bv8, block: seq<bv8>, j: nat): (r: seq<bv8>)
    requires |c| == 16 && |block| == 16 && j <= 16
    ensures |r| == 16
  {
    if j == 0 then c else
      var p := CheckBytes(pi, c, l, block, j - 1);
      p[j - 1 := Mixed(pi, p[j - 1], block[j - 1] ^ Carried(p, l, j - 1))]
  }

  // The byte carried after `j` bytes.
  function Carried(c: seq<bv8>, l: bv8, j: nat): bv8
    requires j <= |c|
  {
    if j == 0 then l else c[j - 1]
  }

  // The checksum of whole blocks; the carried byte runs through all of them.
  function Checksum(pi: Table, c: seq<bv8>, l: bv8, data: seq<bv8>): (r: seq<bv8>)
    requires |c| == 16
    ensures |r| == 16
    decreases |data|
  {
    if |data| < 16 then c else
      var next := CheckBytes(pi, c, l, data[..16], 16);
      Checksum(pi, next, Carried(next, l, 16), data[16..])
  }

  // Section 3.4: one sweep over the first `k` bytes of the state.
  function Sweep(pi: Table, x: seq<bv8>, t: bv8, k: nat): (r: seq<bv8>)
    requires |x| == 48 && k <= 48
    ensures |r| == 48
  {
    if k == 0 then x else
      var p := Sweep(pi, x, t, k - 1);
      p[k - 1 := Mixed(pi, p[k - 1], Carried(p, t, k - 1))]
  }

  // The state and the carried byte after `n` sweeps.
  function Sweeps(pi: Table, x: seq<bv8>, n: nat): (r: (seq<bv8>, bv8))
    requires |x| == 48
    ensures |r.0| == 48
  {
    if n == 0 then (x, 0) else
      var (p, t) := Sweeps(pi, x, n - 1);
      var q := Sweep(pi, p, t, 48);
      (q, q[47] + Round(n - 1))
  }

  function Round(j: nat): bv8 { (j % 256) as bv8 }

  function Xor(a: seq<bv8>, b: seq<bv8>): (r: seq<bv8>)
    requires |a| == |b|
    ensures |r| == |a| && forall i :: 0 <= i < |a| ==> r[i] == a[i] ^ b[i]
  {
    seq(|a|, i requires 0 <= i < |a| => a[i] ^ b[i])
  }

  // Loading a block into the state.
  function Loaded(x: seq<bv8>, block: seq<bv8>): (r: seq<bv8>)
    requires |x| == 48 && |block| == 16
    ensures |r| == 48
  {
    x[..16] + block + Xor(x[..16], block)
  }

  function Compressed(pi: Table, x: seq<bv8>, block: seq<bv8>): (r: seq<bv8>)
    requires |x| == 48 && |block| == 16
    ensures |r| == 48
  {
    Sweeps(pi, Loaded(x, block), 18).0
  }

  // The state after whole blocks.
  function CompressAll(pi: Table, x: seq<bv8>, data: seq<bv8>): (r: seq<bv8>)
    requires |x| == 48
    ensures |r| == 48
    decreases |data|
  {
    if |data| < 16 then x else CompressAll(pi, Compressed(pi, x, data[..16]), data[16..])
  }

  // Pad, append the checksum of the padded message, then compress all of it.
  function RfcHash(pi: Table, msg: seq<bv8>): (r: seq<bv8>)
    ensures |r| == 16
  {
    TwoPasses(pi, msg + Pad(|msg|))
  }

  function TwoPasses(pi: Table, padded: seq<bv8>): (r: seq<bv8>)
    ensures |r| == 16
  {
    CompressAll(pi, Zeros(48), padded + Checksum(pi, Zeros(16), 0, padded))[..16]
  }

  // Section 3.2 as its text has it: the table entry replaces the checksum byte.
  function TextBytes(pi: Table, c: seq<bv8>, l: bv8, block: seq<bv8>, j: nat): (r: seq<bv8>)
    requires |c| == 16 && |block| == 16 && j <= 16
    ensures |r| == 16
  {
    if j == 0 then c else
      var p := TextBytes(pi, c, l, block, j - 1);
      p[j - 1 := At(pi, block[j - 1] ^ Carried(p, l, j - 1))]
  }

  // The two agree on a block exactly when the checksum before it is all zeros, as before the
  // first one.
  lemma TextIff(pi: Table, c: seq<bv8>, l: bv8, block: seq<bv8>)
    requires |c| == 16 && |block| == 16
    ensures CheckBytes(pi, c, l, block, 16) == TextBytes(pi, c, l, block, 16) <==> ZeroTo(c, 16)
  {
    TextUpTo(pi, c, l, block, 16);
  }

  lemma {:induction false} TextUpTo(pi: Table, c: seq<bv8>, l: bv8, block: seq<bv8>, j: nat)
    requires |c| == 16 && |block| == 16 && j <= 16
    ensures var a, b := CheckBytes(pi, c, l, block, j), TextBytes(pi, c, l, block, j);
      (a == b <==> ZeroTo(c, j)) && Behind(a, b, c, j)
  {
    hide Mixed, At, Selected, CheckBytes, TextBytes, ZeroTo, Behind;
    if j == 0 {
      NoBytes(pi, c, l, block);
    } else {
      TextUpTo(pi, c, l, block, j - 1);
      var a, b := CheckBytes(pi, c, l, block, j - 1), TextBytes(pi, c, l, block, j - 1);
      NextByte(pi, c, l, block, j);
      var u, v := Selected(block, a, l, j), Selected(block, b, l, j);
      MixedIff(pi, a[j - 1], u);
      SetIff(a, b, c, j, Mixed(pi, a[j - 1], u), At(pi, v));
    }
  }

  // What selects the table entry for byte `j - 1`.
  function Selected(block: seq<bv8>, c: seq<bv8>, l: bv8, j: nat): bv8
    requires 0 < j <= |block| == |c|
  {
    block[j - 1] ^ Carried(c, l, j - 1)
  }

  predicate ZeroTo(c: seq<bv8>, j: nat)
    requires j <= |c|
  {
    forall i :: 0 <= i < j ==> c[i] == 0
  }

  // The bytes not reached yet are as they were.
  predicate Behind(a: seq<bv8>, b: seq<bv8>, c: seq<bv8>, j: nat)
    requires j <= |a| == |b| == |c|
  {
    forall i :: j <= i < |c| ==> a[i] == b[i] == c[i]
  }

  lemma NoBytes(pi: Table, c: seq<bv8>, l: bv8, block: seq<bv8>)
    requires |c| == 16 && |block| == 16
    ensures var a, b := CheckBytes(pi, c, l, block, 0), TextBytes(pi, c, l, block, 0);
      a == b == c && ZeroTo(c, 0) && Behind(a, b, c, 0)
  {
  }

  lemma NextByte(pi: Table, c: seq<bv8>, l: bv8, block: seq<bv8>, j: nat)
    requires |c| == 16 && |block| == 16 && 0 < j <= 16
    ensures var a, b := CheckBytes(pi, c, l, block, j - 1), TextBytes(pi, c, l, block, j - 1);
      && CheckBytes(pi, c, l, block, j) == a[j - 1 := Mixed(pi, a[j - 1], Selected(block, a, l, j))]
      && TextBytes(pi, c, l, block, j) == b[j - 1 := At(pi, Selected(block, b, l, j))]
  {
    hide Mixed, At, Carried;
  }

  lemma SetIff(a: seq<bv8>, b: seq<bv8>, c: seq<bv8>, j: nat, x: bv8, y: bv8)
    requires 0 < j <= |a| == |b| == |c| && Behind(a, b, c, j - 1)
    ensures a[j - 1] == c[j - 1] && Behind(a[j - 1 := x], b[j - 1 := y], c, j)
    ensures a[j - 1 := x] == b[j - 1 := y] <==> a == b && x == y
    ensures ZeroTo(c, j) <==> ZeroTo(c, j - 1) && c[j - 1] == 0
  {
    if a != b {
      var k :| 0 <= k < |a| && a[k] != b[k];
      assert a[j - 1 := x][k] != b[j - 1 := y][k];
    } else {
      assert a[j - 1 := x][j - 1] == x && b[j - 1 := y][j - 1] == y;
    }
  }

  lemma MixedIff(pi: Table, b: bv8, x: bv8)
    ensures Mixed(pi, b, x) == At(pi, x) <==> b == 0
  {
    var e := At(pi, x);
    assert (b ^ e == e) <==> b == 0;
  }

  // --- blocks one at a time ---

  lemma {:induction false} ChecksumBlock(pi: Table, c: seq<bv8>, l: bv8, data: seq<bv8>, block: seq<bv8>)
    requires |c| == 16 && c[15] == l && |data| % 16 == 0 && |block| == 16
    ensures var d := Checksum(pi, c, l, data);
      Checksum(pi, c, l, data + block) == CheckBytes(pi, d, d[15], block, 16)
    decreases |data|
  {
    if |data| < 16 {
      assert data == [] && data + block == block;
      assert block[..16] == block && block[16..] == [];
    } else {
      assert (data + block)[..16] == data[..16] && (data + block)[16..] == data[16..] + block;
      var next := CheckBytes(pi, c, l, data[..16], 16);
      ChecksumBlock(pi, next, next[15], data[16..], block);
    }
  }

  lemma {:induction false} ChecksumRest(pi: Table, c: seq<bv8>, l: bv8, data: seq<bv8>, rest: seq<bv8>)
    requires |c| == 16 && |data| % 16 == 0 && |rest| < 16
    ensures Checksum(pi, c, l, data + rest) == Checksum(pi, c, l, data)
    decreases |data|
  {
    if |data| < 16 {
      assert data == [] && data + rest == rest;
    } else {
      assert (data + rest)[..16] == data[..16] && (data + rest)[16..] == data[16..] + rest;
      var next := CheckBytes(pi, c, l, data[..16], 16);
      ChecksumRest(pi, next, Carried(next, l, 16), data[16..], rest);
    }
  }

  lemma {:induction false} CompressBlock(pi: Table, x: seq<bv8>, data: seq<bv8>, block: seq<bv8>)
    requires |x| == 48 && |data| % 16 == 0 && |block| == 16
    ensures CompressAll(pi, x, data + block) == Compressed(pi, CompressAll(pi, x, data), block)
    decreases |data|
  {
    hide Compressed;
    if |data| < 16 {
      assert data == [] && data + block == block;
      assert block[..16] == block && block[16..] == [];
    } else {
      assert (data + block)[..16] == data[..16] && (data + block)[16..] == data[16..] + block;
      CompressBlock(pi, Compressed(pi, x, data[..16]), data[16..], block);
    }
  }

  lemma {:induction false} CompressRest(pi: Table, x: seq<bv8>, data: seq<bv8>, rest: seq<bv8>)
    requires |x| == 48 && |data| % 16 == 0 && |rest| < 16
    ensures CompressAll(pi, x, data + rest) == CompressAll(pi, x, data)
    decreases |data|
  {
    hide Compressed;
    if |data| < 16 {
      assert data == [] && data + rest == rest;
    } else {
      assert (data + rest)[..16] == data[..16] && (data + rest)[16..] == data[16..] + rest;
      CompressRest(pi, Compressed(pi, x, data[..16]), data[16..], rest);
    }
  }

  // --- one block, without the order of the steps ---

  // Every byte is mixed with the table entry that the byte before it selects, changed already.
  predicate Swept(pi: Table, x: seq<bv8>, t: bv8, y: seq<bv8>) {
    |x| == |y| == 48 && forall k :: 0 <= k < 48 ==> y[k] == Mixed(pi, x[k], Carried(y, t, k))
  }

  lemma {:induction false} SweepPart(pi: Table, x: seq<bv8>, t: bv8, k: nat)
    requires |x| == 48 && k <= 48
    ensures var y := Sweep(pi, x, t, k);
      && (forall i :: 0 <= i < k ==> y[i] == Mixed(pi, x[i], Carried(y, t, i)))
      && forall i :: k <= i < 48 ==> y[i] == x[i]
  {
    hide Mixed;
    if k > 0 {
      SweepPart(pi, x, t, k - 1);
      var p, y := Sweep(pi, x, t, k - 1), Sweep(pi, x, t, k);
      assert y == p[k - 1 := Mixed(pi, p[k - 1], Carried(p, t, k - 1))];
      assert forall i :: 0 <= i < k ==> Carried(y, t, i) == Carried(p, t, i);
    }
  }

  lemma SweepIff(pi: Table, x: seq<bv8>, t: bv8, y: seq<bv8>)
    requires |x| == 48
    ensures Sweep(pi, x, t, 48) == y <==> Swept(pi, x, t, y)
  {
    hide Mixed, Sweep;
    var z := Sweep(pi, x, t, 48);
    SweepPart(pi, x, t, 48);
    if Swept(pi, x, t, y) {
      SameSwept(pi, x, t, y, z, 48);
      assert y[..48] == y && z[..48] == z;
    }
  }

  lemma {:induction false} SameSwept(pi: Table, x: seq<bv8>, t: bv8, y: seq<bv8>, z: seq<bv8>, k: nat)
    requires Swept(pi, x, t, y) && Swept(pi, x, t, z) && k <= 48
    ensures y[..k] == z[..k]
  {
    hide Mixed;
    if k > 0 {
      SameSwept(pi, x, t, y, z, k - 1);
      assert forall i :: 0 <= i < k - 1 ==> y[i] == y[..k - 1][i] && z[i] == z[..k - 1][i];
      assert Carried(y, t, k - 1) == Carried(z, t, k - 1);
      assert y[..k] == y[..k - 1] + [y[k - 1]] && z[..k] == z[..k - 1] + [z[k - 1]];
    }
  }

  // The checksum bytes in the same way: the entry is that of the block's byte xor the
  // checksum byte before.
  lemma {:induction false} CheckPart(pi: Table, c: seq<bv8>, l: bv8, block: seq<bv8>, k: nat)
    requires |c| == 16 && |block| == 16 && k <= 16
    ensures var y := CheckBytes(pi, c, l, block, k);
      && (forall i :: 0 <= i < k ==> y[i] == Mixed(pi, c[i], block[i] ^ Carried(y, l, i)))
      && forall i :: k <= i < 16 ==> y[i] == c[i]
  {
    hide Mixed;
    if k > 0 {
      CheckPart(pi, c, l, block, k - 1);
      var p, y := CheckBytes(pi, c, l, block, k - 1), CheckBytes(pi, c, l, block, k);
      assert y == p[k - 1 := Mixed(pi, p[k - 1], block[k - 1] ^ Carried(p, l, k - 1))];
      assert forall i :: 0 <= i < k ==> Carried(y, l, i) == Carried(p, l, i);
    }
  }

  // Eighteen sweeps; the byte carried into the next one is the last byte plus the number of
  // the sweep, from zero.
  predicate Rows(pi: Table, x: seq<bv8>, rows: seq<seq<bv8>>) {
    && |rows| == 19 && rows[0] == x
    && forall j :: 0 <= j < 18 ==>
         |rows[j]| == 48 && Swept(pi, rows[j], if j == 0 then 0 else rows[j][47] + Round(j - 1), rows[j + 1])
  }

  lemma CompressedIff(pi: Table, x: seq<bv8>, block: seq<bv8>, y: seq<bv8>)
    requires |x| == 48 && |block| == 16
    ensures Compressed(pi, x, block) == y <==> exists rows :: Rows(pi, Loaded(x, block), rows) && rows[18] == y
  {
    hide Sweep, Swept, Loaded, Round;
    var s := Loaded(x, block);
    var rows := seq(19, j requires 0 <= j < 19 => Sweeps(pi, s, j).0);
    forall j | 0 <= j < 18
      ensures Swept(pi, rows[j], if j == 0 then 0 else rows[j][47] + Round(j - 1), rows[j + 1])
    {
      SweepIff(pi, rows[j], Sweeps(pi, s, j).1, rows[j + 1]);
    }
    assert Rows(pi, s, rows);
    if other :| Rows(pi, s, other) && other[18] == y {
      RowIs(pi, s, other, 18);
    }
  }

  lemma {:induction false} RowIs(pi: Table, x: seq<bv8>, rows: seq<seq<bv8>>, n: nat)
    requires |x| == 48 && Rows(pi, x, rows) && n <= 18
    ensures Sweeps(pi, x, n).0 == rows[n] && |rows[n]| == 48
    ensures Sweeps(pi, x, n).1 == if n == 0 then 0 else rows[n][47] + Round(n - 1)
  {
    hide Sweep, Swept, Round;
    if n > 0 {
      RowIs(pi, x, rows, n - 1);
      var t := Sweeps(pi, x, n - 1).1;
      SweepIff(pi, rows[n - 1], t, rows[n]);
    }
  }

  // --- the streaming state ---

  class Md2State {
    const pi: Table
    const chksum: array<bv8>
    const X: array<bv8>
    const buf: array<bv8>
    var curlen: nat

    ghost predicate Shape()
      reads this
    {
      && chksum.Length == 16 && X.Length == 48 && buf.Length == 16
      && chksum != X && chksum != buf && X != buf
    }

    // md2_init
    constructor (pi: Table)
      ensures Shape() && this.pi == pi && fresh(chksum) && fresh(X) && fresh(buf)
      ensures curlen == 0 && chksum[..] == Zeros(16) && X[..] == Zeros(48)
    {
      this.pi := pi;
      chksum := new bv8[16](_ => 0);
      X := new bv8[48](_ => 0);
      buf := new bv8[16](_ => 0);
      curlen := 0;
      new;
      ZerosAt(16);
      ZerosAt(48);
    }

    // adds 16 bytes to the checksum
    method UpdateChecksum()
      requires Shape()
      modifies chksum
      ensures chksum[..] == CheckBytes(pi, old(chksum[..]), old(chksum[15]), buf[..], 16)
    {
      hide Mixed;
      ghost var c, l, block := chksum[..], chksum[15], buf[..];
      var L := chksum[15];
      var j := 0;
      while j < 16
        invariant j <= 16 && buf[..] == block
        invariant chksum[..] == CheckBytes(pi, c, l, block, j) && L == Carried(chksum[..], l, j)
      {
        assert buf[j] == block[j];
        chksum[j] := Mixed(pi, chksum[j], buf[j] ^ L);
        L := chksum[j];
        j := j + 1;
      }
    }

    // copy block
    method Load()
      requires Shape()
      modifies X
      ensures X[..] == Loaded(old(X[..]), buf[..])
    {
      ghost var x := X[..];
      var j := 0;
      while j < 16
        invariant j <= 16
        invariant forall i :: 0 <= i < 16 ==> X[i] == x[i]
        invariant forall i :: 0 <= i < j ==> X[16 + i] == buf[i] && X[32 + i] == x[i] ^ buf[i]
      {
        X[16 + j] := buf[j];
        X[32 + j] := X[j] ^ X[16 + j];
        j := j + 1;
      }
      LoadedIs(x, buf[..], X[..]);
    }

    // One of the rounds of md2_compress.
    method SweepOnce(t: bv8) returns (t': bv8)
      requires Shape()
      modifies X
      ensures X[..] == Sweep(pi, old(X[..]), t, 48) && t' == X[47]
    {
      hide Mixed;
      ghost var x := X[..];
      t' := t;
      var k := 0;
      while k < 48
        invariant k <= 48 && X[..] == Sweep(pi, x, t, k) && t' == Carried(X[..], t, k)
      {
        X[k] := Mixed(pi, X[k], t');
        t' := X[k];
        k := k + 1;
      }
    }

    // md2_compress
    method Compress()
      requires Shape()
      modifies X
      ensures X[..] == Compressed(pi, old(X[..]), buf[..])
    {
      hide Sweep, Loaded, Round;
      Load();
      ghost var x := X[..];
      var t: bv8 := 0;
      var j := 0;
      while j < 18
        invariant j <= 18 && (X[..], t) == Sweeps(pi, x, j)
      {
        t := SweepOnce(t);
        t := t + Round(j);
        j := j + 1;
      }
    }

    // Everything absorbed so far is `msg`: its whole blocks are in the state and in the
    // checksum, the rest is pending.
    ghost predicate Absorbed(msg: seq<bv8>)
      reads this, chksum, X, buf
    {
      && Shape() && curlen == |msg| % 16 && buf[..curlen] == Tail(msg, 16)
      && X[..] == CompressAll(pi, Zeros(48), msg)
      && chksum[..] == Checksum(pi, Zeros(16), 0, msg)
    }

    // One full buffer: compress, then update the checksum.
    method Block(ghost whole: seq<bv8>)
      requires Shape() && |whole| % 16 == 0
      requires X[..] == CompressAll(pi, Zeros(48), whole) && chksum[..] == Checksum(pi, Zeros(16), 0, whole)
      modifies X, chksum
      ensures X[..] == CompressAll(pi, Zeros(48), whole + buf[..])
      ensures chksum[..] == Checksum(pi, Zeros(16), 0, whole + buf[..])
    {
      hide CompressAll, Compressed, Checksum, CheckBytes;
      ZerosAt(16);
      CompressBlock(pi, Zeros(48), whole, buf[..]);
      ChecksumBlock(pi, Zeros(16), 0, whole, buf[..]);
      Compress();
      UpdateChecksum();
    }

    // md2_process
    method Process(data: seq<bv8>, ghost msg: seq<bv8>) returns (status: Status)
      requires Shape() && (curlen <= 16 ==> Absorbed(msg))
      modifies this, X, chksum, buf
      ensures status == if old(curlen) > 16 then InvalidArg else CryptOk
      ensures old(curlen) > 16 ==>
        curlen == old(curlen) && X[..] == old(X[..]) && chksum[..] == old(chksum[..]) && buf[..] == old(buf[..])
      ensures old(curlen) <= 16 ==> Absorbed(msg + data)
    {
      hide CompressAll, Checksum, Absorbed;
      if curlen > 16 { return InvalidArg; }
      var i := 0;
      assert msg + data[..0] == msg;
      while i < |data|
        invariant i <= |data| && Absorbed(msg + data[..i])
      {
        ghost var before := i;
        i := FillAndFlush(data, i, msg + data[..i]);
        assert msg + data[..before] + data[before..i] == msg + data[..i];
      }
      assert data[..i] == data;
      return CryptOk;
    }

    // md2_done
    method Done(ghost msg: seq<bv8>) returns (status: Status, out: seq<bv8>)
      requires Shape() && (curlen < 16 ==> Absorbed(msg))
      modifies X, chksum, buf
      ensures status == if old(curlen) >= 16 then InvalidArg else CryptOk
      ensures old(curlen) >= 16 ==>
        out == [] && X[..] == old(X[..]) && chksum[..] == old(chksum[..]) && buf[..] == old(buf[..])
      ensures old(curlen) < 16 ==> out == RfcHash(pi, msg)
    {
      hide CompressAll, Checksum, Tail, Compressed, TwoPasses, Copies, Pad;
      if curlen >= 16 { return InvalidArg, []; }
      var whole := WholeBlocks(msg, 16);
      Whole(pi, msg, whole);
      PadTail();
      PadsUp(msg, whole);
      out := LastBlocks(whole);
      return CryptOk, out;
    }

    // hash and update, then hash checksum
    method LastBlocks(ghost whole: seq<bv8>) returns (out: seq<bv8>)
      requires Shape() && |whole| % 16 == 0
      requires X[..] == CompressAll(pi, Zeros(48), whole) && chksum[..] == Checksum(pi, Zeros(16), 0, whole)
      modifies X, chksum, buf
      ensures out == TwoPasses(pi, whole + old(buf[..]))
    {
      hide CompressAll, Checksum, Compressed;
      Block(whole);
      ghost var x, padded, c := X[..], whole + buf[..], chksum[..];
      forall k | 0 <= k < 16 {
        buf[k] := chksum[k];
      }
      assert buf[..] == c && X[..] == x;
      ModUnique(|padded|, 16, |whole| / 16 + 1, 0);
      CompressBlock(pi, Zeros(48), padded, c);
      Compress();
      assert X[..][..16] == X[..16];
      return X[..16];
    }

    // pad the message
    method PadTail()
      requires Shape() && curlen < 16
      modifies buf
      ensures buf[..] == old(buf[..curlen]) + Copies(16 - curlen, (16 - curlen) as bv8)
    {
      var k := (16 - curlen) as bv8;
      ghost var pending := buf[..curlen];
      var i := curlen;
      assert pending + Copies(0, k) == pending;
      while i < 16
        invariant curlen <= i <= 16 && buf[..i] == pending + Copies(i - curlen, k)
      {
        buf[i] := k;
        assert buf[..i + 1] == buf[..i] + [k];
        assert pending + Copies(i - curlen, k) + [k] == pending + Copies(i + 1 - curlen, k);
        i := i + 1;
      }
      assert buf[..] == buf[..16];
    }

    // Copies as many bytes as fit behind the pending ones.
    method Fill(data: seq<bv8>, i: nat) returns (n: nat)
      requires buf.Length == 16 && curlen < 16 && i < |data|
      modifies this, buf
      ensures 0 < n <= |data| - i && curlen == old(curlen) + n <= 16 && (curlen == 16 || i + n == |data|)
      ensures buf[..curlen] == old(buf[..curlen]) + data[i..i + n]
    {
      n := if |data| - i < 16 - curlen then |data| - i else 16 - curlen;
      forall k | 0 <= k < n {
        buf[curlen + k] := data[i + k];
      }
      curlen := curlen + n;
    }

    // Copies bytes, and takes in the buffer when it is full.
    method FillAndFlush(data: seq<bv8>, i: nat, ghost msg: seq<bv8>) returns (i': nat)
      requires Absorbed(msg) && i < |data|
      modifies this, X, chksum, buf
      ensures i < i' <= |data| && Absorbed(msg + data[i..i'])
    {
      hide CompressAll, Checksum, Tail;
      var whole := WholeBlocks(msg, 16);
      Whole(pi, msg, whole);
      var n := Fill(data, i);
      i' := i + n;
      ghost var all := msg + data[i..i'];
      assert all == whole + buf[..curlen];
      if curlen == 16 {
        assert buf[..16] == buf[..];
        Block(whole);
        curlen := 0;
        FullBlock(whole, all);
      } else {
        PartBlock(pi, whole, buf[..curlen], all);
      }
    }
  }

  // The whole blocks of a message decide state and checksum.
  lemma Whole(pi: Table, msg: seq<bv8>, whole: seq<bv8>)
    requires msg == whole + Tail(msg, 16) && |whole| % 16 == 0
    ensures CompressAll(pi, Zeros(48), msg) == CompressAll(pi, Zeros(48), whole)
    ensures Checksum(pi, Zeros(16), 0, msg) == Checksum(pi, Zeros(16), 0, whole)
  {
    CompressRest(pi, Zeros(48), whole, Tail(msg, 16));
    ChecksumRest(pi, Zeros(16), 0, whole, Tail(msg, 16));
  }

  lemma FullBlock(whole: seq<bv8>, all: seq<bv8>)
    requires |whole| % 16 == 0 && |all| == |whole| + 16
    ensures |all| % 16 == 0 && Tail(all, 16) == []
  {
  }

  lemma PartBlock(pi: Table, whole: seq<bv8>, rest: seq<bv8>, all: seq<bv8>)
    requires |whole| % 16 == 0 && all == whole + rest && |rest| < 16
    ensures |all| % 16 == |rest| && Tail(all, 16) == rest
    ensures CompressAll(pi, Zeros(48), all) == CompressAll(pi, Zeros(48), whole)
    ensures Checksum(pi, Zeros(16), 0, all) == Checksum(pi, Zeros(16), 0, whole)
  {
    hide CompressAll, Checksum;
    ModUnique(|all|, 16, |whole| / 16, |rest|);
    CompressRest(pi, Zeros(48), whole, rest);
    ChecksumRest(pi, Zeros(16), 0, whole, rest);
  }

  lemma PadsUp(msg: seq<bv8>, whole: seq<bv8>)
    requires msg == whole + Tail(msg, 16)
    ensures var n := 16 - |msg| % 16;
      whole + (Tail(msg, 16) + Copies(n, n as bv8)) == msg + Pad(|msg|)
  {
    hide Tail, Copies;
  }

  lemma Nothing(pi: Table)
    ensures Tail([], 16) == []
    ensures CompressAll(pi, Zeros(48), []) == Zeros(48) && Checksum(pi, Zeros(16), 0, []) == Zeros(16)
  {
  }

  // md2_init, md2_process for every chunk, md2_done: one pass, any chunking.
  method Hash(pi: Table, chunks: seq<seq<bv8>>) returns (out: seq<bv8>)
    ensures out == RfcHash(pi, Flatten(chunks))
  {
    hide RfcHash, CompressAll, Checksum, Tail, Zeros;
    var md := new Md2State(pi);
    Nothing(pi);
    var i := 0;
    assert chunks[..0] == [];
    while i < |chunks|
      invariant i <= |chunks| && md.pi == pi && md.Absorbed(Flatten(chunks[..i]))
      invariant fresh(md) && fresh(md.X) && fresh(md.chksum) && fresh(md.buf)
    {
      var status := md.Process(chunks[i], Flatten(chunks[..i]));
      assert chunks[..i + 1][..i] == chunks[..i];
      i := i + 1;
    }
    assert chunks[..i] == chunks;
    var status;
    status, out := md.Done(Flatten(chunks));
  }

  lemma LoadedIs(x: seq<bv8>, block: seq<bv8>, r: seq<bv8>)
    requires |x| == 48 && |block| == 16 && |r| == 48
    requires forall i :: 0 <= i < 16 ==> r[i] == x[i] && r[16 + i] == block[i] && r[32 + i] == x[i] ^ block[i]
    ensures r == Loaded(x, block)
  {
    var y := Xor(x[..16], block);
    forall i | 0 <= i < 48 ensures r[i] == Loaded(x, block)[i] {
      if i >= 32 {
        assert r[32 + (i - 32)] == y[i - 32];
      } else if i >= 16 {
        assert r[16 + (i - 16)] == block[i - 16];
      }
    }
  }
}
