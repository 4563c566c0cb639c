/**
 The streaming part shared by SHA-512, MD5 and MD4: the HASH_PROCESS macro of
 src/modules/crypto/tomcrypt_hash.h and the common shape of the *_done functions, for
 any compression function, against hashing the padded message in one go.
 */
module HashStream {
  import opened Shared
  import opened Words

  type Compression<!W> = (seq<W>, seq<bv8>) -> seq<W>

  datatype Status = CryptOk | InvalidArg

  // --- the one-shot definition ---

  // Compresses the whole blocks of the data, in order.
  function Fold<W>(f: Compression<W>, bs: nat, s: seq<W>, data: seq<bv8>): seq<W>
    requires bs > 0
    decreases |data|
  {
    if |data| < bs then s else Fold(f, bs, f(s, data[..bs]), data[bs..])
  }

  function Zeros(n: nat): (z: seq<bv8>)
    ensures |z| == n
  {
    if n == 0 then [] else Zeros(n - 1) + [0]
  }

  lemma {:induction false} ZerosAt(n: nat)
    ensures forall i :: 0 <= i < n ==> Zeros(n)[i] == 0
  {
    if n > 0 {
      ZerosAt(n - 1);
    }
  }

  // How many zeros bring the length after the 0x80 byte to `limit` modulo the block size.
  function ZeroCount(n: nat, limit: nat, bs: nat): (k: nat)
    requires limit < bs
    ensures k < bs
  {
    var r := (n + 1) % bs;
    if r <= limit then limit - r else limit + bs - r
  }

  // It is the smallest such number.
  lemma ZeroCountIsLeast(n: nat, limit: nat, bs: nat, j: nat)
    requires limit < bs
    ensures (n + 1 + ZeroCount(n, limit, bs)) % bs == limit
    ensures j < ZeroCount(n, limit, bs) ==> (n + 1 + j) % bs != limit
  {
    ShiftMod(n + 1, ZeroCount(n, limit, bs), bs);
    if j < bs {
      ShiftMod(n + 1, j, bs);
    }
  }

  lemma ShiftMod(n: nat, k: nat, bs: nat)
    requires k < bs
    ensures (n + k) % bs == if n % bs + k < bs then n % bs + k else n % bs + k - bs
  {
    var q, r := n / bs, n % bs;
    if r + k < bs {
      ModUnique(n + k, bs, q, r + k);
    } else {
      assert bs * (q + 1) == bs * q + bs;
      ModUnique(n + k, bs, q + 1, r + k - bs);
    }
  }

  // The padded message: 0x80, zeros up to `limit`, and the bytes of the length field.
  function Padded(msg: seq<bv8>, limit: nat, bs: nat, field: seq<bv8>): seq<bv8>
    requires limit < bs
  {
    msg + [0x80] + Zeros(ZeroCount(|msg|, limit, bs)) + field
  }

  // --- lemmas about folding ---

  lemma {:induction false} FoldBlock<W>(f: Compression<W>, bs: nat, s: seq<W>, data: seq<bv8>, block: seq<bv8>)
    requires bs > 0 && |data| % bs == 0 && |block| == bs
    ensures Fold(f, bs, s, data + block) == f(Fold(f, bs, s, data), block)
    decreases |data|
  {
    if |data| < bs {
      SmallMod(|data|, bs);
      assert data == [] && data + block == block;
      assert block[..bs] == block && block[bs..] == [];
    } else {
      assert (data + block)[..bs] == data[..bs] && (data + block)[bs..] == data[bs..] + block;
      ShorterMultiple(|data|, bs);
      FoldBlock(f, bs, f(s, data[..bs]), data[bs..], block);
    }
  }

  lemma ShorterMultiple(n: nat, bs: nat)
    requires bs > 0 && n >= bs && n % bs == 0
    ensures (n - bs) % bs == 0
  {
    ModUnique(n - bs, bs, n / bs - 1, 0);
  }

  lemma {:induction false} FoldRest<W>(f: Compression<W>, bs: nat, s: seq<W>, data: seq<bv8>, rest: seq<bv8>)
    requires bs > 0 && |data| % bs == 0 && |rest| < bs
    ensures Fold(f, bs, s, data + rest) == Fold(f, bs, s, data)
    decreases |data|
  {
    if |data| < bs {
      SmallMod(|data|, bs);
      assert data == [];
    } else {
      assert (data + rest)[..bs] == data[..bs] && (data + rest)[bs..] == data[bs..] + rest;
      ShorterMultiple(|data|, bs);
      FoldRest(f, bs, f(s, data[..bs]), data[bs..], rest);
    }
  }

  // The unprocessed tail of a message.
  function Tail(msg: seq<bv8>, bs: nat): (t: seq<bv8>)
    requires bs > 0
    ensures |t| == |msg| % bs
  {
    msg[|msg| - |msg| % bs..]
  }

  lemma {:induction false} FoldSplit<W>(f: Compression<W>, bs: nat, s: seq<W>, a: seq<bv8>, b: seq<bv8>)
    requires bs > 0 && |a| % bs == 0
    ensures Fold(f, bs, s, a + b) == Fold(f, bs, Fold(f, bs, s, a), b)
    decreases |a|
  {
    if |a| < bs {
      SmallMod(|a|, bs);
      assert a == [] && a + b == b;
    } else {
      assert (a + b)[..bs] == a[..bs] && (a + b)[bs..] == a[bs..] + b;
      ShorterMultiple(|a|, bs);
      FoldSplit(f, bs, f(s, a[..bs]), a[bs..], b);
    }
  }

  // The whole blocks of a message come before its tail.
  lemma WholeBlocks(msg: seq<bv8>, bs: nat) returns (whole: seq<bv8>)
    requires bs > 0
    ensures msg == whole + Tail(msg, bs) && |whole| % bs == 0 && |whole| == |msg| - |msg| % bs
  {
    whole := msg[..|msg| - |msg| % bs];
    ModUnique(|whole|, bs, |msg| / bs, 0);
  }

  // Data after a message only meets the message's tail.
  lemma AbsorbMore<W>(f: Compression<W>, bs: nat, iv: seq<W>, msg: seq<bv8>, data: seq<bv8>)
    requires bs > 0
    ensures var all := Tail(msg, bs) + data;
      && |all| % bs == |msg + data| % bs && Tail(all, bs) == Tail(msg + data, bs)
      && Fold(f, bs, iv, msg + data) == Fold(f, bs, Fold(f, bs, iv, msg), all)
      && (8 * (|msg| - |msg| % bs) % TWO64 + 8 * (|all| - |all| % bs)) % TWO64
         == 8 * (|msg + data| - |msg + data| % bs) % TWO64
  {
    hide Fold, Tail;
    var whole := WholeBlocks(msg, bs);
    var all := Tail(msg, bs) + data;
    assert msg + data == whole + all;
    FoldSplit(f, bs, iv, whole, all);
    FoldRest(f, bs, iv, whole, Tail(msg, bs));
    CountMore(|whole|, |all|, bs);
    TailOfSum(whole, all, bs);
  }

  lemma CountMore(n: nat, m: nat, bs: nat)
    requires bs > 0 && n % bs == 0
    ensures (n + m) % bs == m % bs
    ensures (8 * n % TWO64 + 8 * (m - m % bs)) % TWO64 == 8 * (n + m - (n + m) % bs) % TWO64
  {
    hide TWO64;
    assert TWO64 > 0 by { Positive(); }
    SumOfMultiple(n, m, bs);
    CountSum(n, m - m % bs, TWO64);
  }

  lemma Positive()
    ensures TWO64 > 0
  {
  }

  lemma SumOfMultiple(n: nat, m: nat, d: nat)
    requires d > 0 && n % d == 0
    ensures (n + m) % d == m % d
  {
    SumMod(n, m, d);
  }

  lemma TailOfSum(whole: seq<bv8>, all: seq<bv8>, bs: nat)
    requires bs > 0 && |whole + all| % bs == |all| % bs
    ensures Tail(whole + all, bs) == Tail(all, bs)
  {
  }

  lemma CountSum(n: nat, m: nat, d: nat)
    requires d > 0
    ensures (8 * n % d + 8 * m) % d == 8 * (n + m) % d
  {
    SumMod(8 * n, 8 * m, d);
  }

  // --- the streaming state ---

  // The chaining words, the buffer with `curlen` pending bytes, and the number of bits in
  // compressed blocks modulo 2^64.  The block size is the size of the buffer.
  class HashState<!W> {
    var length: ulong64
    var state: seq<W>
    var curlen: nat
    var buf: array<bv8>

    // *_init
    constructor (iv: seq<W>, bs: nat)
      requires bs > 0
      ensures length == 0 && curlen == 0 && state == iv && buf.Length == bs && fresh(buf)
    {
      length, curlen, state := 0, 0, iv;
      buf := new bv8[bs];
    }

    // Everything absorbed so far is `msg`.
    ghost predicate Absorbed(f: Compression<W>, iv: seq<W>, msg: seq<bv8>)
      reads this, buf
    {
      var bs := buf.Length;
      && bs > 0 && curlen == |msg| % bs && buf[..curlen] == Tail(msg, bs)
      && state == Fold(f, bs, iv, msg)
      && length == 8 * (|msg| - curlen) % TWO64
    }

    // The same chaining words, counter and pending bytes.
    ghost predicate SameAs(other: HashState<W>)
      reads this, buf, other, other.buf
    {
      && curlen == other.curlen <= buf.Length == other.buf.Length
      && buf[..curlen] == other.buf[..curlen]
      && state == other.state && length == other.length
    }

    // Copies as many bytes as fit behind the pending ones.
    method FillBuffer(data: seq<bv8>, i: nat) returns (n: nat)
      requires i <= |data| && curlen <= buf.Length
      modifies `curlen, buf
      ensures n == if |data| - i < buf.Length - old(curlen) then |data| - i else buf.Length - old(curlen)
      ensures curlen == old(curlen) + n && buf[..curlen] == old(buf[..curlen]) + data[i..i + n]
    {
      n := if |data| - i < buf.Length - curlen then |data| - i else buf.Length - curlen;
      forall k | 0 <= k < n {
        buf[curlen + k] := data[i + k];
      }
      curlen := curlen + n;
    }

    // Compresses one block and counts its bits.
    method CompressBlock(f: Compression<W>, block: seq<bv8>)
      modifies `state, `length
      ensures state == f(old(state), block) && length == (old(length) + 8 * buf.Length) % TWO64
    {
      state := f(state, block);
      length := (length + buf.Length * 8) % TWO64;
    }

    // HASH_PROCESS.  Pending bytes and new data are compressed block by block; the last
    // incomplete block stays pending.
    method Process(f: Compression<W>, data: seq<bv8>) returns (status: Status)
      requires buf.Length > 0
      modifies this, buf
      ensures buf == old(buf)
      ensures old(curlen) > buf.Length || data == [] ==>
        state == old(state) && length == old(length) && curlen == old(curlen) && buf[..] == old(buf[..])
      ensures status == if old(curlen) > buf.Length then InvalidArg else CryptOk
      ensures old(curlen) <= buf.Length && data != [] ==>
        && var all := old(buf[..curlen]) + data;
        && curlen == |all| % buf.Length && buf[..curlen] == Tail(all, buf.Length)
        && state == Fold(f, buf.Length, old(state), all)
        && length == (old(length) + 8 * (|all| - curlen)) % TWO64
    {
      hide Pending, Fold, Tail;
      if curlen > buf.Length { return InvalidArg; }
      if data == [] { return CryptOk; }
      ghost var bs, all := buf.Length, buf[..curlen] + data;
      var i := 0;
      PendingStarts(f, bs, state, length, all);
      assert buf[..curlen] + data[i..] == all;
      while i < |data|
        invariant i <= |data| && curlen <= bs && buf == old(buf)
        invariant i == |data| ==> curlen < bs
        invariant Pending(f, bs, old(state), old(length), all, buf[..curlen] + data[i..], state, length)
        decreases |data| - i, curlen
      {
        ghost var rest := buf[..curlen] + data[i..];
        if curlen == 0 && |data| - i >= buf.Length {
          DirectBlock(data, i, bs, rest);
          BlockDone(f, bs, old(state), old(length), all, rest, state, length);
          CompressBlock(f, data[i..i + buf.Length]);
          i := i + buf.Length;
        } else {
          var n := FillBuffer(data, i);
          i := i + n;
          assert buf[..curlen] + data[i..] == rest;
          if curlen == buf.Length {
            BufferedBlock(buf[..], data[i..], rest);
            BlockDone(f, bs, old(state), old(length), all, rest, state, length);
            CompressBlock(f, buf[..]);
            curlen := 0;
          }
        }
        assert curlen == 0 ==> buf[..curlen] + data[i..] == data[i..];
      }
      assert data[i..] == [] && buf[..curlen] + [] == buf[..curlen];
      PendingEnds(f, bs, old(state), old(length), all, buf[..curlen], state, length);
      return CryptOk;
    }

    // Processing any bytes extends what was absorbed by exactly those bytes.
    method Update(f: Compression<W>, data: seq<bv8>, ghost iv: seq<W>, ghost msg: seq<bv8>) returns (status: Status)
      requires Absorbed(f, iv, msg)
      modifies this, buf
      ensures status == CryptOk && Absorbed(f, iv, msg + data) && buf == old(buf)
    {
      hide Fold, Tail;
      status := Process(f, data);
      if data == [] {
        assert msg + data == msg;
      } else {
        AbsorbMore(f, buf.Length, iv, msg, data);
      }
    }

    // Appends zeros up to position `end`.
    method ZeroTo(end: nat)
      requires curlen <= end <= buf.Length
      modifies this`curlen, buf
      ensures curlen == end && buf[..end] == old(buf[..curlen]) + Zeros(end - old(curlen))
    {
      ghost var start, head := curlen, buf[..curlen];
      while curlen < end
        invariant start <= curlen <= end && buf[..curlen] == head + Zeros(curlen - start)
      {
        buf[curlen] := 0;
        assert buf[..curlen + 1] == buf[..curlen] + [0];
        assert head + Zeros(curlen - start) + [0] == head + Zeros(curlen + 1 - start);
        curlen := curlen + 1;
      }
    }

    // The end of the message: 0x80, and a block of its own when there is no room for the
    // length field behind it.
    method EndMessage(f: Compression<W>, limit: nat) returns (ghost first: seq<bv8>)
      requires curlen < buf.Length
      modifies this`curlen, this`state, buf
      ensures var c := old(curlen) + 1;
        var head := old(buf[..curlen]) + [0x80];
        if c <= limit then first == [] && curlen == c && buf[..c] == head && state == old(state)
        else first == head + Zeros(buf.Length - c) && curlen == 0 && state == f(old(state), first)
    {
      ghost var pending := buf[..curlen];
      buf[curlen] := 0x80;
      curlen := curlen + 1;
      assert buf[..curlen] == pending + [0x80];
      first := [];
      if curlen > limit {
        ZeroTo(buf.Length);
        assert buf[..] == buf[..buf.Length];
        first := buf[..];
        state := f(state, buf[..]);
        curlen := 0;
      }
    }

    // The last block: zeros up to `padTo`, the counter, and its compression.
    method EndBlock(f: Compression<W>, padTo: nat, field: seq<bv8>)
      requires curlen <= padTo && padTo + 8 == buf.Length && |field| == 8
      modifies this`curlen, this`state, buf
      ensures state == f(old(state), old(buf[..curlen]) + Zeros(padTo - old(curlen)) + field)
    {
      ZeroTo(padTo);
      ghost var body := buf[..padTo];
      forall k | 0 <= k < 8 {
        buf[padTo + k] := field[k];
      }
      assert buf[..] == body + field;
      state := f(state, buf[..]);
    }

    // The body of *_done before the digest is copied out: `limit` and `padTo` are 112 and
    // 120 for SHA-512 and both 56 for MD4 and MD5, and `store` writes the counter.
    method Finish(f: Compression<W>, limit: nat, padTo: nat, store: nat -> seq<bv8>) returns (status: Status)
      requires limit <= padTo && padTo + 8 == buf.Length && |store((length + 8 * curlen) % TWO64)| == 8
      modifies this, buf
      ensures buf == old(buf)
      ensures old(curlen) >= buf.Length ==>
        status == InvalidArg && state == old(state) && length == old(length) && curlen == old(curlen)
      ensures old(curlen) < buf.Length ==>
        status == CryptOk &&
        state == Fold(f, buf.Length, old(state),
                      Ending(old(buf[..curlen]), limit, padTo, store((old(length) + 8 * old(curlen)) % TWO64)))
    {
      hide Fold;
      if curlen >= buf.Length { return InvalidArg; }
      ghost var s0, pending := state, buf[..curlen];
      length := (length + curlen * 8) % TWO64;
      ghost var first := EndMessage(f, limit);
      ghost var last := buf[..curlen] + Zeros(padTo - curlen) + store(length);
      EndBlock(f, padTo, store(length));
      EndingBlocks(f, buf.Length, s0, pending, limit, padTo, store(length), first, last);
      return CryptOk;
    }
  
    // *_done after a message: the chaining words are those of the padded message.
    method Done(f: Compression<W>, limit: nat, padTo: nat, store: nat -> seq<bv8>, ghost iv: seq<W>,
        ghost msg: seq<bv8>)
      returns (status: Status)
      requires Absorbed(f, iv, msg) && limit <= padTo && padTo + 8 == buf.Length
      requires |store(Bits(|msg|))| == 8
      modifies this, buf
      ensures status == CryptOk && buf == old(buf)
      ensures state == Fold(f, buf.Length, iv,
                            Padded(msg, limit, buf.Length, Zeros(padTo - limit) + store(Bits(|msg|))))
    {
      hide Fold, Tail, Ending, Padded, Zeros, Bits, TWO64;
      ghost var bs := buf.Length;
      AllBits(length, curlen, |msg|);
      assert state == Fold(f, bs, iv, msg) && buf[..curlen] == Tail(msg, bs) && curlen < bs;
      DonePads(f, iv, msg, limit, padTo, store(Bits(|msg|)));
      status := Finish(f, limit, padTo, store);
    }
  }

  // Chunk independence from any state: two processes of `a` and `b` leave what one process
  // of `a + b` leaves in a second state that started out equal.
  method ProcessTwoWays<W>(f: Compression<W>, split: HashState<W>, joined: HashState<W>, a: seq<bv8>, b: seq<bv8>)
    requires split != joined && split.buf != joined.buf && split.buf.Length == joined.buf.Length
    requires split.curlen < split.buf.Length && split.SameAs(joined)
    modifies split, split.buf, joined, joined.buf
    ensures split.buf == old(split.buf) && joined.buf == old(joined.buf)
    ensures split.curlen < split.buf.Length && split.SameAs(joined)
  {
    hide Fold, Tail, TWO64;
    ghost var pending, s, n, bs := split.buf[..split.curlen], split.state, split.length, split.buf.Length;
    var status := split.Process(f, a);
    assert pending + [] == pending;
    StartAbsorbed(f, s, bs);
    SplitProcess(f, bs, s, n, pending, a, b);
    status := split.Process(f, b);
    status := joined.Process(f, a + b);
    assert [] + b == b && a + [] == a;
  }

  lemma SplitProcess<W>(f: Compression<W>, bs: nat, s: seq<W>, n: nat, pending: seq<bv8>, a: seq<bv8>, b: seq<bv8>)
    requires bs > 0
    ensures var first, both := pending + a, pending + (a + b);
      var second := Tail(first, bs) + b;
      && |second| % bs == |both| % bs && Tail(second, bs) == Tail(both, bs)
      && Fold(f, bs, Fold(f, bs, s, first), second) == Fold(f, bs, s, both)
      && Counted(Counted(n, |first|, bs), |second|, bs) == Counted(n, |both|, bs)
  {
    hide Fold, Tail, Counted;
    var first := pending + a;
    assert pending + (a + b) == first + b;
    AbsorbMore(f, bs, s, first, b);
    SplitCount(n, |first|, |b|, bs);
  }

  // The counter after the whole blocks of `len` bytes.
  function Counted(n: nat, len: nat, bs: nat): nat
    requires bs > 0
  {
    (n + 8 * (len - len % bs)) % TWO64
  }

  lemma SplitCount(n: nat, p: nat, q: nat, bs: nat)
    requires bs > 0 && (p % bs + q) % bs == (p + q) % bs
    ensures Counted(Counted(n, p, bs), p % bs + q, bs) == Counted(n, p + q, bs)
  {
    var r, t := p % bs, (p + q) % bs;
    AtMost(p, bs);
    AtMost(r + q, bs);
    CountTwice(n, p - r, r + q - t, p + q - t);
  }

  lemma AtMost(p: nat, bs: nat)
    requires bs > 0
    ensures p % bs <= p
  {
  }

  lemma CountTwice(n: nat, k: nat, j: nat, total: nat)
    requires k + j == total
    ensures ((n + 8 * k) % TWO64 + 8 * j) % TWO64 == (n + 8 * total) % TWO64
  {
    hide TWO64;
    Positive();
    SumMod(n + 8 * k, 8 * j, TWO64);
  }

  lemma AllBits(length: nat, curlen: nat, n: nat)
    requires curlen <= n && length == 8 * (n - curlen) % TWO64
    ensures (length + 8 * curlen) % TWO64 == Bits(n)
  {
    hide TWO64;
    Positive();
    CountSum(n - curlen, curlen, TWO64);
  }

  // Hashing a list of chunks: init, process for each, done.
  method HashChunks<W>(f: Compression<W>, iv: seq<W>, bs: nat, limit: nat, padTo: nat, store: nat -> seq<bv8>,
                       chunks: seq<seq<bv8>>) returns (words: seq<W>)
    requires limit <= padTo && padTo + 8 == bs && forall n :: |store(n)| == 8
    ensures words == Fold(f, bs, iv, Padded(Flatten(chunks), limit, bs,
        Zeros(padTo - limit) + store(Bits(|Flatten(chunks)|))))
  {
    hide Fold, Tail, Padded;
    var md := new HashState(iv, bs);
    StartAbsorbed(f, iv, bs);
    assert md.buf[..0] == [];
    var i := 0;
    assert chunks[..0] == [];
    while i < |chunks|
      invariant i <= |chunks| && fresh(md) && fresh(md.buf) && md.buf.Length == bs
      invariant md.Absorbed(f, iv, Flatten(chunks[..i]))
    {
      var status := md.Update(f, chunks[i], iv, Flatten(chunks[..i]));
      assert chunks[..i + 1][..i] == chunks[..i];
      i := i + 1;
    }
    assert chunks[..i] == chunks;
    var status := md.Done(f, limit, padTo, store, iv, Flatten(chunks));
    words := md.state;
  }

  lemma StartAbsorbed<W>(f: Compression<W>, iv: seq<W>, bs: nat)
    requires bs > 0
    ensures Fold(f, bs, iv, []) == iv && Tail([], bs) == []
  {
  }

  lemma {:induction false} ZerosAdd(a: nat, b: nat)
    ensures Zeros(a) + Zeros(b) == Zeros(a + b)
  {
    if b > 0 {
      ZerosAdd(a, b - 1);
      assert Zeros(a) + Zeros(b) == (Zeros(a) + Zeros(b - 1)) + [0];
    } else {
      assert Zeros(a) + [] == Zeros(a);
    }
  }

  lemma ZerosMatch(n: nat, limit: nat, padTo: nat)
    requires limit <= padTo
    ensures var bs := padTo + 8; var c := n % bs + 1;
      ZeroCount(n, limit, bs) + (padTo - limit) == if c <= limit then padTo - c else padTo + (bs - c)
  {
    var bs := padTo + 8;
    ShiftMod(n, 1, bs);
  }

  lemma DonePads<W>(f: Compression<W>, iv: seq<W>, msg: seq<bv8>, limit: nat, padTo: nat, field: seq<bv8>)
    requires limit <= padTo && |field| == 8
    ensures var bs := padTo + 8;
      Fold(f, bs, Fold(f, bs, iv, msg), Ending(Tail(msg, bs), limit, padTo, field))
      == Fold(f, bs, iv, Padded(msg, limit, bs, Zeros(padTo - limit) + field))
  {
    hide Fold, Tail, ZeroCount, Zeros, Ending;
    var bs := padTo + 8;
    var whole := WholeBlocks(msg, bs);
    var tail := Tail(msg, bs);
    FoldRest(f, bs, iv, whole, tail);
    FoldSplit(f, bs, iv, whole, Ending(tail, limit, padTo, field));
    var k := ZeroCount(|msg|, limit, bs);
    ZerosMatch(|msg|, limit, padTo);
    EndingZeros(tail, k, limit, padTo, field);
    assert whole + Ending(tail, limit, padTo, field) == msg + [0x80] + Zeros(k) + (Zeros(padTo - limit) + field);
  }

  lemma EndingZeros(tail: seq<bv8>, k: nat, limit: nat, padTo: nat, field: seq<bv8>)
    requires limit <= padTo && |field| == 8 && |tail| < padTo + 8
    requires var c := |tail| + 1;
      k + (padTo - limit) == if c <= limit then padTo - c else padTo + (padTo + 8 - c)
    ensures Ending(tail, limit, padTo, field) == tail + [0x80] + Zeros(k) + (Zeros(padTo - limit) + field)
  {
    hide Zeros;
    var c := |tail| + 1;
    ZerosAdd(k, padTo - limit);
    if c > limit {
      ZerosAdd(padTo + 8 - c, padTo);
      assert Ending(tail, limit, padTo, field) == tail + [0x80] + (Zeros(padTo + 8 - c) + Zeros(padTo)) + field;
    }
    assert tail + [0x80] + (Zeros(k) + Zeros(padTo - limit)) + field
        == tail + [0x80] + Zeros(k) + (Zeros(padTo - limit) + field);
  }

  // The last one or two blocks: pending bytes, 0x80, zeros up to `padTo`, and the counter.
  function Ending(pending: seq<bv8>, limit: nat, padTo: nat, field: seq<bv8>): seq<bv8>
    requires limit <= padTo && |field| == 8 && |pending| < padTo + 8
  {
    var c := |pending| + 1;
    if c <= limit then pending + [0x80] + Zeros(padTo - c) + field
    else (pending + [0x80] + Zeros(padTo + 8 - c)) + (Zeros(padTo) + field)
  }

  lemma EndingBlocks<W>(f: Compression<W>, bs: nat, s: seq<W>, pending: seq<bv8>, limit: nat, padTo: nat,
                        field: seq<bv8>, first: seq<bv8>, last: seq<bv8>)
    requires limit <= padTo && |field| == 8 && bs == padTo + 8 && |pending| < bs
    requires first + last == Ending(pending, limit, padTo, field)
    requires |last| == bs && (|first| == 0 || |first| == bs)
    ensures Fold(f, bs, s, Ending(pending, limit, padTo, field))
         == f(if first == [] then s else f(s, first), last)
  {
    OneFold(f, bs, s, []);
    if first == [] {
      assert [] + last == last;
    } else {
      assert [] + first == first;
      FoldBlock(f, bs, s, [], first);
    }
    ModUnique(bs, bs, 1, 0);
    FoldBlock(f, bs, s, first, last);
  }

  lemma OneFold<W>(f: Compression<W>, bs: nat, s: seq<W>, data: seq<bv8>)
    requires bs > 0 && |data| < bs
    ensures Fold(f, bs, s, data) == s
  {
  }

  lemma DirectBlock(data: seq<bv8>, i: nat, bs: nat, rest: seq<bv8>)
    requires i + bs <= |data| && rest == [] + data[i..]
    ensures |rest| >= bs && rest[..bs] == data[i..i + bs] && rest[bs..] == data[i + bs..]
  {
  }

  lemma BufferedBlock(block: seq<bv8>, after: seq<bv8>, rest: seq<bv8>)
    requires rest == block + after
    ensures rest[..|block|] == block && rest[|block|..] == after
  {
  }

  lemma PendingStarts<W>(f: Compression<W>, bs: nat, s: seq<W>, n: nat, all: seq<bv8>)
    requires bs > 0
    ensures Pending(f, bs, s, n, all, all, s, n)
  {
    assert all[..0] == [];
  }

  // After compressing all but `rest` of the bytes `all`.
  ghost predicate Pending<W>(f: Compression<W>, bs: nat, s0: seq<W>, n0: nat, all: seq<bv8>, rest: seq<bv8>,
      s: seq<W>, n: nat) {
    var k := |all| - |rest|;
    && bs > 0 && k >= 0 && k % bs == 0 && all[k..] == rest
    && s == Fold(f, bs, s0, all[..k])
    && n % TWO64 == (n0 + 8 * k) % TWO64
  }

  lemma BlockDone<W>(f: Compression<W>, bs: nat, s0: seq<W>, n0: nat, all: seq<bv8>, rest: seq<bv8>, s: seq<W>, n: nat)
    requires Pending(f, bs, s0, n0, all, rest, s, n) && |rest| >= bs
    ensures Pending(f, bs, s0, n0, all, rest[bs..], f(s, rest[..bs]), (n + 8 * bs) % TWO64)
  {
    hide Fold;
    var k := |all| - |rest|;
    assert all[..k + bs] == all[..k] + rest[..bs];
    assert all[k + bs..] == rest[bs..];
    FoldBlock(f, bs, s0, all[..k], rest[..bs]);
    NextMultiple(k, bs);
    CountStep(n, n0 + 8 * k, 8 * bs, TWO64);
  }

  lemma NextMultiple(n: nat, bs: nat)
    requires bs > 0 && n % bs == 0
    ensures (n + bs) % bs == 0
  {
    assert bs * (n / bs + 1) == bs * (n / bs) + bs;
    ModUnique(n + bs, bs, n / bs + 1, 0);
  }

  lemma CountStep(n: nat, m: nat, c: nat, d: nat)
    requires d > 0 && n % d == m % d
    ensures (n + c) % d % d == (m + c) % d
  {
    SumMod(n, c, d);
    SumMod(m, c, d);
    SmallMod((n + c) % d, d);
  }

  lemma SumMod(n: nat, c: nat, d: nat)
    requires d > 0
    ensures (n + c) % d == (n % d + c) % d
  {
    var q, r := n / d, n % d + c;
    assert d * (q + r / d) == d * q + d * (r / d);
    ModUnique(n + c, d, q + r / d, r % d);
  }

  lemma PendingEnds<W>(f: Compression<W>, bs: nat, s0: seq<W>, n0: nat, all: seq<bv8>, rest: seq<bv8>, s: seq<W>,
      n: nat)
    requires Pending(f, bs, s0, n0, all, rest, s, n) && |rest| < bs && n < TWO64
    ensures |rest| == |all| % bs && rest == Tail(all, bs)
    ensures s == Fold(f, bs, s0, all) && n == (n0 + 8 * (|all| - |rest|)) % TWO64
  {
    hide Fold, TWO64;
    var k := |all| - |rest|;
    assert all == all[..k] + rest;
    FoldRest(f, bs, s0, all[..k], rest);
    RestMod(|all|, k, |rest|, bs);
    SmallMod(n, TWO64);
  }

  lemma RestMod(n: nat, k: nat, r: nat, bs: nat)
    requires bs > 0 && k % bs == 0 && r < bs && n == k + r
    ensures n % bs == r
  {
    ModUnique(n, bs, k / bs, r);
  }

  lemma SmallMod(n: nat, d: nat)
    requires n < d
    ensures n % d == n
  {
    ModUnique(n, d, 0, n);
  }
}
