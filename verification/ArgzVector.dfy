/**
 The code of libltdl/argz.c and the ordered insertion of libltdl/ltdl.c on a growing block of
 bytes, proved against the entries the bytes stand for.
 */
module ArgzVector {
  import opened Shared
  import opened Argz
  import opened CStrings

  // --- ordered insertion ---

  // strcmp(a, b) < 0
  predicate Less(a: string, b: string) {
    b != "" && (a == "" || a[0] < b[0] || (a[0] == b[0] && Less(a[1..], b[1..])))
  }

  // The walk of lt_argz_insertinorder: in front of the first entry that is greater, and not
  // at all if the entry itself comes first.
  function Inserted(es: seq<string>, e: string): seq<string> {
    if es == [] then [e]
    else if Less(e, es[0]) then [e] + es
    else if e == es[0] then es
    else [es[0]] + Inserted(es[1..], e)
  }

  predicate Sorted(es: seq<string>) { forall i, j :: 0 <= i < j < |es| ==> Less(es[i], es[j]) }

  // The strings agree up to `k`, where the first one has the lesser character or its end.
  predicate DiffersAt(a: string, b: string, k: nat) {
    k <= |a| && k <= |b| && a[..k] == b[..k] && CharAt(a, k) < CharAt(b, k)
  }

  lemma SameHead(a: string, b: string, k: nat)
    requires DiffersAt(a, b, k)
    ensures k > 0 ==> a != "" && b != "" && a[0] == b[0]
  {
    assert k > 0 ==> a[..k][0] == a[0] && b[..k][0] == b[0];
  }

  // strcmp: the first difference decides.
  lemma {:induction false} LessIff(a: string, b: string)
    requires NUL !in a && NUL !in b
    ensures Less(a, b) <==> exists k: nat :: DiffersAt(a, b, k)
  {
    AtEnd(b, 0);
    if a == "" || b == "" || a[0] != b[0] {
      assert Less(a, b) ==> DiffersAt(a, b, 0);
      forall k: nat | DiffersAt(a, b, k) ensures k == 0 {
        SameHead(a, b, k);
      }
    } else {
      var p, q := a[1..], b[1..];
      LessIff(p, q);
      forall k: nat | DiffersAt(p, q, k) ensures DiffersAt(a, b, k + 1) {
        assert a[..k + 1] == [a[0]] + p[..k] && b[..k + 1] == [b[0]] + q[..k];
      }
      forall k: nat | DiffersAt(a, b, k) ensures k > 0 && DiffersAt(p, q, k - 1) {
        assert p[..k - 1] == a[..k][1..] && q[..k - 1] == b[..k][1..];
      }
    }
  }

  lemma {:induction false} LessTotal(a: string, b: string)
    ensures Less(a, b) || a == b || Less(b, a)
    ensures !(Less(a, b) && Less(b, a)) && (a == b ==> !Less(a, b))
  {
    if a != "" && b != "" {
      LessTotal(a[1..], b[1..]);
      assert a == [a[0]] + a[1..] && b == [b[0]] + b[1..];
    }
  }

  lemma {:induction false} LessTransitive(a: string, b: string, c: string)
    requires Less(a, b) && Less(b, c)
    ensures Less(a, c)
  {
    if a != "" && a[0] == b[0] && b[0] == c[0] {
      LessTransitive(a[1..], b[1..], c[1..]);
    }
  }

  // The vector stays strictly sorted, so without duplicates, and gains the entry.
  lemma {:induction false} InsertedSorted(es: seq<string>, e: string)
    requires Sorted(es)
    ensures Sorted(Inserted(es, e))
    ensures forall x :: x in Inserted(es, e) <==> x in es || x == e
  {
    hide Less;
    if es != [] {
      LessTotal(e, es[0]);
      InsertedSorted(es[1..], e);
      var r := Inserted(es, e);
      if Less(e, es[0]) {
        forall j | 0 <= j < |es| ensures Less(e, es[j]) {
          if j > 0 {
            LessTransitive(e, es[0], es[j]);
          }
        }
      } else if e != es[0] {
        var more := Inserted(es[1..], e);
        forall j | 0 <= j < |more| ensures Less(es[0], more[j]) {
          assert more[j] in more;
          if more[j] != e {
            var k :| 0 <= k < |es[1..]| && es[1..][k] == more[j];
          }
        }
      }
    }
  }

  // In any vector: the entry goes behind those before it that are less, up to the first
  // that is not, unless that is the entry itself.
  lemma {:induction false} InsertedAt(es: seq<string>, e: string, i: nat)
    requires i <= |es| && (forall j :: 0 <= j < i ==> Less(es[j], e)) && (i < |es| ==> !Less(es[i], e))
    ensures Inserted(es, e) == if i < |es| && es[i] == e then es else es[..i] + [e] + es[i..]
  {
    hide Less;
    if es != [] {
      LessTotal(e, es[0]);
      if i > 0 {
        assert Less(es[0], e);
        InsertedAt(es[1..], e, i - 1);
        assert es[..i] == [es[0]] + es[1..][..i - 1] && es[i..] == es[1..][i - 1..];
      }
    }
  }

  // Only one sorted vector has given entries.
  lemma {:induction false} SortedUnique(es: seq<string>, fs: seq<string>)
    requires Sorted(es) && Sorted(fs) && forall x :: x in es <==> x in fs
    ensures es == fs
  {
    hide Less;
    assert fs != [] ==> fs[0] in fs;
    if es != [] {
      assert es[0] in fs && fs != [];
      assert fs[0] in es;
      LessTotal(es[0], fs[0]);
      forall x ensures x in es[1..] <==> x in fs[1..] {
        LessTotal(es[0], es[0]);
        TailHas(es, x);
        TailHas(fs, x);
      }
      SortedUnique(es[1..], fs[1..]);
      assert es == [es[0]] + es[1..] && fs == [fs[0]] + fs[1..];
    }
  }

  lemma TailHas(es: seq<string>, x: string)
    requires es != [] && Sorted(es)
    ensures x in es[1..] <==> x in es && x != es[0]
  {
    hide Less;
    LessTotal(es[0], es[0]);
    if x in es && x != es[0] {
      var i :| 0 <= i < |es| && es[i] == x;
      assert es[1..][i - 1] == x;
    }
    if x in es[1..] {
      var i :| 0 <= i < |es[1..]| && es[1..][i] == x;
      assert es[i + 1] == x;
    }
  }

  function InsertedAll(es: seq<string>, names: seq<string>): seq<string> {
    if names == [] then es else Inserted(InsertedAll(es, names[..|names| - 1]), names[|names| - 1])
  }

  lemma {:induction false} InsertedAllSorted(es: seq<string>, names: seq<string>)
    requires Sorted(es)
    ensures Sorted(InsertedAll(es, names))
    ensures forall x :: x in InsertedAll(es, names) <==> x in es || x in names
  {
    if names != [] {
      var n := |names| - 1;
      InsertedAllSorted(es, names[..n]);
      InsertedSorted(InsertedAll(es, names[..n]), names[n]);
      assert names == names[..n] + [names[n]];
    }
  }

  // The order in which a directory lists its files does not matter, nor do repetitions.
  lemma AnyOrder(es: seq<string>, a: seq<string>, b: seq<string>)
    requires Sorted(es) && forall x :: x in a <==> x in b
    ensures InsertedAll(es, a) == InsertedAll(es, b)
  {
    InsertedAllSorted(es, a);
    InsertedAllSorted(es, b);
    SortedUnique(InsertedAll(es, a), InsertedAll(es, b));
  }

  // --- splitting, as the loop of argz_create_sep goes ---

  // The bytes still to be written; `open` says that an entry was begun.
  function Output(s: string, d: char, open: bool): string {
    if s == "" then [NUL]
    else if s[0] != d then [s[0]] + Output(s[1..], d, true)
    else if open then [NUL] + Output(s[1..], d, false)
    else Output(s[1..], d, false)
  }

  lemma {:induction false} OutputSplit(s: string, d: char)
    ensures Output(s, d, false) == Packed(Split(s, d))
    decreases |s|, 0
  {
    hide Packed;
    if s != "" && s[0] == d {
      OutputSplit(s[1..], d);
    } else if s == "" {
      PackedOne("");
    } else {
      OutputOpen(s, d);
      var k := Skip(s, d);
      if k == |s| {
        PackedOne(s);
      } else {
        OutputSplit(s[k + 1..], d);
        PackedConcat([s[..k]], Split(s[k + 1..], d));
        PackedOne(s[..k]);
      }
    }
  }

  lemma {:induction false} OutputOpen(s: string, d: char)
    ensures var k := Skip(s, d);
      Output(s, d, true) == if k == |s| then s + [NUL] else s[..k] + [NUL] + Output(s[k + 1..], d, false)
  {
    if s != "" && s[0] != d {
      OutputOpen(s[1..], d);
      var k := Skip(s[1..], d);
      assert s == [s[0]] + s[1..];
      if k < |s| - 1 {
        assert s[..k + 1] == [s[0]] + s[1..][..k] && s[1..][k + 1..] == s[k + 2..];
      }
    }
  }

  // --- joining ---

  // The NULs between the second byte and the last but one become separators.
  function Stringified(b: string, d: char): (r: string)
    ensures |r| == |b|
  {
    seq(|b|, i requires 0 <= i < |b| => if 0 < i < |b| - 1 && b[i] == NUL then d else b[i])
  }

  lemma {:induction false} JoinedPacked(es: seq<string>, d: char)
    requires es != [] && Entries(es)
    ensures |Joined(es, d)| + 1 == |Packed(es)|
    ensures forall i :: 0 <= i < |Joined(es, d)| ==>
      Joined(es, d)[i] == if Packed(es)[i] == NUL then d else Packed(es)[i]
  {
    hide Packed;
    var e, p, j := es[0], Packed(es), Joined(es, d);
    if |es| == 1 {
      PackedOne(e);
      assert es == [e];
    } else {
      JoinedPacked(es[1..], d);
      PackedConcat([e], es[1..]);
      PackedOne(e);
      assert es == [e] + es[1..] && p == e + [NUL] + Packed(es[1..]);
      forall i | 0 <= i < |j| ensures j[i] == if p[i] == NUL then d else p[i] {
        if i > |e| {
          assert j[i] == Joined(es[1..], d)[i - |e| - 1] && p[i] == Packed(es[1..])[i - |e| - 1];
        }
      }
    }
  }

  lemma StringifiedIs(b: string, d: char, r: string)
    requires |r| == |b|
    requires forall i :: 0 <= i < |b| ==> r[i] == if 0 < i < |b| - 1 && b[i] == NUL then d else b[i]
    ensures r == Stringified(b, d)
  {
  }

  // The string that argz_stringify leaves is the joined one, unless the first entry is
  // empty: the loop does not look at the first byte.
  lemma StringifiedIff(es: seq<string>, d: char)
    requires es != [] && Entries(es) && |Packed(es)| >= 2 && d != NUL
    ensures Stringified(Packed(es), d) == Joined(es, d) + [NUL] <==> es[0] != ""
  {
    hide Packed;
    JoinedPacked(es, d);
    PackedEnds(es);
    AtEntry(es, 0);
    var p, r, j := Packed(es), Stringified(Packed(es), d), Joined(es, d);
    assert es[..0] == [] && Start(es, 0) == 0 by { PackedEnds([]); }
    if es[0] == "" {
      assert r[0] == NUL && (j + [NUL])[0] == d;
    } else {
      assert p[0] == es[0][0] by { assert p[0..|es[0]|][0] == p[0]; }
      forall i | 0 <= i < |p| ensures r[i] == (j + [NUL])[i] {
      }
    }
  }

  // --- the code ---

  // memmove, then memcpy: the first `len` bytes make room at `at` for `piece`.
  method OpenGap(block: array<char>, at: nat, len: nat, piece: string)
    requires at <= len && len + |piece| == block.Length
    modifies block
    ensures block[..] == old(block[..at]) + piece + old(block[at..len])
  {
    ghost var head, tail := block[..at], block[at..len];
    forall k | at <= k < len {
      block[k + |piece|] := block[k];
    }
    assert block[..at] == head && block[at + |piece|..] == tail;
    forall k | 0 <= k < |piece| {
      block[at + k] := piece[k];
    }
    assert block[..at] == head && block[at..at + |piece|] == piece && block[at + |piece|..] == tail;
  }

  // A pointer to an argz vector and its length; block sizes are those that realloc was asked for.
  class Vector {
    var argz: array?<char>
    var len: nat

    // The two go together, as argz_next and its neighbours assert.
    ghost predicate Proper()
      reads this
    {
      (argz == null <==> len == 0) && (argz != null ==> len <= argz.Length)
    }

    // The vector holds these entries.
    ghost predicate Holds(es: seq<string>)
      reads this, argz
    {
      Proper() && Entries(es) && Bytes() == Packed(es)
    }

    ghost function Bytes(): string
      reads this, argz
      requires Proper()
    {
      if argz == null then "" else argz[..len]
    }

    constructor ()
      ensures Holds([])
    {
      argz, len := null, 0;
    }

    // A block of `size` bytes that begins with the old ones.
    method Realloc(size: nat) returns (block: array<char>)
      requires Proper() && len <= size
      ensures fresh(block) && block.Length == size && block[..len] == Bytes()
    {
      block := new char[size](_ => NUL);
      if argz != null {
        forall k | 0 <= k < len {
          block[k] := argz[k];
        }
      }
    }

    // argz_append
    method Append(buf: string)
      requires Proper()
      modifies this
      ensures Proper() && Bytes() == old(Bytes()) + buf && (argz == old(argz) || fresh(argz))
    {
      if buf == "" { return; }
      var block := Realloc(len + |buf|);
      ghost var before := Bytes();
      forall k | 0 <= k < |buf| {
        block[len + k] := buf[k];
      }
      assert block[..] == before + buf;
      argz, len := block, len + |buf|;
    }

    // argz_add
    method Add(entry: string, ghost es: seq<string>)
      requires Holds(es) && Lacks(entry, NUL)
      modifies this
      ensures Holds(es + [entry])
    {
      hide Packed;
      PackedConcat(es, [entry]);
      PackedOne(entry);
      Append(entry + [NUL]);
    }

    // argz_create_sep
    method CreateSep(str: string, delim: char)
      requires Lacks(str, NUL)
      modifies this
      ensures Holds(Split(str, delim)) && fresh(argz)
    {
      hide Packed, Split;
      var block := new char[1 + |str|];
      var argzLen := 1 + |str|;
      var p: nat, q: nat := 0, 0;
      assert str[0..] == str && block[..0] == "";
      while CharAt(str, p) != NUL
        invariant q <= p <= |str| && block.Length == 1 + |str| && argzLen + p == 1 + |str| + q
        invariant Output(str, delim, false)
               == block[..q] + Output(str[p..], delim, q > 0 && block[q - 1] != NUL)
        decreases |str| - p
      {
        Step(str, p);
        ghost var before := block[..q];
        ghost var open := q > 0 && block[q - 1] != NUL;
        if CharAt(str, p) == delim {
          if q > 0 && block[q - 1] != NUL {
            block[q] := NUL;
            q := q + 1;
            Written(before, block[..q], NUL, Output(str[p + 1..], delim, false));
          } else {
            argzLen := argzLen - 1;
          }
        } else {
          block[q] := str[p];
          q := q + 1;
          Written(before, block[..q], str[p], Output(str[p + 1..], delim, true));
        }
        p := p + 1;
      }
      assert p == |str|;
      block[q] := NUL;
      argz, len := block, argzLen;
      assert argz[..len] == argz[..q] + [NUL];
      OutputSplit(str, delim);
      SplitEntries(str, delim);
    }

    // argz_next: the offset of the entry behind the one at `entry`, the first one for None.
    method Next(entry: Option<nat>, ghost es: seq<string>, ghost i: nat) returns (r: Option<nat>)
      requires Holds(es) && (entry.Some? ==> i < |es| && Start(es, i) <= entry.value <= Start(es, i) + |es[i]|)
      ensures entry.None? ==> r == if es == [] then None else Some(0)
      ensures entry.Some? ==> r == if i + 1 == |es| then None else Some(Start(es, i + 1))
    {
      hide Packed;
      PackedEnds(es);
      if entry.None? {
        if len > 0 { return Some(0); }
        return None;
      }
      AtEntry(es, i);
      ghost var b, s := Bytes(), Start(es, i);
      assert forall q :: s <= q < s + |es[i]| ==> b[s..s + |es[i]|][q - s] == b[q];
      assert forall q :: 0 <= q < len ==> argz[q] == b[q];
      var k := entry.value;
      while argz[k] != NUL
        invariant entry.value <= k <= s + |es[i]|
        decreases s + |es[i]| - k
      {
        k := k + 1;
      }
      k := k + 1;
      if k >= len { return None; }
      return Some(k);
    }

    // argz_insert: in front of the entry that `before` points into.
    method Insert(before: Option<nat>, entry: string, ghost es: seq<string>, ghost i: nat)
      requires Holds(es) && Lacks(entry, NUL) && entry != "" && i <= |es|
      requires before.None? ==> i == |es|
      requires before.Some? ==> argz != null && Start(es, i) <= before.value
      requires before.Some? ==> before.value <= if i < |es| then Start(es, i) + |es[i]| else len
      modifies this
      ensures Holds(es[..i] + [entry] + es[i..])
    {
      hide Packed;
      if before.None? {
        Add(entry, es);
        assert es[..i] + [entry] + es[i..] == es + [entry];
        return;
      }
      var at := ScanBack(before.value, es, i);
      Halves(es, i);
      var entryLen := 1 + |entry|;
      var block := Realloc(len + entryLen);
      OpenGap(block, at, len, entry + [NUL]);
      argz, len := block, len + entryLen;
      assert argz[..len] == block[..];
      PackedAround(es[..i], entry, es[i..]);
    }

    // Back to the first byte of the entry.
    method ScanBack(before: nat, ghost es: seq<string>, ghost i: nat) returns (at: nat)
      requires Holds(es) && i <= |es| && argz != null && Start(es, i) <= before
      requires before <= if i < |es| then Start(es, i) + |es[i]| else len
      ensures at == Start(es, i) && at <= len
    {
      hide Packed;
      ghost var b, s := Bytes(), Start(es, i);
      Halves(es, i);
      PackedEnds(es[..i]);
      assert s > 0 ==> b[s - 1] == b[..s][s - 1] == NUL;
      if i < |es| {
        AtEntry(es, i);
        assert forall k :: s <= k < s + |es[i]| ==> b[k] == b[s..s + |es[i]|][k - s];
      } else {
        assert es[..i] == es;
      }
      at := before;
      assert forall q :: 0 <= q < len ==> argz[q] == b[q];
      while at > 0 && argz[at - 1] != NUL
        invariant s <= at <= before
      {
        at := at - 1;
      }
    }

    // What *(argz + offset) is as a string.
    method StringAt(offset: nat) returns (s: string)
      requires Proper() && offset < len && NUL in Bytes()[offset..]
      ensures s == CString(Bytes(), offset)
    {
      hide Skip;
      ghost var more := Bytes()[offset..];
      ghost var e := offset + Skip(more, NUL);
      HasStop(more, NUL);
      assert forall q :: offset <= q <= e ==> argz[q] == more[q - offset];
      var k := offset;
      while argz[k] != NUL
        invariant offset <= k <= e
        decreases e - k
      {
        k := k + 1;
      }
      s := argz[offset..k];
    }

    // lt_argz_insertinorder
    method InsertInOrder(entry: string, ghost es: seq<string>)
      requires Holds(es) && Lacks(entry, NUL) && entry != ""
      modifies this
      ensures Holds(Inserted(es, entry))
    {
      hide Packed, Inserted, Less;
      var before: Option<nat> := None;
      ghost var i: nat := 0;
      assert es[..0] == [] && es[0..] == es;
      if argz != null {
        before := Next(None, es, 0);
        PackedEnds(es);
        assert Start(es, 0) == 0 by { PackedEnds([]); }
        assert [] + Inserted(es, entry) == Inserted(es, entry);
        while before.Some?
          invariant i <= |es| && before == if i < |es| then Some(Start(es, i)) else None
          invariant Holds(es) && argz == old(argz) && len == old(len) && argz != null
          invariant Inserted(es, entry) == es[..i] + Inserted(es[i..], entry)
          decreases |es| - i
        {
          InsertedStep(es, entry, i);
          EntryString(es, i);
          var other := StringAt(before.value);
          if Less(entry, other) { break; }
          if entry == other { return; }
          before := Next(before, es, i);
          i := i + 1;
        }
      } else {
        PackedEnds(es);
      }
      if before.None? {
        LastInserted(entry);
        assert i == |es| && es[i..] == [];
        assert [] + Inserted(es, entry) == Inserted(es, entry);
        assert es[..i] + [entry] + es[i..] == es[..i] + Inserted(es[i..], entry);
      }
      Insert(before, entry, es, i);
    }

    // argz_stringify; with fewer than two bytes the length wraps below zero, and the loop
    // leaves the block.
    method Stringify(sep: char) returns (overrun: bool)
      requires Proper()
      modifies argz
      ensures overrun <==> sep != NUL && len < 2
      ensures overrun || sep == NUL ==> Bytes() == old(Bytes())
      ensures !overrun && sep != NUL ==> Bytes() == Stringified(old(Bytes()), sep)
    {
      if sep == NUL { return false; }
      if len < 2 { return true; }
      ghost var before := argz[..len];
      var n := len - 1;
      n := n - 1;
      while n > 0
        invariant 0 <= n <= len - 2
        invariant forall k :: 0 <= k < len ==>
          argz[k] == if n < k < len - 1 && before[k] == NUL then sep else before[k]
      {
        if argz[n] == NUL {
          argz[n] := sep;
        }
        n := n - 1;
      }
      StringifiedIs(before, sep, argz[..len]);
      return false;
    }

    // argz_count
    method Count(ghost es: seq<string>) returns (count: nat)
      requires Holds(es)
      ensures count == |es|
    {
      hide Packed;
      count := 0;
      var at, left := 0, len;
      assert es[..0] == [] && Start(es, 0) == 0 by { PackedEnds([]); }
      PackedEnds(es);
      while left > 0
        invariant count <= |es| && at == Start(es, count) && at + left == len && left >= 0
        decreases left
      {
        Unfinished(es, count);
        AtEntry(es, count);
        EntryString(es, count);
        var part := StringAt(at);
        at := at + |part| + 1;
        left := left - (|part| + 1);
        count := count + 1;
      }
      Finished(es, count);
    }

    // Joining in place and splitting again gives the bytes back exactly when no entry holds
    // the separator and none but the last is empty.
    method JoinAndSplit(sep: char, ghost es: seq<string>)
      requires Holds(es) && es != [] && len >= 2 && sep != NUL
      modifies this, argz
      ensures Proper() && (Bytes() == old(Bytes()) <==> Plain(es, sep))
    {
      hide Packed, Split, Joined, Plain;
      var overrun := Stringify(sep);
      StringifiedFirst(es, sep);
      var joined := StringAt(0);
      CreateSep(joined, sep);
      if es[0] == "" {
        EmptyFirst(es, sep);
      } else {
        SplitJoinedIff(es, sep);
        SplitEntries(joined, sep);
        if Packed(Split(joined, sep)) == Packed(es) {
          PackedUnique(Split(joined, sep), es);
        }
      }
    }
  }

  function CString(b: string, offset: nat): string
    requires offset <= |b|
  {
    b[offset..][..Skip(b[offset..], NUL)]
  }

  lemma HasStop(s: string, c: char)
    requires c in s
    ensures Skip(s, c) < |s|
  {
    var i :| 0 <= i < |s| && s[i] == c;
  }

  // An entry as the string at its offset.
  lemma EntryString(es: seq<string>, i: nat)
    requires i < |es| && Entries(es)
    ensures Start(es, i) < |Packed(es)| && NUL in Packed(es)[Start(es, i)..]
    ensures CString(Packed(es), Start(es, i)) == es[i]
  {
    hide Packed;
    Halves(es, i);
    Around(es, i);
    FirstEntry(es[i], Packed(es[i + 1..]));
    assert Packed(es[i..])[|es[i]|] == NUL;
  }

  // The string that stands in a joined vector.
  lemma StringifiedFirst(es: seq<string>, d: char)
    requires es != [] && Entries(es) && |Packed(es)| >= 2 && d != NUL
    ensures var b := Stringified(Packed(es), d);
      NUL in b[0..] && CString(b, 0) == if es[0] == "" then "" else Joined(es, d)
  {
    hide Packed;
    var b, j := Stringified(Packed(es), d), Joined(es, d);
    assert b[0..] == b;
    if es[0] == "" {
      AtEntry(es, 0);
      assert es[..0] == [] && Start(es, 0) == 0 by { PackedEnds([]); }
      assert b[0] == NUL;
    } else {
      StringifiedIff(es, d);
      JoinedLacksNul(es, d);
      FirstEntry(j, "");
      assert b == j + [NUL] + "";
    }
  }

  lemma PackedAround(a: seq<string>, e: string, b: seq<string>)
    ensures Packed(a + [e] + b) == Packed(a) + (e + [NUL]) + Packed(b)
  {
    hide Packed;
    PackedConcat(a, [e]);
    PackedConcat(a + [e], b);
    PackedOne(e);
  }

  lemma Written(before: string, now: string, c: char, rest: string)
    requires now == before + [c]
    ensures before + ([c] + rest) == now + rest
  {
  }

  lemma SplitEntries(s: string, d: char)
    requires Lacks(s, NUL)
    ensures Entries(Split(s, d))
  {
    if d == NUL {
      SplitLast(s, d);
    } else {
      SplitPlain(s, d);
    }
  }

  lemma InsertedStep(es: seq<string>, e: string, i: nat)
    requires i < |es| && Inserted(es, e) == es[..i] + Inserted(es[i..], e)
    ensures Less(e, es[i]) ==> Inserted(es, e) == es[..i] + [e] + es[i..]
    ensures !Less(e, es[i]) && e == es[i] ==> Inserted(es, e) == es
    ensures !Less(e, es[i]) && e != es[i] ==> Inserted(es, e) == es[..i + 1] + Inserted(es[i + 1..], e)
  {
    hide Less;
    assert es[i..][0] == es[i] && es[i..][1..] == es[i + 1..];
    InsertedFirst(es[i..], e);
    hide Inserted;
    Parts(es, i, e, Inserted(es[i + 1..], e));
  }

  lemma InsertedFirst(es: seq<string>, e: string)
    requires es != []
    ensures Inserted(es, e) ==
      if Less(e, es[0]) then [e] + es else if e == es[0] then es else [es[0]] + Inserted(es[1..], e)
  {
  }

  lemma Parts(es: seq<string>, i: nat, e: string, more: seq<string>)
    requires i < |es|
    ensures es[..i] + ([e] + es[i..]) == es[..i] + [e] + es[i..] && es[..i] + es[i..] == es
    ensures es[..i] + ([es[i]] + more) == es[..i + 1] + more
  {
  }

  lemma LastInserted(e: string)
    ensures Inserted([], e) == [e]
  {
  }

  lemma Unfinished(es: seq<string>, i: nat)
    requires i <= |es| && Start(es, i) < |Packed(es)|
    ensures i < |es|
  {
    assert es[..|es|] == es;
  }

  lemma Finished(es: seq<string>, i: nat)
    requires i <= |es| && Start(es, i) == |Packed(es)|
    ensures i == |es|
  {
    Halves(es, i);
    PackedEnds(es[i..]);
  }

  lemma {:induction false} JoinedLacksNul(es: seq<string>, d: char)
    requires es != [] && Entries(es) && d != NUL
    ensures Lacks(Joined(es, d), NUL)
  {
    if |es| > 1 {
      JoinedLacksNul(es[1..], d);
    }
  }

  // With an empty first entry only that one is left.
  lemma EmptyFirst(es: seq<string>, d: char)
    requires es != [] && es[0] == "" && |Packed(es)| >= 2
    ensures Packed(Split("", d)) != Packed(es) && !Plain(es, d)
  {
    PackedOne("");
    assert es == [""] + es[1..];
    PackedConcat([""], es[1..]);
    PackedEnds(es[1..]);
  }
}
