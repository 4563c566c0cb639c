/**
 The packed string vectors of libltdl/argz.c and their ordered insertion in
 libltdl/ltdl.c: the bytes always are the entries, each with its NUL.
 */
module Argz {
  import opened CStrings

  // --- what the bytes stand for ---

  function Packed(es: seq<string>): string {
    if es == [] then "" else es[0] + [NUL] + Packed(es[1..])
  }

  predicate Entries(es: seq<string>) { forall i :: 0 <= i < |es| ==> Lacks(es[i], NUL) }

  // Where entry `i` starts.
  function Start(es: seq<string>, i: nat): nat
    requires i <= |es|
  {
    |Packed(es[..i])|
  }

  lemma {:induction false} PackedConcat(a: seq<string>, b: seq<string>)
    ensures Packed(a + b) == Packed(a) + Packed(b)
  {
    if a == [] {
      assert a + b == b;
    } else {
      assert (a + b)[1..] == a[1..] + b;
      PackedConcat(a[1..], b);
    }
  }

  lemma PackedOne(e: string)
    ensures Packed([e]) == e + [NUL]
  {
    assert [e][1..] == [];
  }

  // The bytes up to an entry, the entry, and the bytes behind it.
  lemma Around(es: seq<string>, i: nat)
    requires i < |es|
    ensures Packed(es) == Packed(es[..i]) + (es[i] + [NUL] + Packed(es[i + 1..]))
    ensures Packed(es[i..]) == es[i] + [NUL] + Packed(es[i + 1..])
    ensures Packed(es[..i + 1]) == Packed(es[..i]) + (es[i] + [NUL])
  {
    assert es[i..][0] == es[i] && es[i..][1..] == es[i + 1..];
    assert Packed(es[i..]) == es[i] + [NUL] + Packed(es[i + 1..]);
    hide Packed;
    Cut(es, i);
    PackedConcat(es[..i], es[i..]);
    PackedConcat(es[..i], [es[i]]);
    PackedOne(es[i]);
  }

  lemma Cut(es: seq<string>, i: nat)
    requires i < |es|
    ensures es == es[..i] + es[i..] && es[..i + 1] == es[..i] + [es[i]]
  {
  }

  lemma Slices(x: string, e: string, y: string)
    ensures var b, s := x + (e + [NUL] + y), |x|;
      && |b| == s + |e| + 1 + |y| && b[..s] == x && b[s..] == e + [NUL] + y
      && b[s..s + |e|] == e && b[s + |e|] == NUL && b[s + |e| + 1..] == y
      && (s > 0 ==> b[s - 1] == x[s - 1])
  {
  }

  // What the code reads around entry `i`.
  lemma AtEntry(es: seq<string>, i: nat)
    requires i < |es|
    ensures var b, s, e := Packed(es), Start(es, i), es[i];
      && Start(es, i + 1) == s + |e| + 1 <= |b| && b[s..s + |e|] == e && b[s + |e|] == NUL
      && (i + 1 == |es| <==> Start(es, i + 1) == |b|)
      && (s > 0 ==> b[s - 1] == NUL)
  {
    hide Packed;
    Around(es, i);
    Slices(Packed(es[..i]), es[i], Packed(es[i + 1..]));
    PackedEnds(es[..i]);
    PackedEnds(es[i + 1..]);
  }

  // The bytes before and from entry `i`.
  lemma Halves(es: seq<string>, i: nat)
    requires i <= |es|
    ensures Start(es, i) <= |Packed(es)|
    ensures Packed(es)[..Start(es, i)] == Packed(es[..i]) && Packed(es)[Start(es, i)..] == Packed(es[i..])
  {
    hide Packed;
    assert es == es[..i] + es[i..];
    PackedConcat(es[..i], es[i..]);
  }

  lemma {:induction false} PackedEnds(es: seq<string>)
    ensures es == [] <==> Packed(es) == ""
    ensures es != [] ==> Packed(es)[|Packed(es)| - 1] == NUL
  {
    if es != [] {
      PackedEnds(es[1..]);
    }
  }

  // Equal bytes are equal entries.
  lemma {:induction false} PackedUnique(es: seq<string>, fs: seq<string>)
    requires Entries(es) && Entries(fs) && Packed(es) == Packed(fs)
    ensures es == fs
  {
    PackedEnds(es);
    PackedEnds(fs);
    if es != [] {
      FirstEntry(es[0], Packed(es[1..]));
      FirstEntry(fs[0], Packed(fs[1..]));
      PackedUnique(es[1..], fs[1..]);
      assert es == [es[0]] + es[1..] && fs == [fs[0]] + fs[1..];
    }
  }

  lemma FirstEntry(e: string, more: string)
    requires Lacks(e, NUL)
    ensures var b := e + [NUL] + more;
      Skip(b, NUL) == |e| && b[..|e|] == e && b[|e| + 1..] == more
  {
    var b := e + [NUL] + more;
    assert b[|e|] == NUL && forall i :: 0 <= i < |e| ==> b[i] == e[i];
    hide Skip;
    var k := Skip(b, NUL);
    assert k == |e|;
  }

  // --- splitting and joining ---

  // The part behind the delimiters at the start.
  function Trim(s: string, d: char): (t: string)
    ensures |t| <= |s| && (t != "" ==> t[0] != d)
  {
    if s != "" && s[0] == d then Trim(s[1..], d) else s
  }

  // Delimiters at the start are dropped and runs count once; one at the end leaves an
  // empty last entry.
  function Split(s: string, d: char): (es: seq<string>)
    ensures es != []
    decreases |s|
  {
    var t := Trim(s, d);
    var k := Skip(t, d);
    if k == |t| then [t] else [t[..k]] + Split(t[k + 1..], d)
  }

  function Joined(es: seq<string>, d: char): string
    requires es != []
  {
    if |es| == 1 then es[0] else es[0] + [d] + Joined(es[1..], d)
  }

  // Every entry is free of the delimiter, and only the last may be empty.
  predicate Plain(es: seq<string>, d: char) {
    forall i :: 0 <= i < |es| ==> Lacks(es[i], d) && (i + 1 < |es| ==> es[i] != "")
  }

  lemma {:induction false} SplitPlain(s: string, d: char)
    ensures Plain(Split(s, d), d) && (Lacks(s, NUL) && d != NUL ==> Entries(Split(s, d)))
    decreases |s|
  {
    TrimLacks(s, d);
    var t := Trim(s, d);
    var k := Skip(t, d);
    if k < |t| {
      SplitPlain(t[k + 1..], d);
    }
  }

  lemma {:induction false} TrimLacks(s: string, d: char)
    ensures Lacks(s, NUL) ==> Lacks(Trim(s, d), NUL)
  {
    if s != "" && s[0] == d {
      TrimLacks(s[1..], d);
    }
  }

  lemma {:induction false} SplitJoined(es: seq<string>, d: char)
    requires es != [] && Plain(es, d)
    ensures Split(Joined(es, d), d) == es
  {
    var s := Joined(es, d);
    if |es| == 1 {
      SplitLast(es[0], d);
    } else {
      SplitJoined(es[1..], d);
      SplitFirst(es[0], Joined(es[1..], d), d);
      assert es == [es[0]] + es[1..];
    }
  }

  lemma SplitLast(e: string, d: char)
    requires Lacks(e, d)
    ensures Split(e, d) == [e]
  {
    hide Skip;
    var k := Skip(e, d);
  }

  lemma SplitFirst(e: string, more: string, d: char)
    requires Lacks(e, d) && e != ""
    ensures Split(e + [d] + more, d) == [e] + Split(more, d)
  {
    hide Skip;
    var s := e + [d] + more;
    assert s[|e|] == d && forall i :: 0 <= i < |e| ==> s[i] == e[i];
    assert Trim(s, d) == s && Skip(s, d) == |e| && s[..|e|] == e && s[|e| + 1..] == more;
  }

  // Joining and splitting gives a vector back exactly when it is plain.
  lemma SplitJoinedIff(es: seq<string>, d: char)
    requires es != []
    ensures Split(Joined(es, d), d) == es <==> Plain(es, d)
  {
    SplitPlain(Joined(es, d), d);
    if Plain(es, d) {
      SplitJoined(es, d);
    }
  }
}
