/**
 canonicalize_path of libltdl/ltdl.c for a search path with ':' between its elements and no
 second directory separator.
 */
module PathCanon {
  import opened CStrings

  // What the loop copies; `empty` says that nothing was copied yet.
  function Canon(s: string, empty: bool): (c: string)
    ensures |c| <= |s|
    decreases |s|
  {
    if s == "" then "" else
      var n := CharAt(s, 1);
      if s[0] == ':' && (empty || n == ':' || n == NUL) then Canon(s[1..], empty)
      else if s[0] != '/' then [s[0]] + Canon(s[1..], false)
      else if n != ':' && n != NUL && n != '/' then "/" + Canon(s[1..], false)
      else Canon(s[1..], empty)
  }

  // canonicalize_path
  method CanonicalizePath(path: string) returns (out: string)
    requires path != "" && NUL !in path
    ensures out == Canon(path, true) && |out| <= |path|
  {
    hide Canon;
    var canonical := new char[1 + |path|];
    var dest: nat, src: nat := 0, 0;
    assert path[0..] == path && canonical[..0] == "";
    while CharAt(path, src) != NUL
      invariant dest <= src <= |path| && canonical.Length == 1 + |path|
      invariant Canon(path, true) == canonical[..dest] + Canon(path[src..], dest == 0)
      decreases |path| - src
    {
      CanonStep(path, src, dest == 0);
      ghost var before := canonical[..dest];
      var c := CharAt(path, src);
      var n := CharAt(path, 1 + src);
      if c == ':' && (dest == 0 || n == ':' || n == NUL) {
      } else if c != '/' {
        canonical[dest] := c;
        dest := dest + 1;
        Copied(before, canonical[..dest], c, Canon(path[src + 1..], false));
      } else if n != ':' && n != NUL && n != '/' {
        canonical[dest] := '/';
        dest := dest + 1;
        Copied(before, canonical[..dest], '/', Canon(path[src + 1..], false));
      }
      src := src + 1;
    }
    AtEnd(path, src);
    canonical[dest] := NUL;
    CanonEnd();
    assert path[src..] == "";
    out := canonical[..dest];
    assert out + "" == out;
  }

  lemma CanonStep(path: string, i: nat, empty: bool)
    requires i < |path|
    ensures var c, n, more := path[i], CharAt(path, i + 1), path[i + 1..];
      Canon(path[i..], empty) ==
        if c == ':' && (empty || n == ':' || n == NUL) then Canon(more, empty)
        else if c != '/' then [c] + Canon(more, false)
        else if n != ':' && n != NUL && n != '/' then "/" + Canon(more, false)
        else Canon(more, empty)
  {
    Step(path, i);
  }

  lemma CanonEnd()
    ensures Canon("", true) == "" && Canon("", false) == ""
  {
  }

  lemma Copied(before: string, now: string, c: char, rest: string)
    requires now == before + [c]
    ensures before + ([c] + rest) == now + rest
  {
  }

  // --- what never stands in the result ---

  // A slash is followed by something that is neither a slash nor a separator.
  predicate Tidy(c: string) {
    forall i :: 0 <= i < |c| && c[i] == '/' ==> i + 1 < |c| && c[i + 1] != '/' && c[i + 1] != ':'
  }

  // No `//`, no `/:`, no `/` at the end, and no `:` at the start.
  lemma {:induction false} ResultTidy(s: string, empty: bool)
    requires NUL !in s
    ensures Tidy(Canon(s, empty)) && (empty && Canon(s, empty) != "" ==> Canon(s, empty)[0] != ':')
    decreases |s|
  {
    if s != "" {
      var n := CharAt(s, 1);
      var c := Canon(s, empty);
      if s[0] == ':' && (empty || n == ':' || n == NUL) {
        ResultTidy(s[1..], empty);
      } else if s[0] != '/' {
        ResultTidy(s[1..], false);
        TidyAfter(s[0], Canon(s[1..], false));
      } else if n != ':' && n != NUL && n != '/' {
        ResultTidy(s[1..], false);
        assert s[1..][0] == n;
        TidyAfter('/', Canon(s[1..], false));
      } else {
        ResultTidy(s[1..], empty);
      }
    }
  }

  lemma TidyAfter(c: char, rest: string)
    requires Tidy(rest) && (c == '/' ==> rest != "" && rest[0] != '/' && rest[0] != ':')
    ensures Tidy([c] + rest)
  {
    var r := [c] + rest;
    forall i | 0 <= i < |r| && r[i] == '/' ensures i + 1 < |r| && r[i + 1] != '/' && r[i + 1] != ':' {
      assert i > 0 ==> r[i] == rest[i - 1];
    }
  }

  // --- element by element ---

  function Elements(p: string): (es: seq<string>)
    ensures es != []
    decreases |p|
  {
    var k := Skip(p, ':');
    if k == |p| then [p] else [p[..k]] + Elements(p[k + 1..])
  }

  // One element with its runs of slashes reduced to one, and none at the end.
  function Squeeze(e: string): (c: string)
    ensures |c| <= |e|
  {
    if e == "" then ""
    else if e[0] == '/' && (|e| == 1 || e[1] == '/') then Squeeze(e[1..])
    else [e[0]] + Squeeze(e[1..])
  }

  // The elements behind the first one kept: an empty one is dropped, one of slashes only
  // leaves an empty one.
  function Behind(es: seq<string>): string {
    if es == [] then "" else (if es[0] == "" then "" else ":" + Squeeze(es[0])) + Behind(es[1..])
  }

  // The result: nothing of the elements before the first with more than slashes.
  function Kept(es: seq<string>): string {
    if es == [] then "" else if Squeeze(es[0]) == "" then Kept(es[1..]) else Squeeze(es[0]) + Behind(es[1..])
  }

  // The loop over one element.
  lemma {:induction false} CanonElement(e: string, rest: string, empty: bool)
    requires Lacks(e, ':') && Lacks(e, NUL) && (rest == "" || rest[0] == ':')
    ensures Canon(e + rest, empty) == Squeeze(e) + Canon(rest, empty && Squeeze(e) == "")
    decreases |e|
  {
    hide Canon;
    if e == "" {
      assert e + rest == rest && "" + Canon(rest, empty) == Canon(rest, empty);
    } else {
      var dropped := e[0] == '/' && (|e| == 1 || e[1] == '/');
      CanonFirst(e, rest, empty);
      CanonElement(e[1..], rest, dropped && empty);
      if !dropped {
        assert [e[0]] + (Squeeze(e[1..]) + Canon(rest, false)) == Squeeze(e) + Canon(rest, false);
      }
    }
  }

  lemma CanonFirst(e: string, rest: string, empty: bool)
    requires e != "" && Lacks(e, ':') && Lacks(e, NUL) && (rest == "" || rest[0] == ':')
    ensures Canon(e + rest, empty) ==
      if e[0] == '/' && (|e| == 1 || e[1] == '/') then Canon(e[1..] + rest, empty)
      else [e[0]] + Canon(e[1..] + rest, false)
  {
    var s := e + rest;
    assert s[0] == e[0] && s[1..] == e[1..] + rest;
    assert CharAt(s, 1) == if |e| > 1 then e[1] else CharAt(rest, 0);
  }

  lemma {:induction false} CanonElements(p: string, empty: bool)
    requires Lacks(p, NUL)
    ensures var es := Elements(p);
      Canon(p, empty) == if empty then Kept(es) else Squeeze(es[0]) + Behind(es[1..])
    decreases |p|
  {
    hide Squeeze, Canon, Lacks;
    var k := Skip(p, ':');
    var e, rest := p[..k], p[k..];
    ElementLacks(p);
    CanonElement(e, rest, empty);
    if k == |p| {
      assert e == p && rest == "" && Elements(p) == [p] && [p][1..] == [];
      CanonEnd();
      assert Squeeze(p) + "" == Squeeze(p);
    } else {
      var more := p[k + 1..];
      assert rest[0] == ':' && rest[1..] == more;
      assert Elements(p) == [e] + Elements(more) && ([e] + Elements(more))[1..] == Elements(more);
      CanonSeparator(rest, empty && Squeeze(e) == "");
      CanonElements(more, empty && Squeeze(e) == "");
      FirstElement(more);
      BehindStep(Elements(more));
      hide Elements, Behind;
      Regroup("", Kept(Elements(more)), "");
    }
  }

  lemma ElementLacks(p: string)
    requires Lacks(p, NUL)
    ensures var k := Skip(p, ':');
      && p == p[..k] + p[k..] && Lacks(p[..k], ':') && Lacks(p[..k], NUL) && Lacks(p[k..], NUL)
      && (k < |p| ==> Lacks(p[k + 1..], NUL))
  {
    hide Skip, Lacks;
    var k := Skip(p, ':');
    StartLacks(p, k);
    PartsLack(p, k);
    if k < |p| {
      PartsLack(p, k + 1);
    }
    Halves(p, k);
  }

  lemma StartLacks(p: string, k: nat)
    requires k <= |p| && forall i :: 0 <= i < k ==> p[i] != ':'
    ensures Lacks(p[..k], ':')
  {
  }

  lemma PartsLack(p: string, k: nat)
    requires k <= |p| && Lacks(p, NUL)
    ensures Lacks(p[..k], NUL) && Lacks(p[k..], NUL)
  {
  }

  lemma Halves(p: string, k: nat)
    requires k <= |p|
    ensures p == p[..k] + p[k..]
  {
  }

  lemma CanonSeparator(rest: string, empty: bool)
    requires rest != "" && rest[0] == ':' && Lacks(rest, NUL)
    ensures var more := rest[1..];
      Canon(rest, empty) == (if empty || more == "" || more[0] == ':' then "" else ":") + Canon(more, empty)
  {
    assert rest[1..] != "" ==> rest[1..][0] == rest[1];
  }

  lemma FirstElement(p: string)
    ensures Elements(p)[0] == "" <==> p == "" || p[0] == ':'
  {
  }

  lemma BehindStep(es: seq<string>)
    requires es != []
    ensures Behind(es) == (if es[0] == "" then "" else ":") + (Squeeze(es[0]) + Behind(es[1..]))
  {
    hide Squeeze;
    if es[0] == "" {
      EmptySqueezed();
      Regroup("", "", Behind(es[1..]));
    } else {
      Regroup(":", Squeeze(es[0]), Behind(es[1..]));
    }
  }

  lemma EmptySqueezed()
    ensures Squeeze("") == ""
  {
  }

  lemma Regroup(a: string, b: string, c: string)
    ensures a + b + c == a + (b + c) && (a == "" ==> a + b == b)
  {
  }

  // --- canonicalising again ---

  lemma {:induction false} SqueezeTwice(e: string)
    ensures Squeeze(Squeeze(e)) == Squeeze(e)
    ensures Squeeze(e) != "" && e[0] != '/' ==> Squeeze(e)[0] == e[0]
    decreases |e|
  {
    if e != "" {
      SqueezeTwice(e[1..]);
      var c := Squeeze(e);
      if !(e[0] == '/' && (|e| == 1 || e[1] == '/')) {
        assert c[1..] == Squeeze(e[1..]);
        if e[0] == '/' {
          assert e[1..][0] == e[1] && Squeeze(e[1..]) != "";
        }
      }
    }
  }

  lemma {:induction false} SqueezeLacks(e: string, c: char)
    requires Lacks(e, c)
    ensures Lacks(Squeeze(e), c)
  {
    if e != "" {
      SqueezeLacks(e[1..], c);
    }
  }

  // Some element of slashes only.
  predicate SlashOnly(es: seq<string>) {
    es != [] && ((es[0] != "" && Squeeze(es[0]) == "") || SlashOnly(es[1..]))
  }

  // An element of slashes only behind the first element that is more than slashes.
  predicate Stray(es: seq<string>) {
    es != [] && if Squeeze(es[0]) == "" then Stray(es[1..]) else SlashOnly(es[1..])
  }

  // An element squeezes to nothing exactly when it has nothing but slashes.
  lemma {:induction false} SqueezedAway(e: string)
    ensures Squeeze(e) == "" <==> forall i :: 0 <= i < |e| ==> e[i] == '/'
  {
    if e != "" {
      SqueezedAway(e[1..]);
      assert forall i :: 0 < i < |e| ==> e[i] == e[1..][i - 1];
    }
  }

  lemma {:induction false} ElementsLack(p: string)
    ensures forall i :: 0 <= i < |Elements(p)| ==> Lacks(Elements(p)[i], ':')
    decreases |p|
  {
    var k := Skip(p, ':');
    if k < |p| {
      ElementsLack(p[k + 1..]);
    }
  }

  // What the elements behind the first leave.
  function Squeezed(es: seq<string>): seq<string> {
    if es == [] then [] else (if es[0] == "" then [] else [Squeeze(es[0])]) + Squeezed(es[1..])
  }

  lemma {:induction false} ElementsOfResult(w: string, es: seq<string>)
    requires Lacks(w, ':') && forall i :: 0 <= i < |es| ==> Lacks(es[i], ':')
    ensures Elements(w + Behind(es)) == [w] + Squeezed(es)
    decreases |es|
  {
    hide Squeeze, Elements, Lacks;
    if es == [] {
      assert w + "" == w;
      SkipWhole(w);
      assert [w] + [] == [w];
    } else {
      ResultStep(w, es);
      if es[0] == "" {
        ElementsOfResult(w, es[1..]);
      } else {
        SqueezeLacks(es[0], ':');
        ElementsOfResult(Squeeze(es[0]), es[1..]);
        ElementsSplit(w, Squeeze(es[0]) + Behind(es[1..]));
      }
    }
  }

  lemma ResultStep(w: string, es: seq<string>)
    requires es != []
    ensures es[0] == "" ==> w + Behind(es) == w + Behind(es[1..]) && Squeezed(es) == Squeezed(es[1..])
    ensures es[0] != "" ==>
      w + Behind(es) == w + ":" + (Squeeze(es[0]) + Behind(es[1..]))
          && Squeezed(es) == [Squeeze(es[0])] + Squeezed(es[1..])
  {
    SqueezedStep(es);
    BehindStep(es);
    EmptySqueezed();
    hide *;
    var x := Squeeze(es[0]) + Behind(es[1..]);
    if es[0] == "" {
      Nothing(Behind(es[1..]));
      Nothing(x);
    } else {
      Regroup(w, ":", x);
    }
  }

  lemma Nothing(s: string)
    ensures "" + s == s
  {
  }

  lemma SqueezedStep(es: seq<string>)
    requires es != []
    ensures Squeezed(es) == if es[0] == "" then Squeezed(es[1..]) else [Squeeze(es[0])] + Squeezed(es[1..])
  {
    hide Squeeze;
    assert [] + Squeezed(es[1..]) == Squeezed(es[1..]);
  }

  lemma SkipWhole(w: string)
    requires Lacks(w, ':')
    ensures Elements(w) == [w]
  {
    hide Skip;
    var k := Skip(w, ':');
  }

  lemma ElementsSplit(w: string, x: string)
    requires Lacks(w, ':')
    ensures Elements(w + ":" + x) == [w] + Elements(x)
  {
    hide Skip;
    var p := w + ":" + x;
    assert p[|w|] == ':' && (forall i :: 0 <= i < |w| ==> p[i] == w[i]);
    assert Skip(p, ':') == |w|;
    assert p[..|w|] == w && p[|w| + 1..] == x;
  }

  lemma {:induction false} BehindAgain(es: seq<string>)
    ensures |Behind(Squeezed(es))| <= |Behind(es)|
    ensures Behind(Squeezed(es)) == Behind(es) <==> !SlashOnly(es)
    ensures SlashOnly(es) ==> |Behind(Squeezed(es))| < |Behind(es)|
    ensures "" in Squeezed(es) <==> SlashOnly(es)
  {
    hide Squeeze;
    if es != [] {
      var more := Squeezed(es[1..]);
      BehindAgain(es[1..]);
      if es[0] == "" {
        assert [] + more == more && "" + Behind(es[1..]) == Behind(es[1..]);
      } else {
        var c := Squeeze(es[0]);
        SqueezeTwice(es[0]);
        assert ([c] + more)[1..] == more && Squeezed(es) == [c] + more;
        assert Behind(Squeezed(es)) == (if c == "" then "" else ":" + c) + Behind(more);
        assert Behind(es) == ":" + c + Behind(es[1..]);
        if c != "" {
          SameTail(":" + c, Behind(more), Behind(es[1..]));
        }
      }
    }
  }

  lemma SameTail(a: string, x: string, y: string)
    ensures a + x == a + y <==> x == y
  {
    assert (a + x)[|a|..] == x && (a + y)[|a|..] == y;
  }

  // Canonicalising again changes nothing, and no element of the result is empty, exactly
  // when no element of slashes only stands behind one with more than slashes.
  lemma {:induction false} AgainIff(es: seq<string>)
    requires forall i :: 0 <= i < |es| ==> Lacks(es[i], ':') && Lacks(es[i], NUL)
    ensures Canon(Kept(es), true) == Kept(es) <==> !Stray(es)
    ensures Kept(es) != "" ==> ("" !in Elements(Kept(es)) <==> !Stray(es))
  {
    hide Squeeze, Canon;
    if es == [] {
      CanonEnd();
    } else if Squeeze(es[0]) == "" {
      AgainIff(es[1..]);
    } else {
      var w, tail := Squeeze(es[0]), es[1..];
      SqueezeLacks(es[0], ':');
      SqueezeTwice(es[0]);
      ElementsOfResult(w, tail);
      KeptLacks(es);
      CanonElements(Kept(es), true);
      assert ([w] + Squeezed(tail))[1..] == Squeezed(tail);
      BehindAgain(tail);
      SameTail(w, Behind(Squeezed(tail)), Behind(tail));
    }
  }

  lemma {:induction false} KeptLacks(es: seq<string>)
    requires forall i :: 0 <= i < |es| ==> Lacks(es[i], NUL)
    ensures Lacks(Kept(es), NUL) && Lacks(Behind(es), NUL)
  {
    hide Squeeze;
    if es != [] {
      SqueezeLacks(es[0], NUL);
      KeptLacks(es[1..]);
    }
  }

  lemma {:induction false} ElementsLackNul(p: string)
    requires Lacks(p, NUL)
    ensures forall i :: 0 <= i < |Elements(p)| ==> Lacks(Elements(p)[i], NUL)
    decreases |p|
  {
    var k := Skip(p, ':');
    if k < |p| {
      ElementsLackNul(p[k + 1..]);
    }
  }

  lemma IdempotentIff(path: string)
    requires NUL !in path
    ensures var c := Canon(path, true);
      && (Canon(c, true) == c <==> !Stray(Elements(path)))
      && (c != "" ==> ("" !in Elements(c) <==> !Stray(Elements(path))))
  {
    hide Canon, Stray;
    assert Lacks(path, NUL) by { assert forall i :: 0 <= i < |path| ==> path[i] in path; }
    CanonElements(path, true);
    ElementsLack(path);
    ElementsLackNul(path);
    AgainIff(Elements(path));
  }
}
