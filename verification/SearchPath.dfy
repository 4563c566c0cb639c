/**
 foreach_dirinpath of libltdl/ltdl.c up to the directory names: a search path is made
 canonical and then split.
 */
module SearchPath {
  import opened Argz
  import opened ArgzVector
  import opened CStrings
  import opened PathCanon

  // Elements without the empty ones, but for one at the end.
  function Folded(es: seq<string>): (r: seq<string>)
    requires es != []
    ensures r != []
  {
    if |es| == 1 then es else (if es[0] == "" then [] else [es[0]]) + Folded(es[1..])
  }

  // Splitting is cutting at every separator and folding.
  lemma {:induction false} SplitIsFolded(s: string)
    ensures Split(s, ':') == Folded(Elements(s))
    decreases |s|
  {
    hide Skip, Folded;
    var k := Skip(s, ':');
    SplitStep(s);
    if k < |s| {
      SplitIsFolded(s[k + 1..]);
      FoldedStep(s[..k], Elements(s[k + 1..]));
    } else {
      FoldedStep(s, []);
      assert [s] + [] == [s];
    }
  }

  lemma SplitStep(s: string)
    ensures var k := Skip(s, ':');
      Split(s, ':') == if k == |s| then [s] else (if k == 0 then [] else [s[..k]]) + Split(s[k + 1..], ':')
  {
    if s != "" && s[0] == ':' {
      SplitBehind(s);
      assert Skip(s, ':') == 0;
      hide *;
      NoEntry(Split(s[1..], ':'));
    } else {
      assert Trim(s, ':') == s && (s != "" ==> Skip(s, ':') > 0);
      hide Skip, Trim;
    }
  }

  // A separator at the start makes no difference.
  lemma SplitBehind(s: string)
    requires s != "" && s[0] == ':'
    ensures Split(s, ':') == Split(s[1..], ':')
  {
    assert Trim(s, ':') == Trim(s[1..], ':');
    hide Skip, Trim;
  }

  lemma NoEntry(es: seq<string>)
    ensures [] + es == es
  {
  }

  lemma FoldedStep(e: string, es: seq<string>)
    ensures Folded([e] + es) == if es == [] then [e] else (if e == "" then [] else [e]) + Folded(es)
  {
    assert ([e] + es)[1..] == es;
  }

  // The elements with more than slashes, squeezed.
  function Directories(es: seq<string>): seq<string> {
    if es == [] then [] else (if Squeeze(es[0]) == "" then [] else [Squeeze(es[0])]) + Directories(es[1..])
  }

  // The last element that is not empty has slashes only, and stands behind a directory.
  predicate EndsInSlashes(es: seq<string>) {
    es != [] && if Squeeze(es[0]) == "" then EndsInSlashes(es[1..]) else LastIsSlashes(es[1..], false)
  }

  predicate LastIsSlashes(es: seq<string>, last: bool) {
    if es == [] then last else LastIsSlashes(es[1..], if es[0] == "" then last else Squeeze(es[0]) == "")
  }

  // What folding makes of the elements behind the first directory `w`, or behind one that
  // was squeezed away.
  lemma {:induction false} FoldedTail(w: string, es: seq<string>)
    decreases es
    ensures Folded([w] + Squeezed(es)) ==
      (if w == "" then [] else [w]) + Directories(es) + (if LastIsSlashes(es, w == "") then [""] else [])
  {
    hide Squeeze;
    var f := [w] + Squeezed(es);
    if es == [] {
      assert f == [w] && [""] == [] + [] + [""] && [w] == [w] + [] + [];
    } else if es[0] == "" {
      FoldedTail(w, es[1..]);
      EmptySqueezed();
      assert [] + Squeezed(es[1..]) == Squeezed(es[1..]) && [] + Directories(es[1..]) == Directories(es[1..]);
    } else {
      var c := Squeeze(es[0]);
      FoldedTail(c, es[1..]);
      assert f == [w] + ([c] + Squeezed(es[1..])) && f[1..] == [c] + Squeezed(es[1..]);
      var a, d := if w == "" then [] else [w], if c == "" then [] else [c];
      var z: seq<string> := if LastIsSlashes(es[1..], c == "") then [""] else [];
      assert a + (d + Directories(es[1..]) + z) == a + (d + Directories(es[1..])) + z;
    }
  }

  // The directories searched are the elements of the path in order, each without doubled
  // slashes and slashes at the end, and without those that are empty or slashes only; there
  // is one empty name more exactly if the path ends in slashes, or if nothing is left.
  lemma {:induction false} Searched(es: seq<string>)
    requires forall i :: 0 <= i < |es| ==> Lacks(es[i], ':')
    ensures Split(Kept(es), ':') ==
      Directories(es) + (if Directories(es) == [] || EndsInSlashes(es) then [""] else [])
  {
    hide Squeeze, Split, Elements;
    if es == [] {
      SplitLast("", ':');
      assert [""] == [] + [""];
    } else if Squeeze(es[0]) == "" {
      Searched(es[1..]);
      assert [] + Directories(es[1..]) == Directories(es[1..]);
    } else {
      var w := Squeeze(es[0]);
      SqueezeLacks(es[0], ':');
      ElementsOfResult(w, es[1..]);
      SplitIsFolded(Kept(es));
      FoldedTail(w, es[1..]);
    }
  }

  // canonicalize_path, then argzize_path.
  method DirectoriesOf(path: string, v: Vector)
    requires path != "" && NUL !in path
    modifies v
    ensures var es := Elements(path);
      v.Holds(Directories(es) + (if Directories(es) == [] || EndsInSlashes(es) then [""] else []))
  {
    hide Canon, Split, Squeeze, Packed, Elements;
    var canonical := CanonicalizePath(path);
    assert Lacks(path, NUL) by { assert forall i :: 0 <= i < |path| ==> path[i] in path; }
    CanonElements(path, true);
    ElementsLackNul(path);
    KeptLacks(Elements(path));
    ElementsLack(path);
    Searched(Elements(path));
    v.CreateSep(canonical, ':');
  }
}
