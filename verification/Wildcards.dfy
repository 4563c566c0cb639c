/**
 The wildcard language that src/util.c and src/troll_lib.c document above their matchers,
 and a shortest match for each of its needles.
 */
module Wildcards {
  import opened CStrings

  function Next(p: string): char { CharAt(p, 1) }

  // isspace in the C locale
  predicate IsSpace(c: char) {
    c == ' ' || c == '\t' || c == '\n' || c == '\r' || c == '\U{000B}' || c == '\U{000C}'
  }

  predicate Word(s: string) { forall c :: c in s ==> !IsSpace(c) }

  predicate Blank(s: string) { forall c :: c in s ==> IsSpace(c) }

  // The documented meaning.  A lone backslash at the end has no character to make
  // literal, and matches nothing.
  ghost predicate Matches(h: string, p: string)
    decreases |p|
  {
    if p == "" then h == ""
    else if p[0] == '\\' then |p| > 1 && h != "" && h[0] == p[1] && Matches(h[1..], p[2..])
    else if p[0] == '?' then h != "" && Matches(h[1..], p[1..])
    else if p[0] == '*' then exists k: nat :: k <= |h| && Matches(h[k..], p[1..])
    else if p[0] == '%' then exists k: nat :: k <= |h| && Word(h[..k]) && Matches(h[k..], p[1..])
    else if p[0] == '~' then exists k: nat :: 0 < k <= |h| && Blank(h[..k]) && Matches(h[k..], p[1..])
    else h != "" && h[0] == p[0] && Matches(h[1..], p[1..])
  }

  // A star takes in whatever stands before something it matches.
  lemma StarAbsorbs(h: string, k: nat, p: string)
    requires p != "" && p[0] == '*' && k <= |h| && Matches(h[k..], p)
    ensures Matches(h, p)
  {
    var j: nat :| j <= |h[k..]| && Matches(h[k..][j..], p[1..]);
    assert h[k..][j..] == h[k + j..];
  }

  lemma StarTakes(h: string, k: nat, p: string)
    requires p != "" && p[0] == '*' && k <= |h| && Matches(h[k..], p[1..])
    ensures Matches(h, p)
  {
  }

  // --- scanning ---

  // Up to the first space or `stop`, or to the end.
  function SkipWord(h: string, stop: char): (k: nat)
    ensures k <= |h| && (k < |h| ==> IsSpace(h[k]) || h[k] == stop)
    ensures forall i :: 0 <= i < k ==> !IsSpace(h[i]) && h[i] != stop
  {
    if h == "" || IsSpace(h[0]) || h[0] == stop then 0 else 1 + SkipWord(h[1..], stop)
  }

  // The leading spaces.
  function Spaces(h: string): (k: nat)
    ensures k <= |h| && (k < |h| ==> !IsSpace(h[k])) && forall i :: 0 <= i < k ==> IsSpace(h[i])
  {
    if h == "" || !IsSpace(h[0]) then 0 else 1 + Spaces(h[1..])
  }

  // The same from a position of the haystack.
  function WordEnd(hay: string, from: nat, stop: char): (h: nat)
    requires from <= |hay|
    ensures from <= h <= |hay|
  {
    from + SkipWord(hay[from..], stop)
  }

  function SpacesEnd(hay: string, from: nat): (h: nat)
    requires from <= |hay|
    ensures from <= h <= |hay|
  {
    from + Spaces(hay[from..])
  }

  // --- the part without % and ~ ---

  predicate Plain(c: char) { c != '\\' && c != '?' && c != '*' && c != '%' && c != '~' }

  // The length of a token at the start that stands for one character, or 0.
  function UnitLen(p: string): (n: nat)
    ensures n <= |p| && n <= 2
  {
    if p == "" then 0
    else if p[0] == '\\' then if |p| > 1 then 2 else 0
    else if p[0] == '?' || Plain(p[0]) then 1 else 0
  }

  function Rest(p: string): string { p[UnitLen(p)..] }

  // Does the token take this character?
  predicate Takes(p: string, c: char)
    requires UnitLen(p) > 0
  {
    if p[0] == '\\' then c == p[1] else p[0] == '?' || c == p[0]
  }

  // No lone backslash at the end.
  predicate Closed(p: string) {
    p == "" || (p[0] in {'*', '%', '~'} && Closed(p[1..])) || (UnitLen(p) > 0 && Closed(Rest(p)))
  }

  // With one, nothing matches.
  lemma {:induction false} OpenMatchesNothing(h: string, p: string)
    requires Matches(h, p)
    ensures Closed(p)
    decreases |p|
  {
    if p != "" {
      if p[0] == '*' {
        var k: nat :| k <= |h| && Matches(h[k..], p[1..]);
        OpenMatchesNothing(h[k..], p[1..]);
      } else if p[0] == '%' {
        var k: nat :| k <= |h| && Word(h[..k]) && Matches(h[k..], p[1..]);
        OpenMatchesNothing(h[k..], p[1..]);
      } else if p[0] == '~' {
        var k: nat :| 0 < k <= |h| && Blank(h[..k]) && Matches(h[k..], p[1..]);
        OpenMatchesNothing(h[k..], p[1..]);
      } else {
        UnitMatches(h, p);
        OpenMatchesNothing(h[1..], Rest(p));
      }
    }
  }

  lemma UnitMatches(h: string, p: string)
    requires UnitLen(p) > 0
    ensures Matches(h, p) <==> h != "" && Takes(p, h[0]) && Matches(h[1..], Rest(p))
  {
  }

  // A character the token takes.
  function Sign(p: string): (c: char)
    requires UnitLen(p) > 0
    ensures Takes(p, c)
  {
    if p[0] == '\\' then p[1] else if p[0] == '?' then 'x' else p[0]
  }

  // A shortest match: one character for each token, one space for `~`, none for a star or `%`.
  function Sample(p: string): string
    decreases |p|
  {
    if p == "" then ""
    else if p[0] == '*' || p[0] == '%' then Sample(p[1..])
    else if p[0] == '~' then " " + Sample(p[1..])
    else if UnitLen(p) > 0 then [Sign(p)] + Sample(Rest(p))
    else ""
  }

  lemma {:induction false} SampleMatches(p: string)
    requires Closed(p) && NUL !in p
    ensures Matches(Sample(p), p) && NUL !in Sample(p)
    decreases |p|
  {
    if p != "" {
      var s := Sample(p);
      if p[0] == '*' || p[0] == '%' {
        SampleMatches(p[1..]);
        assert s[0..] == s && Word(s[..0]);
      } else if p[0] == '~' {
        SampleMatches(p[1..]);
        assert s[1..] == Sample(p[1..]) && s[..1] == " " && Blank(s[..1]);
      } else {
        SampleMatches(Rest(p));
        assert s[1..] == Sample(Rest(p));
        UnitMatches(s, p);
        assert Sign(p) == 'x' || Sign(p) in p;
      }
    }
  }

  lemma {:induction false} SampleIsShortest(h: string, p: string)
    requires Matches(h, p)
    ensures |Sample(p)| <= |h|
    decreases |p|
  {
    if p != "" {
      if p[0] == '*' {
        var k: nat :| k <= |h| && Matches(h[k..], p[1..]);
        SampleIsShortest(h[k..], p[1..]);
      } else if p[0] == '%' {
        var k: nat :| k <= |h| && Word(h[..k]) && Matches(h[k..], p[1..]);
        SampleIsShortest(h[k..], p[1..]);
      } else if p[0] == '~' {
        var k: nat :| 0 < k <= |h| && Blank(h[..k]) && Matches(h[k..], p[1..]);
        SampleIsShortest(h[k..], p[1..]);
      } else {
        UnitMatches(h, p);
        SampleIsShortest(h[1..], Rest(p));
      }
    }
  }

  // Does the sample start with a space?
  predicate Spaced(p: string) {
    p != "" &&
    if p[0] == '*' || p[0] == '%' then Spaced(p[1..]) else p[0] == '~' || (UnitLen(p) > 0 && IsSpace(Sign(p)))
  }

  lemma {:induction false} SpacedIff(p: string)
    ensures Spaced(p) <==> Sample(p) != "" && IsSpace(Sample(p)[0])
  {
    if p != "" && (p[0] == '*' || p[0] == '%') {
      SpacedIff(p[1..]);
    }
  }

  // A word takes in what stands before it in the same word.
  lemma WordAbsorbs(h: string, k: nat, p: string)
    requires p != "" && p[0] == '%' && k <= |h| && Word(h[..k]) && Matches(h[k..], p)
    ensures Matches(h, p)
  {
    var j: nat :| j <= |h[k..]| && Word(h[k..][..j]) && Matches(h[k..][j..], p[1..]);
    assert h[k..][j..] == h[k + j..] && h[..k + j] == h[..k] + h[k..][..j];
  }

  lemma WordTakes(h: string, k: nat, p: string)
    requires p != "" && p[0] == '%' && k <= |h| && Word(h[..k]) && Matches(h[k..], p[1..])
    ensures Matches(h, p)
  {
  }

  // A token that the scan of a preceding star can find: the scan looks for its first
  // character as it stands in the pattern.
  predicate Target(p: string) {
    p != "" && (Plain(p[0]) || (|p| > 1 && p[0] == '\\' && p[1] == '\\'))
  }

  lemma TargetFirst(h: string, p: string)
    requires Target(p) && Matches(h, p)
    ensures h != "" && h[0] == p[0] && UnitLen(p) > 0 && Matches(h[1..], Rest(p))
  {
    UnitMatches(h, p);
  }
}
