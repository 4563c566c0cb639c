/**
 Texts that the matchers miss: what their needles make of them.
 */
module WildcardTexts {
  import opened CStrings
  import opened Wildcards
  import opened WildcardSteps

  lemma AtOnce(h: string, c: char)
    requires h != "" && h[0] == c
    ensures Skip(h, c) == 0 && SkipWord(h, c) == 0
  {
  }

  lemma StarSpaced(p: string)
    ensures p != "" && (p[0] == '*' || p[0] == '%') ==> (Spaced(p) <==> Spaced(p[1..]))
  {
  }

  // A sample that starts like its needle, which is no target, starts with `*` or `%`, and
  // what follows it is no target either.
  lemma SampleHead(q: string)
    requires Closed(q) && q != "" && !Target(q) && Sample(q) != "" && Sample(q)[0] == q[0]
    ensures (q[0] == '*' || q[0] == '%') && q[1..] != "" && !Target(q[1..])
  {
    var r := q[1..];
    if q[0] == '*' || q[0] == '%' {
      if r != "" && Target(r) {
        TargetSample(r);
      }
    }
  }

  lemma TargetSample(r: string)
    requires Target(r)
    ensures Sample(r) == [r[0]] + Sample(Rest(r)) && r[0] != '*' && r[0] != '%'
  {
  }

  lemma SameSample(p: string)
    requires p != "" && (p[0] == '*' || p[0] == '%')
    ensures Sample(p) == Sample(p[1..])
  {
  }

  lemma WordStops(h: string, c: char)
    requires h != "" && SkipWord(h, c) == 0
    ensures IsSpace(h[0]) || h[0] == c
  {
  }

  lemma SpaceStops(h: string, c: char)
    requires h != "" && IsSpace(h[0])
    ensures SkipWord(h, c) == 0
  {
  }

  lemma PastPercent(w: string, c: char)
    requires c != '%'
    ensures SkipWord("%" + w, c) == 1 + SkipWord(w, c)
  {
    assert ("%" + w)[1..] == w;
  }

  lemma OneLetter(h: string)
    requires |h| > 1 && !IsSpace(h[0]) && h[0] != '%' && h[1] == '%'
    ensures SkipWord(h, '%') == 1
  {
    assert h[1..][0] == '%';
    AtOnce(h[1..], '%');
  }

  lemma NoWord()
    ensures Word("")
  {
  }

  lemma LetterWord(c: char)
    requires !IsSpace(c)
    ensures Word([c])
  {
  }

  lemma LongerWord(c: char, w: string)
    requires !IsSpace(c) && Word(w)
    ensures Word([c] + w)
  {
  }

  lemma PlainWord(c: char, w: string)
    requires c == 'x' || c == 'y'
    ensures Word(w) ==> Word([c] + w)
  {
  }

  lemma AllEmpty(p: string)
    requires p == "%" || p == "%*"
    ensures Matches("", p)
  {
    assert p[1..] == "" || p[1..] == "*";
    assert Matches("", "") && ""[0..] == "" && ""[..0] == "";
    JustStar("");
    WordTakes("", 0, p);
  }

  // From the last of the `%`s at the start.
  function LastWord(p: string): (b: string)
    requires p != "" && p[0] == '%'
    ensures b != "" && b[0] == '%' && |b| <= |p| && (b == p || |b| < |p|) && (b[1..] != "" ==> b[1] != '%')
  {
    if |p| > 1 && p[1] == '%' then LastWord(p[1..]) else p
  }

  lemma {:induction false} LastMatches(h: string, p: string)
    requires p != "" && p[0] == '%'
    ensures Matches(h, LastWord(p)) <==> Matches(h, p)
  {
    hide Matches;
    if |p| > 1 && p[1] == '%' {
      TwoWords(h, p);
      LastMatches(h, p[1..]);
    }
  }

  lemma LastOfTail(p: string)
    requires |p| > 1 && p[0] == '%' && p[1] == '%'
    ensures LastWord(p[1..]) == LastWord(p)
  {
  }

  // What follows the `?`s.
  function AfterMarks(r: string): (s: string)
    ensures |s| <= |r|
  {
    if r != "" && r[0] == '?' then AfterMarks(r[1..]) else r
  }

  // A match of the `?`s and what they lead to, the `?`s taking the character `s`.
  function MarkText(r: string, s: char): string {
    if r != "" && r[0] == '?' then [s] + MarkText(r[1..], s) else Sample(r)
  }

  // A space that is not the character which the `%`s at the start lead to.
  function Blocker(r: string): (s: char)
    ensures IsSpace(s) && s != NUL
  {
    if r == "" then ' ' else if r[0] == '%' then Blocker(r[1..]) else if r[0] == ' ' then '\n' else ' '
  }

  lemma MarkSample(r: string)
    requires r != "" && r[0] == '?'
    ensures Sample(r) == "x" + Sample(r[1..]) && UnitLen(r) == 1 && Closed(r) == Closed(r[1..])
  {
  }

  lemma OneSpace(h: string, p: string)
    requires p != "" && p[0] == '~' && h != "" && h[0] == ' ' && Matches(h[1..], p[1..])
    ensures Matches(h, p) && Spaced(p)
  {
    assert h[..1] == " " && Blank(h[..1]);
  }

  lemma TwoSpaces(h: string)
    requires |h| > 1 && h[0] == ' ' && IsSpace(h[1])
    ensures Spaces(h) >= 2
  {
    assert h[1..][0] == h[1];
  }

  lemma LastSpace(h: string)
    requires h != "" && h[0] == ' ' && (|h| > 1 ==> !IsSpace(h[1]))
    ensures Spaces(h) == 1
  {
    assert |h| > 1 ==> h[1..][0] == h[1];
  }

  predicate EndsInWord(p: string) {
    p == "%" || (p != "" && p[0] in {'*', '%', '~'} && EndsInWord(p[1..])) || (UnitLen(p) > 0 && EndsInWord(Rest(p)))
  }

  // --- `~` in front of something that takes a space ---

  predicate TakesSpace(r: string) { Spaced(r) || (r != "" && r[0] == '?') }

  // At any place of the needle.
  predicate SpaceBehind(p: string) {
    p != "" &&
    ((p[0] == '~' && TakesSpace(p[1..]))
     || (p[0] in {'*', '%', '~'} && SpaceBehind(p[1..]))
     || (UnitLen(p) > 0 && SpaceBehind(Rest(p))))
  }

  // A shortest match that has two spaces at the first such place.
  function Doubled(p: string): string {
    if p == "" then ""
    else if p[0] == '~' && TakesSpace(p[1..]) then
      " " + if p[1] == '?' then " " + Sample(p[2..]) else Sample(p[1..])
    else if p[0] == '*' || p[0] == '%' then Doubled(p[1..])
    else if p[0] == '~' then " " + Doubled(p[1..])
    else if UnitLen(p) > 0 then [Sign(p)] + Doubled(Rest(p))
    else ""
  }

  lemma {:induction false} DoubledMatches(p: string)
    requires Closed(p) && NUL !in p && SpaceBehind(p)
    ensures Matches(Doubled(p), p) && NUL !in Doubled(p) && |Doubled(p)| == |Sample(p)| > 0
    decreases |p|
  {
    hide Matches;
    var h := Doubled(p);
    if p[0] == '~' && TakesSpace(p[1..]) {
      HereMatches(p);
    } else if p[0] == '*' || p[0] == '%' {
      DoubledMatches(p[1..]);
      assert h[0..] == h && h[..0] == "";
      if p[0] == '*' {
        StarTakes(h, 0, p);
      } else {
        NoWord();
        WordTakes(h, 0, p);
      }
    } else if p[0] == '~' {
      DoubledMatches(p[1..]);
      assert h[1..] == Doubled(p[1..]);
      OneSpace(h, p);
    } else {
      DoubledMatches(Rest(p));
      assert h[1..] == Doubled(Rest(p));
      UnitMatches(h, p);
      assert Sign(p) == 'x' || Sign(p) in p;
    }
  }

  lemma HereMatches(p: string)
    requires Closed(p) && NUL !in p && p != "" && p[0] == '~' && TakesSpace(p[1..])
    ensures Matches(Doubled(p), p) && NUL !in Doubled(p) && |Doubled(p)| == |Sample(p)|
    ensures Spaces(Doubled(p)) >= 2
  {
    hide Matches, Spaces, Spaced;
    var r, h := p[1..], Doubled(p);
    if r != "" && r[0] == '?' {
      MarkSample(r);
      SampleMatches(r[1..]);
      assert r[1..] == p[2..] && h[1..] == " " + Sample(r[1..]) && h[1..][1..] == Sample(r[1..]);
      UnitMatches(h[1..], r);
    } else {
      SampleMatches(r);
      SpacedIff(r);
      assert h[1..] == Sample(r);
    }
    OneSpace(h, p);
    TwoSpaces(h);
  }
}
