/**
 troll_matchwilds of src/troll_lib.c: a single forward pass.  It never accepts what the
 documented language rejects, and decides exactly the needles of the form `Decisive`.
 */
module GreedyMatcher {
  import opened CStrings
  import opened Wildcards
  import opened WildcardSteps
  import opened WildcardTexts

  // The matcher as a function of the two remaining strings.
  function Greedy(h: string, p: string): bool
    decreases |p|
  {
    if p == "" then h == ""
    else if h == "" then p == "*"
    else if p[0] == '\\' then |p| > 1 && h[0] == p[1] && Greedy(h[1..], p[2..])
    else if p[0] == '?' then Greedy(h[1..], p[1..])
    else if p[0] == '*' then Greedy(h[Skip(h, Next(p))..], p[1..])
    else if p[0] == '%' then Greedy(h[SkipWord(h, Next(p))..], p[1..])
    else if p[0] == '~' then IsSpace(h[0]) && Greedy(h[Spaces(h)..], p[1..])
    else h[0] == p[0] && Greedy(h[1..], p[1..])
  }

  // troll_matchwilds: 0 for a match, 1 for none.
  method TrollMatchwilds(haystack: Arg, needle: Arg) returns (r: int)
    requires haystack.CString() && needle.CString()
    ensures r == if haystack.Str? && needle.Str? && Greedy(haystack.s, needle.s) then 0 else 1
  {
    if needle.Null? || haystack.Null? { return 1; }
    hide Greedy, StopAt, WordEnd, SpacesEnd, IsSpace, Skip, SkipWord, Spaces;
    var hay, pat := haystack.s, needle.s;
    var h: nat, n: nat := 0, 0;
    var escaped := false;
    assert hay[0..] == hay && pat[0..] == pat;
    while CharAt(pat, n) != NUL
      invariant h <= |hay| && n <= |pat| && !escaped
      invariant Greedy(hay, pat) == Greedy(hay[h..], pat[n..])
      decreases |pat| - n
    {
      AtEnd(hay, h);
      if CharAt(hay, h) == NUL {
        AtEnd(pat, n + 1);
        GreedyEnd(pat[n..]);
        if CharAt(pat, n) == '*' && CharAt(pat, n + 1) == NUL && !escaped {
          return 0;
        }
        return 1;
      }
      GreedyStep(hay, pat, h, n);
      if CharAt(pat, n) == '\\' {
        escaped := true;
        n := n + 1;
      }
      AtEnd(pat, n);
      if CharAt(pat, n) == '?' && !escaped {
        n, h := n + 1, h + 1;
      } else if CharAt(pat, n) == '*' && !escaped {
        h := ScanTo(hay, h, CharAt(pat, n + 1));
        n := n + 1;
      } else if CharAt(pat, n) == '%' && !escaped {
        h := ScanWord(hay, h, CharAt(pat, n + 1));
        n := n + 1;
      } else if CharAt(pat, n) == '~' && !escaped {
        if IsSpace(CharAt(hay, h)) {
          h := ScanSpaces(hay, h);
          n := n + 1;
        } else {
          return 1;
        }
      } else if CharAt(pat, n) != CharAt(hay, h) {
        return 1;
      } else {
        n, h := n + 1, h + 1;
        escaped := false;
      }
    }
    AtEnd(pat, n);
    AtEnd(hay, h);
    assert pat[n..] == "";
    GreedyDone(hay[h..]);
    if CharAt(hay, h) == NUL {
      return 0;
    }
    return 1;
  }

  lemma GreedyEnd(p: string)
    requires p != ""
    ensures Greedy("", p) <==> p[0] == '*' && |p| == 1
  {
  }

  lemma GreedyDone(h: string)
    ensures Greedy(h, "") <==> h == ""
  {
  }

  // One step in terms of positions.
  lemma GreedyStep(hay: string, pat: string, h: nat, n: nat)
    requires h < |hay| && n < |pat|
    ensures Greedy(hay[h..], pat[n..]) <==>
      if pat[n] == '\\' then n + 1 < |pat| && hay[h] == pat[n + 1] && Greedy(hay[h + 1..], pat[n + 2..])
      else if pat[n] == '?' then Greedy(hay[h + 1..], pat[n + 1..])
      else if pat[n] == '*' then Greedy(hay[StopAt(hay, h, CharAt(pat, n + 1))..], pat[n + 1..])
      else if pat[n] == '%' then Greedy(hay[WordEnd(hay, h, CharAt(pat, n + 1))..], pat[n + 1..])
      else if pat[n] == '~' then IsSpace(hay[h]) && Greedy(hay[SpacesEnd(hay, h)..], pat[n + 1..])
      else hay[h] == pat[n] && Greedy(hay[h + 1..], pat[n + 1..])
  {
    Step(pat, n);
    Step(hay, h);
    assert CharAt(pat, n + 1) == Next(pat[n..]);
    if pat[n] == '\\' && n + 1 < |pat| {
      DropTwice(pat, n, 2);
    } else if pat[n] == '*' {
      DropTwice(hay, h, Skip(hay[h..], CharAt(pat, n + 1)));
    } else if pat[n] == '%' {
      DropTwice(hay, h, SkipWord(hay[h..], CharAt(pat, n + 1)));
    } else if pat[n] == '~' {
      DropTwice(hay, h, Spaces(hay[h..]));
    }
  }

  // The inner loops.
  method ScanTo(hay: string, from: nat, stop: char) returns (h: nat)
    requires from <= |hay| && NUL !in hay
    ensures h == StopAt(hay, from, stop)
  {
    h := from;
    while CharAt(hay, h) != NUL && CharAt(hay, h) != stop
      invariant from <= h <= |hay|
      invariant StopAt(hay, from, stop) == StopAt(hay, h, stop)
      decreases |hay| - h
    {
      Step(hay, h);
      h := h + 1;
    }
    AtEnd(hay, h);
    assert h < |hay| ==> hay[h..][0] == hay[h];
  }

  method ScanWord(hay: string, from: nat, stop: char) returns (h: nat)
    requires from <= |hay| && NUL !in hay
    ensures h == WordEnd(hay, from, stop)
  {
    h := from;
    while CharAt(hay, h) != NUL && !IsSpace(CharAt(hay, h)) && CharAt(hay, h) != stop
      invariant from <= h <= |hay|
      invariant WordEnd(hay, from, stop) == WordEnd(hay, h, stop)
      decreases |hay| - h
    {
      Step(hay, h);
      h := h + 1;
    }
    AtEnd(hay, h);
    assert h < |hay| ==> hay[h..][0] == hay[h];
  }

  // At least one space is there; skips them all.
  method ScanSpaces(hay: string, from: nat) returns (h: nat)
    requires from < |hay| && NUL !in hay && IsSpace(CharAt(hay, from))
    ensures h == SpacesEnd(hay, from)
  {
    Step(hay, from);
    h := from + 1;
    while CharAt(hay, h) != NUL && IsSpace(CharAt(hay, h))
      invariant from <= h <= |hay|
      invariant SpacesEnd(hay, from) == SpacesEnd(hay, h)
      decreases |hay| - h
    {
      Step(hay, h);
      h := h + 1;
    }
    AtEnd(hay, h);
    assert h < |hay| ==> hay[h..][0] == hay[h];
  }

  // --- soundness, for the whole language ---

  lemma {:induction false} Sound(h: string, p: string)
    requires Greedy(h, p)
    ensures Matches(h, p)
    decreases |p|
  {
    if p == "" {
    } else if h == "" {
      assert Matches(h[0..], p[1..]);
    } else if p[0] == '\\' {
      Sound(h[1..], p[2..]);
    } else if p[0] == '*' {
      Sound(h[Skip(h, Next(p))..], p[1..]);
    } else if p[0] == '%' {
      Sound(h[SkipWord(h, Next(p))..], p[1..]);
    } else if p[0] == '~' {
      Sound(h[Spaces(h)..], p[1..]);
    } else {
      Sound(h[1..], p[1..]);
    }
  }

  // --- exactly which needles are decided ---

  // Nothing, a token for one character, a star, `%` or `~` with what may follow each of them.
  predicate Decisive(p: string)
    decreases |p|, 0
  {
    p == "" ||
    if p[0] == '*' then Chain(p[1..])
    else if p[0] == '%' then WordOk(p[1..])
    else if p[0] == '~' then SpacesOk(p[1..])
    else UnitLen(p) > 0 && Decisive(Rest(p))
  }

  // After a star: nothing, or a token the scan finds, and then what can start earlier.
  predicate Chain(q: string)
    decreases |q|, 0
  {
    q == "" || (Target(q) && Floats(Rest(q)))
  }

  // Any number of `?` and a star, with `%` only in front of a star that looks for a space.
  predicate Floats(r: string)
    decreases |r|, 0
  {
    r != "" &&
    ((r[0] == '?' && Floats(r[1..])) || (r[0] == '*' && Chain(r[1..])) || (r[0] == '%' && Wide(r[1..])))
  }

  predicate Wide(r: string)
    decreases |r|, 0
  {
    r != "" &&
    ((r[0] == '%' && Wide(r[1..])) || (r[0] == '*' && |r| > 1 && IsSpace(r[1]) && Chain(r[1..])))
  }

  // After `%`: what ends the word at its end, or a token the scan finds in it, and then what
  // can start earlier in the word.
  predicate WordOk(r: string)
    decreases |r|, 1
  {
    SpaceLed(r) || (Target(r) && !IsSpace(r[0]) && FloatsInWord(Rest(r)))
  }

  predicate SpaceLed(r: string)
    decreases |r|, 0
  {
    r != "" &&
    ((IsSpace(r[0]) && Decisive(r[1..]))
     || (r[0] == '%' && SpaceLed(r[1..]))
     || (r[0] == '*' && |r| > 1 && IsSpace(r[1]) && Chain(r[1..])))
  }

  predicate FloatsInWord(r: string)
    decreases |r|, 1
  {
    Floats(r) || (r != "" && r[0] == '%' && WordOk(r[1..]))
  }

  // After `~`: nothing that takes a space.
  predicate SpacesOk(r: string)
    decreases |r|, 1
  {
    Decisive(r) && !Spaced(r) && (r != "" ==> r[0] != '?')
  }

  lemma {:induction false} FloatsDecisive(r: string)
    requires Floats(r)
    ensures Decisive(r)
    decreases |r|
  {
    if r[0] == '?' {
      FloatsDecisive(r[1..]);
    } else if r[0] == '%' {
      WideIsLed(r[1..]);
    }
  }

  lemma {:induction false} WideIsLed(r: string)
    requires Wide(r)
    ensures SpaceLed(r)
  {
    if r[0] == '%' {
      WideIsLed(r[1..]);
    }
  }

  // --- starting earlier ---

  lemma {:induction false} FloatsEarlier(h: string, k: nat, r: string)
    requires Floats(r) && k <= |h| && Matches(h[k..], r)
    ensures Matches(h, r)
    decreases |r|
  {
    if r[0] == '*' {
      StarAbsorbs(h, k, r);
    } else if r[0] == '%' {
      WideEarlier(h, k, r);
    } else {
      assert h[k..][1..] == h[1..][k..];
      FloatsEarlier(h[1..], k, r[1..]);
    }
  }

  lemma {:induction false} WideEarlier(h: string, k: nat, r: string)
    requires r != "" && r[0] == '%' && Wide(r[1..]) && k <= |h| && Matches(h[k..], r)
    ensures Matches(h, r)
    decreases |r|
  {
    hide Matches, Chain;
    if r[1] == '%' {
      TwoWords(h[k..], r);
      WideEarlier(h, k, r[1..]);
      TwoWords(h, r);
    } else {
      WordStar(h[k..], r);
      StarAbsorbs(h, k, r[1..]);
      WordStar(h, r);
    }
  }

  lemma EarlierInWord(h: string, k: nat, r: string)
    requires FloatsInWord(r) && k <= |h| && Word(h[..k]) && Matches(h[k..], r)
    ensures Matches(h, r)
  {
    if Floats(r) {
      FloatsEarlier(h, k, r);
    } else {
      WordAbsorbs(h, k, r);
    }
  }

  // --- a decisive needle finds every match ---

  lemma {:induction false} Complete(h: string, p: string)
    requires Decisive(p) && NUL !in h && Matches(h, p)
    ensures Greedy(h, p)
    decreases |p|, 2
  {
    hide Decisive;
    if p == "" {
    } else if p[0] == '*' {
      StarComplete(h, p) by { ByFirst(p); }
    } else if p[0] == '%' {
      WordComplete(h, p) by { ByFirst(p); }
    } else if p[0] == '~' {
      SpacesComplete(h, p) by { ByFirst(p); }
    } else {
      ByFirst(p);
      UnitMatches(h, p);
      Complete(h[1..], Rest(p));
    }
  }

  lemma ByFirst(p: string)
    requires p != ""
    ensures Decisive(p) <==>
      if p[0] == '*' then Chain(p[1..]) else if p[0] == '%' then WordOk(p[1..])
      else if p[0] == '~' then SpacesOk(p[1..]) else UnitLen(p) > 0 && Decisive(Rest(p))
  {
  }

  lemma {:induction false} StarComplete(h: string, p: string)
    requires p != "" && p[0] == '*' && Chain(p[1..]) && NUL !in h && Matches(h, p)
    ensures Greedy(h, p)
    decreases |p|, 0
  {
    hide Matches, Skip, Floats, Greedy, Decisive;
    var q, i := p[1..], Skip(h, Next(p));
    GreedyStar(h, p);
    if q == "" {
      AtEnd(h, i);
      assert p == "*" && h[i..] == "";
      return;
    }
    var k := StarMatch(h, p);
    TargetFirst(h[k..], q);
    assert h[k] == q[0] == Next(p) && i <= k;
    DropTwice(h, k, 1);
    DropTwice(h, i + 1, k - i);
    FloatsEarlier(h[i + 1..], k - i, Rest(q));
    Step(h, i);
    UnitMatches(h[i..], q);
    ChainDecisive(q);
    Complete(h[i..], q);
  }

  lemma GreedyStar(h: string, p: string)
    requires p != "" && p[0] == '*'
    ensures Greedy(h, p) <==> if h == "" then p == "*" else Greedy(h[Skip(h, Next(p))..], p[1..])
    ensures Greedy("", "")
  {
  }

  lemma ChainDecisive(q: string)
    requires Chain(q)
    ensures Decisive(q)
  {
    if q != "" {
      FloatsDecisive(Rest(q));
    }
  }

  lemma GreedyWord(h: string, p: string)
    requires p != "" && p[0] == '%'
    ensures Greedy(h, p) <==> h != "" && Greedy(h[SkipWord(h, Next(p))..], p[1..])
  {
  }

  lemma {:induction false} WordComplete(h: string, p: string)
    requires p != "" && p[0] == '%' && WordOk(p[1..]) && NUL !in h && Matches(h, p)
    ensures Greedy(h, p)
    decreases |p|, 1
  {
    hide Matches, SkipWord, Greedy, Decisive, FloatsInWord, SpaceLed;
    var r, i := p[1..], SkipWord(h, Next(p));
    GreedyWord(h, p);
    if SpaceLed(r) {
      LedHasShape(r);
      LedStep(h, p);
      LedDecisive(r);
    } else {
      var k := TargetStep(h, p);
      EarlierInWord(h[i + 1..], k - i, Rest(r));
      Step(h, i);
      TargetTakes(r);
      UnitMatches(h[i..], r);
      TargetDecisive(r);
    }
    Complete(h[i..], r);
  }

  lemma {:induction false} LedHasShape(r: string)
    requires SpaceLed(r)
    ensures LedShape(r)
  {
    if r[0] == '%' {
      LedHasShape(r[1..]);
    }
  }

  lemma LedDecisive(r: string)
    requires SpaceLed(r)
    ensures Decisive(r)
  {
  }

  lemma TargetDecisive(r: string)
    requires Target(r) && FloatsInWord(Rest(r))
    ensures Decisive(r)
  {
    if Floats(Rest(r)) {
      FloatsDecisive(Rest(r));
    }
  }

  lemma {:induction false} SpacesComplete(h: string, p: string)
    requires p != "" && p[0] == '~' && SpacesOk(p[1..]) && NUL !in h && Matches(h, p)
    ensures Greedy(h, p)
    decreases |p|, 0
  {
    hide Decisive, Spaced, Matches, Greedy, Spaces;
    TakesNone(p[1..]);
    SpacesStep(h, p);
    GreedySpaces(h, p);
    Complete(h[Spaces(h)..], p[1..]);
  }

  lemma TakesNone(r: string)
    requires SpacesOk(r)
    ensures TakesNoSpace(r)
  {
    hide FloatsInWord, Decisive;
    if r != "" {
      ByFirst(r);
      StarSpaced(r);
      if r[0] == '%' && SpaceLed(r[1..]) {
        LedIsSpaced(r[1..]);
      } else if r[0] == '*' || r[0] == '%' {
        ChainTarget(r[1..]);
      }
    }
  }

  lemma ChainTarget(q: string)
    ensures Chain(q) && q != "" ==> Target(q)
    ensures Target(q) ==> (Spaced(q) <==> IsSpace(q[0]))
  {
  }

  lemma {:induction false} LedIsSpaced(r: string)
    requires SpaceLed(r)
    ensures Spaced(r)
  {
    if r[0] == '%' {
      LedIsSpaced(r[1..]);
    }
  }

  // --- any other needle misses a match ---

  // No text shorter than the sample is accepted.
  lemma TooShort(h: string, p: string)
    requires |h| < |Sample(p)|
    ensures !Greedy(h, p)
  {
    if Greedy(h, p) {
      Sound(h, p);
      SampleIsShortest(h, p);
    }
  }

  // A star before a token its scan cannot find misses the sample.
  lemma {:induction false} StarMisses(p: string)
    requires Closed(p) && p != "" && p[0] == '*' && p[1..] != "" && !Target(p[1..])
    ensures !Greedy(Sample(p), p)
    decreases |p|
  {
    hide Greedy, Skip;
    var q, h := p[1..], Sample(p);
    GreedyStar(h, p);
    if h != "" {
      var k := Skip(h, q[0]);
      if k > 0 {
        TooShort(h[k..], q);
      } else {
        assert h[0..] == h;
        if h[0] == q[0] {
          SampleHead(q);
          if q[0] == '*' {
            StarMisses(q);
          } else {
            WordSampleMisses(q);
          }
        }
      }
    }
  }

  // And `%` does when the sample starts with a `%`.
  lemma {:induction false} WordSampleMisses(p: string)
    requires p != "" && p[0] == '%' && Sample(p) != "" && Sample(p)[0] == '%'
    ensures !Greedy(Sample(p), p)
    decreases |p|
  {
    hide Greedy, SkipWord;
    var r, h := p[1..], Sample(p);
    GreedyWord(h, p);
    var k := SkipWord(h, Next(p));
    if k > 0 {
      TooShort(h[k..], r);
    } else {
      WordStops(h, Next(p));
      assert h[0..] == h && r != "";
      WordSampleMisses(r);
    }
  }

  // For a needle that is not decisive, a match that is missed.  It starts with a space only
  // if the sample does.
  lemma {:induction false} Misses(p: string) returns (h: string)
    requires Closed(p) && NUL !in p && !Decisive(p)
    ensures NUL !in h && Matches(h, p) && !Greedy(h, p) && (h != "" && IsSpace(h[0]) ==> Spaced(p))
    decreases |p|, 3
  {
    hide Decisive, Greedy, Matches, Sample, Spaced;
    EmptyDecisive(p);
    ByFirst(p);
    if p[0] == '*' {
      h := StarMissesOne(p);
    } else if p[0] == '%' {
      h := WordMissesOne(p);
    } else if p[0] == '~' {
      h := SpacesMissOne(p);
    } else {
      var w := Misses(Rest(p));
      h := [Sign(p)] + w;
      assert Sign(p) == 'x' || Sign(p) in p;
      assert h[1..] == w;
      UnitMatches(h, p);
      UnitFacts(h, p);
    }
  }

  lemma EmptyDecisive(p: string)
    ensures p == "" ==> Decisive(p)
  {
  }

  // One token of the pass.
  lemma UnitFacts(h: string, p: string)
    requires UnitLen(p) > 0 && h != ""
    ensures Greedy(h, p) <==> Takes(p, h[0]) && Greedy(h[1..], Rest(p))
    ensures Spaced(p) <==> IsSpace(Sign(p))
  {
  }

  lemma {:induction false} StarMissesOne(p: string) returns (h: string)
    requires Closed(p) && NUL !in p && p != "" && p[0] == '*' && !Chain(p[1..])
    ensures NUL !in h && Matches(h, p) && !Greedy(h, p) && (h != "" && IsSpace(h[0]) ==> Spaced(p))
    ensures Target(p[1..]) ==> h != "" && h[0] == p[1]
    decreases |p|, 2
  {
    hide Greedy, Matches, Sample, Spaced, Floats;
    var q := p[1..];
    if !Target(q) {
      StarMisses(p);
      SampleMatches(p);
      h := Sample(p);
      SpacedIff(p);
    } else {
      SampleMatches(q);
      TargetSample(q);
      TargetSpaced(q);
      StarSpaced(p);
      var t, k := TailMisses(Rest(q), Sample(q));
      h := [q[0]] + t;
      assert h[1..] == t && h[0..] == h && h[k + 1..] == t[k..];
      UnitMatches(h, q);
      StarTakes(h, if Matches(t, Rest(q)) then 0 else k + 1, p);
      GreedyStar(h, p);
      AtOnce(h, q[0]);
      UnitFacts(h, q);
    }
  }

  // The `?`s lead to a `%` that is decisive on its own.
  predicate MarksWord(r: string) {
    var s := AfterMarks(r);
    s != "" && s[0] == '%' && WordOk(s[1..])
  }

  // What follows the found character fails, though a match of it, or `tail`, is there.
  lemma {:induction false} TailMisses(r: string, tail: string) returns (t: string, k: nat)
    requires Closed(r) && NUL !in r && !Floats(r) && tail != "" && NUL !in tail
    ensures NUL !in t && k <= |t| && !Greedy(t, r) && (Matches(t, r) || t[k..] == tail)
    ensures Word(t[..k]) || MarksWord(r)
    decreases |r|, 4
  {
    hide Greedy, Matches, Floats, WordOk, Word;
    FloatsFirst(r);
    assert Word("") by { NoWord(); }
    if r == "" {
      t, k := tail, 0;
      EndOnly(t);
    } else if r[0] == '?' {
      var w;
      w, k := TailMisses(r[1..], tail);
      t := "x" + w;
      assert t[1..] == w && t[k + 1..] == w[k..] && t[..k + 1] == "x" + w[..k];
      UnitMatches(t, r);
      UnitFacts(t, r);
      PlainWord('x', w[..k]);
      k := k + 1;
    } else if r[0] == '*' {
      t := StarMissesOne(r);
      k := 0;
      assert t[..0] == "";
    } else if r[0] == '%' && !WordOk(r[1..]) {
      t := WordMissesOne(r);
      k := 0;
      assert t[..0] == "";
    } else if r[0] == '%' {
      var s := Blocker(r);
      t, k := [s] + tail, 1;
      WordBlocked(t, r);
    } else {
      var c := if r[0] != '~' && Takes(r, 'x') then 'y' else 'x';
      t, k := [c] + tail, 1;
      LetterFails(t, r);
      assert t[..1] == [c] + "";
      PlainWord(c, "");
    }
  }

  lemma FloatsFirst(r: string)
    ensures Floats(r) <==>
      r != "" &&
      ((r[0] == '?' && Floats(r[1..])) || (r[0] == '*' && Chain(r[1..])) || (r[0] == '%' && Wide(r[1..])))
  {
  }

  lemma EndOnly(t: string)
    ensures Greedy(t, "") <==> t == ""
  {
  }

  lemma LetterFails(t: string, r: string)
    requires r != "" && t != "" && (r[0] == '~' || (UnitLen(r) > 0 && !Takes(r, t[0]))) && !IsSpace(t[0])
    ensures !Greedy(t, r)
  {
  }

  lemma {:induction false} WordBlocked(t: string, r: string)
    requires r != "" && r[0] == '%' && WordOk(r[1..]) && !Wide(r[1..]) && t != "" && t[0] == Blocker(r)
    ensures !Greedy(t, r)
    decreases |r|
  {
    hide Greedy, Decisive, Chain, FloatsInWord, SkipWord;
    var q := r[1..];
    GreedyWord(t, r);
    SpaceStops(t, Next(r));
    assert t[0..] == t;
    if q[0] == '%' {
      WordBlocked(t, q);
    } else if Greedy(t, q) {
      assert UnitLen(q) > 0 && Takes(q, t[0]) by { UnitFacts(t, q); }
    }
  }

  // --- `~` ---

  lemma {:induction false} SpacesMissOne(p: string) returns (h: string)
    requires Closed(p) && NUL !in p && p != "" && p[0] == '~' && !SpacesOk(p[1..])
    ensures NUL !in h && Matches(h, p) && !Greedy(h, p) && Spaced(p)
    decreases |p|, 2
  {
    hide Greedy, Matches, Sample, Decisive;
    var r := p[1..];
    if r != "" && r[0] == '?' {
      SampleMatches(r[1..]);
      MarkSample(r);
      h := " " + (" " + Sample(r[1..]));
      assert (" " + Sample(r[1..]))[1..] == Sample(r[1..]);
      UnitMatches(" " + Sample(r[1..]), r);
      OneSpace(h, p);
      TwoSpaces(h);
      SpacesFail(h, p);
    } else if Spaced(r) {
      SampleMatches(r);
      SpacedIff(r);
      h := " " + Sample(r);
      OneSpace(h, p);
      TwoSpaces(h);
      SpacesFail(h, p);
    } else {
      var w := Misses(r);
      h := " " + w;
      OneSpace(h, p);
      LastSpace(h);
      GreedySpaces(h, p);
    }
  }

  lemma GreedySpaces(h: string, p: string)
    requires p != "" && p[0] == '~'
    ensures Greedy(h, p) <==> h != "" && IsSpace(h[0]) && Greedy(h[Spaces(h)..], p[1..])
  {
  }

  lemma SpacesFail(h: string, p: string)
    requires p != "" && p[0] == '~' && Spaces(h) >= 2 && |h| <= |Sample(p[1..])| + 1
    ensures !Greedy(h, p)
  {
    hide Greedy, Sample;
    GreedySpaces(h, p);
    TooShort(h[Spaces(h)..], p[1..]);
  }

  // --- `%` ---

  lemma {:induction false} LastFacts(p: string)
    requires p != "" && p[0] == '%' && Closed(p) && NUL !in p && !WordOk(p[1..])
    ensures var b := LastWord(p);
      && Closed(b) && NUL !in b && (Spaced(b) <==> Spaced(p)) && !SpaceLed(b[1..])
          && (b == p || (|p| > 1 && p[1] == '%'))
  {
    if |p| > 1 && p[1] == '%' {
      LedFacts(p[1..]);
    }
  }

  lemma {:induction false} LedFacts(p: string)
    requires p != "" && p[0] == '%' && Closed(p) && NUL !in p && !SpaceLed(p[1..])
    ensures var b := LastWord(p); Closed(b) && NUL !in b && (Spaced(b) <==> Spaced(p)) && !SpaceLed(b[1..])
  {
    if |p| > 1 && p[1] == '%' {
      LedFacts(p[1..]);
    }
  }

  // A `%` in the text stops all `%`s of the needle but the last.
  lemma {:induction false} LastGreedy(w: string, p: string)
    requires |p| > 1 && p[0] == '%' && p[1] == '%' && w != ""
    ensures Greedy("%" + w, p) <==> Greedy(w, LastWord(p))
    decreases |p|
  {
    hide Greedy, SkipWord;
    var h := "%" + w;
    GreedyWord(h, p);
    AtOnce(h, '%');
    assert h[0..] == h;
    var q := p[1..];
    if |q| > 1 && q[1] == '%' {
      LastGreedy(w, q);
    } else {
      GreedyWord(h, q);
      GreedyWord(w, q);
      PastPercent(w, Next(q));
      assert h[1 + SkipWord(w, Next(q))..] == w[SkipWord(w, Next(q))..];
    }
  }

  lemma {:induction false} WordMissesOne(p: string) returns (h: string)
    requires Closed(p) && NUL !in p && p != "" && p[0] == '%' && !WordOk(p[1..])
    ensures NUL !in h && Matches(h, p) && !Greedy(h, p) && (h != "" && IsSpace(h[0]) ==> Spaced(p))
    decreases |p|, 2
  {
    hide Greedy, Matches, WordOk, SpaceLed, LastWord, Spaced;
    LastFacts(p);
    var b := LastWord(p);
    if b == p {
      h := LastMisses(p);
    } else if WordOk(b[1..]) {
      h := RunMisses(p);
    } else {
      var w := LastMisses(b);
      if w == "" {
        h := "";
        NotJustStar(p);
      } else {
        h := "%" + w;
        LastGreedy(w, p);
        assert h[1..] == w && h[..1] == "%";
        WordAbsorbs(h, 1, b);
      }
      LastMatches(h, p);
    }
  }

  lemma NotJustStar(p: string)
    requires p != "" && p != "*"
    ensures !Greedy("", p)
  {
  }

  // More than one `%` in front of a token that one `%` would find.
  lemma RunMisses(p: string) returns (h: string)
    requires Closed(p) && NUL !in p && |p| > 1 && p[0] == '%' && p[1] == '%'
    requires Closed(LastWord(p)) && NUL !in LastWord(p) && WordOk(LastWord(p)[1..]) && !SpaceLed(LastWord(p)[1..])
    ensures NUL !in h && Matches(h, p) && !Greedy(h, p) && (h != "" ==> !IsSpace(h[0]))
  {
    hide Greedy, Matches, LastWord, Sample, SkipWord;
    var b := LastWord(p);
    var r := b[1..];
    var t := Sample(Rest(r));
    var u := "%" + t;
    h := [r[0]] + u;
    SampleMatches(Rest(r));
    assert u[1..] == t && u[..1] == "%" && h[1..] == u && h[0..] == h && h[..0] == "";
    EarlierInWord(u, 1, Rest(r));
    UnitMatches(h, r);
    WordTakes(h, 0, b);
    LastMatches(h, p);
    GreedyWord(h, p);
    OneLetter(h);
    TargetSample(r);
    if Greedy(u, p[1..]) {
      Sound(u, p[1..]);
      LastOfTail(p);
      LastMatches(u, p[1..]);
      var k := SplitWord(u, b);
      SampleIsShortest(u[k..], r);
    }
  }

  // One `%` with what may not follow it.
  lemma {:induction false} LastMisses(p: string) returns (h: string)
    requires Closed(p) && NUL !in p && p != "" && p[0] == '%' && (p[1..] != "" ==> p[1] != '%') && !WordOk(p[1..])
    ensures NUL !in h && Matches(h, p) && !Greedy(h, p) && (h != "" && IsSpace(h[0]) ==> Spaced(p))
    decreases |p|, 1
  {
    hide Greedy, Matches, Sample, SkipWord, FloatsInWord, SpaceLed, Spaced;
    var r := p[1..];
    StarSpaced(p);
    if r == "" || r == "*" {
      h := "";
      NotJustStar(p);
      AllEmpty(p);
    } else if r[0] == '*' {
      h := StarBehindMisses(p);
    } else if r[0] == '?' || (r[0] == '\\' && r[1] != '\\') || r[0] == '~' {
      h := OtherBehindMisses(p);
    } else {
      LedFirst(r);
      ClosedTail(r);
      TargetSpaced(r);
      if IsSpace(r[0]) {
        var w := Misses(r[1..]);
        h := [r[0]] + w;
        assert h[1..] == w && h[0..] == h && h[..0] == "" && r[0] in p;
        SpaceStops(h, r[0]);
        UnitMatches(h, r);
        UnitFacts(h, r);
        WordTakes(h, 0, p);
        FromStart(h, p);
      } else {
        h := TargetBehindMisses(p);
      }
    }
  }

  lemma {:induction false} StarBehindMisses(p: string) returns (h: string)
    requires Closed(p) && NUL !in p && |p| > 2 && p[0] == '%' && p[1] == '*' && !WordOk(p[1..])
    ensures NUL !in h && Matches(h, p) && !Greedy(h, p) && (h != "" && IsSpace(h[0]) ==> Spaced(p))
    decreases |p|, 0
  {
    hide Greedy, Matches, Sample, SkipWord, Chain, Spaced;
    var r := p[1..];
    var q := r[1..];
    StarSpaced(p);
    if Target(q) && IsSpace(q[0]) {
      h := StarMissesOne(r);
      SpaceStops(h, '*');
      FromStart(h, p);
      WordStar(h, p);
    } else {
      SampleMatches(p);
      SpacedIff(p);
      h := Sample(p);
      GreedyWord(h, p);
      SameSample(p);
      SameSample(r);
      if h != "" {
        var k := SkipWord(h, '*');
        if k > 0 {
          TooShort(h[k..], r);
        } else {
          WordStops(h, '*');
          assert h[0..] == h;
          if Target(q) {
            TargetSample(q);
          } else {
            StarMisses(r);
          }
        }
      }
    }
  }

  lemma {:induction false} OtherBehindMisses(p: string) returns (h: string)
    requires Closed(p) && NUL !in p && |p| > 1 && p[0] == '%'
    requires p[1] == '?' || p[1] == '~' || (p[1] == '\\' && p[2..] != "" && p[2] != '\\')
    ensures NUL !in h && Matches(h, p) && !Greedy(h, p) && h != "" && !IsSpace(h[0])
  {
    hide Greedy, Matches, SkipWord;
    var r := p[1..];
    SampleMatches(r);
    var s := Sample(r);
    if r[0] == '?' {
      h := s;
      assert h[0..] == h && h[..0] == "";
      WordTakes(h, 0, p);
      GreedyWord(h, p);
      var k := SkipWord(h, '?');
      if k == 0 {
        WordStops(h, '?');
      } else {
        TooShort(h[k..], r);
      }
    } else {
      h := [r[0]] + s;
      assert h[1..] == s && h[..1] == [r[0]] && Word(h[..1]);
      WordTakes(h, 1, p);
      AtOnce(h, r[0]);
      FromStart(h, p);
      if r[0] == '\\' {
        UnitFacts(h, r);
      } else {
        GreedySpaces(h, r);
      }
    }
  }

  lemma {:induction false} TargetBehindMisses(p: string) returns (h: string)
    requires Closed(p) && NUL !in p && |p| > 1 && p[0] == '%' && Target(p[1..]) && !IsSpace(p[1])
    requires !FloatsInWord(Rest(p[1..]))
    ensures NUL !in h && Matches(h, p) && !Greedy(h, p) && h != "" && h[0] == p[1]
    decreases |p|, 0
  {
    hide Greedy, Matches, Sample, SkipWord, Floats, WordOk, Word, Decisive;
    var r := p[1..];
    var c, rest := r[0], Rest(r);
    var t, k;
    SampleMatches(r);
    TargetSample(r);
    assert Word([c]) by { LetterWord(c); }
    NoWord();
    if !Decisive(rest) {
      t := Misses(rest);
      k := 0;
    } else {
      assert !Floats(rest) && (rest != "" && rest[0] == '%' ==> !WordOk(rest[1..]));
      if rest != "" { ByFirst(rest); }
      if MarksWord(rest) {
        t := [c] + MarkText(rest, Blocker(AfterMarks(rest)));
        k := 0;
        MarksMiss(rest, c);
        assert t[1..] == MarkText(rest, Blocker(AfterMarks(rest)));
      } else {
        t, k := TailMisses(rest, Sample(r));
      }
    }
    h := [c] + t;
    assert h[1..] == t && h[0..] == h && h[..0] == "";
    UnitFacts(h, r);
    AtOnce(h, c);
    FromStart(h, p);
    if Matches(t, rest) {
      UnitMatches(h, r);
      WordTakes(h, 0, p);
    } else if t[k..] == Sample(r) {
      LongerWord(c, t[..k]);
      assert h[..k + 1] == [c] + t[..k] && h[k + 1..] == t[k..];
      WordTakes(h, k + 1, p);
    } else {
      UnitMatches(t, r);
      assert h[..1] == [c];
      WordTakes(h, 1, p);
    }
  }

  // With one character more in front, a space is left over for the `%`.
  lemma {:induction false} MarksMiss(r: string, d: char)
    requires Closed(r) && NUL !in r && MarksWord(r) && !Floats(r)
    ensures var u := MarkText(r, Blocker(AfterMarks(r)));
      NUL !in u && Matches(u, r) && (r[0] == '?' ==> !Greedy([d] + u, r))
    decreases |r|
  {
    hide Greedy, Matches, Sample, Blocker, WordOk, Wide;
    var s := Blocker(AfterMarks(r));
    var u := MarkText(r, s);
    if r[0] == '?' {
      FloatsFirst(r);
      MarksMiss(r[1..], s);
      assert u[1..] == MarkText(r[1..], s) && ([d] + u)[1..] == u;
      UnitMatches(u, r);
      UnitFacts([d] + u, r);
      if r[1..] == "" || r[1] != '?' {
        FloatsFirst(r[1..]);
        WordBlocked(u, r[1..]);
      }
    } else {
      SampleMatches(r);
    }
  }

  lemma LedFirst(r: string)
    requires r != "" && r[0] != '%' && r[0] != '*'
    ensures SpaceLed(r) <==> IsSpace(r[0]) && Decisive(r[1..])
  {
  }

  lemma ClosedTail(r: string)
    requires Closed(r) && r != "" && r[0] != '%' && r[0] != '*' && r[0] != '~'
    ensures UnitLen(r) > 0 && Closed(Rest(r)) && (IsSpace(r[0]) ==> Rest(r) == r[1..])
  {
  }

  // The scan does not move.
  lemma FromStart(h: string, p: string)
    requires p != "" && p[0] == '%' && h != "" && SkipWord(h, Next(p)) == 0
    ensures Greedy(h, p) <==> Greedy(h, p[1..])
  {
    assert h[0..] == h;
  }

  // --- together ---

  ghost predicate Agrees(p: string) {
    forall h :: NUL !in h ==> (Greedy(h, p) <==> Matches(h, p))
  }

  // The matcher agrees with the documentation on every haystack exactly for these needles,
  // and for those that end in a lone backslash and match nothing.
  lemma DecidesIff(p: string)
    requires NUL !in p
    ensures Agrees(p) <==> Decisive(p) || !Closed(p)
  {
    hide Decisive, Closed, Greedy, Matches;
    if Decisive(p) || !Closed(p) {
      forall h | NUL !in h ensures Greedy(h, p) <==> Matches(h, p) {
        if Greedy(h, p) {
          Sound(h, p);
        }
        if Matches(h, p) {
          OpenMatchesNothing(h, p);
          Complete(h, p);
        }
      }
    } else {
      var h := Misses(p);
      assert !(Greedy(h, p) <==> Matches(h, p));
    }
  }

  // Tokens for single characters, with or without a star at the end, are always decided.
  predicate Simple(p: string) {
    p == "" || p == "*" || (UnitLen(p) > 0 && Simple(Rest(p)))
  }

  lemma {:induction false} SimpleDecided(h: string, p: string)
    requires Simple(p) && NUL !in h
    ensures Greedy(h, p) <==> Matches(h, p)
  {
    SimpleIsDecisive(p);
    if Greedy(h, p) {
      Sound(h, p);
    }
    if Matches(h, p) {
      Complete(h, p);
    }
  }

  lemma {:induction false} SimpleIsDecisive(p: string)
    requires Simple(p)
    ensures Decisive(p)
  {
    if p != "" && p != "*" {
      SimpleIsDecisive(Rest(p));
    }
  }

  // A needle that ends in `%` misses a match: a word of no characters at the end.
  lemma WordMisses(p: string) returns (h: string)
    requires Closed(p) && NUL !in p && EndsInWord(p)
    ensures NUL !in h && Matches(h, p) && !Greedy(h, p)
  {
    EndNotDecisive(p);
    h := Misses(p);
  }

  lemma {:induction false} EndNotDecisive(p: string)
    requires EndsInWord(p)
    ensures !Decisive(p) && !Chain(p) && !Floats(p) && !Wide(p) && !WordOk(p) && !SpaceLed(p) && !FloatsInWord(p)
    decreases |p|
  {
    var q := if p[0] in {'*', '%', '~'} then p[1..] else Rest(p);
    if p == "%" {
      assert q == "" && !WordOk(q) && !Wide(q) && !SpaceLed(q);
    } else {
      EndNotDecisive(q);
    }
    hide Decisive, WordOk, SpaceLed, Floats, FloatsInWord, Chain;
    EndStep(p, q);
  }

  lemma EndStep(p: string, q: string)
    requires p != "" && q == if p[0] in {'*', '%', '~'} then p[1..] else Rest(p)
    requires !WordOk(q) && !Wide(q) && !SpaceLed(q)
    requires p != "%" ==> !Decisive(q) && !Chain(q) && !Floats(q) && !FloatsInWord(q)
    ensures !Decisive(p) && !Chain(p) && !Floats(p) && !Wide(p) && !WordOk(p) && !SpaceLed(p) && !FloatsInWord(p)
  {
  }

  // And so does one with `~` before something that takes a space, at any place.
  lemma SpacesMiss(p: string) returns (h: string)
    requires Closed(p) && NUL !in p && SpaceBehind(p)
    ensures NUL !in h && Matches(h, p) && !Greedy(h, p)
  {
    BehindNotDecisive(p);
    h := Misses(p);
  }

  lemma {:induction false} BehindNotDecisive(p: string)
    requires SpaceBehind(p)
    ensures !Decisive(p) && !Chain(p) && !Floats(p) && !Wide(p) && !WordOk(p) && !SpaceLed(p) && !FloatsInWord(p)
    decreases |p|
  {
    if !(p[0] == '~' && TakesSpace(p[1..])) {
      var q := if p[0] in {'*', '%', '~'} then p[1..] else Rest(p);
      BehindNotDecisive(q);
      hide Decisive, WordOk, SpaceLed, Floats, FloatsInWord, Chain;
      EndStep(p, q);
    }
  }
}
