/**
 matchwilds of src/util.c: the forward pass with one saved point to return to.  It
 terminates though it moves both cursors back, never accepts what the documented language
 rejects, and decides all needles of the form `Resolved`.
 */
module BacktrackMatcher {
  import opened CStrings
  import opened Wildcards
  import opened WildcardSteps
  import opened WildcardTexts
  import GreedyMatcher

  // What is left of both strings at the point to return to.
  datatype Saved = Nothing | Point(h: string, p: string)

  // The point is behind: one more character at most is left than there.
  predicate Fits(h: string, saved: Saved) {
    saved.Point? ==> |h| <= |saved.h| + 1
  }

  // The matcher as a function of what is left.  `esc` is the escape flag; a return to the
  // saved point does not clear it.
  function Run(h: string, p: string, esc: bool, saved: Saved): bool
    requires Fits(h, saved)
    decreases if saved.Point? then 2 * |saved.h| + 1 else 2 * |h|, |p|
  {
    if p == "" then h == ""
    else if h == "" then p == "*" && !esc
    else
      var e := esc || p[0] == '\\';
      var q := if p[0] == '\\' then p[1..] else p;
      if !e && q[0] == '?' then Run(h[1..], q[1..], e, saved)
      else if !e && q[0] == '*' then
        var k := Skip(h, Next(q));
        if k == |h| then Run("", q[1..], e, Nothing) else Run(h[k..], q[1..], e, Point(h[k + 1..], q))
      else if !e && q[0] == '%' then Run(h[SkipWord(h, Next(q))..], q[1..], e, saved)
      else if !e && q[0] == '~' then IsSpace(h[0]) && Run(h[Spaces(h)..], q[1..], e, saved)
      else if q == "" || q[0] != h[0] then saved.Point? && Run(saved.h, saved.p, e, Nothing)
      else Run(h[1..], q[1..], false, saved)
  }

  // matchwilds: 0 for a match, 1 for none.
  method Matchwilds(haystack: Arg, needle: Arg) returns (r: int)
    requires haystack.CString() && needle.CString()
    ensures r == if haystack.Str? && needle.Str? && Run(haystack.s, needle.s, false, Nothing) then 0 else 1
  {
    if needle.Null? || haystack.Null? { return 1; }
    var hay, pat := haystack.s, needle.s;
    assert NUL !in hay && NUL !in pat;
    hide *;
    ghost var want := Run(hay, pat, false, Nothing);
    var h: nat, n: nat := 0, 0;
    var escaped := false;
    // -1 for NULL
    var lasthay: int, lastneedle: int := -1, -1;
    OnStart(hay, pat);
    while CharAt(pat, n) != NUL
      invariant n <= |pat| && h <= |hay|
      invariant On(hay, pat, want, h, n, escaped, lasthay, lastneedle)
      decreases Back(hay, h, lasthay), |pat| - n
    {
      AtEnd(pat, n);
      AtEnd(hay, h);
      if CharAt(hay, h) == NUL {
        AtEnd(pat, n + 1);
        OnHayEnd(hay, pat, want, n, escaped, lasthay, lastneedle);
        if CharAt(pat, n) == '*' && CharAt(pat, n + 1) == NUL && !escaped {
          return 0;
        }
        return 1;
      }
      BackBound(hay, pat, want, h, n, escaped, lasthay, lastneedle);
      var none;
      none, h, n, escaped, lasthay, lastneedle := TryToken(hay, pat, want, h, n, escaped, lasthay, lastneedle);
      if none { return 1; }
    }
    AtEnd(pat, n);
    AtEnd(hay, h);
    OnPatEnd(hay, pat, want, h, escaped, lasthay, lastneedle);
    return if CharAt(hay, h) == NUL then 0 else 1;
  }

  // The body of the loop once something is left of both strings; `none` is a failure.
  method TryToken(hay: string, pat: string, ghost want: bool, h0: nat, n0: nat, esc0: bool, lh0: int, ln0: int)
    returns (none: bool, h: nat, n: nat, escaped: bool, lasthay: int, lastneedle: int)
    requires NUL !in hay && NUL !in pat && h0 < |hay| && n0 < |pat|
    requires On(hay, pat, want, h0, n0, esc0, lh0, ln0)
    ensures none ==> !want
    ensures !none ==> On(hay, pat, want, h, n, escaped, lasthay, lastneedle)
    ensures !none ==> Back(hay, h, lasthay) <= Back(hay, h0, lh0)
    ensures !none && n <= n0 ==> Back(hay, h, lasthay) < Back(hay, h0, lh0)
  {
    hide *;
    none, h, n, escaped, lasthay, lastneedle := false, h0, n0, esc0, lh0, ln0;
    if CharAt(pat, n) == '\\' {
      escaped := true;
      n := n + 1;
    }
    if CharAt(pat, n) == '?' && !escaped {
      OnAny(hay, pat, want, h, n, lasthay, lastneedle);
      n, h := n + 1, h + 1;
    } else if CharAt(pat, n) == '*' && !escaped {
      OnStar(hay, pat, want, h, n, lasthay, lastneedle);
      h := GreedyMatcher.ScanTo(hay, h, CharAt(pat, n + 1));
      lasthay := h + 1;
      lastneedle := n;
      n := n + 1;
    } else if CharAt(pat, n) == '%' && !escaped {
      OnWord(hay, pat, want, h, n, lasthay, lastneedle);
      h := GreedyMatcher.ScanWord(hay, h, CharAt(pat, n + 1));
      n := n + 1;
    } else if CharAt(pat, n) == '~' && !escaped {
      OnSpaces(hay, pat, want, h, n, lasthay, lastneedle);
      if IsSpace(CharAt(hay, h)) {
        h := GreedyMatcher.ScanSpaces(hay, h);
        n := n + 1;
      } else {
        none := true;
      }
    } else {
      OnOther(hay, pat, want, h, n0, esc0, lasthay, lastneedle);
      if CharAt(pat, n) == CharAt(hay, h) {
        n, h := n + 1, h + 1;
        escaped := false;
      } else if lasthay != -1 && lastneedle != -1 {
        h, n := lasthay, lastneedle;
        lasthay, lastneedle := -1, -1;
      } else {
        none := true;
      }
    }
  }

  // The saved pointers are both NULL or a place behind and a star; past the end of the
  // haystack only once the haystack is used up.
  predicate SavedOk(hay: string, pat: string, h: nat, lasthay: int, lastneedle: int)
    ensures h <= |hay| && SavedOk(hay, pat, h, lasthay, lastneedle) ==>
      Fits(hay[h..], SavedAt(hay, pat, lasthay, lastneedle))
  {
    if lasthay == -1 then lastneedle == -1
    else 0 <= lastneedle < |pat| && 0 < lasthay <= h + 1 && (lasthay <= |hay| || h == |hay|)
  }

  function SavedAt(hay: string, pat: string, lasthay: int, lastneedle: int): Saved {
    if 0 <= lasthay <= |hay| && 0 <= lastneedle < |pat| then Point(hay[lasthay..], pat[lastneedle..]) else Nothing
  }

  // What the returns use up.
  function Back(hay: string, h: nat, lasthay: int): int {
    if lasthay == -1 then 2 * (|hay| - h) else 2 * (|hay| - lasthay) + 1
  }

  // The loop's variables stand for a state from which the answer is `want`.
  ghost predicate On(hay: string, pat: string, want: bool, h: nat, n: nat, esc: bool, lasthay: int, lastneedle: int)
    ensures On(hay, pat, want, h, n, esc, lasthay, lastneedle) ==>
      h <= |hay| && n <= |pat| && SavedOk(hay, pat, h, lasthay, lastneedle)
  {
    && h <= |hay| && n <= |pat| && SavedOk(hay, pat, h, lasthay, lastneedle)
    && Run(hay[h..], pat[n..], esc, SavedAt(hay, pat, lasthay, lastneedle)) == want
  }

  lemma OnStart(hay: string, pat: string)
    ensures On(hay, pat, Run(hay, pat, false, Nothing), 0, 0, false, -1, -1)
  {
    assert hay[0..] == hay && pat[0..] == pat;
  }

  lemma OnPatEnd(hay: string, pat: string, want: bool, h: nat, esc: bool, lasthay: int, lastneedle: int)
    requires On(hay, pat, want, h, |pat|, esc, lasthay, lastneedle)
    ensures want <==> h == |hay|
  {
  }

  lemma OnHayEnd(hay: string, pat: string, want: bool, n: nat, esc: bool, lasthay: int, lastneedle: int)
    requires n < |pat| && On(hay, pat, want, |hay|, n, esc, lasthay, lastneedle)
    ensures want <==> CharAt(pat, n) == '*' && n + 1 == |pat| && !esc
  {
    assert pat[n..] == "*" <==> pat[n] == '*' && n + 1 == |pat|;
  }

  lemma BackBound(hay: string, pat: string, want: bool, h: nat, n: nat, esc: bool, lasthay: int, lastneedle: int)
    requires h < |hay| && On(hay, pat, want, h, n, esc, lasthay, lastneedle)
    ensures Back(hay, h, lasthay) >= 0
  {
  }

  lemma OnAny(hay: string, pat: string, want: bool, h: nat, n: nat, lasthay: int, lastneedle: int)
    requires h < |hay| && CharAt(pat, n) == '?' && On(hay, pat, want, h, n, false, lasthay, lastneedle)
    ensures On(hay, pat, want, h + 1, n + 1, false, lasthay, lastneedle)
    ensures Back(hay, h + 1, lasthay) <= Back(hay, h, lasthay)
  {
    Step(pat, n);
    Step(hay, h);
  }

  lemma OnStar(hay: string, pat: string, want: bool, h: nat, n: nat, lasthay: int, lastneedle: int)
    requires h < |hay| && CharAt(pat, n) == '*' && On(hay, pat, want, h, n, false, lasthay, lastneedle)
    ensures var h' := StopAt(hay, h, CharAt(pat, n + 1));
      On(hay, pat, want, h', n + 1, false, h' + 1, n)
    ensures Back(hay, StopAt(hay, h, CharAt(pat, n + 1)), StopAt(hay, h, CharAt(pat, n + 1)) + 1) <= Back(hay, h,
        lasthay)
  {
    hide Skip;
    Step(pat, n);
    var k := Skip(hay[h..], CharAt(pat, n + 1));
    DropTwice(hay, h, k);
    assert Next(pat[n..]) == CharAt(pat, n + 1);
    if h + k < |hay| {
      DropTwice(hay, h, k + 1);
    }
  }

  lemma OnWord(hay: string, pat: string, want: bool, h: nat, n: nat, lasthay: int, lastneedle: int)
    requires h < |hay| && CharAt(pat, n) == '%' && On(hay, pat, want, h, n, false, lasthay, lastneedle)
    ensures On(hay, pat, want, WordEnd(hay, h, CharAt(pat, n + 1)), n + 1, false, lasthay, lastneedle)
    ensures Back(hay, WordEnd(hay, h, CharAt(pat, n + 1)), lasthay) <= Back(hay, h, lasthay)
  {
    Step(pat, n);
    Step(hay, h);
    DropTwice(hay, h, SkipWord(hay[h..], CharAt(pat, n + 1)));
  }

  lemma OnSpaces(hay: string, pat: string, want: bool, h: nat, n: nat, lasthay: int, lastneedle: int)
    requires h < |hay| && CharAt(pat, n) == '~' && On(hay, pat, want, h, n, false, lasthay, lastneedle)
    ensures IsSpace(CharAt(hay, h)) ==> On(hay, pat, want, SpacesEnd(hay, h), n + 1, false, lasthay, lastneedle)
    ensures !IsSpace(CharAt(hay, h)) ==> !want
    ensures Back(hay, SpacesEnd(hay, h), lasthay) <= Back(hay, h, lasthay)
  {
    Step(pat, n);
    Step(hay, h);
    DropTwice(hay, h, Spaces(hay[h..]));
  }

  // A character as such: it matches, or the saved point is taken up.
  lemma OnOther(hay: string, pat: string, want: bool, h: nat, n: nat, esc: bool, lasthay: int, lastneedle: int)
    requires n < |pat| && h < |hay| && NUL !in hay && On(hay, pat, want, h, n, esc, lasthay, lastneedle)
    requires var c := CharAt(pat, n); esc || c == '\\' || (c != '?' && c != '*' && c != '%' && c != '~')
    ensures var slash := CharAt(pat, n) == '\\'; var m := if slash then n + 1 else n;
      if CharAt(pat, m) == CharAt(hay, h) then On(hay, pat, want, h + 1, m + 1, false, lasthay, lastneedle)
      else if lasthay != -1 then On(hay, pat, want, lasthay, lastneedle, esc || slash, -1, -1)
      else !want
    ensures Back(hay, h + 1, lasthay) <= Back(hay, h, lasthay)
    ensures if lasthay == -1 then lastneedle == -1
      else 0 < lasthay && 0 <= lastneedle && Back(hay, lasthay, -1) < Back(hay, h, lasthay)
  {
    var m := if pat[n] == '\\' then n + 1 else n;
    AtEnd(hay, h);
    Step(pat, n);
    Step(hay, h);
    if m < |pat| {
      Step(pat, m);
    }
  }

  // --- soundness, for the whole language ---

  ghost predicate Either(h: string, p: string, saved: Saved) {
    Matches(h, p) || (saved.Point? && Matches(saved.h, saved.p))
  }

  // The flag survives only a return, which leads to a star.
  predicate Proper(p: string, esc: bool, saved: Saved) {
    (esc ==> p != "" && p[0] == '*') && (saved.Point? ==> saved.p != "" && saved.p[0] == '*')
  }

  lemma {:induction false} Sound(h: string, p: string, esc: bool, saved: Saved)
    requires Fits(h, saved) && Proper(p, esc, saved) && Run(h, p, esc, saved)
    ensures Either(h, p, saved)
    decreases if saved.Point? then 2 * |saved.h| + 1 else 2 * |h|, |p|
  {
    if p == "" {
    } else if h == "" {
      assert Matches("", "");
      StarTakes(h, 0, p);
    } else {
      var e, q := esc || p[0] == '\\', if p[0] == '\\' then p[1..] else p;
      if !e && q[0] == '?' {
        Sound(h[1..], q[1..], e, saved);
      } else if !e && q[0] == '*' {
        StarSound(h, p, saved);
      } else if !e && q[0] == '%' {
        Sound(h[SkipWord(h, Next(q))..], q[1..], e, saved);
      } else if !e && q[0] == '~' {
        Sound(h[Spaces(h)..], q[1..], e, saved);
      } else if q == "" || q[0] != h[0] {
        Sound(saved.h, saved.p, e, Nothing);
      } else {
        Sound(h[1..], q[1..], false, saved);
        if esc && Matches(h[1..], q[1..]) {
          StarTakes(h, 1, p);
        }
      }
    }
  }

  lemma {:induction false} StarSound(h: string, p: string, saved: Saved)
    requires h != "" && p != "" && p[0] == '*' && Fits(h, saved) && Run(h, p, false, saved)
    ensures Matches(h, p)
    decreases if saved.Point? then 2 * |saved.h| + 1 else 2 * |h|, |p|, 0
  {
    var k := Skip(h, Next(p));
    if k == |h| {
      assert h[k..] == "";
      Sound("", p[1..], false, Nothing);
      StarTakes(h, k, p);
    } else {
      Sound(h[k..], p[1..], false, Point(h[k + 1..], p));
      if Matches(h[k..], p[1..]) {
        StarTakes(h, k, p);
      } else {
        StarAbsorbs(h, k + 1, p);
      }
    }
  }

  // Whatever the greedy matcher accepts is accepted: it never needs the saved point.
  lemma {:induction false} AcceptsMore(h: string, p: string, saved: Saved)
    requires Fits(h, saved) && GreedyMatcher.Greedy(h, p)
    ensures Run(h, p, false, saved)
    decreases |p|
  {
    if p != "" && h != "" {
      if p[0] == '\\' {
        assert p[1..][1..] == p[2..];
        AcceptsMore(h[1..], p[2..], saved);
      } else if p[0] == '*' {
        var k := Skip(h, Next(p));
        if k == |h| {
          assert h[k..] == "";
          AcceptsMore("", p[1..], Nothing);
        } else {
          AcceptsMore(h[k..], p[1..], Point(h[k + 1..], p));
        }
      } else if p[0] == '%' {
        AcceptsMore(h[SkipWord(h, Next(p))..], p[1..], saved);
      } else if p[0] == '~' {
        AcceptsMore(h[Spaces(h)..], p[1..], saved);
      } else {
        AcceptsMore(h[1..], p[1..], saved);
      }
    }
  }

  // --- exactly which needles are decided ---

  // Nothing, a token for one character, a star, `%` or `~` with what may follow each of them.
  predicate Resolved(p: string)
    decreases |p|, 0
  {
    p == "" ||
    if p[0] == '*' then Segments(p[1..])
    else if p[0] == '%' then WordOk(p[1..])
    else if p[0] == '~' then SpacesOk(p[1..])
    else UnitLen(p) > 0 && Resolved(Rest(p))
  }

  // After a star: nothing, or a token the scan finds, and then, up to the next star, tokens
  // whose first place is right or that lead back to the saved point.
  predicate Segments(q: string)
    decreases |q|, 0
  {
    q == "" || (Target(q) && Segment(Rest(q)))
  }

  predicate Segment(r: string)
    decreases |r|, 0
  {
    r != "" &&
    if r[0] == '*' then Segments(r[1..])
    else if r[0] == '%' then InnerWordOk(r[1..])
    else (r[0] == '?' || Plain(r[0])) && Segment(r[1..])
  }

  // What can start earlier: any number of `?` and a star, with `%` only in front of a star
  // that looks for a space.
  predicate Floats(r: string)
    decreases |r|, 0
  {
    r != "" &&
    ((r[0] == '?' && Floats(r[1..])) || (r[0] == '*' && Segments(r[1..])) || (r[0] == '%' && Wide(r[1..])))
  }

  predicate Wide(r: string)
    decreases |r|, 0
  {
    r != "" &&
    ((r[0] == '%' && Wide(r[1..])) || (r[0] == '*' && |r| > 1 && IsSpace(r[1]) && Segments(r[1..])))
  }

  // After `%`: what ends the word at its end, or a token the scan finds in it, and then what
  // can start earlier in the word; first without a saved star, then behind one.
  predicate WordOk(r: string)
    decreases |r|, 1
  {
    SpaceLed(r) || (Target(r) && !IsSpace(r[0]) && FloatsInWord(Rest(r)))
  }

  predicate SpaceLed(r: string)
    decreases |r|, 0
  {
    r != "" &&
    ((IsSpace(r[0]) && Resolved(r[1..]))
     || (r[0] == '%' && SpaceLed(r[1..]))
     || (r[0] == '*' && |r| > 1 && IsSpace(r[1]) && Segments(r[1..])))
  }

  predicate FloatsInWord(r: string)
    decreases |r|, 1
  {
    Floats(r) || (r != "" && r[0] == '%' && WordOk(r[1..]))
  }

  predicate InnerWordOk(r: string)
    decreases |r|, 1
  {
    InnerLed(r) || (r != "" && Plain(r[0]) && !IsSpace(r[0]) && InnerFloats(r[1..]))
  }

  predicate InnerLed(r: string)
    decreases |r|, 0
  {
    r != "" &&
    ((IsSpace(r[0]) && Segment(r[1..]))
     || (r[0] == '%' && InnerLed(r[1..]))
     || (r[0] == '*' && |r| > 1 && IsSpace(r[1]) && Segments(r[1..])))
  }

  predicate InnerFloats(r: string)
    decreases |r|, 1
  {
    Floats(r) || (r != "" && r[0] == '%' && InnerWordOk(r[1..]))
  }

  // After `~`: nothing that takes a space.
  predicate SpacesOk(r: string)
    decreases |r|, 1
  {
    Resolved(r) && !Spaced(r) && (r != "" ==> r[0] != '?')
  }

  // --- starting earlier ---

  lemma {:induction false} FloatsEarlier(h: string, k: nat, r: string)
    requires Floats(r) && k <= |h| && Matches(h[k..], r)
    ensures Matches(h, r)
    decreases |r|
  {
    if r[0] == '*' {
      StarAbsorbs(h, k, r);
    } else if r[0] == '%' {
      WideEarlier(h, k, r);
    } else {
      assert h[k..][1..] == h[1..][k..];
      FloatsEarlier(h[1..], k, r[1..]);
    }
  }

  lemma {:induction false} WideEarlier(h: string, k: nat, r: string)
    requires r != "" && r[0] == '%' && Wide(r[1..]) && k <= |h| && Matches(h[k..], r)
    ensures Matches(h, r)
    decreases |r|
  {
    hide Matches, Segments;
    if r[1] == '%' {
      TwoWords(h[k..], r);
      WideEarlier(h, k, r[1..]);
      TwoWords(h, r);
    } else {
      WordStar(h[k..], r);
      StarAbsorbs(h, k, r[1..]);
      WordStar(h, r);
    }
  }

  lemma EarlierInWord(h: string, k: nat, r: string)
    requires FloatsInWord(r) || InnerFloats(r)
    requires k <= |h| && Word(h[..k]) && Matches(h[k..], r)
    ensures Matches(h, r)
  {
    if Floats(r) {
      FloatsEarlier(h, k, r);
    } else {
      WordAbsorbs(h, k, r);
    }
  }

  // --- what the parts of a resolved needle are ---

  lemma {:induction false} FloatsResolved(r: string)
    requires Floats(r)
    ensures Resolved(r) && Segment(r)
    decreases |r|
  {
    if r[0] == '?' {
      FloatsResolved(r[1..]);
    } else if r[0] == '%' {
      WideIsLed(r[1..]);
    }
  }

  lemma {:induction false} WideIsLed(r: string)
    requires Wide(r)
    ensures SpaceLed(r) && InnerLed(r)
  {
    if r[0] == '%' {
      WideIsLed(r[1..]);
    }
  }

  lemma {:induction false} LedHasShape(r: string)
    requires SpaceLed(r) || InnerLed(r)
    ensures LedShape(r)
  {
    if r[0] == '%' {
      LedHasShape(r[1..]);
    }
  }

  lemma LedRest(r: string)
    ensures SpaceLed(r) ==> Resolved(r)
    ensures InnerLed(r) ==> Segment(r)
  {
  }

  lemma TargetRest(r: string)
    ensures Target(r) && FloatsInWord(Rest(r)) ==> Resolved(r)
    ensures r != "" && Plain(r[0]) && InnerFloats(r[1..]) ==> Segment(r) && Target(r) && Rest(r) == r[1..]
  {
    if r != "" && Floats(Rest(r)) {
      FloatsResolved(Rest(r));
    }
  }

  lemma {:induction false} LedNotEmpty(r: string)
    requires LedShape(r) || Target(r)
    ensures !Matches("", r)
    decreases |r|
  {
    if r[0] == '%' {
      if Matches("", r) {
        var k := SplitWord("", r);
        LedNotEmpty(r[1..]);
      }
    } else if r[0] == '*' {
      if Matches("", r) {
        var k := StarMatch("", r);
        LedNotEmpty(r[1..]);
      }
    }
  }

  // At the end of the haystack nothing is left to find, unless it is a last star.
  lemma NothingMore(p: string)
    requires (Resolved(p) || Segment(p)) && Matches("", p)
    ensures p == "" || p == "*"
  {
    hide InnerWordOk, WordOk;
    if p != "" && p[0] == '*' {
      var k := StarMatch("", p);
      if p[1..] != "" {
        LedNotEmpty(p[1..]);
      }
    } else if p != "" && p[0] == '%' {
      var k := SplitWord("", p);
      WordLeads(p[1..]);
      LedNotEmpty(p[1..]);
    }
  }

  lemma WordLeads(r: string)
    requires WordOk(r) || InnerWordOk(r)
    ensures LedShape(r) || (Target(r) && !IsSpace(r[0]))
  {
    if SpaceLed(r) || InnerLed(r) {
      LedHasShape(r);
    }
  }

  // --- a resolved needle finds every match ---

  // Wherever the saved star can still match, what is left of its segment can match from here
  // on.
  ghost predicate Covers(h: string, p: string, saved: Saved) {
    saved.Point? && saved.p != "" &&
    forall j :: 0 <= j <= |saved.h| && Matches(saved.h[j..], saved.p[1..]) ==>
      exists i :: 0 <= i <= |h| && Matches(h[i..], p)
  }

  // The matcher stands in the segment of the saved star, or on the character that the scan
  // found for it.
  ghost predicate Inside(h: string, p: string, saved: Saved) {
    && Covers(h, p, saved) && saved.p[0] == '*' && Segments(saved.p[1..])
    && (Segment(p) || (Target(p) && Segment(Rest(p)) && h != "" && h[0] == p[0]))
  }

  ghost predicate InClass(h: string, p: string, saved: Saved) {
    NUL !in h && if saved.Nothing? then Resolved(p) else NUL !in saved.h && Inside(h, p, saved)
  }

  // If the saved star can still find a match, so can the star the matcher has come to.
  lemma LaterStar(h: string, p: string, saved: Saved)
    requires Covers(h, p, saved) && p != "" && p[0] == '*' && saved.p[0] == '*' && Matches(saved.h, saved.p)
    ensures Matches(h, p)
  {
    hide Matches;
    var j := StarMatch(saved.h, saved.p);
    var i :| 0 <= i <= |h| && Matches(h[i..], p);
    StarAbsorbs(h, i, p);
  }

  lemma EmptyCovers(p: string, saved: Saved)
    requires Covers("", p, saved) && saved.p[0] == '*' && Matches(saved.h, saved.p)
    ensures Matches("", p)
  {
    hide Matches;
    var j := StarMatch(saved.h, saved.p);
    var h := "";
    var i :| 0 <= i <= |h| && Matches(h[i..], p);
    assert h[i..] == h;
  }

  lemma NothingLeft(p: string, saved: Saved)
    requires InClass("", p, saved) && Either("", p, saved)
    ensures p == "" || p == "*"
  {
    hide Matches, Resolved, Segment, Segments;
    if saved.Point? && Matches(saved.h, saved.p) {
      EmptyCovers(p, saved);
    }
    NothingMore(p);
  }

  // One token for one character.
  lemma CoversUnit(h: string, p: string, saved: Saved)
    requires Covers(h, p, saved) && UnitLen(p) > 0 && h != ""
    ensures Covers(h[1..], Rest(p), saved)
  {
    hide Matches;
    forall j | 0 <= j <= |saved.h| && Matches(saved.h[j..], saved.p[1..])
      ensures exists i :: 0 <= i <= |h[1..]| && Matches(h[1..][i..], Rest(p))
    {
      var i :| 0 <= i <= |h| && Matches(h[i..], p);
      UnitMatches(h[i..], p);
      assert h[i..][1..] == h[1..][i..];
    }
  }

  // A `%`.
  lemma CoversWord(h: string, p: string, saved: Saved)
    requires Covers(h, p, saved) && p != "" && p[0] == '%'
    requires LedShape(p[1..]) || (Target(p[1..]) && !IsSpace(p[1]))
    ensures Covers(h[SkipWord(h, Next(p))..], p[1..], saved)
  {
    hide Matches, SkipWord, LedShape, Target;
    var k := SkipWord(h, Next(p));
    forall j | 0 <= j <= |saved.h| && Matches(saved.h[j..], saved.p[1..])
      ensures exists i :: 0 <= i <= |h[k..]| && Matches(h[k..][i..], p[1..])
    {
      var i :| 0 <= i <= |h| && Matches(h[i..], p);
      var m := WordCovers(h, p, i);
      assert h[k..][m - k..] == h[m..];
    }
  }

  lemma {:induction false} Complete(h: string, p: string, saved: Saved)
    requires Fits(h, saved) && InClass(h, p, saved) && Either(h, p, saved)
    ensures Run(h, p, false, saved)
    decreases if saved.Point? then 2 * |saved.h| + 1 else 2 * |h|, |p|, 1
  {
    hide Resolved, Segment, Segments, Covers, Matches, WordOk, InnerWordOk, SpacesOk, Run;
    if h == "" {
      NothingLeft(p, saved);
      RunEmpty(p, saved);
    } else {
      NotAtEnd(h, p, saved);
      ByFirst(p);
      if p[0] == '*' {
        if saved.Point? && Matches(saved.h, saved.p) {
          LaterStar(h, p, saved);
        }
        StarComplete(h, p, saved);
      } else if p[0] == '%' {
        WordComplete(h, p, saved);
      } else if p[0] == '~' {
        SpacesComplete(h, p);
      } else {
        RunUnit(h, p, saved);
        UnitMatches(h, p);
        if Takes(p, h[0]) {
          if saved.Point? {
            CoversUnit(h, p, saved);
          }
          Complete(h[1..], Rest(p), saved);
        } else {
          SavedMatches(h, p, saved);
          Complete(saved.h, saved.p, Nothing);
        }
      }
    }
  }

  // A token that does not take the character: the match is that of the saved star.
  lemma SavedMatches(h: string, p: string, saved: Saved)
    requires h != "" && UnitLen(p) > 0 && !Takes(p, h[0]) && InClass(h, p, saved) && Either(h, p, saved)
    ensures saved.Point? && NUL !in saved.h && Resolved(saved.p) && Matches(saved.h, saved.p) && p[0] != '\\'
  {
    hide Matches;
    UnitMatches(h, p);
  }

  lemma NotAtEnd(h: string, p: string, saved: Saved)
    requires h != "" && InClass(h, p, saved) && Either(h, p, saved)
    ensures p != ""
  {
  }

  lemma RunEmpty(p: string, saved: Saved)
    requires Fits("", saved)
    ensures Run("", p, false, saved) <==> p == "" || p == "*"
  {
  }

  lemma RunUnit(h: string, p: string, saved: Saved)
    requires UnitLen(p) > 0 && h != "" && Fits(h, saved)
    ensures Takes(p, h[0]) ==> Run(h, p, false, saved) == Run(h[1..], Rest(p), false, saved)
    ensures !Takes(p, h[0]) && p[0] != '\\' ==>
      Run(h, p, false, saved) == (saved.Point? && Run(saved.h, saved.p, false, Nothing))
  {
    if p[0] == '\\' {
      assert p[1..][1..] == p[2..];
    }
  }

  lemma RunWord(h: string, p: string, saved: Saved)
    requires p != "" && p[0] == '%' && h != "" && Fits(h, saved)
    ensures Run(h, p, false, saved) == Run(h[SkipWord(h, Next(p))..], p[1..], false, saved)
  {
  }

  lemma RunSpaces(h: string, p: string, saved: Saved)
    requires p != "" && p[0] == '~' && h != "" && Fits(h, saved)
    ensures Run(h, p, false, saved) == (IsSpace(h[0]) && Run(h[Spaces(h)..], p[1..], false, saved))
  {
  }

  lemma {:induction false} WordComplete(h: string, p: string, saved: Saved)
    requires h != "" && p != "" && p[0] == '%' && Fits(h, saved) && InClass(h, p, saved) && Either(h, p, saved)
    requires if saved.Nothing? then WordOk(p[1..]) else InnerWordOk(p[1..])
    ensures Run(h, p, false, saved)
    decreases if saved.Point? then 2 * |saved.h| + 1 else 2 * |h|, |p|, 0
  {
    hide Matches, SkipWord, Run, Resolved, Segment, Segments, Covers, WordOk, InnerWordOk;
    var r, i := p[1..], SkipWord(h, Next(p));
    RunWord(h, p, saved);
    WordLeads(r);
    if Matches(h, p) {
      WordGoesOn(h, p);
    }
    WordRest(r);
    if saved.Point? {
      CoversWord(h, p, saved);
    }
    Complete(h[i..], r, saved);
  }

  lemma WordRest(r: string)
    ensures WordOk(r) ==> Resolved(r)
    ensures InnerWordOk(r) ==> Segment(r)
  {
    LedRest(r);
    TargetRest(r);
  }

  lemma WordGoesOn(h: string, p: string)
    requires p != "" && p[0] == '%' && (WordOk(p[1..]) || InnerWordOk(p[1..])) && Matches(h, p)
    ensures Matches(h[SkipWord(h, Next(p))..], p[1..])
  {
    hide Matches, SkipWord, FloatsInWord, InnerFloats, SpaceLed, InnerLed;
    var r, i := p[1..], SkipWord(h, Next(p));
    if SpaceLed(r) || InnerLed(r) {
      LedHasShape(r);
      LedStep(h, p);
    } else {
      TargetRest(r);
      var k := TargetStep(h, p);
      EarlierInWord(h[i + 1..], k - i, Rest(r));
      Step(h, i);
      TargetTakes(r);
      UnitMatches(h[i..], r);
    }
  }

  lemma {:induction false} SpacesComplete(h: string, p: string)
    requires h != "" && p != "" && p[0] == '~' && SpacesOk(p[1..]) && NUL !in h && Matches(h, p)
    ensures Run(h, p, false, Nothing)
    decreases 2 * |h|, |p|, 0
  {
    hide Resolved, Spaced, Matches, Run, Spaces;
    TakesNone(p[1..]);
    SpacesStep(h, p);
    RunSpaces(h, p, Nothing);
    Complete(h[Spaces(h)..], p[1..], Nothing);
  }

  lemma TakesNone(r: string)
    requires SpacesOk(r)
    ensures TakesNoSpace(r)
  {
    hide Resolved, WordOk, Segments;
    if r != "" {
      ByFirst(r);
      if r[0] == '%' {
        WordTakesNone(r[1..]);
      } else if r[0] == '*' && r[1..] != "" {
        ByFirst(r[1..]);
        TargetSpaced(r[1..]);
      }
    }
  }

  lemma WordTakesNone(r: string)
    requires WordOk(r) && !Spaced(r)
    ensures Target(r) && !IsSpace(r[0])
  {
    if SpaceLed(r) {
      LedIsSpaced(r);
    }
  }

  lemma {:induction false} LedIsSpaced(r: string)
    requires SpaceLed(r)
    ensures Spaced(r)
  {
    if r[0] == '%' {
      LedIsSpaced(r[1..]);
    }
  }

  lemma {:induction false} StarComplete(h: string, p: string, saved: Saved)
    requires h != "" && p != "" && p[0] == '*' && Segments(p[1..]) && NUL !in h
    requires Fits(h, saved) && Matches(h, p)
    ensures Run(h, p, false, saved)
    decreases if saved.Point? then 2 * |saved.h| + 1 else 2 * |h|, |p|, 0
  {
    hide Matches, Skip, Segments, Segment, Run, Covers;
    RunStar(h, p, saved);
    var q, k := p[1..], Skip(h, Next(p));
    if q == "" {
      AtEnd(h, k);
    } else {
      ByFirst(q);
      var j := StarMatch(h, p);
      TargetFirst(h[j..], q);
      assert h[j] == q[0] == Next(p) && k <= j;
      Step(h, k);
      if j > k {
        DropTwice(h, k + 1, j - k - 1);
        StarTakes(h[k + 1..], j - k - 1, p);
      } else {
        assert Matches(h[k..], q);
      }
      CoversStart(h[k..], p);
      Complete(h[k..], q, Point(h[k + 1..], p));
    }
  }

  lemma CoversStart(h: string, p: string)
    requires h != "" && p != "" && p[0] == '*'
    ensures Covers(h, p[1..], Point(h[1..], p))
  {
    hide Matches;
    forall j | 0 <= j <= |h[1..]| && Matches(h[1..][j..], p[1..])
      ensures exists i :: 0 <= i <= |h| && Matches(h[i..], p[1..])
    {
      assert h[1..][j..] == h[j + 1..];
    }
  }

  lemma ByFirst(p: string)
    requires p != ""
    ensures Resolved(p) <==>
      if p[0] == '*' then Segments(p[1..]) else if p[0] == '%' then WordOk(p[1..])
      else if p[0] == '~' then SpacesOk(p[1..]) else UnitLen(p) > 0 && Resolved(Rest(p))
    ensures Segment(p) <==>
      if p[0] == '*' then Segments(p[1..]) else if p[0] == '%' then InnerWordOk(p[1..])
      else (p[0] == '?' || Plain(p[0])) && Segment(p[1..])
    ensures Segments(p) <==> Target(p) && Segment(Rest(p))
  {
  }

  lemma RunStar(h: string, p: string, saved: Saved)
    requires h != "" && p != "" && p[0] == '*' && Fits(h, saved)
    ensures var k := Skip(h, Next(p));
      Run(h, p, false, saved) ==
        if k == |h| then Run("", p[1..], false, Nothing) else Run(h[k..], p[1..], false, Point(h[k + 1..], p))
    ensures Run("", "", false, Nothing)
  {
  }

  ghost predicate Agrees(p: string) {
    forall h :: NUL !in h ==> (Run(h, p, false, Nothing) <==> Matches(h, p))
  }

  // A resolved needle is decided, whatever operators it has.
  lemma ResolvedDecides(p: string)
    requires Resolved(p)
    ensures Agrees(p)
  {
    hide Resolved, Run, Matches;
    forall h | NUL !in h ensures Run(h, p, false, Nothing) <==> Matches(h, p) {
      if Run(h, p, false, Nothing) {
        Sound(h, p, false, Nothing);
      }
      if Matches(h, p) {
        Complete(h, p, Nothing);
      }
    }
  }

  // No star, so nothing is ever saved.
  predicate Starless(p: string) {
    p == "" || ((p[0] == '%' || p[0] == '~') && Starless(p[1..])) || p == "\\" || (UnitLen(p) > 0 && Starless(Rest(p)))
  }

  lemma {:induction false} StarlessSame(h: string, p: string)
    requires Starless(p)
    ensures Run(h, p, false, Nothing) == GreedyMatcher.Greedy(h, p)
    decreases |p|
  {
    if p != "" && h != "" {
      if p[0] == '%' {
        StarlessSame(h[SkipWord(h, Next(p))..], p[1..]);
      } else if p[0] == '~' {
        StarlessSame(h[Spaces(h)..], p[1..]);
      } else if p == "\\" {
        assert p[1..] == "";
      } else {
        RunUnit(h, p, Nothing);
        GreedyMatcher.UnitFacts(h, p);
        if Takes(p, h[0]) {
          StarlessSame(h[1..], Rest(p));
        } else if p[0] == '\\' {
          assert p[1..][0] == p[1];
        }
      }
    }
  }

  // Without a star, the needles decided are those of the greedy matcher.
  lemma StarlessIff(p: string)
    requires Starless(p) && NUL !in p
    ensures Agrees(p) <==> GreedyMatcher.Decisive(p) || !Closed(p)
  {
    hide GreedyMatcher.Decisive, Run, GreedyMatcher.Greedy, Matches, Starless;
    forall h ensures Run(h, p, false, Nothing) == GreedyMatcher.Greedy(h, p) {
      StarlessSame(h, p);
    }
    GreedyMatcher.DecidesIff(p);
    assert Agrees(p) <==> GreedyMatcher.Agrees(p);
  }
}
