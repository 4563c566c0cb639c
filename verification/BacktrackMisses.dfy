/**
 Which matches the matcher of BacktrackMatcher misses: for every needle that is not resolved
 a text is found, unless behind a star a `%` looks for a letter whose rest cannot start
 earlier; then a return to the star may make up for a first place that was wrong.
 */
module BacktrackMisses {
  import opened CStrings
  import opened Wildcards
  import opened WildcardSteps
  import opened WildcardTexts
  import opened BacktrackMatcher
  import GreedyMatcher

  // Behind a star, a `%` in front of a letter, what follows it being in order but for that.
  predicate Doubtful(p: string, starred: bool) {
    p != "" &&
    ((starred && p[0] == '%' && |p| > 1 && Plain(p[1]) && !IsSpace(p[1]) && Segment(p[2..]) && !InnerFloats(p[2..]))
     || (p[0] in {'*', '%', '~'} && Doubtful(p[1..], starred || p[0] == '*'))
     || (UnitLen(p) > 0 && Doubtful(Rest(p), starred)))
  }

  lemma DoubtfulFirst(p: string, starred: bool)
    requires p != "" && !Doubtful(p, starred)
    ensures p[0] in {'*', '%', '~'} ==> !Doubtful(p[1..], starred || p[0] == '*')
    ensures UnitLen(p) > 0 ==> !Doubtful(Rest(p), starred)
    ensures starred && p[0] == '%' && |p| > 1 && Plain(p[1]) && !IsSpace(p[1])
        ==> !Segment(p[2..]) || InnerFloats(p[2..])
  {
  }

  lemma ClosedFirst(p: string)
    requires p != "" && Closed(p)
    ensures p[0] in {'*', '%', '~'} ==> Closed(p[1..])
    ensures p[0] !in {'*', '%', '~'} ==> UnitLen(p) > 0 && Closed(Rest(p))
  {
  }

  // --- no text for a retry ---

  // The star's point leaves less than a shortest match.
  predicate Spent(saved: Saved) {
    saved.Point? ==> saved.p != "" && saved.p[0] == '*' && |saved.h| < |Sample(saved.p)|
  }

  lemma TooShort(h: string, p: string, saved: Saved)
    requires Fits(h, saved) && Spent(saved) && |h| < |Sample(p)|
    ensures !Run(h, p, false, saved)
  {
    hide Run, Matches, Sample;
    if Run(h, p, false, saved) {
      Sound(h, p, false, saved);
      if Matches(h, p) {
        SampleIsShortest(h, p);
      } else {
        SampleIsShortest(saved.h, saved.p);
      }
    }
  }

  // A star before a token its scan cannot find misses the sample.
  lemma {:induction false} StarMisses(p: string, saved: Saved)
    requires Closed(p) && p != "" && p[0] == '*' && p[1..] != "" && !Target(p[1..]) && Fits(Sample(p), saved)
    ensures !Run(Sample(p), p, false, saved)
    decreases |p|
  {
    hide Run, Skip;
    var q, h := p[1..], Sample(p);
    if h == "" {
      RunEmpty(p, saved);
    } else {
      RunStar(h, p, saved);
      var k := Skip(h, q[0]);
      if k == |h| {
        EmptySample();
        SameSample(p);
        RunEmpty(q, Nothing);
      } else {
        var next := Point(h[k + 1..], p);
        if k > 0 {
          TooShort(h[k..], q, next);
        } else {
          assert h[0..] == h;
          SampleHead(q);
          if q[0] == '*' {
            StarMisses(q, next);
          } else {
            WordSampleMisses(q, next);
          }
        }
      }
    }
  }

  // And `%` does when the sample starts with a `%`.
  lemma {:induction false} WordSampleMisses(p: string, saved: Saved)
    requires p != "" && p[0] == '%' && Sample(p) != "" && Sample(p)[0] == '%' && Fits(Sample(p), saved) && Spent(saved)
    ensures !Run(Sample(p), p, false, saved)
    decreases |p|
  {
    hide Run, SkipWord;
    var r, h := p[1..], Sample(p);
    RunWord(h, p, saved);
    var k := SkipWord(h, Next(p));
    if k > 0 {
      TooShort(h[k..], r, saved);
    } else {
      WordStops(h, Next(p));
      assert h[0..] == h && r != "";
      WordSampleMisses(r, saved);
    }
  }

  // --- `%` ---

  // What follows the `%`s at the start.
  function Behind(p: string): (r: string)
    requires p != "" && p[0] == '%'
    ensures |r| < |p| && (r != "" ==> r[0] != '%')
  {
    LastWord(p)[1..]
  }

  lemma {:induction false} BehindFacts(p: string, starred: bool)
    requires p != "" && p[0] == '%' && Closed(p) && NUL !in p && !Doubtful(p, starred)
    ensures var r := Behind(p);
      && Closed(r) && NUL !in r && !Doubtful(r, starred) && (Spaced(r) <==> Spaced(p)) && Sample(r) == Sample(p)
  {
    hide Doubtful, Closed;
    DoubtfulFirst(p, starred);
    ClosedFirst(p);
    if |p| > 1 && p[1] == '%' {
      BehindFacts(p[1..], starred);
    }
  }

  lemma {:induction false} BehindLed(p: string)
    requires p != "" && p[0] == '%'
    ensures SpaceLed(Behind(p)) <==> SpaceLed(p[1..])
    ensures InnerLed(Behind(p)) <==> InnerLed(p[1..])
  {
    if |p| > 1 && p[1] == '%' {
      BehindLed(p[1..]);
    }
  }

  lemma BehindMatches(h: string, p: string)
    requires p != "" && p[0] == '%' && Matches(h, Behind(p))
    ensures Matches(h, p)
  {
    hide Matches;
    assert h[0..] == h && h[..0] == "";
    WordTakes(h, 0, LastWord(p));
    LastMatches(h, p);
  }

  // A space stops all of them at once.
  lemma {:induction false} SpaceAtOnce(h: string, p: string, saved: Saved)
    requires p != "" && p[0] == '%' && h != "" && IsSpace(h[0]) && Fits(h, saved)
    ensures Run(h, p, false, saved) == Run(h, Behind(p), false, saved)
    decreases |p|
  {
    hide Run, SkipWord;
    RunWord(h, p, saved);
    SpaceStops(h, Next(p));
    assert h[0..] == h;
    if |p| > 1 && p[1] == '%' {
      SpaceAtOnce(h, p[1..], saved);
    }
  }

  // A `%` in the text stops all of them but the last.
  lemma {:induction false} LastRun(w: string, p: string, saved: Saved)
    requires |p| > 1 && p[0] == '%' && p[1] == '%' && w != "" && Fits("%" + w, saved)
    ensures Run("%" + w, p, false, saved) == Run(w, LastWord(p), false, saved)
    decreases |p|
  {
    hide Run, SkipWord;
    var h := "%" + w;
    RunWord(h, p, saved);
    AtOnce(h, '%');
    assert h[0..] == h;
    var q := p[1..];
    if |q| > 1 && q[1] == '%' {
      LastRun(w, q, saved);
    } else {
      RunWord(h, q, saved);
      RunWord(w, q, saved);
      PastPercent(w, Next(q));
      assert h[1 + SkipWord(w, Next(q))..] == w[SkipWord(w, Next(q))..];
    }
  }

  // The sample is missed because it is empty, because the scan takes some of it, or because
  // of the star behind.
  predicate ByLength(p: string)
    requires p != "" && p[0] == '%'
  {
    var s, r := Sample(p), Behind(p);
    s == "" ||
    if IsSpace(s[0]) then r != "" && r[0] == '*' && !Target(r[1..])
    else s[0] != Next(p) || (|p| > 1 && (p[1] == '%' || p[1] == '*'))
  }

  lemma LengthMisses(p: string, saved: Saved)
    requires Closed(p) && p != "" && p[0] == '%' && ByLength(p)
    requires Fits(Sample(p), saved) && Spent(saved)
    ensures !Run(Sample(p), p, false, saved)
  {
    hide Run, SkipWord, Sample, Closed, LastWord;
    var s := Sample(p);
    LastSample(p);
    ClosedFirst(p);
    SameSample(p);
    if s == "" {
      RunEmpty(p, saved);
    } else if IsSpace(s[0]) {
      SpaceAtOnce(s, p, saved);
      EmptySample();
      AloneStar(Behind(p));
      StarMisses(Behind(p), saved);
    } else {
      RunWord(s, p, saved);
      var k := SkipWord(s, Next(p));
      if k > 0 {
        TooShort(s[k..], p[1..], saved);
      } else {
        WordStops(s, Next(p));
        assert s[0..] == s;
        if p[1] == '%' {
          WordSampleMisses(p, saved);
        } else {
          StarHead(p[1..]);
          StarMisses(p[1..], saved);
        }
      }
    }
  }

  lemma AloneStar(r: string)
    requires r != "" && r[0] == '*'
    ensures r[1..] == "" ==> r == "*"
  {
  }

  lemma EmptySample()
    ensures Sample("") == "" && Sample("*") == ""
  {
    assert "*"[1..] == "";
  }

  lemma StarHead(r: string)
    requires r != "" && r[0] == '*' && Sample(r) != "" && Sample(r)[0] == '*'
    ensures r[1..] != "" && !Target(r[1..])
  {
    if Target(r[1..]) {
      TargetSample(r[1..]);
    }
  }

  // What is left: a target that is no space, or a sample that starts with one.
  lemma OtherCases(p: string)
    requires Closed(p) && p != "" && p[0] == '%' && !ByLength(p)
    ensures var s, r := Sample(p), Behind(p);
      && s != "" && r != ""
      && if IsSpace(s[0]) then
           IsSpace(r[0]) || (r[0] == '*' && Target(r[1..]) && IsSpace(r[1])) || r[0] == '~'
               || (r[0] == '\\' && |r| > 1 && r[1] != '\\')
         else Target(p[1..]) && !IsSpace(p[1]) && r == p[1..]
  {
    hide Doubtful;
    var s, r := Sample(p), Behind(p);
    ClosedFirst(p);
    SameSample(p);
    EmptySample();
    LastSample(p);
    if IsSpace(s[0]) {
      if r[0] == '*' {
        SameSample(r);
        TargetSample(r[1..]);
      }
    }
  }

  lemma {:induction false} LastSample(p: string)
    requires p != "" && p[0] == '%' && Closed(p)
    ensures Sample(Behind(p)) == Sample(p) && Closed(Behind(p))
  {
    if |p| > 1 && p[1] == '%' {
      LastSample(p[1..]);
    }
  }

  // A token that no text in front of it reaches: `~`, or an escape, which spoils the return.
  function Lead(p: string): string
    requires p != "" && p[0] == '%' && Behind(p) != ""
  {
    (if LastWord(p) == p then "" else "%") + ([Behind(p)[0]] + Sample(Behind(p)))
  }

  predicate Spoiled(saved: Saved) {
    saved.Point? ==> saved.p != "" && saved.p[0] == '*' && saved.h != "" && saved.h[0] != '*'
  }

  lemma LeadMisses(p: string, saved: Saved)
    requires Closed(p) && NUL !in p && p != "" && p[0] == '%' && Behind(p) != ""
    requires Behind(p)[0] == '~' || (Behind(p)[0] == '\\' && |Behind(p)| > 1 && Behind(p)[1] != '\\')
    requires Fits(Lead(p), saved) && Spoiled(saved)
    ensures !Run(Lead(p), p, false, saved)
  {
    hide Run, SkipWord, Sample, Closed;
    var b, r := LastWord(p), Behind(p);
    var w := [r[0]] + Sample(r);
    if b != p {
      LastIsLater(p);
      LastRun(w, p, saved);
    } else {
      assert Lead(p) == w;
    }
    RunWord(w, b, saved);
    AtOnce(w, r[0]);
    assert w[0..] == w;
    if r[0] == '~' {
      RunSpaces(w, r, saved);
    } else {
      EscapeFails(w, r, saved);
    }
  }

  lemma LastIsLater(p: string)
    requires p != "" && p[0] == '%' && LastWord(p) != p
    ensures |p| > 1 && p[1] == '%'
  {
  }

  // An escape that fails leaves its flag set, and the star returned to is a literal.
  lemma EscapeFails(h: string, r: string, saved: Saved)
    requires |r| > 1 && r[0] == '\\' && h != "" && h[0] != r[1] && Fits(h, saved) && Spoiled(saved)
    ensures !Run(h, r, false, saved)
  {
  }

  lemma LeadMatches(p: string)
    requires Closed(p) && NUL !in p && p != "" && p[0] == '%' && Behind(p) != "" && !IsSpace(Behind(p)[0])
    ensures Matches(Lead(p), p) && NUL !in Lead(p) && Lead(p) != "" && !IsSpace(Lead(p)[0])
  {
    hide Matches, Sample, Closed, LastWord;
    var b, r := LastWord(p), Behind(p);
    BehindNul(p);
    LastSample(p);
    SampleMatches(r);
    var h := Lead(p);
    var n := |h| - |Sample(r)|;
    assert h[n..] == Sample(r);
    assert Word(h[..n]) by {
      assert h[..n] == if b == p then [r[0]] else "%" + [r[0]];
    }
    WordTakes(h, n, b);
    LastMatches(h, p);
  }

  lemma {:induction false} BehindNul(p: string)
    requires p != "" && p[0] == '%' && NUL !in p
    ensures NUL !in Behind(p)
  {
    if |p| > 1 && p[1] == '%' {
      BehindNul(p[1..]);
    }
  }

  // --- misses in the segment of a star ---

  // The answer is no, whatever point is saved; stated as a predicate for its quantifier.
  predicate NoRun(h: string, p: string, saved: Saved) {
    Fits(h, saved) ==> !Run(h, p, false, saved)
  }

  lemma {:induction false} StarMissesOne(p: string) returns (h: string)
    requires Closed(p) && NUL !in p && p != "" && p[0] == '*' && !Segments(p[1..]) && !Doubtful(p[1..], true)
    ensures NUL !in h && Matches(h, p) && (h != "" && IsSpace(h[0]) ==> Spaced(p))
    ensures Target(p[1..]) ==> h != "" && h[0] == p[1]
    ensures forall saved :: NoRun(h, p, saved)
    decreases |p|, 2
  {
    hide Run, Matches, Skip, Sample, Spaced, Doubtful, Closed, Segment;
    var q := p[1..];
    ClosedFirst(p);
    StarSpaced(p);
    SameSample(p);
    if !Target(q) {
      SampleMatches(p);
      h := Sample(p);
      SpacedIff(p);
      forall saved ensures NoRun(h, p, saved) {
        if Fits(h, saved) {
          StarMisses(p, saved);
        }
      }
    } else {
      SampleMatches(q);
      TargetSample(q);
      TargetSpaced(q);
      TargetTakes(q);
      ClosedFirst(q);
      DoubtfulFirst(q, true);
      ByFirst(q);
      var t, k := TailMisses(Rest(q), Sample(q), "", p);
      h := [q[0]] + t;
      assert h[1..] == t && h[0..] == h && h[k + 1..] == t[k..] && "" + t == t;
      UnitMatches(h, q);
      StarTakes(h, if Matches(t, Rest(q)) then 0 else k + 1, p);
      forall saved ensures NoRun(h, p, saved) {
        if Fits(h, saved) {
          TargetFound(p, t, saved);
        }
      }
    }
  }

  // The scan stops at once at its target.
  lemma TargetFound(p: string, t: string, saved: Saved)
    requires p != "" && p[0] == '*' && Target(p[1..]) && Fits([p[1]] + t, saved)
    ensures Run([p[1]] + t, p, false, saved) == Run(t, Rest(p[1..]), false, Point(t, p))
  {
    var h, q := [p[1]] + t, p[1..];
    assert h[1..] == t && h[0..] == h && Skip(h, p[1]) == 0 && Next(p) == p[1] == q[0];
    assert Run(h, p, false, saved) == Run(h, q, false, Point(t, p));
    if q[0] == '\\' {
      assert q[1..][1..] == q[2..];
    }
  }

  // What a segment needs: what was read of it is `pre`, for a star `p` that looks in the text
  // behind its target.
  predicate Reading(r: string, tail: string, pre: string, p: string) {
    && Closed(r) && NUL !in r && !Doubtful(r, true) && tail != "" && NUL !in tail
    && (pre != "" ==> pre[0] != '*') && p != "" && p[0] == '*' && |pre| + |Sample(r)| < |Sample(p)|
  }

  // What follows the found character fails, with the star's point saved `pre` before it,
  // though a match of it, or `tail`, is there.
  lemma {:induction false} TailMisses(r: string, tail: string, pre: string, p: string) returns (t: string, k: nat)
    requires Reading(r, tail, pre, p) && !Segment(r)
    ensures NUL !in t && k <= |t| && (Matches(t, r) || t[k..] == tail)
    ensures !Run(t, r, false, Point(pre + t, p))
    decreases |r|, 3
  {
    hide Run, Matches, Sample, Doubtful, Closed, Segment, InnerWordOk;
    if r == "" {
      t, k := tail, 0;
      EndFails(t, Point(pre + t, p));
    } else {
      ByFirst(r);
      ClosedFirst(r);
      DoubtfulFirst(r, true);
      if r[0] == '*' {
        t := StarMissesOne(r);
        k := 0;
        assert NoRun(t, r, Point(pre + t, p));
      } else if r[0] == '%' {
        t, k := InnerWordMisses(r, tail, pre, p);
      } else if r[0] == '~' {
        t, k := "x" + tail, 1;
        RunSpaces(t, r, Point(pre + t, p));
      } else if r[0] == '\\' {
        t, k := [if Takes(r, 'x') then 'y' else 'x'] + tail, 1;
        EscapeFails(t, r, Point(pre + t, p));
      } else {
        t, k := LetterMisses(r, tail, pre, p);
      }
    }
  }

  lemma EndFails(h: string, saved: Saved)
    requires h != "" && Fits(h, saved)
    ensures !Run(h, "", false, saved)
  {
  }

  lemma {:induction false} LetterMisses(r: string, tail: string, pre: string, p: string) returns (t: string, k: nat)
    requires Reading(r, tail, pre, p) && r != "" && (r[0] == '?' || Plain(r[0])) && !Segment(Rest(r))
    ensures NUL !in t && k <= |t| && (Matches(t, r) || t[k..] == tail) && t != "" && t[0] == Sign(r)
    ensures !Run(t, r, false, Point(pre + t, p))
    decreases |r|, 0
  {
    hide Run, Matches, Sample, Doubtful, Closed, Segment;
    ClosedFirst(r);
    DoubtfulFirst(r, true);
    UnitSample(r);
    var w;
    w, k := TailMisses(Rest(r), tail, pre + [Sign(r)], p);
    t := [Sign(r)] + w;
    assert t[1..] == w && t[k + 1..] == w[k..] && pre + [Sign(r)] + w == pre + t;
    UnitMatches(t, r);
    RunUnit(t, r, Point(pre + t, p));
    assert Sign(r) == 'x' || Sign(r) in r;
    k := k + 1;
  }

  lemma UnitSample(r: string)
    requires UnitLen(r) > 0
    ensures Sample(r) == [Sign(r)] + Sample(Rest(r))
  {
  }

  lemma {:induction false} InnerWordMisses(r: string, tail: string, pre: string, p: string) returns (t: string, k: nat)
    requires Reading(r, tail, pre, p) && r != "" && r[0] == '%' && !InnerWordOk(r[1..])
    ensures NUL !in t && k <= |t| && (Matches(t, r) || t[k..] == tail)
    ensures !Run(t, r, false, Point(pre + t, p))
    decreases |r|, 2
  {
    hide Run, Matches, Sample, Doubtful, Closed, Segment, Segments, Behind, ByLength, InnerFloats;
    hide InnerLed, Lead;
    BehindFacts(r, true);
    BehindLed(r);
    var q, s := Behind(r), Sample(r);
    if ByLength(r) {
      SampleMatches(r);
      t, k := s, 0;
      LengthMisses(r, Point(pre + t, p));
    } else {
      OtherCases(r);
      ClosedFirst(r);
      if !IsSpace(s[0]) {
        t, k := InnerTargetMisses(r, tail, pre, p);
      } else if IsSpace(q[0]) {
        LedByFirst(q);
        t, k := LetterMisses(q, tail, pre, p);
        SpaceAtOnce(t, r, Point(pre + t, p));
        if Matches(t, q) {
          BehindMatches(t, r);
        }
      } else if q[0] == '*' {
        LedByFirst(q);
        DoubtfulFirst(q, true);
        t := StarMissesOne(q);
        k := 0;
        assert NoRun(t, q, Point(pre + t, p));
        SpaceAtOnce(t, r, Point(pre + t, p));
        BehindMatches(t, r);
      } else {
        t, k := Lead(r), 0;
        LeadMatches(r);
        LeadStart(r);
        LeadMisses(r, Point(pre + t, p));
      }
    }
  }

  lemma LeadStart(r: string)
    requires r != "" && r[0] == '%' && Behind(r) != "" && Behind(r)[0] != '*'
    ensures Lead(r) != "" && Lead(r)[0] != '*'
  {
  }

  lemma LedByFirst(q: string)
    requires q != ""
    ensures IsSpace(q[0]) ==> (InnerLed(q) <==> Segment(q[1..])) && Plain(q[0]) && Rest(q) == q[1..]
    ensures q[0] == '*' && |q| > 1 && IsSpace(q[1]) ==> (InnerLed(q) <==> Segments(q[1..]))
    ensures IsSpace(q[0]) ==> (SpaceLed(q) <==> Resolved(q[1..]))
    ensures q[0] == '*' && |q| > 1 && IsSpace(q[1]) ==> (SpaceLed(q) <==> Segments(q[1..]))
  {
  }

  // A letter that the `%` finds, but what follows is not in order; or an escaped backslash.
  lemma {:induction false} InnerTargetMisses(r: string, tail: string, pre: string, p: string) returns (t: string,
      k: nat)
    requires Reading(r, tail, pre, p) && |r| > 1 && r[0] == '%' && Target(r[1..]) && !IsSpace(r[1])
        && !InnerWordOk(r[1..])
    ensures NUL !in t && k <= |t| && (Matches(t, r) || t[k..] == tail)
    ensures !Run(t, r, false, Point(pre + t, p))
    decreases |r|, 1
  {
    hide Run, Matches, Sample, Doubtful, Closed, Segment, InnerFloats, InnerLed, SkipWord;
    var q := r[1..];
    ClosedFirst(r);
    DoubtfulFirst(r, true);
    SameSample(r);
    if q[0] == '\\' {
      t, k := " " + tail, 1;
      var saved := Point(pre + t, p);
      RunWord(t, r, saved);
      SpaceStops(t, Next(r));
      assert t[0..] == t;
      EscapeFails(t, q, saved);
    } else {
      assert q[1..] == r[2..] == Rest(q);
      t, k := LetterMisses(q, tail, pre, p);
      var saved := Point(pre + t, p);
      RunWord(t, r, saved);
      AtOnce(t, q[0]);
      assert t[0..] == t && t[..0] == "";
      if Matches(t, q) {
        NoWord();
        WordTakes(t, 0, r);
      }
    }
  }

  // --- misses without a saved star ---

  // For a needle that is not resolved, a match that is missed.  It starts with a space only
  // if the sample does.
  lemma {:induction false} Misses(p: string) returns (h: string)
    requires Closed(p) && NUL !in p && !Resolved(p) && !Doubtful(p, false)
    ensures NUL !in h && Matches(h, p) && !Run(h, p, false, Nothing) && (h != "" && IsSpace(h[0]) ==> Spaced(p))
    decreases |p|, 3
  {
    hide Run, Matches, Sample, Spaced, Resolved, Doubtful, Closed;
    EmptyResolved(p);
    ByFirst(p);
    ClosedFirst(p);
    DoubtfulFirst(p, false);
    if p[0] == '*' {
      h := StarMissesOne(p);
      assert NoRun(h, p, Nothing);
    } else if p[0] == '%' {
      h := WordMissesOne(p);
    } else if p[0] == '~' {
      h := SpacesMissOne(p);
    } else {
      h := UnitMissesOne(p);
    }
  }

  lemma EmptyResolved(p: string)
    ensures p == "" ==> Resolved(p)
  {
  }

  lemma {:induction false} UnitMissesOne(p: string) returns (h: string)
    requires Closed(p) && NUL !in p && UnitLen(p) > 0 && !Resolved(Rest(p)) && !Doubtful(p, false)
    ensures NUL !in h && Matches(h, p) && !Run(h, p, false, Nothing)
    ensures h != "" && h[0] == Sign(p) && (IsSpace(h[0]) ==> Spaced(p))
    decreases |p|, 0
  {
    hide Run, Matches, Sample, Resolved, Doubtful, Closed;
    ClosedFirst(p);
    DoubtfulFirst(p, false);
    var w := Misses(Rest(p));
    h := [Sign(p)] + w;
    assert Sign(p) == 'x' || Sign(p) in p;
    assert h[1..] == w;
    UnitMatches(h, p);
    RunUnit(h, p, Nothing);
    GreedyMatcher.UnitFacts(h, p);
  }

  lemma {:induction false} SpacesMissOne(p: string) returns (h: string)
    requires Closed(p) && NUL !in p && p != "" && p[0] == '~' && !SpacesOk(p[1..]) && !Doubtful(p, false)
    ensures NUL !in h && Matches(h, p) && !Run(h, p, false, Nothing) && Spaced(p)
    decreases |p|, 2
  {
    hide Run, Matches, Sample, Resolved, Doubtful, Closed;
    var r := p[1..];
    ClosedFirst(p);
    DoubtfulFirst(p, false);
    if TakesSpace(r) {
      h := Doubled(p);
      DoubledMatches(p);
      DoubledMisses(p, Nothing);
      SpacesSpaced(p);
    } else {
      var w := Misses(r);
      h := " " + w;
      OneSpace(h, p);
      LastSpace(h);
      RunSpaces(h, p, Nothing);
      assert h[1..] == w;
    }
  }

  lemma SpacesSpaced(p: string)
    requires p != "" && p[0] == '~'
    ensures Spaced(p)
  {
  }

  lemma {:induction false} WordMissesOne(p: string) returns (h: string)
    requires Closed(p) && NUL !in p && p != "" && p[0] == '%' && !WordOk(p[1..]) && !Doubtful(p, false)
    ensures NUL !in h && Matches(h, p) && !Run(h, p, false, Nothing) && (h != "" && IsSpace(h[0]) ==> Spaced(p))
    decreases |p|, 2
  {
    hide Run, Matches, Sample, Doubtful, Closed, Resolved, Segments, Behind, ByLength, FloatsInWord;
    hide SpaceLed, Lead, Spaced;
    BehindFacts(p, false);
    BehindLed(p);
    var q, s := Behind(p), Sample(p);
    if ByLength(p) {
      SampleMatches(p);
      SpacedIff(p);
      h := s;
      LengthMisses(p, Nothing);
    } else {
      OtherCases(p);
      ClosedFirst(p);
      if !IsSpace(s[0]) {
        h := TargetBehindMisses(p);
      } else if IsSpace(q[0]) {
        LedByFirst(q);
        h := UnitMissesOne(q);
        SpaceAtOnce(h, p, Nothing);
        BehindMatches(h, p);
      } else if q[0] == '*' {
        LedByFirst(q);
        DoubtfulFirst(q, false);
        h := StarMissesOne(q);
        assert NoRun(h, q, Nothing);
        SpaceAtOnce(h, p, Nothing);
        BehindMatches(h, p);
      } else {
        h := Lead(p);
        LeadMatches(p);
        LeadMisses(p, Nothing);
      }
    }
  }

  // The `?`s lead to a `%` that is resolved on its own.
  predicate MarksWord(r: string) {
    var s := AfterMarks(r);
    s != "" && s[0] == '%' && WordOk(s[1..])
  }

  // What follows the found letter fails, though a match of it, or `tail`, is there.
  lemma {:induction false} OuterTailMisses(r: string, tail: string) returns (t: string, k: nat)
    requires Closed(r) && NUL !in r && !Floats(r) && !Doubtful(r, false) && tail != "" && NUL !in tail
    ensures NUL !in t && k <= |t| && !Run(t, r, false, Nothing) && (Matches(t, r) || t[k..] == tail)
    ensures Word(t[..k]) || MarksWord(r)
    decreases |r|, 4
  {
    hide Run, Matches, Floats, WordOk, Word, Doubtful, Closed;
    FloatsFirst(r);
    assert Word("") by { NoWord(); }
    if r == "" {
      t, k := tail, 0;
      EndFails(t, Nothing);
      return;
    }
    ClosedFirst(r);
    DoubtfulFirst(r, false);
    if r[0] == '?' {
      var w;
      w, k := OuterTailMisses(r[1..], tail);
      t := "x" + w;
      assert t[1..] == w && t[k + 1..] == w[k..] && t[..k + 1] == "x" + w[..k];
      UnitMatches(t, r);
      RunUnit(t, r, Nothing);
      PlainWord('x', w[..k]);
      k := k + 1;
    } else if r[0] == '*' {
      t := StarMissesOne(r);
      k := 0;
      assert NoRun(t, r, Nothing) && t[..0] == "";
    } else if r[0] == '%' && !WordOk(r[1..]) {
      t := WordMissesOne(r);
      k := 0;
      assert t[..0] == "";
    } else if r[0] == '%' {
      var s := Blocker(r);
      t, k := [s] + tail, 1;
      WordBlocked(t, r);
      MarksItself(r);
    } else {
      var c := if r[0] != '~' && Takes(r, 'x') then 'y' else 'x';
      t, k := [c] + tail, 1;
      LetterFails(t, r);
      assert t[..1] == [c] + "";
      PlainWord(c, "");
    }
  }

  lemma MarksItself(r: string)
    requires r != "" && r[0] == '%' && WordOk(r[1..])
    ensures MarksWord(r)
  {
  }

  lemma FloatsFirst(r: string)
    ensures Floats(r) <==>
      r != "" &&
      ((r[0] == '?' && Floats(r[1..])) || (r[0] == '*' && Segments(r[1..])) || (r[0] == '%' && Wide(r[1..])))
  {
  }

  lemma LetterFails(t: string, r: string)
    requires r != "" && t != "" && (r[0] == '~' || (UnitLen(r) > 0 && !Takes(r, t[0]))) && !IsSpace(t[0])
    ensures !Run(t, r, false, Nothing)
  {
  }

  lemma {:induction false} WordBlocked(t: string, r: string)
    requires r != "" && r[0] == '%' && WordOk(r[1..]) && !Wide(r[1..]) && t != "" && t[0] == Blocker(r)
    ensures !Run(t, r, false, Nothing)
    decreases |r|
  {
    hide Run, Resolved, Segments, FloatsInWord, SkipWord;
    var q := r[1..];
    RunWord(t, r, Nothing);
    SpaceStops(t, Next(r));
    assert t[0..] == t;
    if q[0] == '%' {
      WordBlocked(t, q);
    } else {
      BlockedLetter(t, q);
    }
  }

  lemma BlockedLetter(t: string, q: string)
    requires UnitLen(q) > 0 && t != "" && !Takes(q, t[0])
    ensures !Run(t, q, false, Nothing)
  {
  }

  // With one character more in front, a space is left over for the `%`.
  lemma {:induction false} MarksMiss(r: string, d: char)
    requires Closed(r) && NUL !in r && MarksWord(r) && !Floats(r)
    ensures var u := MarkText(r, Blocker(AfterMarks(r)));
      NUL !in u && Matches(u, r) && (r[0] == '?' ==> !Run([d] + u, r, false, Nothing))
    decreases |r|
  {
    hide Run, Matches, Sample, Blocker, WordOk, Wide;
    var s := Blocker(AfterMarks(r));
    var u := MarkText(r, s);
    if r[0] == '?' {
      FloatsFirst(r);
      MarksMiss(r[1..], s);
      assert u[1..] == MarkText(r[1..], s) && ([d] + u)[1..] == u;
      UnitMatches(u, r);
      RunUnit([d] + u, r, Nothing);
      if r[1..] == "" || r[1] != '?' {
        FloatsFirst(r[1..]);
        WordBlocked(u, r[1..]);
      }
    } else {
      SampleMatches(r);
    }
  }

  // A letter that the `%` finds, but what follows is not in order.
  lemma {:induction false} TargetBehindMisses(p: string) returns (h: string)
    requires Closed(p) && NUL !in p && |p| > 1 && p[0] == '%' && Target(p[1..]) && !IsSpace(p[1])
    requires !WordOk(p[1..]) && !Doubtful(p, false)
    ensures NUL !in h && Matches(h, p) && !Run(h, p, false, Nothing) && h != "" && h[0] == p[1]
    decreases |p|, 1
  {
    hide Run, Matches, Sample, SkipWord, Floats, Word, Resolved, Doubtful, Closed;
    var r := p[1..];
    var c, rest := r[0], Rest(r);
    SampleMatches(r) by { ClosedFirst(p); }
    TargetSample(r);
    TargetTakes(r);
    var t, k := RestMisses(p);
    h := [c] + t;
    assert h[1..] == t && h[0..] == h && h[..0] == "";
    RunWord(h, p, Nothing);
    AtOnce(h, c);
    RunUnit(h, r, Nothing);
    NoWord();
    LetterWord(c);
    if Matches(t, rest) {
      UnitMatches(h, r);
      WordTakes(h, 0, p);
    } else if t[k..] == Sample(r) && Word(t[..k]) {
      LongerWord(c, t[..k]);
      assert h[..k + 1] == [c] + t[..k] && h[k + 1..] == t[k..];
      WordTakes(h, k + 1, p);
    } else {
      UnitMatches(t, r);
      assert h[..1] == [c];
      WordTakes(h, 1, p);
    }
  }

  lemma {:induction false} RestMisses(p: string) returns (t: string, k: nat)
    requires Closed(p) && NUL !in p && |p| > 1 && p[0] == '%' && Target(p[1..]) && !IsSpace(p[1])
    requires !WordOk(p[1..]) && !Doubtful(p, false)
    ensures var r := p[1..];
      && NUL !in t && k <= |t| && !Run(t, Rest(r), false, Nothing)
      && (Matches(t, Rest(r)) || (t[k..] == Sample(r) && Word(t[..k]))
          || (t != "" && t[0] == r[0] && Matches(t[1..], Rest(r))))
    decreases |p|, 0
  {
    hide Run, Matches, Sample, Floats, WordOk, Word, Resolved, Doubtful, Closed;
    var r := p[1..];
    var rest := Rest(r);
    ClosedFirst(p);
    DoubtfulFirst(p, false);
    TargetTakes(r);
    ClosedFirst(r);
    DoubtfulFirst(r, false);
    SampleMatches(r);
    TargetSample(r);
    NotFloating(r);
    k := 0;
    if !Resolved(rest) {
      t := Misses(rest);
    } else if MarksWord(rest) {
      var u := MarkText(rest, Blocker(AfterMarks(rest)));
      MarksMiss(rest, r[0]);
      t := [r[0]] + u;
      assert t[1..] == u;
      MarksFirst(rest);
    } else {
      t, k := OuterTailMisses(rest, Sample(r));
    }
  }

  lemma NotFloating(r: string)
    requires Target(r) && !IsSpace(r[0]) && !WordOk(r)
    ensures !Floats(Rest(r)) && (Rest(r) != "" && Rest(r)[0] == '%' ==> !WordOk(Rest(r)[1..]) && !Resolved(Rest(r)))
  {
    if Rest(r) != "" {
      ByFirst(Rest(r));
    }
  }

  lemma MarksFirst(r: string)
    requires MarksWord(r) && (r != "" && r[0] == '%' ==> !WordOk(r[1..]))
    ensures r != "" && r[0] == '?'
  {
  }

  // With two spaces at a `~` that should leave one, the text runs out.
  lemma {:induction false} DoubledMisses(p: string, saved: Saved)
    requires Closed(p) && NUL !in p && SpaceBehind(p) && Fits(Doubled(p), saved) && Spent(saved)
    ensures !Run(Doubled(p), p, false, saved)
    decreases |p|
  {
    hide Run, Sample, Skip, SkipWord, Spaces, Spaced, Closed;
    var h := Doubled(p);
    DoubledMatches(p);
    ClosedFirst(p);
    if p[0] == '~' {
      RunSpaces(h, p, saved);
      var m := Spaces(h);
      SpacesSample(p);
      if TakesSpace(p[1..]) {
        HereMatches(p);
        TooShort(h[m..], p[1..], saved);
      } else {
        FirstSpace(h);
        assert h[1..] == Doubled(p[1..]);
        if m > 1 {
          TooShort(h[m..], p[1..], saved);
        } else {
          DoubledMisses(p[1..], saved);
        }
      }
    } else if p[0] == '*' {
      RunStar(h, p, saved);
      SameSample(p);
      var k := Skip(h, Next(p));
      if k == |h| {
        NoneBehind();
        RunEmpty(p[1..], Nothing);
      } else if k > 0 {
        TooShort(h[k..], p[1..], Point(h[k + 1..], p));
      } else {
        assert h[0..] == h;
        DoubledMisses(p[1..], Point(h[1..], p));
      }
    } else if p[0] == '%' {
      RunWord(h, p, saved);
      SameSample(p);
      var k := SkipWord(h, Next(p));
      if k > 0 {
        TooShort(h[k..], p[1..], saved);
      } else {
        assert h[0..] == h;
        DoubledMisses(p[1..], saved);
      }
    } else {
      RunUnit(h, p, saved);
      UnitSample(p);
      assert h[1..] == Doubled(Rest(p));
      DoubledMisses(Rest(p), saved);
    }
  }

  lemma NoneBehind()
    ensures !SpaceBehind("") && !SpaceBehind("*")
  {
    assert "*"[1..] == "";
  }

  lemma SpacesSample(p: string)
    requires p != "" && p[0] == '~'
    ensures |Sample(p)| == 1 + |Sample(p[1..])|
  {
  }

  lemma FirstSpace(h: string)
    requires h != "" && h[0] == ' '
    ensures Spaces(h) >= 1
  {
  }

  // --- together ---

  // The matcher agrees with the documentation on every haystack exactly for the resolved
  // needles, and for those that end in a lone backslash and match nothing.
  lemma DecidesIff(p: string)
    requires NUL !in p && !Doubtful(p, false)
    ensures Agrees(p) <==> Resolved(p) || !Closed(p)
  {
    hide Resolved, Closed, Doubtful, Run, Matches;
    if Resolved(p) {
      ResolvedDecides(p);
    } else if !Closed(p) {
      forall h | NUL !in h ensures Run(h, p, false, Nothing) <==> Matches(h, p) {
        if Run(h, p, false, Nothing) {
          Sound(h, p, false, Nothing);
        }
        if Matches(h, p) {
          OpenMatchesNothing(h, p);
        }
      }
    } else {
      var h := Misses(p);
      assert !(Run(h, p, false, Nothing) <==> Matches(h, p));
    }
  }

  // In particular for every needle without `%` behind a star.
  lemma {:induction false} NotDoubtful(p: string, starred: bool)
    requires NoWordBehind(p, starred)
    ensures !Doubtful(p, starred)
  {
    if p != "" {
      if p[0] in {'*', '%', '~'} {
        NotDoubtful(p[1..], starred || p[0] == '*');
      }
      if UnitLen(p) > 0 {
        NotDoubtful(Rest(p), starred);
      }
    }
  }

  predicate NoWordBehind(p: string, starred: bool) {
    p != "" ==>
      && (starred ==> p[0] != '%')
      && (p[0] in {'*', '%', '~'} ==> NoWordBehind(p[1..], starred || p[0] == '*'))
      && (UnitLen(p) > 0 ==> NoWordBehind(Rest(p), starred))
  }

  // --- some misses in particular ---

  // The least number of characters the matcher needs: one for a `%` at the end, too.
  function Least(p: string): nat {
    if p == "" then 0
    else if p == "%" then 1
    else if p[0] == '*' || p[0] == '%' then Least(p[1..])
    else if p[0] == '~' then 1 + Least(p[1..])
    else if UnitLen(p) > 0 then 1 + Least(Rest(p))
    else 0
  }

  // For any state of the escape flag.
  lemma {:induction false} RunLong(h: string, p: string, esc: bool, saved: Saved)
    requires Fits(h, saved) && Run(h, p, esc, saved)
    ensures Least(p) <= |h| || (saved.Point? && Least(saved.p) <= |saved.h|)
    decreases if saved.Point? then 2 * |saved.h| + 1 else 2 * |h|, |p|
  {
    if p != "" && h != "" {
      var e, q := esc || p[0] == '\\', if p[0] == '\\' then p[1..] else p;
      LeastSteps(p);
      if !e && q[0] == '?' {
        RunLong(h[1..], q[1..], e, saved);
      } else if !e && q[0] == '*' {
        var k := Skip(h, Next(q));
        if k == |h| {
          RunLong("", q[1..], e, Nothing);
        } else {
          RunLong(h[k..], q[1..], e, Point(h[k + 1..], q));
        }
      } else if !e && q[0] == '%' {
        RunLong(h[SkipWord(h, Next(q))..], q[1..], e, saved);
      } else if !e && q[0] == '~' {
        RunLong(h[Spaces(h)..], q[1..], e, saved);
      } else if q == "" || q[0] != h[0] {
        RunLong(saved.h, saved.p, e, Nothing);
      } else {
        RunLong(h[1..], q[1..], false, saved);
      }
    }
  }

  lemma LeastSteps(p: string)
    requires p != ""
    ensures Least("*") == 0 && Least(p) <= 1 + Least(p[1..])
    ensures p[0] == '*' || (p[0] == '%' && p != "%") ==> Least(p) == Least(p[1..])
    ensures p == "%" ==> Least(p) == 1
    ensures p[0] == '\\' && |p| > 1 ==> Least(p) == 1 + Least(p[1..][1..])
  {
    assert "*"[1..] == "";
    assert |p| > 1 ==> p[1..][1..] == p[2..];
  }

  lemma {:induction false} LeastSample(p: string)
    requires Closed(p)
    ensures Least(p) == |Sample(p)| + if EndsInWord(p) then 1 else 0
  {
    if p == "%" {
      assert p[1..] == "";
    } else if p != "" {
      LeastSample(if p[0] in {'*', '%', '~'} then p[1..] else Rest(p));
    }
  }

  // A needle that ends in `%` misses a shortest match, of no characters for the `%`.
  lemma WordMisses(p: string)
    requires Closed(p) && NUL !in p && EndsInWord(p)
    ensures Matches(Sample(p), p) && !Run(Sample(p), p, false, Nothing)
  {
    hide Run, Matches;
    SampleMatches(p);
    LeastSample(p);
    if Run(Sample(p), p, false, Nothing) {
      RunLong(Sample(p), p, false, Nothing);
    }
  }

  // A needle with `~` before something that takes a space, at any place, misses a match with
  // two spaces there.
  lemma SpacesMiss(p: string)
    requires Closed(p) && NUL !in p && SpaceBehind(p)
    ensures NUL !in Doubled(p) && Matches(Doubled(p), p) && !Run(Doubled(p), p, false, Nothing)
  {
    DoubledMatches(p);
    DoubledMisses(p, Nothing);
  }

  // An escape in the segment of a star spoils the return to it: the flag it leaves behind
  // makes the star literal.
  lemma EscapeMisses(p: string) returns (h: string)
    requires Closed(p) && NUL !in p && p != "" && p[0] == '*' && Target(p[1..]) && !Doubtful(p, false)
    requires EscapeAhead(Rest(p[1..]))
    ensures NUL !in h && Matches(h, p) && !Run(h, p, false, Nothing)
  {
    hide Run, Matches, Closed, Doubtful, EscapeAhead;
    EscapeNoSegment(Rest(p[1..]));
    ByFirst(p);
    ByFirst(p[1..]);
    h := Misses(p);
  }

  predicate EscapeAhead(r: string) {
    r != "" && (r[0] == '\\' || ((r[0] == '?' || Plain(r[0])) && EscapeAhead(r[1..])))
  }

  lemma {:induction false} EscapeNoSegment(r: string)
    requires EscapeAhead(r)
    ensures !Segment(r)
  {
    if r[0] != '\\' {
      EscapeNoSegment(r[1..]);
    }
  }
}
