/**
 What `%` and `~` leave open: where a needle behind them can match, for both matchers.
 */
module WildcardSteps {
  import opened CStrings
  import opened Wildcards

  lemma StarMatch(h: string, p: string) returns (k: nat)
    requires p != "" && p[0] == '*' && Matches(h, p)
    ensures k <= |h| && Matches(h[k..], p[1..])
  {
    k :| k <= |h| && Matches(h[k..], p[1..]);
  }

  lemma SplitWord(h: string, p: string) returns (k: nat)
    requires p != "" && p[0] == '%' && Matches(h, p)
    ensures k <= |h| && Word(h[..k]) && Matches(h[k..], p[1..])
  {
    k :| k <= |h| && Word(h[..k]) && Matches(h[k..], p[1..]);
  }

  lemma WordAt(h: string, k: nat, i: nat)
    requires i < k <= |h| && Word(h[..k])
    ensures !IsSpace(h[i])
  {
    assert h[..k][i] == h[i];
  }

  // A space does not stand in a word.
  lemma InsideWord(h: string, k: nat, j: nat)
    requires k <= |h| && Word(h[..k]) && j < |h| && IsSpace(h[j])
    ensures k <= j
  {
    if j < k {
      WordAt(h, k, j);
    }
  }

  lemma WordPart(w: string, k: nat)
    requires k <= |w| && Word(w)
    ensures Word(w[k..]) && Word(w[..k])
  {
    assert forall c :: c in w[k..] ==> c in w;
    assert forall c :: c in w[..k] ==> c in w;
  }

  lemma TargetTakes(r: string)
    requires Target(r)
    ensures UnitLen(r) > 0 && Takes(r, r[0])
  {
  }

  lemma TargetSpaced(q: string)
    requires Target(q)
    ensures Sign(q) == q[0] && (Spaced(q) <==> IsSpace(q[0]))
  {
  }

  // --- `%` ---

  // A second `%` adds nothing.
  lemma TwoWords(h: string, p: string)
    requires |p| > 1 && p[0] == '%' && p[1] == '%'
    ensures Matches(h, p) <==> Matches(h, p[1..])
  {
    hide Matches;
    if Matches(h, p) {
      var k := SplitWord(h, p);
      WordAbsorbs(h, k, p[1..]);
    }
    if Matches(h, p[1..]) {
      assert h[0..] == h && h[..0] == "";
      WordTakes(h, 0, p);
    }
  }

  // Nor does one in front of a star.
  lemma WordStar(h: string, p: string)
    requires |p| > 1 && p[0] == '%' && p[1] == '*'
    ensures Matches(h, p) <==> Matches(h, p[1..])
  {
    hide Matches;
    if Matches(h, p) {
      var k := SplitWord(h, p);
      StarAbsorbs(h, k, p[1..]);
    }
    if Matches(h, p[1..]) {
      assert h[0..] == h && h[..0] == "";
      WordTakes(h, 0, p);
    }
  }

  // What the `%` leads to is a space: its own, or the one that the next star looks for.
  predicate LedShape(r: string) {
    r != "" && (IsSpace(r[0]) || (r[0] == '%' && LedShape(r[1..])) || (r[0] == '*' && |r| > 1 && IsSpace(r[1])))
  }

  // What is led by a space can be looked for from anywhere in the first word.
  lemma {:induction false} LedLater(h: string, k: nat, p: string)
    requires p != "" && p[0] == '%' && LedShape(p[1..]) && Matches(h, p) && k <= |h| && Word(h[..k])
    ensures Matches(h[k..], p)
    decreases |p|
  {
    hide Matches;
    var r := p[1..];
    if r[0] == '%' {
      TwoWords(h, p);
      LedLater(h, k, r);
      TwoWords(h[k..], p);
    } else if r[0] == '*' {
      WordStar(h, p);
      var j := StarMatch(h, r);
      TargetFirst(h[j..], r[1..]);
      InsideWord(h, k, j);
      assert h[k..][j - k..] == h[j..];
      StarTakes(h[k..], j - k, r);
      WordStar(h[k..], p);
    } else {
      var j := SplitWord(h, p);
      UnitMatches(h[j..], r);
      InsideWord(h, k, j);
      assert h[k..][j - k..] == h[j..] && h[k..][..j - k] == h[..j][k..];
      WordPart(h[..j], k);
      WordTakes(h[k..], j - k, p);
    }
  }

  // So behind the scanned part of the word the rest matches.
  lemma LedStep(h: string, p: string)
    requires p != "" && p[0] == '%' && LedShape(p[1..]) && Matches(h, p)
    ensures h != "" && Matches(h[SkipWord(h, Next(p))..], p[1..])
  {
    hide Matches, SkipWord;
    var r, i := p[1..], SkipWord(h, Next(p));
    LedSpace(h, p);
    SkippedWord(h, Next(p));
    LedLater(h, i, p);
    if r[0] == '%' {
      TwoWords(h[i..], p);
    } else if r[0] == '*' {
      WordStar(h[i..], p);
    } else {
      var k := SplitWord(h[i..], p);
      UnitMatches(h[i..][k..], r);
      assert h[i..][k] == r[0];
      StopsThere(h, i, k, r[0]);
      assert h[i..][0..] == h[i..];
    }
  }

  lemma {:induction false} LedSpace(h: string, p: string)
    requires p != "" && p[0] == '%' && LedShape(p[1..]) && Matches(h, p)
    ensures h != ""
    decreases |p|
  {
    hide Matches;
    var r := p[1..];
    if r[0] == '%' {
      TwoWords(h, p);
      LedSpace(h, r);
    } else if r[0] == '*' {
      WordStar(h, p);
      var k := StarMatch(h, r);
      TargetFirst(h[k..], r[1..]);
    } else {
      var k := SplitWord(h, p);
      UnitMatches(h[k..], r);
    }
  }

  lemma SkippedWord(h: string, stop: char)
    ensures Word(h[..SkipWord(h, stop)])
  {
    var k := SkipWord(h, stop);
    assert forall i :: 0 <= i < k ==> h[..k][i] == h[i];
  }

  lemma StopsThere(h: string, i: nat, k: nat, c: char)
    requires i == SkipWord(h, c) && i + k < |h| && Word(h[i..][..k]) && h[i..][k] == c && IsSpace(c)
    ensures k == 0
  {
    if k > 0 {
      WordAt(h[i..], k, 0);
    }
  }

  // The first such token of the word, and the one of the match behind it.
  lemma TargetStep(h: string, p: string) returns (k: nat)
    requires p != "" && p[0] == '%' && Target(p[1..]) && !IsSpace(p[1]) && Matches(h, p)
    ensures var i := SkipWord(h, Next(p));
      && i <= k < |h| && h[i] == p[1] && Matches(h[k + 1..], Rest(p[1..]))
      && h[i + 1..][k - i..] == h[k + 1..] && Word(h[i + 1..][..k - i])
  {
    hide Matches, SkipWord, Word, IsSpace, Target, Rest;
    var r, i := p[1..], SkipWord(h, Next(p));
    k := SplitWord(h, p);
    TargetFirst(h[k..], r);
    assert h[k] == r[0] == Next(p);
    FoundInWord(h, i, k, r[0]);
    DropTwice(h, k, 1);
    DropTwice(h, i + 1, k - i);
    assert h[i + 1..][..k - i] == h[i + 1..k + 1];
  }

  // The scan stops at the first such character of the word.
  lemma FoundInWord(h: string, i: nat, k: nat, c: char)
    requires i == SkipWord(h, c) && k < |h| && Word(h[..k]) && h[k] == c && !IsSpace(c)
    ensures i <= k && h[i] == c && Word(h[i + 1..k + 1])
  {
    if i < k {
      assert h[..k][i] == h[i];
    }
    forall x | x in h[i + 1..k + 1] ensures !IsSpace(x) {
      var j :| 0 <= j < k - i && h[i + 1..k + 1][j] == x;
      assert h[i + 1 + j] == x && (i + 1 + j < k ==> h[..k][i + 1 + j] == x);
    }
  }

  // Whatever matches behind a `%` further on matches behind the scanned part too, or still
  // further on.
  lemma WordCovers(h: string, p: string, i: nat) returns (j: nat)
    requires p != "" && p[0] == '%' && i <= |h| && Matches(h[i..], p)
    requires LedShape(p[1..]) || (Target(p[1..]) && !IsSpace(p[1]))
    ensures SkipWord(h, Next(p)) <= j <= |h| && Matches(h[j..], p[1..])
  {
    hide Matches, SkipWord, Word, IsSpace, LedShape, Target;
    var r, k := p[1..], SkipWord(h, Next(p));
    var w := SplitWord(h[i..], p);
    j := i + w;
    DropTwice(h, i, w);
    if j < k {
      CoversInside(h, p, j);
      j := k;
    }
  }

  // A match inside the scanned part can be moved to its end.
  lemma CoversInside(h: string, p: string, j: nat)
    requires p != "" && p[0] == '%' && j < SkipWord(h, Next(p)) && Matches(h[j..], p[1..])
    requires LedShape(p[1..]) || (Target(p[1..]) && !IsSpace(p[1]))
    ensures Matches(h[SkipWord(h, Next(p))..], p[1..])
  {
    hide Matches, SkipWord, Word;
    var r, k := p[1..], SkipWord(h, Next(p));
    ScannedWord(h, Next(p), j);
    if r[0] == '%' {
      assert h[j..][..k - j] == h[j..k];
      DropTwice(h, j, k - j);
      LedLater(h[j..], k - j, r);
    } else if r[0] == '*' {
      StarCovers(h, p, j);
    } else {
      HeadOf(h, j, r);
    }
  }

  lemma StarCovers(h: string, p: string, j: nat)
    requires |p| > 2 && p[0] == '%' && p[1] == '*' && IsSpace(p[2]) && j < SkipWord(h, Next(p))
        && Matches(h[j..], p[1..])
    ensures Matches(h[SkipWord(h, Next(p))..], p[1..])
  {
    hide Matches, SkipWord;
    var r, k := p[1..], SkipWord(h, Next(p));
    var m := StarMatch(h[j..], r);
    DropTwice(h, j, m);
    HeadOf(h, j + m, r[1..]);
    NoSpaceScanned(h, Next(p), j + m);
    DropTwice(h, k, j + m - k);
    StarTakes(h[k..], j + m - k, r);
  }

  lemma HeadOf(h: string, j: nat, r: string)
    requires j <= |h| && Target(r) && Matches(h[j..], r)
    ensures j < |h| && h[j] == r[0]
  {
    TargetFirst(h[j..], r);
  }

  lemma ScannedWord(h: string, stop: char, j: nat)
    requires j < SkipWord(h, stop)
    ensures Word(h[j..SkipWord(h, stop)]) && !IsSpace(h[j]) && h[j] != stop
  {
    var k := SkipWord(h, stop);
    assert forall i :: 0 <= i < k - j ==> h[j..k][i] == h[j + i];
  }

  lemma NoSpaceScanned(h: string, stop: char, m: nat)
    requires m < |h| && IsSpace(h[m])
    ensures SkipWord(h, stop) <= m
  {
  }

  // --- `~` ---

  lemma SplitSpaces(h: string, p: string) returns (k: nat)
    requires p != "" && p[0] == '~' && Matches(h, p)
    ensures 0 < k <= |h| && Blank(h[..k]) && Matches(h[k..], p[1..]) && IsSpace(h[0])
  {
    k :| 0 < k <= |h| && Blank(h[..k]) && Matches(h[k..], p[1..]);
    assert h[..k][0] == h[0];
  }

  lemma AllSpaces(h: string, k: nat)
    requires k <= |h| && Blank(h[..k])
    ensures k <= Spaces(h) && Spaces(h[k..]) == Spaces(h) - k
  {
    var m, n := Spaces(h), Spaces(h[k..]);
    if m < k {
      BlankAt(h, k, m);
    }
    assert forall i :: k <= i < |h| ==> h[k..][i - k] == h[i];
    assert n < |h| - k ==> h[k..][n] == h[k + n];
  }

  lemma BlankAt(h: string, k: nat, i: nat)
    requires i < k <= |h| && Blank(h[..k])
    ensures IsSpace(h[i])
  {
    assert h[..k][i] == h[i];
  }

  // Nothing that takes a space.
  predicate TakesNoSpace(r: string) {
    r == "" || r == "*"
    || (UnitLen(r) > 0 && r[0] != '?' && !IsSpace(Sign(r)))
    || ((r[0] == '*' || r[0] == '%') && Target(r[1..]) && !IsSpace(r[1]))
  }

  // Such a needle does not need leading spaces.
  lemma SpacesSkipped(t: string, r: string)
    requires TakesNoSpace(r) && Matches(t, r)
    ensures Matches(t[Spaces(t)..], r)
  {
    hide Matches;
    var n := Spaces(t);
    assert t[0..] == t;
    if r == "" || n == 0 {
      EmptyOnly(t);
    } else if r == "*" {
      JustStar(t[n..]);
    } else if r[0] == '*' {
      var j := StarMatch(t, r);
      TargetFirst(t[j..], r[1..]);
      assert t[j] == r[1];
      assert n <= j;
      assert t[n..][j - n..] == t[j..];
      StarTakes(t[n..], j - n, r);
    } else if r[0] == '%' {
      var k := SplitWord(t, r);
      NoSpaceFirst(t, k);
      TargetFirst(t[k..], r[1..]);
    } else {
      UnitMatches(t, r);
    }
  }

  // Behind all leading spaces the rest matches.
  lemma SpacesStep(h: string, p: string)
    requires p != "" && p[0] == '~' && TakesNoSpace(p[1..]) && Matches(h, p)
    ensures h != "" && IsSpace(h[0]) && Matches(h[Spaces(h)..], p[1..])
  {
    hide Matches, Spaces, TakesNoSpace;
    var k := SplitSpaces(h, p);
    AllSpaces(h, k);
    SpacesSkipped(h[k..], p[1..]);
    DropTwice(h, k, Spaces(h) - k);
  }

  lemma NoSpaceFirst(t: string, k: nat)
    requires k <= |t| && Word(t[..k]) && t != "" && IsSpace(t[0])
    ensures k == 0
  {
    if k > 0 {
      WordStart(t, k);
    }
  }

  lemma WordStart(t: string, k: nat)
    requires 0 < k <= |t| && Word(t[..k])
    ensures !IsSpace(t[0])
  {
    WordAt(t, k, 0);
  }

  lemma EmptyOnly(t: string)
    ensures Matches(t, "") ==> t == ""
  {
  }

  lemma JustStar(t: string)
    ensures Matches(t, "*")
  {
    assert "*"[1..] == "" && t[|t|..] == "" && Matches("", "");
    StarTakes(t, |t|, "*");
  }
}
