/**
 What the reader can produce at all, and how that bounds the round trip from the
 other side.
 */
module TconfigImage {
  import opened TconfigText
  import opened TconfigRoundTrip

  // Siblings differ and every entry satisfies `p`.
  ghost predicate Good(f: seq<Tree>, p: Entry -> bool) {
    DistinctEntries(f) && forall i :: 0 <= i < |f| ==> p(f[i].entry) && Good(f[i].kids, p)
  }

  ghost predicate GoodContext(u: Context, p: Entry -> bool) {
    u.Under? ==> Good(u.sibs, p) && GoodContext(u.up, p)
  }

  ghost predicate GoodCursor(c: Cursor, p: Entry -> bool) {
    Good(c.level, p) && GoodContext(c.up, p)
  }

  lemma GoodKids(f: seq<Tree>, i: nat, kids: seq<Tree>, p: Entry -> bool)
    requires Good(f, p) && Good(kids, p) && i < |f|
    ensures Good(f[i := f[i].(kids := kids)], p)
  {
    var g := f[i := f[i].(kids := kids)];
    assert forall j :: 0 <= j < |g| ==> g[j].entry == f[j].entry;
  }

  lemma GoodOpen(c: Cursor, p: Entry -> bool)
    requires c.Valid() && GoodCursor(c, p) && p(Blank)
    ensures GoodCursor(Open(c), p)
  {
    assert Good([], p);
    GoodKids(c.level, c.at, [], p);
    var blank := [Tree(Blank, [])];
    assert Good(blank[0].kids, p);
    if c.level[c.at].kids == [] {
      assert c.level[c.at := c.level[c.at].(kids := [])] == c.level;
    }
  }

  lemma GoodClose(c: Cursor, p: Entry -> bool)
    requires c.Valid() && GoodCursor(c, p) && c.up.Under?
    ensures GoodCursor(Close(c), p)
  {
    GoodKids(c.up.sibs, c.up.at, c.level, p);
  }

  lemma GoodEnter(c: Cursor, k: string, v: string, p: Entry -> bool)
    requires c.Valid() && GoodCursor(c, p) && p(Pair(k, v))
    ensures GoodCursor(Enter(c, k, v), p)
  {
    var d := Enter(c, k, v).level;
    forall i | 0 <= i < |d| ensures p(d[i].entry) && Good(d[i].kids, p) {
      assert Good([], p);
      assert i < |c.level| ==> d[i].kids == c.level[i].kids;
    }
  }

  lemma {:induction false} GoodRoot(c: Cursor, p: Entry -> bool)
    requires c.Valid() && GoodCursor(c, p)
    ensures Good(Root(c), p)
    decreases c.up
  {
    if c.up.Under? {
      GoodClose(c, p);
      GoodRoot(Close(c), p);
    }
  }

  // A character on which the reader starts a token.
  predicate TokenStart(ch: char) {
    ch !in {NUL, '{', '}', '/', '\r', '\n', '\t', ' '}
  }

  // Every token the reader can take from position `i` on satisfies `p`.
  ghost predicate TokensFrom(text: string, i: nat, p: Entry -> bool) {
    forall j :: i <= j < |text| && TokenStart(text[j]) && ReadToken(text, j).Token? ==>
      p(Pair(ReadToken(text, j).key, ReadToken(text, j).value))
  }

  // A returned forest holds only pairs the reader took as tokens, and no pair twice
  // among siblings.
  lemma {:induction false} Provenance(text: string, i: nat, c: Cursor, p: Entry -> bool)
    requires NUL !in text && c.Valid() && GoodCursor(c, p) && p(Blank)
    requires TokensFrom(text, i, p)
    ensures Parse(text, i, c).Done? ==> Good(Parse(text, i, c).forest, p)
    decreases |text| - i
  {
    hide ReadToken, Root, Open, Close, Enter, GoodCursor, BlockComment, LineComment;
    if i >= |text| {
      GoodRoot(c, p);
    } else {
      var ch := text[i];
      if ch == '{' {
        GoodOpen(c, p);
        Provenance(text, i + 1, Open(c), p);
      } else if ch == '}' {
        if c.up.Under? {
          GoodClose(c, p);
          Provenance(text, i + 1, Close(c), p);
        }
      } else if ch == '/' {
        GoodRoot(c, p);
        var r := if Char(text, i + 1) == '*' then BlockComment(text, i + 2) else LineComment(text, i + 2);
        if r.At? && r.pos < |text| {
          Provenance(text, r.pos + 1, c, p);
        }
      } else if ch == '\r' {
        Provenance(text, if Char(text, i + 1) == '\n' then i + 2 else i + 1, c, p);
      } else if ch == '\n' || ch == '\t' || ch == ' ' {
        Provenance(text, i + 1, c, p);
      } else {
        var t := ReadToken(text, i);
        if t.Token? {
          GoodEnter(c, t.key, t.value, p);
          Provenance(text, t.end + 1, Enter(c, t.key, t.value), p);
        }
      }
    }
  }

  // The pairs a token can hold: quoted ones close on their line, bare ones start and
  // end where the reader says.
  predicate KeyInImage(k: string) {
    (forall ch :: ch in k ==> ch !in QUOTE_STOP) ||
    (k != [] && TokenStart(k[0]) && k[0] != '"' && forall ch :: ch in k ==> ch !in KEY_STOP)
  }

  predicate ValueInImage(v: string) {
    (forall ch :: ch in v ==> ch !in QUOTE_STOP) || ValueOk(v)
  }

  predicate InImage(e: Entry) {
    e.Pair? ==> KeyInImage(e.key) && ValueInImage(e.value)
  }

  lemma WordInImage(text: string, i: nat, stop: set<char>)
    requires NUL !in text && i < |text| && NUL in stop && text[i] !in stop
    requires ReadWord(text, i, stop).Word?
    ensures var w := ReadWord(text, i, stop).text;
      if text[i] == '"' then forall ch :: ch in w ==> ch !in QUOTE_STOP
      else w != [] && w[0] == text[i] && forall ch :: ch in w ==> ch !in stop
  {
    var start := if text[i] == '"' then i + 1 else i;
    var stops := if text[i] == '"' then QUOTE_STOP else stop;
    var end := Scan(text, start, stops);
    forall k | 0 <= k < end - start ensures text[start..end][k] !in stops {
      assert Char(text, start + k) !in stops;
    }
  }

  lemma TokenInImage(text: string, i: nat)
    requires NUL !in text && i < |text| && TokenStart(text[i]) && ReadToken(text, i).Token?
    ensures InImage(Pair(ReadToken(text, i).key, ReadToken(text, i).value))
  {
    hide ReadWord, SkipBlanks;
    WordInImage(text, i, KEY_STOP);
    var end := ReadWord(text, i, KEY_STOP).end;
    var from := SkipBlanks(text, if text[end] == '"' then end + 1 else end);
    WordInImage(text, from, VALUE_STOP);
  }

  // Whatever the text, the forest that is returned has distinct siblings and only
  // pairs from the image.
  lemma ParseInImage(text: string, f: seq<Tree>)
    requires NUL !in text && Parse(text, 0, START) == Done(f)
    ensures Good(f, InImage)
  {
    hide Parse, ReadToken, KeyInImage, ValueInImage;
    forall j | 0 <= j < |text| && TokenStart(text[j]) && ReadToken(text, j).Token?
      ensures InImage(Pair(ReadToken(text, j).key, ReadToken(text, j).value)) {
      TokenInImage(text, j);
    }
    assert Good([], InImage);
    Provenance(text, 0, START, InImage);
  }

  // A token and the characters around it fit in the rest of the text.
  lemma TokenLength(text: string, i: nat)
    requires NUL !in text && i < |text| && ReadToken(text, i).Token? && text[|text| - 1] != '"'
    ensures var t := ReadToken(text, i);
      |t.key| + |t.value| + (if HasBlank(t.value) then 4 else 2) <= |text| - i
  {
    hide SkipBlanks, Scan;
    var end := ReadWord(text, i, KEY_STOP).end;
    var from := SkipBlanks(text, if text[end] == '"' then end + 1 else end);
    WordInImage(text, from, VALUE_STOP);
  }

  // A key with an empty value is printed as a line the reader rejects.
  lemma NoValue(k: string)
    requires KeyOk(k)
    ensures NUL !in Line(k, "") && Parse(Line(k, ""), 0, START) == Exit(EndOfLine)
  {
    hide SkipBlanks, ReadWord;
    var text := Line(k, "");
    var head := Quote(k) + ['\t'];
    assert text[0..|head|] == head && text[|Quote(k)|] == '\t' && text[|head|] == '\n';
    WordRead(text, 0, k, KEY_STOP, '\t');
    SkipBlanksIs(text, |Quote(k)|, |head|);
    assert text[0] == head[0] && TokenStart(text[0]);
    assert ReadToken(text, 0) == Bad(EndOfLine);
  }

  // A file of one block comes back exactly when its two strings are printable.
  lemma OneBlock(k: string, v: string)
    requires NUL !in k && NUL !in v
    ensures var f := [Tree(Pair(k, v), [])];
      NUL !in Print(f, 0) && (Parse(Print(f, 0), 0, START) == Done(f) <==> KeyOk(k) && ValueOk(v))
  {
    var f := [Tree(Pair(k, v), [])];
    PrintOneBlock(k, v);
    if KeyOk(k) && ValueOk(v) {
      assert Printable([]) && Printable(f);
      RoundTrip(f);
    } else if KeyOk(k) && v == "" {
      NoValue(k);
    } else if Parse(Line(k, v), 0, START) == Done(f) {
      ParseInImage(Line(k, v), f);
      assert InImage(f[0].entry);
      BadKeyLost(k, v);
      assert false;
    }
  }

  lemma PrintOneBlock(k: string, v: string)
    requires NUL !in k && NUL !in v
    ensures Filled([]) && Print([Tree(Pair(k, v), [])], 0) == Line(k, v) && NUL !in Line(k, v)
  {
    var f := [Tree(Pair(k, v), [])];
    assert Print(f[1..], 0) == "" by { assert f[1..] == []; }
    LineWithoutNul(k, v);
  }

  lemma LineWithoutNul(k: string, v: string)
    requires NUL !in k && NUL !in v
    ensures NUL !in Line(k, v)
  {
    hide HasBlank;
    assert NUL !in Quote(k) && NUL !in Quote(v);
    assert Line(k, v) == (Quote(k) + "\t") + (Quote(v) + "\n");
  }

  // A key that starts like a blank, a brace or a comment never comes back: every later
  // token is shorter than the pair.
  lemma BadKeyLost(k: string, v: string)
    requires NUL !in Line(k, v) && InImage(Pair(k, v)) && !KeyOk(k)
    ensures Parse(Line(k, v), 0, START) != Done([Tree(Pair(k, v), [])])
  {
    hide Parse, ReadToken;
    var text := Line(k, v);
    assert text[|text| - 1] == '\n';
    var p := (e: Entry) => e != Pair(k, v);
    assert !HasBlank(k) && (k == "" || !TokenStart(k[0]));
    assert text[0] == if k == "" then '\t' else k[0];
    forall j | 0 <= j < |text| && TokenStart(text[j]) && ReadToken(text, j).Token?
      ensures p(Pair(ReadToken(text, j).key, ReadToken(text, j).value))
    {
      TokenLength(text, j);
    }
    assert Good([], p);
    Provenance(text, 0, START, p);
    var f := [Tree(Pair(k, v), [])];
    assert !Good(f, p) by { assert !p(f[0].entry); }
  }
}
