/**
 Reading back what the writer printed gives the same forest.  The conditions on the
 strings are exact: a file of one block comes back if and only if they hold.
 */
module TconfigRoundTrip {
  import opened TconfigText

  // A string with blanks is printed in quotes, so it must not close or break them.
  predicate QuotedOk(s: string) {
    HasBlank(s) && forall c :: c in s ==> c !in QUOTE_STOP
  }

  predicate KeyOk(s: string) {
    QuotedOk(s) ||
    (s != [] && s[0] !in {'{', '}', '/', '"', '\r', '\n'} && forall c :: c in s ==> c !in KEY_STOP)
  }

  predicate ValueOk(s: string) {
    QuotedOk(s) || (s != [] && s[0] != '"' && forall c :: c in s ==> c !in VALUE_STOP)
  }

  predicate EntryOk(e: Entry) {
    e.Pair? && KeyOk(e.key) && ValueOk(e.value)
  }

  predicate DistinctEntries(f: seq<Tree>) {
    forall i, j :: 0 <= i < j < |f| ==> f[i].entry != f[j].entry
  }

  // Every string is printable and no two siblings carry the same pair.
  predicate Printable(f: seq<Tree>) {
    DistinctEntries(f) && forall i :: 0 <= i < |f| ==> EntryOk(f[i].entry) && Printable(f[i].kids)
  }

  lemma {:induction false} PrintableIsFilled(f: seq<Tree>)
    requires Printable(f)
    ensures Filled(f)
  {
    forall i | 0 <= i < |f| ensures f[i].entry.Pair? && Filled(f[i].kids) {
      PrintableIsFilled(f[i].kids);
    }
  }

  lemma PrintableParts(f: seq<Tree>)
    requires f != [] && Printable(f) && Filled(f)
    ensures EntryOk(f[0].entry) && Printable(f[0].kids) && Filled(f[0].kids)
    ensures Printable(f[1..]) && Filled(f[1..])
    ensures forall k :: 0 < k < |f| ==> f[k].entry.Pair? && f[k].entry != f[0].entry
  {
  }

  // --- positions in the text ---

  predicate Occurs(text: string, i: nat, s: string) {
    i + |s| <= |text| && text[i..i + |s|] == s
  }

  lemma OccursSplit(text: string, i: nat, a: string, b: string)
    requires Occurs(text, i, a + b)
    ensures Occurs(text, i, a) && Occurs(text, i + |a|, b)
  {
    var n := |a + b|;
    assert text[i..i + n][..|a|] == text[i..i + |a|];
    assert text[i..i + n][|a|..] == text[i + |a|..i + |a| + |b|];
  }

  lemma OccursAt(text: string, i: nat, s: string, k: nat)
    requires Occurs(text, i, s) && k < |s|
    ensures i + k < |text| && text[i + k] == s[k]
  {
    assert text[i..i + |s|][k] == text[i + k];
  }

  // --- one line ---

  lemma ScanIs(text: string, i: nat, stop: set<char>, e: nat)
    requires NUL in stop && i <= e && Char(text, e) in stop
    requires forall k :: i <= k < e ==> Char(text, k) !in stop
    ensures Scan(text, i, stop) == e
  {
    hide Scan;
    var j := Scan(text, i, stop);
    assert Char(text, j) in stop;
  }

  lemma SkipBlanksIs(text: string, i: nat, e: nat)
    requires i <= e && Char(text, e) != ' ' && Char(text, e) != '\t'
    requires forall k :: i <= k < e ==> Char(text, k) == ' ' || Char(text, k) == '\t'
    ensures SkipBlanks(text, i) == e
  {
    hide SkipBlanks;
    var j := SkipBlanks(text, i);
    assert Char(text, j) != ' ' && Char(text, j) != '\t';
  }

  // What a position inside an occurring string holds.
  lemma OccursEach(text: string, i: nat, s: string)
    requires Occurs(text, i, s)
    ensures i + |s| <= |text| && forall k :: i <= k < i + |s| ==> text[k] == s[k - i]
  {
    forall k | i <= k < i + |s| ensures k < |text| && text[k] == s[k - i] {
      OccursAt(text, i, s, k - i);
    }
  }

  lemma QuotedRead(text: string, i: nat, w: string, stop: set<char>, after: char)
    requires NUL in stop && Occurs(text, i, ['"'] + w + ['"', after])
    requires forall c :: c in w ==> c !in QUOTE_STOP
    ensures ReadWord(text, i, stop) == Word(w, i + |w| + 1)
  {
    hide Scan, Occurs, HasBlank;
    var s, e := ['"'] + w + ['"', after], i + 1 + |w|;
    OccursEach(text, i, s);
    assert text[i] == '"' && text[e] == '"';
    forall k | i + 1 <= k < e ensures text[k] == w[k - i - 1] && Char(text, k) !in QUOTE_STOP {
      assert text[k] == s[k - i] == w[k - i - 1] && w[k - i - 1] in w;
    }
    ScanIs(text, i + 1, QUOTE_STOP, e);
    assert text[i + 1..e] == w;
  }

  lemma BareRead(text: string, i: nat, w: string, stop: set<char>, after: char)
    requires NUL in stop && Occurs(text, i, w + [after]) && after in stop && after != NUL
    requires w != [] && w[0] != '"' && forall c :: c in w ==> c !in stop
    ensures ReadWord(text, i, stop) == Word(w, i + |w|)
  {
    hide Scan, Occurs, HasBlank;
    var s, e := w + [after], i + |w|;
    OccursEach(text, i, s);
    assert text[e] == after;
    forall k | i <= k < e ensures text[k] == w[k - i] && Char(text, k) !in stop {
      assert text[k] == s[k - i] == w[k - i] && w[k - i] in w;
    }
    ScanIs(text, i, stop, e);
    assert text[i..e] == w;
  }

  lemma WordRead(text: string, i: nat, w: string, stop: set<char>, after: char)
    requires stop == KEY_STOP || stop == VALUE_STOP
    requires Occurs(text, i, Quote(w) + [after]) && after in stop && after != NUL
    requires QuotedOk(w) || (w != [] && w[0] != '"' && forall c :: c in w ==> c !in stop)
    ensures ReadWord(text, i, stop) == Word(w, i + |Quote(w)| - if HasBlank(w) then 1 else 0)
  {
    hide ReadWord, Occurs;
    if HasBlank(w) {
      assert Quote(w) + [after] == ['"'] + w + ['"', after];
      QuotedRead(text, i, w, stop, after);
    } else {
      BareRead(text, i, w, stop, after);
    }
  }

  // The reader takes a printed line as one token and stops within its last two characters.
  lemma TokenRead(text: string, i: nat, k: string, v: string)
    requires Occurs(text, i, Line(k, v)) && KeyOk(k) && ValueOk(v)
    ensures ReadToken(text, i) == Token(k, v, i + |Line(k, v)| - if HasBlank(v) then 2 else 1)
    ensures text[i] !in {'{', '}', '/', '\r', '\n', '\t', ' '}
  {
    hide ReadWord, SkipBlanks, Quote, HasBlank, KeyOk, ValueOk, Occurs;
    var qk, qv := Quote(k), Quote(v);
    assert Line(k, v) == (qk + ['\t']) + (qv + ['\n']);
    OccursSplit(text, i, qk + ['\t'], qv + ['\n']);
    var from := i + |qk| + 1;
    KeyEnds(k);
    ValueEnds(v);
    WordRead(text, i, k, KEY_STOP, '\t');
    WordRead(text, from, v, VALUE_STOP, '\n');
    OccursEach(text, i, qk + ['\t']);
    assert text[i] == qk[0] && text[i + |qk|] == '\t' && text[i + |qk| - 1] == qk[|qk| - 1];
    OccursAt(text, from, qv + ['\n'], 0);
    SkipBlanksIs(text, from - 1, from);
  }

  // How printed keys and values start and end.
  lemma KeyEnds(k: string)
    requires KeyOk(k)
    ensures QuotedOk(k) || (k != [] && k[0] != '"' && forall c :: c in k ==> c !in KEY_STOP)
    ensures var q := Quote(k);
      && q != [] && q[0] !in {'{', '}', '/', '\r', '\n', '\t', ' '}
      && (HasBlank(k) ==> q[|q| - 1] == '"')
  {
    assert !QuotedOk(k) ==> k[0] in k;
  }

  lemma ValueEnds(v: string)
    requires ValueOk(v)
    ensures QuotedOk(v) || (v != [] && v[0] != '"' && forall c :: c in v ==> c !in VALUE_STOP)
    ensures var q := Quote(v); q != [] && q[0] !in VALUE_STOP
  {
    assert !QuotedOk(v) ==> v[0] in v;
  }

  lemma LineParsed(text: string, i: nat, k: string, v: string, c: Cursor)
    requires NUL !in text && c.Valid()
    requires Occurs(text, i, Line(k, v)) && KeyOk(k) && ValueOk(v)
    ensures Parse(text, i, c) == Parse(text, i + |Line(k, v)|, Enter(c, k, v))
  {
    hide ReadToken, Enter, KeyOk, ValueOk, ParseComment, Open, Close, Root;
    TokenRead(text, i, k, v);
    var n := |Line(k, v)|;
    OccursAt(text, i, Line(k, v), n - 1);
    assert Parse(text, i, c) == Parse(text, ReadToken(text, i).end + 1, Enter(c, k, v));
  }

  lemma {:induction false} SpacesParsed(text: string, i: nat, n: nat, c: Cursor)
    requires NUL !in text && c.Valid() && Occurs(text, i, Spaces(n))
    ensures Parse(text, i, c) == Parse(text, i + |Spaces(n)|, c)
    decreases n
  {
    hide ReadToken, ParseComment, Open, Close, Enter, Root;
    if n > 0 {
      OccursSplit(text, i, Spaces(n - 1), " ");
      SpacesParsed(text, i, n - 1, c);
      OccursAt(text, i + |Spaces(n - 1)|, " ", 0);
    }
  }

  lemma IndentParsed(text: string, i: nat, depth: nat, c: Cursor)
    requires NUL !in text && c.Valid() && Occurs(text, i, Indent(depth))
    ensures Parse(text, i, c) == Parse(text, i + |Indent(depth)|, c)
  {
    hide Parse, Spaces, Occurs;
    SpacesParsed(text, i, 2 * depth, c);
  }

  lemma NewlineParsed(text: string, i: nat, c: Cursor)
    requires NUL !in text && c.Valid() && Occurs(text, i, "\n")
    ensures Parse(text, i, c) == Parse(text, i + 1, c)
  {
    OccursAt(text, i, "\n", 0);
  }

  lemma BracesParsed(text: string, i: nat, c: Cursor)
    requires NUL !in text && c.Valid() && i < |text|
    ensures text[i] == '{' ==> Parse(text, i, c) == Parse(text, i + 1, Open(c))
    ensures text[i] == '}' && c.up.Under? ==> Parse(text, i, c) == Parse(text, i + 1, Close(c))
  {
  }

  // --- blocks ---

  // The list the reader stands in after reading the blocks `done`.
  function Level(done: seq<Tree>): (l: seq<Tree>)
    ensures |l| > 0
  {
    if done == [] then [Tree(Blank, [])] else done
  }

  predicate Fresh(done: seq<Tree>, e: Entry) {
    forall i :: 0 <= i < |done| ==> done[i].entry.Pair? && done[i].entry != e
  }

  lemma EnterFresh(done: seq<Tree>, at: nat, up: Context, k: string, v: string)
    requires Fresh(done, Pair(k, v)) && at < |Level(done)| && up.Valid()
    ensures Enter(Cursor(Level(done), at, up), k, v) == Cursor(done + [Tree(Pair(k, v), [])], |done|, up)
  {
    if done == [] {
      assert Level(done)[0 := Level(done)[0].(entry := Pair(k, v))] == [Tree(Pair(k, v), [])];
    }
  }

  lemma {:induction false} TreeParsed(text: string, i: nat, t: Tree, depth: nat, done: seq<Tree>, at: nat, up: Context)
    requires NUL !in text && up.Valid() && at < |Level(done)|
    requires EntryOk(t.entry) && Printable(t.kids) && Filled(t.kids) && Fresh(done, t.entry)
    requires Occurs(text, i, PrintTree(t, depth))
    ensures Parse(text, i, Cursor(Level(done), at, up))
         == Parse(text, i + |PrintTree(t, depth)|, Cursor(done + [t], |done|, up))
    decreases t, 0
  {
    hide Parse, Leaf, OpenBrace, CloseBrace, Enter, Printable, KeyOk, ValueOk, Close, Occurs;
    var k, v := t.entry.key, t.entry.value;
    var c := Cursor(Level(done), at, up);
    EnterFresh(done, at, up, k, v);
    if t.kids == [] {
      assert Tree(t.entry, []) == t;
      LeafParsed(text, i, depth, k, v, c);
    } else {
      var leaf, open, body, close := Leaf(k, v, depth), OpenBrace(depth), Print(t.kids, depth + 1), CloseBrace(depth);
      OccursParts(text, i, "\n", leaf, open, body, close);
      NewlineParsed(text, i, c);
      LeafParsed(text, i + 1, depth, k, v, c);
      var inner := Under(done + [Tree(t.entry, [])], |done|, up);
      var j := i + 1 + |leaf|;
      OpenParsed(text, j, depth, inner);
      ForestParsed(text, j + |open|, t.kids, depth + 1, [], 0, inner);
      assert [] + t.kids == t.kids;
      var c2 := Cursor(t.kids, |t.kids| - 1, inner);
      CloseParsed(text, j + |open| + |body|, depth, c2);
      CloseIs(done, t, up, c2);
    }
  }

  lemma OccursParts(text: string, i: nat, a: string, b: string, c: string, d: string, e: string)
    requires Occurs(text, i, a + b + c + d + e)
    ensures Occurs(text, i, a) && Occurs(text, i + |a|, b) && Occurs(text, i + |a| + |b|, c)
    ensures Occurs(text, i + |a| + |b| + |c|, d) && Occurs(text, i + |a| + |b| + |c| + |d|, e)
  {
    hide Occurs;
    OccursSplit(text, i, a + b + c + d, e);
    OccursSplit(text, i, a + b + c, d);
    OccursSplit(text, i, a + b, c);
    OccursSplit(text, i, a, b);
  }

  lemma LeafParsed(text: string, i: nat, depth: nat, k: string, v: string, c: Cursor)
    requires NUL !in text && c.Valid() && KeyOk(k) && ValueOk(v)
    requires Occurs(text, i, Leaf(k, v, depth))
    ensures Parse(text, i, c) == Parse(text, i + |Leaf(k, v, depth)|, Enter(c, k, v))
  {
    hide Parse, Line, Indent, Enter, KeyOk, ValueOk, Occurs;
    OccursSplit(text, i, Indent(depth), Line(k, v));
    IndentParsed(text, i, depth, c);
    LineParsed(text, i + |Indent(depth)|, k, v, c);
  }

  // An opening brace after a new block leads into its blank child list.
  lemma OpenParsed(text: string, i: nat, depth: nat, inner: Context)
    requires NUL !in text && inner.Under? && inner.Valid()
    requires Occurs(text, i, OpenBrace(depth))
    ensures Parse(text, i, Cursor(inner.sibs, inner.at, inner.up))
         == Parse(text, i + |OpenBrace(depth)|, Cursor(Level([]), 0, inner))
  {
    hide Parse, Indent, Occurs;
    var c := Cursor(inner.sibs, inner.at, inner.up);
    assert OpenBrace(depth) == Indent(depth) + "{" + "\n";
    OccursSplit(text, i, Indent(depth) + "{", "\n");
    OccursSplit(text, i, Indent(depth), "{");
    IndentParsed(text, i, depth, c);
    var j := i + |Indent(depth)|;
    OccursAt(text, j, "{", 0);
    BracesParsed(text, j, c);
    assert Open(c) == Cursor(Level([]), 0, inner);
    NewlineParsed(text, j + 1, Open(c));
  }

  lemma CloseParsed(text: string, i: nat, depth: nat, c: Cursor)
    requires NUL !in text && c.Valid() && c.up.Under?
    requires Occurs(text, i, CloseBrace(depth))
    ensures Parse(text, i, c) == Parse(text, i + |CloseBrace(depth)|, Close(c))
  {
    hide Parse, Indent, Close, Occurs;
    assert CloseBrace(depth) == Indent(depth) + "}" + "\n" + "\n";
    OccursSplit(text, i, Indent(depth) + "}" + "\n", "\n");
    OccursSplit(text, i, Indent(depth) + "}", "\n");
    OccursSplit(text, i, Indent(depth), "}");
    IndentParsed(text, i, depth, c);
    var j := i + |Indent(depth)|;
    OccursAt(text, j, "}", 0);
    BracesParsed(text, j, c);
    NewlineParsed(text, j + 1, Close(c));
    NewlineParsed(text, j + 2, Close(c));
  }

  lemma CloseIs(done: seq<Tree>, t: Tree, up: Context, c: Cursor)
    requires up.Valid() && c.Valid() && c.level == t.kids
    requires c.up == Under(done + [Tree(t.entry, [])], |done|, up)
    ensures Close(c) == Cursor(done + [t], |done|, up)
  {
    assert c.up.sibs[|done| := t] == done + [t];
  }

  lemma {:induction false} ForestParsed(text: string, i: nat, f: seq<Tree>, depth: nat, done: seq<Tree>, at: nat,
      up: Context)
    requires NUL !in text && up.Valid() && at < |Level(done)|
    requires f != [] && Printable(f) && Filled(f)
    requires forall k :: 0 <= k < |f| ==> Fresh(done, f[k].entry)
    requires Occurs(text, i, Print(f, depth))
    ensures Parse(text, i, Cursor(Level(done), at, up))
         == Parse(text, i + |Print(f, depth)|, Cursor(done + f, |done| + |f| - 1, up))
    decreases f, 0
  {
    hide Parse, Printable, Filled, PrintTree, Occurs, EntryOk, Fresh;
    PrintableParts(f);
    var head := PrintTree(f[0], depth);
    OccursSplit(text, i, head, Print(f[1..], depth));
    TreeParsed(text, i, f[0], depth, done, at, up);
    if |f| == 1 {
      assert done + f == done + [f[0]];
    } else {
      FreshNext(done, f);
      ForestParsed(text, i + |head|, f[1..], depth, done + [f[0]], |done|, up);
      assert done + f == done + [f[0]] + f[1..];
    }
  }

  lemma FreshNext(done: seq<Tree>, f: seq<Tree>)
    requires f != [] && f[0].entry.Pair?
    requires forall k :: 0 <= k < |f| ==> Fresh(done, f[k].entry)
    requires forall k :: 0 < k < |f| ==> f[k].entry != f[0].entry
    ensures forall k :: 0 <= k < |f[1..]| ==> Fresh(done + [f[0]], f[1..][k].entry)
  {
    forall k | 0 <= k < |f| - 1 ensures Fresh(done + [f[0]], f[1..][k].entry) {
      assert f[1..][k] == f[k + 1];
      assert Fresh(done, f[k + 1].entry);
    }
  }

  lemma EndParsed(text: string, f: seq<Tree>, at: nat)
    requires NUL !in text && at < |f|
    ensures Parse(text, |text|, Cursor(f, at, Top)) == Done(f)
  {
  }

  // Reading what was printed gives the forest back.
  lemma RoundTrip(f: seq<Tree>)
    requires f != [] && Printable(f)
    ensures Filled(f) && NUL !in Print(f, 0)
    ensures Parse(Print(f, 0), 0, START) == Done(f)
  {
    hide Parse, Print, Printable;
    PrintableIsFilled(f);
    PrintHasNoNul(f, 0);
    var text := Print(f, 0);
    assert text[0..|text|] == text;
    ForestParsed(text, 0, f, 0, [], 0, Top);
    assert [] + f == f;
    EndParsed(text, f, |f| - 1);
  }

  lemma {:induction false} PrintHasNoNul(f: seq<Tree>, depth: nat)
    requires Printable(f) && Filled(f)
    ensures NUL !in Print(f, depth)
    decreases f
  {
    hide Filled, Printable, Line, KeyOk, ValueOk, Spaces;
    if f != [] {
      PrintableParts(f);
      LineHasNoNul(f[0].entry.key, f[0].entry.value);
      PrintHasNoNul(f[0].kids, depth + 1);
      PrintHasNoNul(f[1..], depth);
      SpacesHaveNoNul(2 * depth);
    }
  }

  lemma LineHasNoNul(k: string, v: string)
    requires KeyOk(k) && ValueOk(v)
    ensures NUL !in Line(k, v)
  {
  }

  lemma {:induction false} SpacesHaveNoNul(n: nat)
    ensures NUL !in Spaces(n)
  {
    if n > 0 {
      SpacesHaveNoNul(n - 1);
    }
  }

  // How a file looks: a leaf is a line, a parent has its children in braces, indented, and
  // empty lines around; only what holds a blank is quoted.
  lemma Looks(key: string, value: string, name: string, child: Tree)
    requires child.entry.Pair? && child.kids == [] && !HasBlank(key) && !HasBlank(value) && !HasBlank(name)
    requires !HasBlank(child.entry.key) && HasBlank(child.entry.value)
    ensures var f := [Tree(Pair(key, value), []), Tree(Pair(name, value), [child])];
      Filled(f) && Print(f, 0) == (key + "\t" + value + "\n")
        + ("\n" + (name + "\t" + value + "\n") + "{\n"
           + ("  " + (child.entry.key + "\t" + ("\"" + child.entry.value + "\"") + "\n"))
           + "}\n\n")
  {
    hide HasBlank, PrintTree, Print, Filled;
    var leaf, parent := Tree(Pair(key, value), []), Tree(Pair(name, value), [child]);
    FilledPair(leaf, parent, child);
    LeafLooks(leaf);
    LeafLooks(child);
    ParentLooks(parent, child);
    PrintTwo(leaf, parent);
  }

  lemma FilledPair(leaf: Tree, parent: Tree, child: Tree)
    requires leaf.entry.Pair? && leaf.kids == [] && parent.entry.Pair? && parent.kids == [child]
    requires child.entry.Pair? && child.kids == []
    ensures Filled([leaf, parent]) && Filled([parent]) && Filled([child]) && Filled(parent.kids) && Filled([])
  {
    assert Filled([]) && Filled([child]);
  }

  lemma LeafLooks(t: Tree)
    requires t.entry.Pair? && t.kids == [] && Filled(t.kids)
    ensures PrintTree(t, 0) == Quote(t.entry.key) + "\t" + Quote(t.entry.value) + "\n"
    ensures PrintTree(t, 1) == "  " + (Quote(t.entry.key) + "\t" + Quote(t.entry.value) + "\n")
  {
    Indents();
    hide Quote, Indent, Spaces;
    var line := Line(t.entry.key, t.entry.value);
    assert "" + line == line;
  }

  lemma Indents()
    ensures Indent(0) == "" && Indent(1) == "  "
  {
    assert Spaces(1) == " ";
  }

  lemma ParentLooks(t: Tree, child: Tree)
    requires t.entry.Pair? && t.kids == [child] && Filled(t.kids) && child.entry.Pair? && Filled(child.kids)
    ensures PrintTree(t, 0) == "\n" + (Quote(t.entry.key) + "\t" + Quote(t.entry.value) + "\n") + "{\n"
      + PrintTree(child, 1) + "}\n\n"
  {
    hide Quote;
    PrintOne(child, 1);
    assert Spaces(0) == "";
  }

  lemma PrintTwo(a: Tree, b: Tree)
    requires Filled([a, b]) && Filled([b]) && a.entry.Pair? && b.entry.Pair? && Filled(a.kids) && Filled(b.kids)
    ensures Print([a, b], 0) == PrintTree(a, 0) + PrintTree(b, 0)
  {
    hide PrintTree;
    assert [a, b][1..] == [b];
    PrintOne(b, 0);
  }

  lemma PrintOne(t: Tree, depth: nat)
    requires Filled([t]) && t.entry.Pair? && Filled(t.kids)
    ensures Print([t], depth) == PrintTree(t, depth)
  {
    hide PrintTree;
    assert [t][1..] == [] && Print([], depth) == "";
  }
}
