/**
 parse_irc_line of src/irc.c: a line split into prefix, command, parameters and trailing
 text, and the messages of section 2.3.1 of RFC 1459 that it splits correctly.
 */
module IrcParse {
  import opened Shared
  import opened CStrings

  predicate IsEnd(c: char) { c == NUL || c == '\n' || c == '\r' }

  datatype Prefix = Prefix(servername: Arg, nick: Arg, user: Arg, host: Arg)

  // An empty list stands for an array that was never allocated.
  datatype IrcData = IrcData(prefix: Option<Prefix>, command: string,
                             params: seq<string>, paramsStr: Arg, rest: seq<string>, restStr: Arg)

  // A line without the characters a loop looks for leads it past the terminating NUL.
  datatype Parsed<+T> = Done(value: T) | Overrun

  // --- what the loops compute ---

  // The text after the ':' up to the space.  A lone name equal to the bot's nick is a nick.
  function PrefixOf(text: string, own: string): Parsed<Prefix> {
    var bang := Skip(text, '!');
    if bang == |text| then
      Done(if text == own then Prefix(Null, Str(text), Null, Null) else Prefix(Str(text), Null, Null, Null))
    else
      var after := text[bang + 1..];
      var at := Skip(after, '@');
      if at == |after| then Overrun
      else Done(Prefix(Null, Str(text[..bang]), Str(after[..at]), Str(after[at + 1..])))
  }

  // Words, the same text in one string, and what was not read.
  datatype Words = Words(list: seq<string>, str: string, left: string)

  // An allocated list has a word to append to.
  function Started(list: seq<string>): (l: seq<string>)
    ensures l != []
  {
    if list == [] then [""] else list
  }

  function Appended(list: seq<string>, c: char): (l: seq<string>)
    requires list != []
    ensures l != []
  {
    list[|list| - 1 := list[|list| - 1] + [c]]
  }

  // The parameter loop: a space starts a new word with whatever follows it, a ':' behind a
  // space ends the parameters.  `spaced` says that a space was just read.
  function Params(s: string, spaced: bool, list: seq<string>, str: string): Parsed<Words>
    decreases |s|
  {
    if IsEnd(CharAt(s, 0)) || (s[0] == ':' && spaced) then Done(Words(list, str, s))
    else
      var l := Started(list);
      if s[0] != ' ' then Params(s[1..], false, Appended(l, s[0]), str + [s[0]])
      else
        var c := CharAt(s, 1);
        if c == ':' || c == '\r' || c == '\n' then Done(Words(l, str + " ", s[1..]))
        else if c == NUL then Overrun
        else Params(s[2..], c == ' ', l + [[c]], str + " " + [c])
  }

  // The loop over the trailing text.
  function Trailing(s: string, list: seq<string>, str: string): Words
    decreases |s|
  {
    if IsEnd(CharAt(s, 0)) then Words(list, str, s)
    else
      var l := Started(list);
      if s[0] != ' ' then Trailing(s[1..], Appended(l, s[0]), str + [s[0]])
      else if IsEnd(CharAt(s, 1)) then Words(l, str + " ", s[1..])
      else Trailing(s[2..], l + [[s[1]]], str + " " + [s[1]])
  }

  function Text(list: seq<string>, str: string): Arg { if list == [] then Null else Str(str) }

  // From the command on.
  function Body(s: string, prefix: Option<Prefix>): Parsed<IrcData> {
    var e := Skip(s, ' ');
    if e == |s| then Overrun
    else
      match Params(s[e + 1..], true, [], "")
      case Overrun => Overrun
      case Done(p) =>
        var r := Trailing(if CharAt(p.left, 0) == NUL then p.left else p.left[1..], [], "");
        Done(IrcData(prefix, s[..e], p.list, Text(p.list, p.str), r.list, Text(r.list, r.str)))
  }

  function ParseLine(line: string, own: string): Parsed<IrcData> {
    if CharAt(line, 0) != ':' then Body(line, None)
    else
      var i := Skip(line, ' ');
      if i == |line| then Overrun
      else
        match PrefixOf(line[1..i], own)
        case Overrun => Overrun
        case Done(p) => Body(line[i + 1..], Some(p))
  }

  // --- the messages of RFC 1459 ---

  datatype Source = NoSource | Server(name: string) | User(nick: string, user: string, host: string)

  datatype Message = Message(source: Source, command: string, params: seq<string>, trailing: Option<string>)

  predicate Line(s: string) { forall i :: 0 <= i < |s| ==> !IsEnd(s[i]) }

  predicate Word(s: string) { Line(s) && Lacks(s, ' ') }

  predicate Middle(s: string) { Word(s) && s != "" && s[0] != ':' }

  predicate Valid(m: Message) {
    && Word(m.command) && (m.source.NoSource? ==> CharAt(m.command, 0) != ':')
    && (m.source.Server? ==> Word(m.source.name) && Lacks(m.source.name, '!'))
    && (m.source.User? ==>
         (Word(m.source.nick) && Lacks(m.source.nick, '!')
          && Word(m.source.user) && Lacks(m.source.user, '@') && Word(m.source.host)))
    && (forall i :: 0 <= i < |m.params| ==> Middle(m.params[i]))
    && (m.trailing.Some? ==> Line(m.trailing.value))
  }

  // Each word behind a space.
  function Spaced(ws: seq<string>): string {
    if ws == [] then "" else " " + ws[0] + Spaced(ws[1..])
  }

  function Joined(ws: seq<string>): string {
    if ws == [] then "" else ws[0] + Spaced(ws[1..])
  }

  function SourceText(s: Source): string {
    match s
    case NoSource => ""
    case Server(name) => name
    case User(nick, user, host) => nick + "!" + user + "@" + host
  }

  // What stands behind the command and its space.
  function Arguments(m: Message): string {
    Joined(m.params) +
    (if m.trailing.None? then "" else (if m.params == [] then ":" else " :") + m.trailing.value)
  }

  function Render(m: Message): string {
    (if m.source.NoSource? then "" else ":" + SourceText(m.source) + " ") + m.command + " " + Arguments(m)
  }

  // --- reading them back ---

  lemma SkipIs(s: string, stop: char, a: string, b: string)
    requires s == a + [stop] + b && Lacks(a, stop)
    ensures Skip(s, stop) == |a| && s[..|a|] == a && s[|a| + 1..] == b
  {
    hide Skip;
    assert s[|a|] == stop;
    assert forall i :: 0 <= i < |a| ==> s[i] == a[i];
  }

  lemma SkipNone(s: string, stop: char)
    requires Lacks(s, stop)
    ensures Skip(s, stop) == |s|
  {
    hide Skip;
  }

  // More text for the last word.
  function Extended(list: seq<string>, w: string): (l: seq<string>)
    requires list != []
    ensures l != []
  {
    list[|list| - 1 := list[|list| - 1] + w]
  }

  lemma ExtendMore(list: seq<string>, c: char, w: string)
    requires list != []
    ensures Extended(Appended(list, c), w) == Extended(list, [c] + w)
  {
    assert list[|list| - 1] + [c] + w == list[|list| - 1] + ([c] + w);
  }

  lemma ExtendNew(list: seq<string>, c: char, w: string)
    ensures Extended(list + [[c]], w) == list + [[c] + w]
    ensures Extended(Started([]), w) == [w]
  {
    assert "" + w == w;
  }

  lemma {:induction false} WordRead(w: string, s: string, spaced: bool, list: seq<string>, str: string)
    requires Word(w) && (w != "" ==> !spaced || w[0] != ':') && (w == "" ==> list != [] && !spaced)
    ensures Params(w + s, spaced, list, str) == Params(s, false, Extended(Started(list), w), str + w)
    decreases |w|
  {
    if w == "" {
      assert w + s == s && str + w == str && Extended(list, w) == list
          by { assert list[|list| - 1] + w == list[|list| - 1]; }
    } else {
      var l', str' := Appended(Started(list), w[0]), str + [w[0]];
      assert (w + s)[1..] == w[1..] + s && (w + s)[0] == w[0];
      assert Params(w + s, spaced, list, str) == Params(w[1..] + s, false, l', str');
      WordRead(w[1..], s, false, l', str');
      ExtendMore(Started(list), w[0], w[1..]);
      assert [w[0]] + w[1..] == w && str' + w[1..] == str + w;
    }
  }

  // A word behind a space becomes a new entry.
  lemma NextRead(w: string, s: string, list: seq<string>, str: string)
    requires Middle(w) && list != []
    ensures Params(" " + w + s, false, list, str) == Params(s, false, list + [w], str + " " + w)
  {
    var t := " " + w + s;
    assert t[0] == ' ' && t[1] == w[0] && t[2..] == w[1..] + s;
    var l, str' := list + [[w[0]]], str + " " + [w[0]];
    assert Params(t, false, list, str) == Params(w[1..] + s, false, l, str');
    WordRead(w[1..], s, false, l, str');
    ExtendNew(list, w[0], w[1..]);
    assert [w[0]] + w[1..] == w && str' + w[1..] == str + " " + w;
  }

  lemma Regroup(list: seq<string>, str: string, ws: seq<string>)
    requires ws != []
    ensures list + [ws[0]] + ws[1..] == list + ws
    ensures str + " " + ws[0] + Spaced(ws[1..]) == str + Spaced(ws)
    ensures Spaced(ws) == " " + ws[0] + Spaced(ws[1..])
  {
  }

  lemma {:induction false} WordsRead(ws: seq<string>, s: string, list: seq<string>, str: string)
    requires list != [] && forall i :: 0 <= i < |ws| ==> Middle(ws[i])
    ensures Params(Spaced(ws) + s, false, list, str) == Params(s, false, list + ws, str + Spaced(ws))
  {
    hide Params, Middle;
    if ws == [] {
      assert "" + s == s && list + ws == list && str + "" == str;
    } else {
      assert Spaced(ws) + s == " " + ws[0] + (Spaced(ws[1..]) + s);
      NextRead(ws[0], Spaced(ws[1..]) + s, list, str);
      WordsRead(ws[1..], s, list + [ws[0]], str + " " + ws[0]);
      Regroup(list, str, ws);
    }
  }

  // The parameters of a message; with trailing text the string ends in a space.
  lemma ParamsRead(m: Message)
    requires Valid(m)
    ensures var end := if m.params != [] && m.trailing.Some? then " " else "";
      Params(Arguments(m), true, [], "")
      == Done(Words(m.params, Joined(m.params) + end, if m.trailing.Some? then ":" + m.trailing.value else ""))
  {
    hide Middle, Line, Params;
    var t := if m.trailing.None? then "" else ":" + m.trailing.value;
    if m.params == [] {
      NoParams(t);
      assert Arguments(m) == t && Joined(m.params) + "" == "";
    } else {
      var tail := if m.trailing.None? then "" else " " + t;
      var w, ws := m.params[0], m.params[1..];
      MiddleFacts(w);
      assert Arguments(m) == w + (Spaced(ws) + tail);
      WordRead(w, Spaced(ws) + tail, true, [], "");
      ExtendNew([], ' ', w);
      assert "" + w == w && [w] + ws == m.params;
      WordsRead(ws, tail, [w], w);
      ParamsEnd(m.params, Joined(m.params), t);
    }
  }

  lemma NoParams(t: string)
    requires t != "" ==> t[0] == ':'
    ensures Params(t, true, [], "") == Done(Words([], "", t))
  {
  }

  lemma ParamsEnd(list: seq<string>, str: string, t: string)
    requires list != [] && (t != "" ==> t[0] == ':')
    ensures Params("", false, list, str) == Done(Words(list, str + "", ""))
    ensures t != "" ==> Params(" " + t, false, list, str) == Done(Words(list, str + " ", t))
  {
    assert (" " + t)[1..] == t && str + "" == str;
  }

  lemma MiddleFacts(w: string)
    requires Middle(w)
    ensures Word(w) && w != "" && w[0] != ':'
  {
  }

  // The trailing text comes back whole, and its words joined are that text, but for a last
  // space.
  lemma {:induction false} TrailingRead(s: string, list: seq<string>, str: string)
    requires Line(s) && (list != [] ==> Joined(list) == str) && (list == [] ==> str == "")
    ensures var r := Trailing(s, list, str);
      && r.left == "" && r.str == str + s && (r.list == [] <==> list == [] && s == "")
      && (r.list != [] ==> Joined(r.list) == r.str || Joined(r.list) + " " == r.str)
    decreases |s|
  {
    hide Appended, Joined;
    if s == "" {
      assert str + "" == str;
    } else {
      var l := Started(list);
      StartedJoined(list, str);
      if s[0] != ' ' {
        JoinedAppend(l, s[0]);
        TrailingRead(s[1..], Appended(l, s[0]), str + [s[0]]);
        assert str + [s[0]] + s[1..] == str + s;
      } else if |s| == 1 {
        assert s == " " && s[1..] == "";
      } else {
        assert !IsEnd(s[1]);
        JoinedMore(l, [s[1]]);
        TrailingRead(s[2..], l + [[s[1]]], str + " " + [s[1]]);
        assert str + " " + [s[1]] + s[2..] == str + s;
      }
    }
  }

  // The parameters of any line that is read inside its end: what is read and what is left
  // are the text, and the words joined are what is read, but for a last space.
  lemma {:induction false} ParamsKeep(s: string, spaced: bool, list: seq<string>, str: string)
    requires (list != [] ==> Joined(list) == str) && (list == [] ==> str == "")
    requires Params(s, spaced, list, str).Done?
    ensures var r := Params(s, spaced, list, str).value;
      && r.str + r.left == str + s && (r.list == [] ==> r.str == "")
      && (r.list != [] ==> Joined(r.list) == r.str || Joined(r.list) + " " == r.str)
    decreases |s|
  {
    hide Appended, Joined;
    if !(IsEnd(CharAt(s, 0)) || (s[0] == ':' && spaced)) {
      var l := Started(list);
      StartedJoined(list, str);
      if s[0] != ' ' {
        JoinedAppend(l, s[0]);
        ParamsKeep(s[1..], false, Appended(l, s[0]), str + [s[0]]);
        assert str + [s[0]] + s[1..] == str + s;
      } else {
        var c := CharAt(s, 1);
        if c == ':' || c == '\r' || c == '\n' {
          assert str + " " + s[1..] == str + s;
        } else {
          assert s[1] == c;
          JoinedMore(l, [c]);
          ParamsKeep(s[2..], c == ' ', l + [[c]], str + " " + [c]);
          assert str + " " + [c] + s[2..] == str + s;
        }
      }
    }
  }

  lemma StartedJoined(list: seq<string>, str: string)
    requires (list != [] ==> Joined(list) == str) && (list == [] ==> str == "")
    ensures Joined(Started(list)) == str
  {
    assert list == [] ==> Started(list)[1..] == [];
  }

  lemma {:induction false} SpacedConcat(a: seq<string>, b: seq<string>)
    ensures Spaced(a + b) == Spaced(a) + Spaced(b)
  {
    if a == [] {
      assert a + b == b;
    } else {
      assert (a + b)[1..] == a[1..] + b;
      SpacedConcat(a[1..], b);
    }
  }

  lemma JoinedMore(l: seq<string>, w: string)
    requires l != []
    ensures Joined(l + [w]) == Joined(l) + " " + w
  {
    assert (l + [w])[1..] == l[1..] + [w];
    SpacedConcat(l[1..], [w]);
    assert [w][1..] == [];
  }

  lemma JoinedAppend(l: seq<string>, c: char)
    requires l != []
    ensures Joined(Appended(l, c)) == Joined(l) + [c]
  {
    var n := |l| - 1;
    var a, w := l[..n], l[n];
    assert l == a + [w] && Appended(l, c) == a + [w + [c]];
    if a == [] {
      assert [w][1..] == [] && [w + [c]][1..] == [];
    } else {
      JoinedMore(a, w);
      JoinedMore(a, w + [c]);
    }
  }

  // Words joined by single spaces come back as those words.
  lemma {:induction false} TrailingWords(ws: seq<string>)
    requires ws != [] && forall i :: 0 <= i < |ws| ==> Word(ws[i]) && ws[i] != ""
    ensures Trailing(Joined(ws), [], "") == Words(ws, Joined(ws), "")
  {
    hide Word;
    var w := ws[0];
    TrailingWord(w, Spaced(ws[1..]), [], "");
    ExtendNew([], ' ', w);
    assert "" + w == w && [w] + ws[1..] == ws;
    TrailingSpaced(ws[1..], [w], w);
  }

  lemma {:induction false} TrailingWord(w: string, s: string, list: seq<string>, str: string)
    requires Word(w) && (w == "" ==> list != [])
    ensures Trailing(w + s, list, str) == Trailing(s, Extended(Started(list), w), str + w)
    decreases |w|
  {
    if w == "" {
      assert w + s == s && str + w == str && Extended(list, w) == list
          by { assert list[|list| - 1] + w == list[|list| - 1]; }
    } else {
      var l', str' := Appended(Started(list), w[0]), str + [w[0]];
      assert (w + s)[1..] == w[1..] + s && (w + s)[0] == w[0];
      assert Trailing(w + s, list, str) == Trailing(w[1..] + s, l', str');
      TrailingWord(w[1..], s, l', str');
      ExtendMore(Started(list), w[0], w[1..]);
      assert [w[0]] + w[1..] == w && str' + w[1..] == str + w;
    }
  }

  lemma TrailingNext(w: string, s: string, list: seq<string>, str: string)
    requires Word(w) && w != "" && list != []
    ensures Trailing(" " + w + s, list, str) == Trailing(s, list + [w], str + " " + w)
  {
    var t := " " + w + s;
    assert t[0] == ' ' && t[1] == w[0] && t[2..] == w[1..] + s;
    var l, str' := list + [[w[0]]], str + " " + [w[0]];
    assert Trailing(t, list, str) == Trailing(w[1..] + s, l, str');
    TrailingWord(w[1..], s, l, str');
    ExtendNew(list, w[0], w[1..]);
    assert [w[0]] + w[1..] == w && str' + w[1..] == str + " " + w;
  }

  lemma {:induction false} TrailingSpaced(ws: seq<string>, list: seq<string>, str: string)
    requires list != [] && forall i :: 0 <= i < |ws| ==> Word(ws[i]) && ws[i] != ""
    ensures Trailing(Spaced(ws), list, str) == Words(list + ws, str + Spaced(ws), "")
  {
    hide Word;
    if ws == [] {
      assert list + ws == list && str + "" == str;
    } else {
      hide Trailing;
      var w, more := ws[0], Spaced(ws[1..]);
      TrailingNext(w, more, list, str);
      TrailingSpaced(ws[1..], list + [w], str + " " + w);
      Regroup(list, str, ws);
    }
  }

  // The prefix a source is read as.
  function Read(s: Source, own: string): Option<Prefix> {
    match s
    case NoSource => None
    case Server(name) =>
      Some(if name == own then Prefix(Null, Str(name), Null, Null) else Prefix(Str(name), Null, Null, Null))
    case User(nick, user, host) => Some(Prefix(Null, Str(nick), Str(user), Str(host)))
  }

  lemma SourceRead(s: Source, own: string)
    requires s.Server? ==> Lacks(s.name, '!')
    requires s.User? ==> Lacks(s.nick, '!') && Lacks(s.user, '@')
    requires !s.NoSource?
    ensures PrefixOf(SourceText(s), own) == Done(Read(s, own).value)
  {
    hide Skip, Lacks;
    match s
    case Server(name) => SkipNone(name, '!');
    case User(nick, user, host) =>
      SkipIs(SourceText(s), '!', nick, user + "@" + host);
      SkipIs(user + "@" + host, '@', user, host);
  }

  // A rendered message is read back field by field; the trailing text is restStr.
  lemma Recovers(m: Message, own: string)
    requires Valid(m)
    ensures ParseLine(Render(m), own).Done?
    ensures var d := ParseLine(Render(m), own).value;
      && d.prefix == Read(m.source, own) && d.command == m.command && d.params == m.params
      && d.paramsStr == Text(m.params, Joined(m.params) + if m.trailing.Some? then " " else "")
      && d.restStr == (if m.trailing.None? || m.trailing.value == "" then Null else Str(m.trailing.value))
      && d.rest == (if m.trailing.None? then [] else Trailing(m.trailing.value, [], "").list)
  {
    hide Body, PrefixOf, Params, Trailing, Joined, Middle, Skip, Arguments, SourceText, Lacks;
    var body := m.command + " " + Arguments(m);
    BodyRead(m, Read(m.source, own));
    assert Trailing("", [], "").list == [] by { NoTrailing(); }
    if m.source.NoSource? {
      assert Render(m) == body by { assert "" + m.command == m.command; }
      FirstOf(m.command, Arguments(m));
    } else {
      SourceIsWord(m.source);
      SourceRead(m.source, own);
      SourcePart(SourceText(m.source), body);
      assert Render(m) == ":" + SourceText(m.source) + " " + body;
    }
  }

  lemma SourcePart(src: string, body: string)
    requires Lacks(src, ' ')
    ensures var r := ":" + src + " " + body;
      && Skip(r, ' ') == |src| + 1 && CharAt(r, 0) == ':'
      && r[1..|src| + 1] == src && r[|src| + 2..] == body
  {
    SkipIs(":" + src + " " + body, ' ', ":" + src, body);
  }

  lemma NoTrailing()
    ensures Trailing("", [], "") == Words([], "", "")
  {
  }

  lemma FirstOf(a: string, b: string)
    requires CharAt(a, 0) != ':'
    ensures CharAt(a + " " + b, 0) != ':'
  {
    assert a == "" ==> (a + " " + b)[0] == ' ';
  }

  lemma SourceIsWord(s: Source)
    requires s.Server? ==> Word(s.name)
    requires s.User? ==> Word(s.nick) && Word(s.user) && Word(s.host)
    ensures Lacks(SourceText(s), ' ')
  {
  }

  lemma BodyRead(m: Message, prefix: Option<Prefix>)
    requires Valid(m)
    ensures var t := if m.trailing.None? then "" else m.trailing.value;
      Body(m.command + " " + Arguments(m), prefix)
      == Done(IrcData(prefix, m.command, m.params,
                      Text(m.params, Joined(m.params) + if m.trailing.Some? then " " else ""),
                      Trailing(t, [], "").list, if t == "" then Null else Str(t)))
  {
    hide Params, Trailing, Middle, Skip, Arguments;
    SkipIs(m.command + " " + Arguments(m), ' ', m.command, Arguments(m));
    ParamsRead(m);
    var t := if m.trailing.None? then "" else m.trailing.value;
    TrailingRead(t, [], "");
    assert "" + t == t;
    assert (":" + t)[1..] == t && CharAt(":" + t, 0) == ':';
  }

  // --- exactly which lines the loops stay inside of ---

  function SpacesAtEnd(s: string): (n: nat)
    ensures n <= |s|
  {
    if s == "" || s[|s| - 1] != ' ' then 0 else 1 + SpacesAtEnd(s[..|s| - 1])
  }

  // A ':' that starts the trailing text: behind a space, or in front when `spaced`.
  predicate ColonAt(s: string, spaced: bool, i: nat) {
    i < |s| && s[i] == ':' && if i == 0 then spaced else s[i - 1] == ' '
  }

  predicate Colon(s: string, spaced: bool) {
    exists i :: 0 <= i < |s| && ColonAt(s, spaced, i)
  }

  // The parameter loop takes two characters at a space: it passes the end of a text that
  // nothing else ends exactly when the number of spaces at the end is odd.
  predicate ParamsEnded(s: string, spaced: bool) {
    !Line(s) || Colon(s, spaced) || SpacesAtEnd(s) % 2 == 0
  }

  lemma {:induction false} SpacesBehind(s: string, k: nat)
    requires k <= |s|
    ensures SpacesAtEnd(s[k..]) == if SpacesAtEnd(s) <= |s| - k then SpacesAtEnd(s) else |s| - k
    decreases |s|
  {
    if k < |s| {
      var n := |s| - 1;
      assert s[k..][|s[k..]| - 1] == s[n] && s[k..][..|s[k..]| - 1] == s[..n][k..];
      SpacesBehind(s[..n], k);
    }
  }

  lemma {:induction false} AllSpaces(s: string, k: nat)
    requires SpacesAtEnd(s) > k
    ensures |s| > k && s[|s| - 1 - k] == ' '
    decreases k
  {
    if k > 0 {
      AllSpaces(s[..|s| - 1], k - 1);
    }
  }

  // One character that is no space, or a space and what follows it.
  lemma EndedSteps(s: string, spaced: bool, k: nat)
    requires NUL !in s && 0 < k <= |s| && !IsEnd(s[0]) && !(s[0] == ':' && spaced)
    requires if s[0] != ' ' then k == 1 else k == 2 && !IsEnd(s[1]) && s[1] != ':'
    ensures ParamsEnded(s, spaced) <==> ParamsEnded(s[k..], s[k - 1] == ' ')
  {
    var t := s[k..];
    assert forall i :: k <= i < |s| ==> s[i] == t[i - k];
    assert forall i :: 0 <= i < |t| ==> t[i] == s[i + k];
    ColonStep(s, spaced, k);
    SpacesBehind(s, k);
    if SpacesAtEnd(s) > |t| {
      AllSpaces(s, |t|);
      assert s[k - 1] == ' ' && k == 2;
      assert SpacesAtEnd(s) == |s| || SpacesAtEnd(s) == |t| + 1;
      if SpacesAtEnd(s) == |t| + 1 {
        SpacesBehind(s, 0);
        NoMore(s, |t| + 1);
      }
    }
  }

  lemma {:induction false} NoMore(s: string, k: nat)
    requires SpacesAtEnd(s) == k < |s|
    ensures s[|s| - 1 - k] != ' '
    decreases k
  {
    if k > 0 {
      NoMore(s[..|s| - 1], k - 1);
    }
  }

  lemma ColonStep(s: string, spaced: bool, k: nat)
    requires 0 < k <= |s| && k <= 2 && !(s[0] == ':' && spaced) && (k == 2 ==> s[1] != ':')
    ensures Colon(s, spaced) <==> Colon(s[k..], s[k - 1] == ' ')
  {
    var t, between := s[k..], s[k - 1] == ' ';
    if Colon(s, spaced) {
      var i :| 0 <= i < |s| && ColonAt(s, spaced, i);
      assert ColonAt(t, between, i - k);
    }
    if Colon(t, between) {
      var i :| 0 <= i < |t| && ColonAt(t, between, i);
      assert ColonAt(s, spaced, i + k);
    }
  }

  lemma {:induction false} ParamsDoneIff(s: string, spaced: bool, list: seq<string>, str: string)
    requires NUL !in s
    ensures Params(s, spaced, list, str).Done? <==> ParamsEnded(s, spaced)
    decreases |s|
  {
    hide ParamsEnded;
    if s == "" || IsEnd(s[0]) || (s[0] == ':' && spaced) {
      EndsAtOnce(s, spaced);
    } else if s[0] != ' ' {
      EndedSteps(s, spaced, 1);
      ParamsDoneIff(s[1..], false, Appended(Started(list), s[0]), str + [s[0]]);
    } else if |s| == 1 {
      LastSpace(s, spaced);
    } else if IsEnd(s[1]) || s[1] == ':' {
      EndsNext(s, spaced);
    } else {
      EndedSteps(s, spaced, 2);
      ParamsDoneIff(s[2..], s[1] == ' ', Started(list) + [[s[1]]], str + " " + [s[1]]);
    }
  }

  lemma EndsAtOnce(s: string, spaced: bool)
    requires s == "" || IsEnd(s[0]) || (s[0] == ':' && spaced)
    ensures ParamsEnded(s, spaced)
  {
    assert s != "" && s[0] == ':' && spaced ==> ColonAt(s, spaced, 0);
  }

  lemma EndsNext(s: string, spaced: bool)
    requires |s| > 1 && s[0] == ' ' && (IsEnd(s[1]) || s[1] == ':')
    ensures ParamsEnded(s, spaced)
  {
    assert s[1] == ':' ==> ColonAt(s, spaced, 1);
  }

  lemma LastSpace(s: string, spaced: bool)
    requires |s| == 1 && s[0] == ' '
    ensures !ParamsEnded(s, spaced)
  {
    assert s[..0] == "";
  }

  // The command is followed by a space, and the parameters end.
  predicate BodyEnded(s: string) {
    ' ' in s && ParamsEnded(s[Skip(s, ' ') + 1..], true)
  }

  // The prefix is followed by a space, and a '!' in it by a '@'.
  predicate LineEnded(line: string) {
    if CharAt(line, 0) != ':' then BodyEnded(line)
    else
      ' ' in line &&
      var i := Skip(line, ' ');
      PrefixEnded(line[..i]) && BodyEnded(line[i + 1..])
  }

  predicate PrefixEnded(prefix: string) {
    '!' in prefix ==> '@' in prefix[Skip(prefix, '!')..]
  }

  // A line is split without reading past its end exactly if these characters are there.
  lemma DoneIff(line: string, own: string)
    requires NUL !in line
    ensures ParseLine(line, own).Done? <==> LineEnded(line)
  {
    hide Params, ParamsEnded, Trailing;
    SkipFinds(line, ' ');
    if CharAt(line, 0) != ':' {
      BodyDoneIff(line, None);
    } else if ' ' in line {
      var i := Skip(line, ' ');
      PrefixDoneIff(line[..i], own);
      assert line[..i][1..] == line[1..i];
      var p := PrefixOf(line[1..i], own);
      if p.Done? {
        BodyDoneIff(line[i + 1..], Some(p.value));
      }
    }
  }

  lemma SkipFinds(s: string, stop: char)
    ensures stop in s <==> Skip(s, stop) < |s|
  {
    hide Skip;
    var k := Skip(s, stop);
  }

  lemma PrefixDoneIff(prefix: string, own: string)
    requires prefix != "" && prefix[0] == ':'
    ensures PrefixOf(prefix[1..], own).Done? <==> PrefixEnded(prefix)
  {
    var text := prefix[1..];
    SkipFinds(prefix, '!');
    SkipFinds(text, '!');
    var bang := Skip(text, '!');
    assert Skip(prefix, '!') == bang + 1;
    if bang < |text| {
      SkipFinds(text[bang + 1..], '@');
      var rest := prefix[bang + 1..];
      assert rest[0] == '!' && rest[1..] == text[bang + 1..];
      assert '@' in rest <==> '@' in rest[1..];
    }
  }

  lemma BodyDoneIff(s: string, prefix: Option<Prefix>)
    requires NUL !in s
    ensures Body(s, prefix).Done? <==> BodyEnded(s)
  {
    hide Params, ParamsEnded, Trailing;
    SkipFinds(s, ' ');
    if ' ' in s {
      ParamsDoneIff(s[Skip(s, ' ') + 1..], true, [], "");
    }
  }

  // So every line without a space is read past its end.
  lemma NoSpaceOverruns(line: string, own: string)
    requires NUL !in line && ' ' !in line
    ensures ParseLine(line, own) == Overrun
  {
    hide LineEnded;
    DoneIff(line, own);
    NoSpaceNoEnd(line);
  }

  lemma NoSpaceNoEnd(line: string)
    requires ' ' !in line
    ensures !LineEnded(line)
  {
  }

  // And so is a message without trailing text if a space follows it.
  lemma SpaceBehindOverruns(m: Message, own: string)
    requires Valid(m) && m.trailing.None?
    ensures ParseLine(Render(m) + " ", own) == Overrun
  {
    hide Body, PrefixOf, Params, Trailing, Joined, Middle, Skip, Arguments, SourceText, Lacks;
    var tail := Arguments(m) + " ";
    var body := m.command + " " + tail;
    BodyOverruns(m, Read(m.source, own));
    if m.source.NoSource? {
      assert Render(m) + " " == body by { assert "" + m.command == m.command; }
      FirstOf(m.command, tail);
    } else {
      SourceIsWord(m.source);
      SourceRead(m.source, own);
      SourcePart(SourceText(m.source), body);
      assert Render(m) + " " == ":" + SourceText(m.source) + " " + body;
    }
  }

  lemma BodyOverruns(m: Message, prefix: Option<Prefix>)
    requires Valid(m) && m.trailing.None?
    ensures Body(m.command + " " + (Arguments(m) + " "), prefix) == Overrun
  {
    hide Params, Trailing, Middle, Skip;
    var tail := Arguments(m) + " ";
    SkipIs(m.command + " " + tail, ' ', m.command, tail);
    OneSpace([], "", true);
    if m.params == [] {
      assert tail == " ";
    } else {
      var w, ws := m.params[0], m.params[1..];
      MiddleFacts(w);
      assert tail == w + (Spaced(ws) + " ");
      WordRead(w, Spaced(ws) + " ", true, [], "");
      ExtendNew([], ' ', w);
      assert "" + w == w;
      WordsRead(ws, " ", [w], w);
      OneSpace([w] + ws, w + Spaced(ws), false);
    }
  }

  lemma OneSpace(list: seq<string>, str: string, spaced: bool)
    ensures Params(" ", spaced, list, str) == Overrun
  {
  }

  // --- the code ---

  // parse_irc_line, up to the data it hands on; `own` is the bot's nick.
  method ParseIrcLine(buffer: string, own: string) returns (r: Parsed<IrcData>)
    requires NUL !in buffer
    ensures r == ParseLine(buffer, own)
  {
    hide Params, Trailing, Body, PrefixOf, Skip;
    var prefix: Option<Prefix> := None;
    var m: nat := 0;
    assert buffer[0..] == buffer;
    if CharAt(buffer, 0) == ':' {
      var found, tmp := CopyUntil(buffer, 0, ' ');
      if !found { return Overrun; }
      assert tmp[1..] == buffer[1..|tmp|];
      var p := ReadPrefix(tmp, own);
      if p.Overrun? { return Overrun; }
      prefix := Some(p.value);
      m := |tmp| + 1;
    }
    r := ReadBody(buffer, m, prefix);
  }

  // Copies up to a character; without one it would run past the terminating NUL.
  method CopyUntil(s: string, from: nat, stop: char) returns (found: bool, copy: string)
    requires from <= |s|
    ensures found <==> StopAt(s, from, stop) < |s|
    ensures found ==> copy == s[from..StopAt(s, from, stop)] && |copy| == Skip(s[from..], stop)
  {
    var i := from;
    copy := "";
    while i < |s| && s[i] != stop
      invariant from <= i <= |s| && copy == s[from..i] && StopAt(s, from, stop) == StopAt(s, i, stop)
    {
      Step(s, i);
      copy := copy + [s[i]];
      i := i + 1;
    }
    found := i < |s|;
    if found {
      Step(s, i);
    }
  }

  // `tmp` is the prefix with its ':'.
  method ReadPrefix(tmp: string, own: string) returns (p: Parsed<Prefix>)
    requires tmp != "" && tmp[0] == ':'
    ensures p == PrefixOf(tmp[1..], own)
  {
    hide Skip;
    ghost var text := tmp[1..];
    var found, nick := CopyUntil(tmp, 1, '!');
    if !found {
      if tmp[1..] == own {
        return Done(Prefix(Null, Str(tmp[1..]), Null, Null));
      }
      return Done(Prefix(Str(tmp[1..]), Null, Null, Null));
    }
    assert text[..|nick|] == nick && text[|nick| + 1..] == tmp[|nick| + 2..];
    var i := |nick| + 2;
    var ended, user := CopyUntil(tmp, i, '@');
    if !ended { return Overrun; }
    assert tmp[i..][..|user|] == user && tmp[i..][|user| + 1..] == tmp[i + |user| + 1..];
    return Done(Prefix(Null, Str(nick), Str(user), Str(tmp[i + |user| + 1..])));
  }

  method ReadBody(buffer: string, start: nat, prefix: Option<Prefix>) returns (r: Parsed<IrcData>)
    requires NUL !in buffer && start <= |buffer|
    ensures r == Body(buffer[start..], prefix)
  {
    hide Params, Trailing, Skip;
    var found, command := CopyUntil(buffer, start, ' ');
    if !found { return Overrun; }
    var m := start + |command| + 1;
    DropTwice(buffer, start, |command| + 1);
    assert buffer[start..][..|command|] == command;
    var params := ReadParams(buffer, m);
    if params.Overrun? { return Overrun; }
    m := |buffer| - |params.value.left|;
    AtEnd(buffer, m);
    if CharAt(buffer, m) != NUL {
      Step(buffer, m);
      m := m + 1;
    }
    var rest := ReadRest(buffer, m);
    return Done(IrcData(prefix, command, params.value.list, Text(params.value.list, params.value.str),
                        rest.list, Text(rest.list, rest.str)));
  }

  // Fill in command parameters if any.
  method ReadParams(buffer: string, start: nat) returns (r: Parsed<Words>)
    requires NUL !in buffer && 0 < start <= |buffer| && buffer[start - 1] == ' '
    ensures r == Params(buffer[start..], true, [], "")
    ensures r.Done? ==> |r.value.left| <= |buffer| && r.value.left == buffer[|buffer| - |r.value.left|..]
  {
    hide Params;
    var list: seq<string>, str := [], "";
    var m := start;
    while CharAt(buffer, m) != NUL && CharAt(buffer, m) != '\n' && CharAt(buffer, m) != '\r'
      invariant 0 < m <= |buffer|
      invariant Params(buffer[start..], true, [], "") == Params(buffer[m..], buffer[m - 1] == ' ', list, str)
      decreases |buffer| - m
    {
      ParamsStep(buffer, m, list, str);
      if CharAt(buffer, m) == ':' && buffer[m - 1] == ' ' { break; }
      if list == [] {
        list := [""];
      }
      if CharAt(buffer, m) == ' ' {
        m := m + 1;
        str := str + " ";
        if CharAt(buffer, m) == ':' || CharAt(buffer, m) == '\r' || CharAt(buffer, m) == '\n' {
          return Done(Words(list, str, buffer[m..]));
        }
        AtEnd(buffer, m);
        if CharAt(buffer, m) == NUL { return Overrun; }
        list := list + [""];
      }
      list := Appended(list, buffer[m]);
      str := str + [buffer[m]];
      m := m + 1;
    }
    AtEnd(buffer, m);
    ParamsStop(buffer[m..], buffer[m - 1] == ' ', list, str);
    return Done(Words(list, str, buffer[m..]));
  }

  // One turn of the parameter loop, by positions.
  lemma ParamsStep(buffer: string, m: nat, list: seq<string>, str: string)
    requires NUL !in buffer && 0 < m < |buffer| && !IsEnd(buffer[m])
    ensures var l, spaced := Started(list), buffer[m - 1] == ' ';
      var p := Params(buffer[m..], spaced, list, str);
      if buffer[m] == ':' && spaced then p == Done(Words(list, str, buffer[m..]))
      else if buffer[m] != ' ' then p == Params(buffer[m + 1..], false, Appended(l, buffer[m]), str + [buffer[m]])
      else if m + 1 == |buffer| then p == Overrun
      else if buffer[m + 1] in {':', '\r', '\n'} then p == Done(Words(l, str + " ", buffer[m + 1..]))
      else p == Params(buffer[m + 2..], buffer[m + 1] == ' ', Appended(l + [""], buffer[m + 1]),
          str + " " + [buffer[m + 1]])
  {
    Step(buffer, m);
    AtEnd(buffer, m + 1);
    if m + 1 < |buffer| {
      DropTwice(buffer, m, 2);
      var l := Started(list);
      assert "" + [buffer[m + 1]] == [buffer[m + 1]];
      assert (l + [""])[|l| := [buffer[m + 1]]] == l + [[buffer[m + 1]]];
    }
  }

  lemma ParamsStop(s: string, spaced: bool, list: seq<string>, str: string)
    requires IsEnd(CharAt(s, 0)) || (s[0] == ':' && spaced)
    ensures Params(s, spaced, list, str) == Done(Words(list, str, s))
  {
  }

  method ReadRest(buffer: string, start: nat) returns (r: Words)
    requires NUL !in buffer && start <= |buffer|
    ensures r == Trailing(buffer[start..], [], "")
  {
    hide Trailing;
    var list: seq<string>, str := [], "";
    var m := start;
    while CharAt(buffer, m) != NUL && CharAt(buffer, m) != '\n' && CharAt(buffer, m) != '\r'
      invariant m <= |buffer|
      invariant Trailing(buffer[start..], [], "") == Trailing(buffer[m..], list, str)
      decreases |buffer| - m
    {
      TrailingStep(buffer, m, list, str);
      if list == [] {
        list := [""];
      }
      if CharAt(buffer, m) == ' ' {
        m := m + 1;
        str := str + " ";
        AtEnd(buffer, m);
        if CharAt(buffer, m) == '\r' || CharAt(buffer, m) == '\n' || CharAt(buffer, m) == NUL {
          return Words(list, str, buffer[m..]);
        }
        list := list + [""];
      }
      list := Appended(list, buffer[m]);
      str := str + [buffer[m]];
      m := m + 1;
    }
    AtEnd(buffer, m);
    TrailingStop(buffer[m..], list, str);
    return Words(list, str, buffer[m..]);
  }

  lemma TrailingStep(buffer: string, m: nat, list: seq<string>, str: string)
    requires NUL !in buffer && m < |buffer| && !IsEnd(buffer[m])
    ensures var l, t := Started(list), Trailing(buffer[m..], list, str);
      if buffer[m] != ' ' then t == Trailing(buffer[m + 1..], Appended(l, buffer[m]), str + [buffer[m]])
      else if IsEnd(CharAt(buffer, m + 1)) then t == Words(l, str + " ", buffer[m + 1..])
      else t == Trailing(buffer[m + 2..], Appended(l + [""], buffer[m + 1]), str + " " + [buffer[m + 1]])
  {
    Step(buffer, m);
    if m + 1 < |buffer| {
      DropTwice(buffer, m, 2);
      var l := Started(list);
      assert "" + [buffer[m + 1]] == [buffer[m + 1]];
      assert (l + [""])[|l| := [buffer[m + 1]]] == l + [[buffer[m + 1]]];
    }
  }

  lemma TrailingStop(s: string, list: seq<string>, str: string)
    requires IsEnd(CharAt(s, 0))
    ensures Trailing(s, list, str) == Words(list, str, s)
  {
  }
}
