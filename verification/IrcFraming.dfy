/**
 irc_in of src/irc.c: lines put together from whatever pieces recv returns.  The lines
 with content do not depend on the pieces; all lines do not exactly for `Steady` streams.
 */
module IrcFraming {
  import opened Shared
  import opened CStrings

  predicate IsEol(c: char) { c == '\r' || c == '\n' }

  predicate Content(s: string) { forall i :: 0 <= i < |s| ==> !IsEol(s[i]) }

  // --- the messages of a whole stream ---

  // The runs without CR and LF, as far as an LF follows them.
  function Messages(s: string, cur: string): seq<string>
    decreases |s|
  {
    if '\n' !in s then []
    else if IsEol(s[0]) then (if cur == "" then [] else [cur]) + Messages(s[1..], "")
    else Messages(s[1..], cur + [s[0]])
  }

  // --- one buffer ---

  function LineEnd(b: string): (e: nat)
    ensures e <= |b| && (e < |b| ==> IsEol(b[e])) && forall i :: 0 <= i < e ==> !IsEol(b[i])
  {
    if b == "" || IsEol(b[0]) then 0 else 1 + LineEnd(b[1..])
  }

  // Past the line ends at the start.
  function Trim(b: string): (r: string)
    ensures |r| <= |b| && (r != "" ==> !IsEol(r[0]))
  {
    if b != "" && IsEol(b[0]) then Trim(b[1..]) else b
  }

  lemma LfInside(b: string)
    requires '\n' in b
    ensures LineEnd(b) < |b| && |Trim(b[LineEnd(b)..])| < |b|
  {
    var i :| 0 <= i < |b| && b[i] == '\n';
    var e := LineEnd(b);
    assert e <= i;
    Step(b, e);
  }

  // The line end is the first CR or LF.
  lemma EndOf(b: string, e: nat)
    requires e < |b| && (forall i :: 0 <= i < e ==> !IsEol(b[i])) && IsEol(b[e])
    ensures LineEnd(b) == e
  {
    hide LineEnd;
  }

  // The lines irc_in delivers from a buffer, and what it keeps.
  function Lines(b: string): seq<string>
    decreases |b|
  {
    if '\n' !in b then [] else
      LfInside(b);
      [b[..LineEnd(b)]] + Lines(Trim(b[LineEnd(b)..]))
  }

  function Left(b: string): (r: string)
    ensures '\n' !in r
    decreases |b|
  {
    if '\n' !in b then b else
      LfInside(b);
      Left(Trim(b[LineEnd(b)..]))
  }

  // --- the connection ---

  // What recv reports.
  datatype Received = Data(bytes: string) | Failed | Closed

  class Connection {
    var buffer: Arg
    var delivered: seq<string>

    constructor ()
      ensures buffer == Null && delivered == []
    {
      buffer, delivered := Null, [];
    }

    ghost function Pending(): string
      reads this
    {
      if buffer.Str? then buffer.s else ""
    }

    // irc_in.  A failed or closed connection loses what was pending.  A NUL among the bytes
    // would end the string early.
    method IrcIn(r: Received) returns (status: int)
      requires r.Data? ==> NUL !in r.bytes
      modifies this
      ensures status == if r.Closed? then 0 else 1
      ensures !r.Data? ==> buffer == Null && delivered == old(delivered)
      ensures r.Data? ==> delivered == old(delivered) + Lines(old(Pending()) + r.bytes)
      ensures r.Data? ==> Pending() == Left(old(Pending()) + r.bytes)
    {
      if r.Failed? {
        buffer := Null;
        return 1;
      }
      if r.Closed? {
        buffer := Null;
        return 0;
      }
      var b := (if buffer.Str? then buffer.s else "") + r.bytes;
      buffer := Str(b);
      TakeLines();
      return 1;
    }

    // while (strchr(buffer, '\n') != NULL)
    method TakeLines()
      modifies this
      ensures delivered == old(delivered) + Lines(old(Pending())) && Pending() == Left(old(Pending()))
    {
      hide Lines, Left, LineEnd, Trim;
      ghost var before, all := delivered, Pending();
      NoLines();
      while buffer.Str? && '\n' in buffer.s
        invariant before + Lines(all) == delivered + Lines(Pending()) && Left(Pending()) == Left(all)
        decreases |Pending()|
      {
        var line, rest := TakeLine(buffer.s);
        Regroup(delivered, line, Lines(rest));
        delivered := delivered + [line];
        buffer := if rest == "" then Null else Str(rest);
      }
      NoLine(Pending());
      assert delivered + [] == delivered;
    }
  }

  lemma Regroup(a: seq<string>, x: string, b: seq<string>)
    ensures a + ([x] + b) == a + [x] + b
  {
  }

  lemma NoLines()
    ensures Lines("") == [] && Left("") == ""
  {
  }

  lemma NoLine(b: string)
    requires '\n' !in b
    ensures Lines(b) == [] && Left(b) == b
  {
  }

  // The first line of a buffer that holds an LF, and what follows its line ends.
  method TakeLine(b: string) returns (line: string, rest: string)
    requires '\n' in b
    ensures line == b[..LineEnd(b)] && rest == Trim(b[LineEnd(b)..]) && |rest| < |b|
    ensures Lines(b) == [line] + Lines(rest) && Left(b) == Left(rest)
  {
    LfInside(b);
    var p := 0;
    line := "";
    while !IsEol(b[p])
      invariant p <= LineEnd(b) && line == b[..p]
      decreases LineEnd(b) - p
    {
      line := line + [b[p]];
      p := p + 1;
    }
    EndOf(b, p);
    while p < |b| && IsEol(b[p])
      invariant LineEnd(b) <= p <= |b| && Trim(b[LineEnd(b)..]) == Trim(b[p..])
    {
      Step(b, p);
      p := p + 1;
    }
    rest := b[p..];
    assert p < |b| ==> b[p..][0] == b[p];
  }

  // --- independence of the pieces ---

  function NonEmpty(lines: seq<string>): seq<string> {
    if lines == [] then [] else (if lines[0] == "" then [] else [lines[0]]) + NonEmpty(lines[1..])
  }

  lemma {:induction false} NonEmptyAdd(a: seq<string>, b: seq<string>)
    ensures NonEmpty(a + b) == NonEmpty(a) + NonEmpty(b)
  {
    if a == [] {
      assert a + b == b;
    } else {
      assert (a + b)[1..] == a[1..] + b;
      NonEmptyAdd(a[1..], b);
    }
  }

  lemma {:induction false} ReadContent(line: string, s: string, cur: string)
    requires Content(line) && '\n' in s
    ensures Messages(line + s, cur) == Messages(s, cur + line)
    decreases |line|
  {
    if line == "" {
      assert line + s == s && cur + line == cur;
    } else {
      assert (line + s)[1..] == line[1..] + s && (line + s)[0] == line[0];
      ReadContent(line[1..], s, cur + [line[0]]);
      assert cur + [line[0]] + line[1..] == cur + line;
    }
  }

  lemma {:induction false} ReadEnds(s: string, x: string)
    ensures Messages(s + x, "") == Messages(Trim(s) + x, "")
    decreases |s|
  {
    if s != "" && IsEol(s[0]) {
      assert (s + x)[1..] == s[1..] + x && (s + x)[0] == s[0];
      ReadEnds(s[1..], x);
      if '\n' !in s + x {
        assert '\n' !in s[1..] + x;
      } else {
        assert Messages(s + x, "") == [] + Messages(s[1..] + x, "");
      }
    }
  }

  // Taking the lines out of a buffer takes the messages out of the stream.
  lemma {:induction false} TakesMessages(b: string, x: string)
    ensures Messages(b + x, "") == NonEmpty(Lines(b)) + Messages(Left(b) + x, "")
    decreases |b|
  {
    hide LineEnd, Trim, Messages;
    if '\n' !in b {
      assert NonEmpty([]) + Messages(b + x, "") == Messages(b + x, "");
    } else {
      LfInside(b);
      FirstTaken(b, x);
      var line, more := b[..LineEnd(b)], Trim(b[LineEnd(b)..]);
      TakesMessages(more, x);
      NonEmptyAdd([line], Lines(more));
      assert NonEmpty([line]) + (NonEmpty(Lines(more)) + Messages(Left(more) + x, ""))
          == NonEmpty([line]) + NonEmpty(Lines(more)) + Messages(Left(more) + x, "");
    }
  }

  lemma FirstTaken(b: string, x: string)
    requires '\n' in b
    ensures LineEnd(b) < |b|
    ensures Messages(b + x, "") == NonEmpty([b[..LineEnd(b)]]) + Messages(Trim(b[LineEnd(b)..]) + x, "")
  {
    hide LineEnd, Trim, Messages;
    LfInside(b);
    var e := LineEnd(b);
    var line, ends := b[..e], b[e..];
    LfBehind(b, e);
    assert b + x == line + (ends + x) && "" + line == line;
    ReadContent(line, ends + x, "");
    assert (ends + x)[0] == b[e] && (ends + x)[1..] == b[e + 1..] + x;
    ReadEnds(b[e + 1..], x);
    TrimOne(b, e);
    EndsLine(ends + x, line);
    assert [line][1..] == [];
  }

  lemma EndsLine(s: string, cur: string)
    requires '\n' in s && IsEol(s[0])
    ensures Messages(s, cur) == (if cur == "" then [] else [cur]) + Messages(s[1..], "")
  {
  }

  lemma LfBehind(b: string, e: nat)
    requires '\n' in b && e <= |b| && forall i :: 0 <= i < e ==> !IsEol(b[i])
    ensures '\n' in b[e..]
  {
    var i :| 0 <= i < |b| && b[i] == '\n';
    assert b[e..][i - e] == b[i];
  }

  lemma TrimOne(b: string, e: nat)
    requires e < |b| && IsEol(b[e])
    ensures Trim(b[e..]) == Trim(b[e + 1..])
  {
    Step(b, e);
  }

  // What was read so far: its messages are delivered, and more data continues the rest.
  ghost predicate Keeps(stream: string, lines: seq<string>, rest: string) {
    '\n' !in rest && forall x :: Messages(stream + x, "") == NonEmpty(lines) + Messages(rest + x, "")
  }

  lemma KeepsMore(stream: string, lines: seq<string>, rest: string, bytes: string)
    requires Keeps(stream, lines, rest)
    ensures Keeps(stream + bytes, lines + Lines(rest + bytes), Left(rest + bytes))
  {
    hide Messages, Lines, Left, NonEmpty;
    forall x ensures Messages(stream + bytes + x, "")
                  == NonEmpty(lines + Lines(rest + bytes)) + Messages(Left(rest + bytes) + x, "")
    {
      assert stream + bytes + x == stream + (bytes + x) && rest + (bytes + x) == rest + bytes + x;
      TakesMessages(rest + bytes, x);
      NonEmptyAdd(lines, Lines(rest + bytes));
    }
  }

  // What a connection has delivered and kept after some pieces.
  datatype Progress = Progress(lines: seq<string>, rest: string)

  function After(chunks: seq<string>): Progress {
    if chunks == [] then Progress([], "")
    else
      var p, c := After(chunks[..|chunks| - 1]), chunks[|chunks| - 1];
      Progress(p.lines + Lines(p.rest + c), Left(p.rest + c))
  }

  // For any pieces, the lines with content are the messages of the whole stream.
  method ReceiveAll(chunks: seq<string>) returns (c: Connection)
    requires forall i :: 0 <= i < |chunks| ==> NUL !in chunks[i]
    ensures fresh(c) && NonEmpty(c.delivered) == Messages(Flatten(chunks), "")
    ensures Progress(c.delivered, c.Pending()) == After(chunks)
  {
    c := new Connection();
    hide Messages, Lines, Left, NonEmpty;
    assert chunks[..0] == [] && Keeps("", [], "") by { KeepsNothing(); }
    var i := 0;
    while i < |chunks|
      invariant i <= |chunks| && fresh(c) && Keeps(Flatten(chunks[..i]), c.delivered, c.Pending())
      invariant Progress(c.delivered, c.Pending()) == After(chunks[..i])
    {
      assert chunks[..i + 1][..i] == chunks[..i];
      KeepsMore(Flatten(chunks[..i]), c.delivered, c.Pending(), chunks[i]);
      var status := c.IrcIn(Data(chunks[i]));
      i := i + 1;
    }
    assert chunks[..i] == chunks;
    KeepsAll(Flatten(chunks), c.delivered, c.Pending());
  }

  lemma KeepsNothing()
    ensures Keeps("", [], "")
  {
    forall x ensures Messages("" + x, "") == NonEmpty([]) + Messages("" + x, "") {
    }
  }

  lemma KeepsAll(stream: string, lines: seq<string>, rest: string)
    requires Keeps(stream, lines, rest)
    ensures NonEmpty(lines) == Messages(stream, "")
  {
    assert stream + "" == stream && rest + "" == rest;
    assert Messages(rest, "") == [];
  }

  // Without an LF nothing is delivered, although the source speaks of servers that end
  // their lines with a CR only.
  lemma CrOnlyWaits(s: string)
    requires '\n' !in s
    ensures Lines(s) == [] && Messages(s, "") == []
  {
  }

  // --- streams of messages that are all terminated ---

  datatype Terminated = Terminated(text: string, crlf: bool)
  {
    predicate Valid() { text != "" && Content(text) }

    function Bytes(): string { text + if crlf then "\r\n" else "\n" }
  }

  function Stream(ms: seq<Terminated>): string {
    if ms == [] then "" else ms[0].Bytes() + Stream(ms[1..])
  }

  function Texts(ms: seq<Terminated>): seq<string> {
    if ms == [] then [] else [ms[0].text] + Texts(ms[1..])
  }

  // What a buffer makes of the start of such a stream: the first messages exactly, and the
  // stream goes on with what is left.
  lemma {:induction false} PrefixLines(ms: seq<Terminated>, b: string, y: string) returns (k: nat)
    requires (forall m :: m in ms ==> m.Valid()) && b + y == Stream(ms)
    ensures k <= |ms| && Lines(b) == Texts(ms[..k]) && Left(b) + y == Stream(ms[k..])
    decreases |ms|
  {
    if '\n' !in b {
      k := 0;
      assert ms[..0] == [] && ms[0..] == ms;
    } else {
      assert ms != [] by { assert Stream([]) == ""; }
      var t, n := ms[0].text, |ms[0].Bytes()|;
      FirstMessage(ms, b, y);
      var j := PrefixLines(ms[1..], b[n..], y);
      k := j + 1;
      assert ms[..k] == [ms[0]] + ms[1..][..j] && ms[k..] == ms[1..][j..];
      assert Texts(ms[..k]) == [t] + Texts(ms[1..][..j]) by { assert ms[..k][1..] == ms[1..][..j]; }
    }
  }

  lemma FirstMessage(ms: seq<Terminated>, b: string, y: string)
    requires ms != [] && (forall m :: m in ms ==> m.Valid()) && b + y == Stream(ms) && '\n' in b
    ensures var n := |ms[0].Bytes()|;
      n <= |b| && b[n..] + y == Stream(ms[1..]) && LineEnd(b) == |ms[0].text|
      && b[..LineEnd(b)] == ms[0].text && Trim(b[LineEnd(b)..]) == b[n..]
      && Lines(b) == [ms[0].text] + Lines(b[n..]) && Left(b) == Left(b[n..])
  {
    hide LineEnd, Trim, Lines, Left, Stream;
    var m, more := ms[0], Stream(ms[1..]);
    assert m in ms && b + y == m.Bytes() + more by { StreamStep(ms); }
    var n, e := |m.Bytes()|, |m.text|;
    LfAfter(m, more, b, y);
    assert forall i :: 0 <= i < |b| ==> b[i] == (m.Bytes() + more)[i];
    assert b[n..] + y == (b + y)[n..] == more;
    assert b[..e] == m.text;
    EndOf(b, e);
    StreamStarts(ms[1..]);
    TrimTo(b, e, n);
    TakeOne(b);
  }

  lemma StreamStep(ms: seq<Terminated>)
    requires ms != []
    ensures Stream(ms) == ms[0].Bytes() + Stream(ms[1..])
  {
  }

  // A start of the stream that holds an LF holds the first message with its terminator.
  lemma LfAfter(m: Terminated, more: string, b: string, y: string)
    requires m.Valid() && b + y == m.Bytes() + more && '\n' in b
    ensures |m.Bytes()| <= |b|
  {
    var i :| 0 <= i < |b| && b[i] == '\n';
    assert (b + y)[i] == b[i] && (m.Bytes() + more)[i] == b[i];
    assert forall j :: 0 <= j < |m.Bytes()| - 1 ==> (m.Bytes() + more)[j] == m.Bytes()[j] != '\n';
  }

  lemma {:induction false} TrimTo(b: string, e: nat, n: nat)
    requires e <= n <= |b| && (forall i :: e <= i < n ==> IsEol(b[i])) && (n < |b| ==> !IsEol(b[n]))
    ensures Trim(b[e..]) == b[n..]
    decreases n - e
  {
    if e < n {
      TrimOne(b, e);
      TrimTo(b, e + 1, n);
    } else if n < |b| {
      Step(b, n);
    }
  }

  lemma TakeOne(b: string)
    requires '\n' in b
    ensures Lines(b) == [b[..LineEnd(b)]] + Lines(Trim(b[LineEnd(b)..])) && Left(b) == Left(Trim(b[LineEnd(b)..]))
  {
  }

  lemma StreamStarts(ms: seq<Terminated>)
    requires forall m :: m in ms ==> m.Valid()
    ensures Stream(ms) != "" ==> !IsEol(Stream(ms)[0])
  {
    if ms != [] {
      assert ms[0] in ms && !IsEol(ms[0].text[0]);
    }
  }

  // Such a stream is delivered message by message, whatever the pieces.
  method ReceiveStream(ms: seq<Terminated>, chunks: seq<string>) returns (c: Connection)
    requires (forall m :: m in ms ==> m.Valid()) && Flatten(chunks) == Stream(ms)
    requires forall i :: 0 <= i < |chunks| ==> NUL !in chunks[i]
    ensures fresh(c) && c.delivered == Texts(ms) && c.Pending() == ""
  {
    c := new Connection();
    hide Lines, Left, Stream, Texts;
    var i := 0;
    ghost var k: nat := 0;
    SplitAt(chunks, 0);
    StreamBegins(ms);
    while i < |chunks|
      invariant i <= |chunks| && k <= |ms| && fresh(c)
      invariant c.delivered == Texts(ms[..k]) && '\n' !in c.Pending()
      invariant c.Pending() + Coming(chunks, i) == Stream(ms[k..])
    {
      SplitAt(chunks, i);
      assert c.Pending() + (chunks[i] + Coming(chunks, i + 1)) == c.Pending() + chunks[i] + Coming(chunks, i + 1);
      ghost var j := PrefixLines(ms[k..], c.Pending() + chunks[i], Coming(chunks, i + 1));
      TextsAdd(ms, k, j);
      var status := c.IrcIn(Data(chunks[i]));
      i, k := i + 1, k + j;
    }
    SplitAt(chunks, i);
    NothingOpen(ms, k, c.Pending());
  }

  // The bytes of the chunks from `i` on.
  function Coming(chunks: seq<string>, i: nat): string
    requires i <= |chunks|
    decreases |chunks| - i
  {
    if i == |chunks| then "" else chunks[i] + Coming(chunks, i + 1)
  }

  lemma {:induction false} SplitAt(chunks: seq<string>, i: nat)
    requires i <= |chunks|
    ensures Flatten(chunks[..i]) + Coming(chunks, i) == Flatten(chunks)
    ensures Flatten([]) == "" && Coming(chunks, |chunks|) == "" && (i == 0 ==> Coming(chunks, 0) == Flatten(chunks))
    ensures i < |chunks| ==> Coming(chunks, i) == chunks[i] + Coming(chunks, i + 1)
    decreases |chunks| - i
  {
    if i == |chunks| {
      assert chunks[..i] == chunks;
    } else {
      SplitAt(chunks, i + 1);
      assert chunks[..i + 1][..i] == chunks[..i];
      assert Flatten(chunks[..i]) + (chunks[i] + Coming(chunks, i + 1))
          == Flatten(chunks[..i]) + chunks[i] + Coming(chunks, i + 1);
    }
    if i == 0 {
      assert chunks[..0] == [];
    }
  }

  lemma StreamBegins(ms: seq<Terminated>)
    ensures Texts(ms[..0]) == [] && Stream(ms[0..]) == Stream(ms)
  {
    assert ms[0..] == ms;
  }

  lemma {:induction false} TextsConcat(a: seq<Terminated>, b: seq<Terminated>)
    ensures Texts(a + b) == Texts(a) + Texts(b)
  {
    if a == [] {
      assert a + b == b;
    } else {
      assert (a + b)[1..] == a[1..] + b;
      TextsConcat(a[1..], b);
    }
  }

  lemma TextsAdd(ms: seq<Terminated>, k: nat, j: nat)
    requires k + j <= |ms|
    ensures Texts(ms[..k + j]) == Texts(ms[..k]) + Texts(ms[k..][..j]) && ms[k..][j..] == ms[k + j..]
  {
    assert ms[..k + j] == ms[..k] + ms[k..][..j];
    TextsConcat(ms[..k], ms[k..][..j]);
  }

  // With no LF left, the stream is used up.
  lemma NothingOpen(ms: seq<Terminated>, k: nat, rest: string)
    requires k <= |ms| && '\n' !in rest && rest + "" == Stream(ms[k..])
    ensures k == |ms| && rest == "" && ms[..k] == ms
  {
    assert rest + "" == rest;
    if k < |ms| {
      StreamHasLf(ms[k..]);
    } else {
      assert ms[k..] == [] && ms[..k] == ms;
    }
  }

  lemma StreamHasLf(ms: seq<Terminated>)
    requires ms != []
    ensures '\n' in Stream(ms)
  {
    var n := |ms[0].Bytes()| - 1;
    assert Stream(ms)[n] == '\n';
  }

  // --- exactly when the pieces do not matter ---

  // No line end follows an LF, unless that was the last LF.
  predicate Steady(s: string) {
    forall i :: 0 <= i < |s| - 1 && s[i] == '\n' && IsEol(s[i + 1]) ==> '\n' !in s[i + 1..]
  }

  lemma SteadyEnd(s: string, k: nat)
    requires Steady(s) && k <= |s|
    ensures Steady(s[k..])
  {
    forall i | 0 <= i < |s[k..]| - 1 && s[k..][i] == '\n' && IsEol(s[k..][i + 1])
      ensures '\n' !in s[k..][i + 1..]
    {
      assert s[k + i] == '\n' && IsEol(s[k + i + 1]);
      assert s[k..][i + 1..] == s[k + i + 1..];
    }
  }

  lemma {:induction false} TrimFrom(s: string) returns (k: nat)
    ensures k <= |s| && Trim(s) == s[k..] && (k < |s| ==> !IsEol(s[k]))
    ensures forall i :: 0 <= i < k ==> IsEol(s[i])
  {
    if s != "" && IsEol(s[0]) {
      var j := TrimFrom(s[1..]);
      k := j + 1;
    } else {
      k := 0;
    }
  }

  // A steady stream gives the same lines when its first part is read on its own.
  lemma {:induction false} SplitSteady(a: string, b: string)
    requires Steady(a + b)
    ensures Lines(a + b) == Lines(a) + Lines(Left(a) + b) && Steady(Left(a) + b)
    decreases |a|
  {
    hide Lines, Left, LineEnd, Trim, Steady;
    if '\n' !in a {
      NoLine(a);
      assert [] + Lines(a + b) == Lines(a + b);
    } else {
      var e, k := SameLine(a, b);
      var rest := a[e + k..];
      SteadyEnd(a + b, e + k);
      assert (a + b)[e + k..] == rest + b;
      if rest == "" && b != "" && IsEol(b[0]) {
        LastLf(a, b, e);
        EndsThere(a, b, e);
        assert rest + b == b && Left(a) + b == b;
      } else {
        SameRest(a, b, e, k);
        SplitSteady(rest, b);
        GoesOn(a, b, e, rest);
      }
    }
  }

  lemma EndsThere(a: string, b: string, e: nat)
    requires '\n' in a && e == LineEnd(a) == LineEnd(a + b) && (a + b)[..e] == a[..e] && Trim(a[e..]) == ""
    requires '\n' !in b && '\n' !in Trim((a + b)[e..])
    ensures Left(a) == "" && Lines(a + b) == Lines(a) + Lines(Left(a) + b)
  {
    hide Lines, Left, LineEnd, Trim;
    TakeOne(a);
    TakeOne(a + b);
    NoLines();
    NoLine(b);
    NoLine(Trim((a + b)[e..]));
    assert "" + b == b && [a[..e]] + [] == [a[..e]];
  }

  lemma GoesOn(a: string, b: string, e: nat, rest: string)
    requires '\n' in a && e == LineEnd(a) == LineEnd(a + b) && (a + b)[..e] == a[..e]
    requires Trim(a[e..]) == rest && Trim((a + b)[e..]) == rest + b
    requires Lines(rest + b) == Lines(rest) + Lines(Left(rest) + b)
    ensures Left(a) == Left(rest) && Lines(a + b) == Lines(a) + Lines(Left(a) + b)
  {
    hide Lines, Left, LineEnd, Trim;
    TakeOne(a);
    TakeOne(a + b);
    assert [a[..e]] + (Lines(rest) + Lines(Left(rest) + b)) == [a[..e]] + Lines(rest) + Lines(Left(rest) + b);
  }

  // The first line ends at the same place, with or without what follows.
  lemma SameLine(a: string, b: string) returns (e: nat, k: nat)
    requires '\n' in a
    ensures '\n' in a + b && e == LineEnd(a) == LineEnd(a + b) < |a| && (a + b)[..e] == a[..e]
    ensures 0 < k <= |a| - e && Trim(a[e..]) == a[e + k..] && forall i :: e <= i < e + k ==> IsEol(a[i])
  {
    hide Trim, LineEnd;
    LfInside(a);
    e := LineEnd(a);
    var s := a + b;
    assert s[e] == a[e] && s[..e] == a[..e] && forall i :: 0 <= i < |a| ==> s[i] == a[i];
    EndOf(s, e);
    k := TrimFrom(a[e..]);
    assert a[e..][0] == a[e] && a[e..][k..] == a[e + k..];
    forall i | e <= i < e + k ensures IsEol(a[i]) {
      assert a[i] == a[e..][i - e];
    }
  }

  lemma SameRest(a: string, b: string, e: nat, k: nat)
    requires e + k <= |a| && Trim(a[e..]) == a[e + k..] && forall i :: e <= i < e + k ==> IsEol(a[i])
    requires a[e + k..] == "" && b != "" ==> !IsEol(b[0])
    ensures Trim((a + b)[e..]) == a[e + k..] + b
  {
    hide Trim;
    var s := a + b;
    assert s[e + k..] == a[e + k..] + b;
    assert forall i :: 0 <= i < |a| ==> s[i] == a[i];
    if e + k < |a| {
      assert a[e + k..][0] == a[e + k] == s[e + k];
    } else if b != "" {
      assert s[|a|] == b[0];
    }
    TrimTo(s, e, e + k);
  }

  // When the first part ends in line ends and the second starts with one, no LF follows.
  lemma LastLf(a: string, b: string, e: nat)
    requires Steady(a + b) && '\n' in a && e == LineEnd(a) && Trim(a[e..]) == "" && b != "" && IsEol(b[0])
    ensures '\n' !in b && '\n' !in Trim((a + b)[e..])
  {
    hide LineEnd, Trim;
    var s := a + b;
    var l, k := SameLine(a, b);
    assert k == |a| - e;
    var i :| 0 <= i < |a| && a[i] == '\n';
    LineEndFirst(a, i);
    assert s[i + 1] == if i + 1 < |a| then a[i + 1] else b[0];
    assert s[i] == '\n' && '\n' !in s[i + 1..];
    forall j | 0 <= j < |b| ensures b[j] != '\n' {
      assert s[i + 1..][|a| - i - 1 + j] == b[j];
    }
    var n := TrimFrom(s[e..]);
    assert forall j :: 0 <= j < k ==> s[e..][j] == a[e + j];
    assert s[e..][k] == b[0];
    forall j | n <= j < |s[e..]| ensures s[e..][j] != '\n' {
      assert s[e..][j] == s[i + 1..][e + j - i - 1];
    }
  }

  lemma LineEndFirst(b: string, i: nat)
    requires i < |b| && IsEol(b[i])
    ensures LineEnd(b) <= i
  {
  }

  // With no LF pending, reading piece by piece gives the lines of a steady stream.
  lemma {:induction false} SteadyLines(chunks: seq<string>, x: string)
    requires Steady(Flatten(chunks) + x)
    ensures var p := After(chunks);
      Lines(Flatten(chunks) + x) == p.lines + Lines(p.rest + x) && Steady(p.rest + x) && '\n' !in p.rest
    decreases |chunks|
  {
    hide Lines, Left, Steady;
    if chunks == [] {
      assert "" + x == x && [] + Lines(x) == Lines(x);
    } else {
      var first, c := chunks[..|chunks| - 1], chunks[|chunks| - 1];
      var p := After(first);
      assert Flatten(chunks) + x == Flatten(first) + (c + x);
      SteadyLines(first, c + x);
      assert p.rest + (c + x) == (p.rest + c) + x;
      SplitSteady(p.rest + c, x);
      assert p.lines + (Lines(p.rest + c) + Lines(Left(p.rest + c) + x))
          == p.lines + Lines(p.rest + c) + Lines(Left(p.rest + c) + x);
    }
  }

  // All lines but the first have content.
  lemma {:induction false} LaterLines(b: string, k: nat)
    requires k < |Lines(b)| && (k > 0 || (b != "" && !IsEol(b[0])))
    ensures Lines(b)[k] != ""
    decreases |b|
  {
    if '\n' in b {
      LfInside(b);
      var rest := Trim(b[LineEnd(b)..]);
      if k > 0 {
        assert Lines(b)[k] == Lines(rest)[k - 1];
        NoLines();
        LaterLines(rest, k - 1);
      }
    }
  }

  // A cut behind an LF makes the line end that follows an empty line.
  lemma CutLines(a: string, b: string)
    requires a != "" && a[|a| - 1] == '\n' && b != "" && IsEol(b[0]) && '\n' in b
    ensures After([a, b]).lines != Lines(a + b)
  {
    hide Lines, Left, LineEnd, Trim;
    assert [a, b][..1] == [a] && [a][..0] == [] && "" + a == a && After([]) == Progress([], "");
    assert [] + Lines(a) == Lines(a);
    NothingLeft(a);
    assert After([a]) == Progress(Lines(a), "") && "" + b == b;
    TakeOne(a);
    TakeOne(b);
    LineEndFirst(b, 0);
    var k := |Lines(a)|;
    assert (Lines(a) + Lines(b))[k] == Lines(b)[0] == "";
    if |Lines(a + b)| > k {
      LaterLines(a + b, k);
    }
  }

  lemma {:induction false} NothingLeft(a: string)
    requires a != "" ==> a[|a| - 1] == '\n'
    ensures Left(a) == ""
    decreases |a|
  {
    hide LineEnd, Trim;
    if a != "" {
      LfInside(a);
      var e, k := SameLine(a, "");
      assert a[e + k..] != "" ==> a[e + k..][|a[e + k..]| - 1] == '\n';
      NothingLeft(a[e + k..]);
    }
  }

  lemma AllPieces(s: string, chunks: seq<string>)
    requires Steady(s) && Flatten(chunks) == s
    ensures After(chunks).lines == Lines(s)
  {
    hide Lines, After, Flatten, Steady;
    assert s + "" == s;
    SteadyLines(chunks, "");
    var p := After(chunks);
    assert p.rest + "" == p.rest;
    NoLine(p.rest);
    assert p.lines + [] == p.lines;
  }

  lemma SomePieces(s: string) returns (chunks: seq<string>)
    requires !Steady(s)
    ensures Flatten(chunks) == s && After(chunks).lines != Lines(s)
  {
    hide Lines, After;
    var i :| 0 <= i < |s| - 1 && s[i] == '\n' && IsEol(s[i + 1]) && '\n' in s[i + 1..];
    var a, b := s[..i + 1], s[i + 1..];
    assert s == a + b;
    CutLines(a, b);
    chunks := [a, b];
    assert chunks[..1] == [a] && [a][..0] == [] && "" + a == a;
    assert Flatten([a]) == a;
  }

  // Every way to cut a stream gives the same lines, those of the stream in one piece,
  // exactly when the stream is steady.
  lemma PiecesIff(s: string)
    ensures Steady(s) <==> forall chunks :: Flatten(chunks) == s ==> After(chunks).lines == Lines(s)
  {
    hide Lines, After, Flatten, Steady;
    if Steady(s) {
      forall chunks | Flatten(chunks) == s ensures After(chunks).lines == Lines(s) {
        AllPieces(s, chunks);
      }
    } else {
      var chunks := SomePieces(s);
    }
  }

  // So whether an empty line between two messages is delivered depends on the pieces.
  lemma EmptyLinesDiffer(x: string, ends: string, y: string)
    requires ends != "" && IsEol(ends[0]) && '\n' in ends
    ensures var s := x + "\n" + ends + y;
      exists chunks :: Flatten(chunks) == s && After(chunks).lines != Lines(s)
  {
    hide Lines, After, Flatten;
    var s := x + "\n" + ends + y;
    assert s[|x|] == '\n' && s[|x| + 1] == ends[0];
    var i :| 0 <= i < |ends| && ends[i] == '\n';
    assert s[|x| + 1..][i] == '\n';
    var chunks := SomePieces(s);
  }
}
