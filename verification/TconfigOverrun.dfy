/**
 Exactly which texts lead the reader of src/tconfig.c past the terminating NUL.
 */
module TconfigOverrun {
  import opened TconfigText

  // --- a C comment that is never closed ---

  // "*/" stands at `k` and nowhere before it.
  predicate FirstClose(text: string, i: nat, k: nat) {
    i <= k && ClosesAt(text, k) && forall j :: i <= j < k ==> !ClosesAt(text, j)
  }

  predicate ClosesAt(text: string, j: nat) { Char(text, j) == '*' && Char(text, j + 1) == '/' }

  predicate Unclosed(text: string, i: nat) { forall j :: i <= j < |text| ==> !ClosesAt(text, j) }

  predicate EndsInCrLf(text: string, i: nat) {
    i + 2 <= |text| && text[|text| - 2] == '\r' && text[|text| - 1] == '\n'
  }

  // The scan ends on the slash of the first closing.  It stops on the terminating NUL exactly
  // when it starts there, or when nothing closes the comment and the text ends in CR LF;
  // every other comment that is not closed is an error.
  lemma {:induction false} BlockCommentIff(text: string, i: nat)
    requires NUL !in text && i <= |text|
    ensures var r := BlockComment(text, i);
      (r.At? && Char(text, r.pos) == NUL) <==> Unclosed(text, i) && (i == |text| || EndsInCrLf(text, i))
    ensures var r := BlockComment(text, i);
      r.At? && Char(text, r.pos) != NUL ==> i < r.pos < |text| && FirstClose(text, i, r.pos - 1)
    ensures forall k: nat :: FirstClose(text, i, k) ==> BlockComment(text, i) == At(k + 1)
    ensures Unclosed(text, i) ==>
      BlockComment(text, i) == if i == |text| || EndsInCrLf(text, i) then At(|text|) else Failed(OpenComment)
    decreases |text| - i
  {
    if i == |text| {
    } else if i + 1 == |text| {
      assert !ClosesAt(text, i);
    } else if ClosesAt(text, i) {
      assert !Unclosed(text, i);
    } else if text[i] == '\r' && text[i + 1] == '\n' {
      assert !ClosesAt(text, i + 1);
      BlockCommentIff(text, i + 2);
      UnclosedFrom(text, i, i + 2);
    } else {
      BlockCommentIff(text, i + 1);
      UnclosedFrom(text, i, i + 1);
    }
  }

  lemma UnclosedFrom(text: string, i: nat, k: nat)
    requires i <= k && forall j :: i <= j < k ==> !ClosesAt(text, j)
    ensures Unclosed(text, i) <==> Unclosed(text, k)
    ensures forall c: nat :: FirstClose(text, i, c) <==> FirstClose(text, k, c)
  {
    forall c: nat | FirstClose(text, i, c) ensures c >= k {
    }
  }

  // --- a line comment ---

  predicate IsLineEnd(c: char) { c == '\r' || c == '\n' }

  // The first CR or LF at or behind `i`.
  predicate FirstLineEnd(text: string, i: nat, k: nat) {
    i <= k < |text| && IsLineEnd(text[k]) && forall j :: i <= j < k ==> !IsLineEnd(text[j])
  }

  function EndAt(text: string, k: nat): Comment {
    if Char(text, k) == '\n' || Char(text, k + 1) == '\n' then At(k)
    else if k + 1 < |text| then At(k + 1) else Finished
  }

  // The scan stops on the LF, on the CR of a CR LF, and on the character behind a bare CR;
  // the text is over when nothing ends the line or a CR ends the text.
  lemma {:induction false} LineCommentIff(text: string, i: nat)
    requires NUL !in text
    ensures forall k: nat :: FirstLineEnd(text, i, k) ==> LineComment(text, i) == EndAt(text, k)
    ensures LineComment(text, i) == Finished <==>
      (forall k :: i <= k < |text| - 1 ==> !IsLineEnd(text[k])) && (i < |text| ==> text[|text| - 1] != '\n')
    decreases |text| - i
  {
    if i < |text| {
      assert text[i] != NUL;
      if !IsLineEnd(text[i]) {
        LineCommentIff(text, i + 1);
        forall k: nat | FirstLineEnd(text, i, k) ensures FirstLineEnd(text, i + 1, k) {
        }
      }
    }
  }

  lemma ParseEnds(text: string, c: Cursor)
    requires c.Valid() && NUL !in text
    ensures Parse(text, |text|, c) == Done(Root(c))
  {
  }

  // What stands in a comment is not read: the reader goes on behind its end, or with the
  // second character behind it after a bare CR.
  lemma LineCommentSkipped(text: string, i: nat, k: nat, c: Cursor)
    requires c.Valid() && NUL !in text && i + 2 <= |text| && text[i] == '/' && text[i + 1] == '/'
    requires FirstLineEnd(text, i + 2, k)
    ensures k + 1 < |text| ==> Parse(text, i, c) == Parse(text, if text[k] == '\n' then k + 1 else k + 2, c)
    ensures k + 1 == |text| ==> Parse(text, i, c) == Done(Root(c))
  {
    hide LineComment, BlockComment, ReadToken, Parse;
    LineCommentIff(text, i + 2);
    ParseTurns(text, i, c);
    ParseEnds(text, c);
    if text[k] == '\r' && Char(text, k + 1) == '\n' {
      ParseTurns(text, k + 1, c);
    }
  }

  lemma BlockCommentSkipped(text: string, i: nat, k: nat, c: Cursor)
    requires c.Valid() && NUL !in text && i + 2 <= |text| && text[i] == '/' && text[i + 1] == '*'
    requires FirstClose(text, i + 2, k)
    ensures Parse(text, i, c) == Parse(text, k + 2, c)
  {
    hide LineComment, BlockComment, ReadToken;
    BlockCommentIff(text, i + 2);
  }

  // --- what is read does not depend on the text behind it ---

  lemma CharBefore(a: string, x: string, i: nat)
    ensures i < |a| ==> Char(a + x, i) == Char(a, i)
  {
  }

  lemma {:induction false} ScanBefore(a: string, x: string, i: nat, stop: set<char>)
    requires NUL in stop && (Scan(a, i, stop) < |a| || Scan(a + x, i, stop) < |a|)
    ensures Scan(a + x, i, stop) == Scan(a, i, stop)
    decreases |a| - i
  {
    if i < |a| && a[i] !in stop {
      ScanBefore(a, x, i + 1, stop);
    }
  }

  lemma {:induction false} BlanksBefore(a: string, x: string, i: nat)
    requires SkipBlanks(a, i) < |a| || SkipBlanks(a + x, i) < |a|
    ensures SkipBlanks(a + x, i) == SkipBlanks(a, i)
    decreases |a| - i
  {
    if i < |a| && (a[i] == ' ' || a[i] == '\t') {
      BlanksBefore(a, x, i + 1);
    }
  }

  lemma WordBefore(a: string, x: string, i: nat, stop: set<char>)
    requires i < |a| && NUL in stop
    requires ReadWord(a, i, stop).Word? || (ReadWord(a + x, i, stop).Word? && ReadWord(a + x, i, stop).end < |a|)
    ensures ReadWord(a + x, i, stop) == ReadWord(a, i, stop)
  {
    hide Scan;
    var quoted := a[i] == '"';
    var start, stops := if quoted then i + 1 else i, if quoted then QUOTE_STOP else stop;
    assert (a + x)[i] == a[i];
    ScanBefore(a, x, start, stops);
    var end := Scan(a, start, stops);
    assert (a + x)[start..end] == a[start..end];
  }

  lemma TokenBefore(a: string, x: string, i: nat)
    requires i < |a|
    requires ReadToken(a, i).Token? || (ReadToken(a + x, i).Token? && ReadToken(a + x, i).end < |a|)
    ensures ReadToken(a + x, i) == ReadToken(a, i)
  {
    hide ReadWord, SkipBlanks;
    WordBefore(a, x, i, KEY_STOP);
    var end := ReadWord(a, i, KEY_STOP).end;
    var next := if a[end] == '"' then end + 1 else end;
    BlanksBefore(a, x, next);
    var from := SkipBlanks(a, next);
    WordBefore(a, x, from, VALUE_STOP);
  }

  // --- one turn of the main loop ---

  datatype Turned = Go(at: nat, c: Cursor) | Stop(o: Outcome)

  function Comment(text: string, i: nat): Comment {
    if Char(text, i + 1) == '*' then BlockComment(text, i + 2) else LineComment(text, i + 2)
  }

  function Turn(text: string, i: nat, c: Cursor): (t: Turned)
    requires c.Valid() && NUL !in text && i < |text|
    ensures t.Go? ==> i < t.at && t.c.Valid()
  {
    var ch := text[i];
    if ch == '{' then Go(i + 1, Open(c))
    else if ch == '}' then if c.up.Top? then Stop(Exit(MismatchedBrace)) else Go(i + 1, Close(c))
    else if ch == '/' then
      if Char(text, i + 1) != '*' && Char(text, i + 1) != '/' then Stop(Exit(StraySlash))
      else
        match Comment(text, i)
        case Failed(e) => Stop(Exit(e))
        case Finished => Stop(Done(Root(c)))
        case At(pos) => if Char(text, pos) == NUL then Stop(Overrun) else Go(pos + 1, c)
    else if ch == '\r' then Go(if Char(text, i + 1) == '\n' then i + 2 else i + 1, c)
    else if ch == '\n' || ch == '\t' || ch == ' ' then Go(i + 1, c)
    else
      match ReadToken(text, i)
      case Bad(e) => Stop(Exit(e))
      case Token(k, v, end) => Go(end + 1, Enter(c, k, v))
  }

  lemma ParseTurns(text: string, i: nat, c: Cursor)
    requires c.Valid() && NUL !in text && i < |text|
    ensures var t := Turn(text, i, c); Parse(text, i, c) == if t.Go? then Parse(text, t.at, t.c) else t.o
  {
    hide BlockComment, LineComment, ReadToken;
  }

  // A comment that ends before a slash ends without what follows it too.
  lemma {:induction false} BlockBefore(a: string, x: string, i: nat)
    requires NUL !in a + x
    requires Ends(BlockComment(a, i), a, |a|) || Ends(BlockComment(a + x, i), a + x, |a|)
    ensures BlockComment(a + x, i) == BlockComment(a, i)
    decreases |a| - i
  {
    if i < |a| {
      CharBefore(a, x, i);
      CharBefore(a, x, i + 1);
      if a[i] == '*' && Char(a + x, i + 1) == '/' {
      } else if a[i] == '\r' && Char(a + x, i + 1) == '\n' {
        BlockBefore(a, x, i + 2);
      } else {
        BlockBefore(a, x, i + 1);
      }
    }
  }

  predicate Ends(r: Comment, text: string, n: nat) { r.At? && r.pos < n && Char(text, r.pos) != NUL }

  lemma {:induction false} LineBefore(a: string, x: string, i: nat)
    requires NUL !in a + x && x != "" && x[0] == '/'
    requires Ends(LineComment(a, i), a, |a|) || Ends(LineComment(a + x, i), a + x, |a|)
    ensures LineComment(a + x, i) == LineComment(a, i)
    decreases |a| - i
  {
    if i < |a| {
      CharBefore(a, x, i);
      CharBefore(a, x, i + 1);
      if a[i] != '\r' && a[i] != '\n' {
        LineBefore(a, x, i + 1);
      }
    }
  }

  lemma TurnBefore(a: string, x: string, i: nat, c: Cursor)
    requires c.Valid() && NUL !in a + x && i < |a| && x != "" && x[0] == '/'
    requires Turn(a, i, c).Go? || (Turn(a + x, i, c).Go? && Turn(a + x, i, c).at <= |a|)
    ensures Turn(a + x, i, c) == Turn(a, i, c) && Turn(a, i, c).at <= |a|
  {
    hide ReadToken, BlockComment, LineComment, Open, Close, Enter;
    CharBefore(a, x, i);
    CharBefore(a, x, i + 1);
    if a[i] == '/' {
      if Char(a, i + 1) == '*' {
        BlockBefore(a, x, i + 2);
      } else {
        LineBefore(a, x, i + 2);
      }
    } else if a[i] !in {'{', '}', '\r', '\n', '\t', ' '} {
      TokenBefore(a, x, i);
    }
  }

  // --- the condition ---

  // At `p` a comment opens that is not closed, behind which there is nothing or the text
  // ends in CR LF.
  predicate Hanging(text: string, p: nat) {
    && p + 2 <= |text| && text[p] == '/' && text[p + 1] == '*'
    && Unclosed(text, p + 2) && (p + 2 == |text| || EndsInCrLf(text, p + 2))
  }

  // The reader accepts the text, and a slash behind it would be a stray one: it does not
  // end inside a line comment.
  predicate Accepted(head: string, i: nat, c: Cursor)
    requires c.Valid() && NUL !in head
  {
    Parse(head, i, c).Done? && Parse(head + "/", i, c) == Exit(StraySlash)
  }

  lemma HangingOverruns(text: string, p: nat, c: Cursor)
    requires c.Valid() && NUL !in text && Hanging(text, p)
    ensures Parse(text, p, c) == Overrun
  {
    hide BlockComment;
    BlockCommentIff(text, p + 2);
  }

  lemma AcceptedHere(head: string, c: Cursor)
    requires c.Valid() && NUL !in head
    ensures Accepted(head, |head|, c)
  {
    ParseTurns(head + "/", |head|, c);
  }

  // Nothing is accepted that ends the reading in a line comment.
  lemma {:induction false} SlashInComment(a: string, i: nat)
    requires NUL !in a && LineComment(a, i).Finished?
    ensures var r := LineComment(a + "/", i); r.Finished? || (r.At? && r.pos == |a|)
    decreases |a| - i
  {
    CharBefore(a, "/", i);
    CharBefore(a, "/", i + 1);
    if i < |a| && a[i] != '\r' && a[i] != '\n' {
      SlashInComment(a, i + 1);
    }
  }

  lemma AcceptedGoes(head: string, i: nat, c: Cursor)
    requires c.Valid() && NUL !in head && i < |head| && Accepted(head, i, c)
    ensures Turn(head, i, c).Go?
  {
    hide BlockComment, LineComment, ReadToken;
    ParseTurns(head, i, c);
    ParseTurns(head + "/", i, c);
    CharBefore(head, "/", i);
    CharBefore(head, "/", i + 1);
    if Turn(head, i, c).Stop? {
      SlashInComment(head, i + 2);
      assert false;
    }
  }

  lemma {:induction false} AcceptedReaches(head: string, tail: string, i: nat, c: Cursor)
    requires c.Valid() && NUL !in head + tail && i <= |head| && Accepted(head, i, c)
    requires Hanging(head + tail, |head|)
    ensures Parse(head + tail, i, c) == Overrun
    decreases |head| - i
  {
    hide Turn, Parse;
    if i == |head| {
      HangingOverruns(head + tail, i, c);
    } else {
      AcceptedGoes(head, i, c);
      assert tail[0] == (head + tail)[|head|];
      TurnBefore(head, tail, i, c);
      TurnBefore(head, "/", i, c);
      ParseTurns(head, i, c);
      ParseTurns(head + "/", i, c);
      ParseTurns(head + tail, i, c);
      var t := Turn(head, i, c);
      AcceptedReaches(head, tail, t.at, t.c);
    }
  }

  lemma {:induction false} OverrunHangs(text: string, i: nat, c: Cursor) returns (p: nat)
    requires c.Valid() && NUL !in text && i <= |text| && Parse(text, i, c) == Overrun
    ensures i <= p && Hanging(text, p) && Accepted(text[..p], i, c)
    decreases |text| - i
  {
    hide Parse, BlockComment, LineComment, ReadToken;
    assert i < |text| by { AtEnd(text, i, c); }
    ParseTurns(text, i, c);
    var t := Turn(text, i, c);
    if t.Stop? {
      p := i;
      BlockCommentIff(text, i + 2);
      AcceptedHere(text[..i], c);
    } else {
      assert t.at <= |text| by { GoInside(text, i, c); }
      p := OverrunHangs(text, t.at, t.c);
      var head, tail := text[..p], text[p..];
      assert text == head + tail && tail[0] == text[p];
      TurnBefore(head, tail, i, c);
      TurnBefore(head, "/", i, c);
      ParseTurns(head, i, c);
      ParseTurns(head + "/", i, c);
    }
  }

  lemma AtEnd(text: string, i: nat, c: Cursor)
    requires c.Valid() && NUL !in text && Parse(text, i, c) == Overrun
    ensures i < |text|
  {
  }

  lemma GoInside(text: string, i: nat, c: Cursor)
    requires c.Valid() && NUL !in text && i < |text| && Turn(text, i, c).Go?
    ensures Turn(text, i, c).at <= |text|
  {
    hide BlockComment, LineComment, ReadToken;
  }

  // The reader steps past the NUL exactly for a text that it accepts up to an opening "/*"
  // that is never closed, if the text ends there or in CR LF.
  lemma OverrunIff(text: string)
    requires NUL !in text
    ensures Parse(text, 0, START) == Overrun <==>
      exists p :: 0 <= p < |text| && Hanging(text, p) && Accepted(text[..p], 0, START)
  {
    hide Parse, Hanging;
    if Parse(text, 0, START) == Overrun {
      var p := OverrunHangs(text, 0, START);
      assert p < |text| by { HangingInside(text, p); }
    }
    forall p | 0 <= p < |text| && Hanging(text, p) && Accepted(text[..p], 0, START)
      ensures Parse(text, 0, START) == Overrun
    {
      assert text == text[..p] + text[p..];
      AcceptedReaches(text[..p], text[p..], 0, START);
    }
  }

  lemma HangingInside(text: string, p: nat)
    requires Hanging(text, p)
    ensures p < |text|
  {
  }

  // So every accepted text does with an opening behind it, the empty one included.
  lemma OpeningOverruns(head: string, tail: string)
    requires NUL !in head && (tail == "" || tail == "\r\n")
    ensures NUL !in head + "/*" + tail
    ensures Accepted(head, 0, START) ==> Parse(head + "/*" + tail, 0, START) == Overrun
    ensures Accepted("", 0, START)
  {
    hide Parse;
    AcceptedHere("", START);
    var text := head + "/*" + tail;
    assert text == head + ("/*" + tail);
    assert Hanging(text, |head|);
    if Accepted(head, 0, START) {
      AcceptedReaches(head, "/*" + tail, 0, START);
    }
  }
}
