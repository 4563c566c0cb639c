/**
 What the reader of src/tconfig.c takes for blanks and for a token, at any place in any text.
 */
module TconfigGrammar {
  import opened TconfigText
  import opened TconfigOverrun

  predicate IsBlank(c: char) { c == ' ' || c == '\t' || c == '\r' || c == '\n' }

  // Between tokens, blanks and line ends of any kind are skipped.
  lemma {:induction false} BlanksSkipped(text: string, i: nat, j: nat, c: Cursor)
    requires c.Valid() && NUL !in text && i <= j <= |text|
    requires forall k :: i <= k < j ==> IsBlank(text[k])
    ensures Parse(text, i, c) == Parse(text, j, c)
    decreases j - i
  {
    hide Parse;
    if i < j {
      ParseTurns(text, i, c);
      if text[i] == '\r' && Char(text, i + 1) == '\n' {
        if i + 2 <= j {
          BlanksSkipped(text, i + 2, j, c);
        } else {
          ParseTurns(text, j, c);
        }
      } else {
        BlanksSkipped(text, i + 1, j, c);
      }
    }
  }

  // A word is quoted, with its quotes on one line, or it ends in front of a stop character.
  predicate IsWord(text: string, i: nat, stop: set<char>, w: string, end: nat) {
    && i <= end < |text|
    && if text[i] == '"' then
         i < end && text[i + 1..end] == w && text[end] == '"' && forall c :: c in w ==> c !in QUOTE_STOP
       else text[i..end] == w && text[end] in stop && forall c :: c in w ==> c !in stop
  }

  lemma WordIff(text: string, i: nat, stop: set<char>, w: string, end: nat)
    requires NUL !in text && NUL in stop && i < |text|
    ensures ReadWord(text, i, stop) == Word(w, end) <==> IsWord(text, i, stop, w, end)
  {
    hide Scan;
    var start := if text[i] == '"' then i + 1 else i;
    var stops := if text[i] == '"' then QUOTE_STOP else stop;
    var at := Scan(text, start, stops);
    EachOf(text, start, at, stops);
    if IsWord(text, i, stop, w, end) {
      EachIn(text, start, end, stops);
    }
  }

  // The characters of a part of the text.
  lemma EachOf(text: string, i: nat, j: nat, stop: set<char>)
    requires i <= j <= |text| && forall k :: i <= k < j ==> Char(text, k) !in stop
    ensures forall c :: c in text[i..j] ==> c !in stop
  {
    forall c | c in text[i..j] ensures c !in stop {
      var k :| 0 <= k < j - i && text[i..j][k] == c;
      assert Char(text, i + k) == c;
    }
  }

  lemma EachIn(text: string, i: nat, j: nat, stop: set<char>)
    requires i <= j <= |text| && forall c :: c in text[i..j] ==> c !in stop
    ensures forall k :: i <= k < j ==> Char(text, k) !in stop
  {
    forall k | i <= k < j ensures text[k] !in stop {
      assert text[i..j][k - i] == text[k];
    }
  }

  // Behind a word that ends at `a`.
  function Behind(text: string, a: nat): nat { if Char(text, a) == '"' then a + 1 else a }

  // Nothing but spaces and tabs from `i` to `b`, where something else stands.
  predicate Gap(text: string, i: nat, b: nat) {
    i <= b < |text| && !IsBlank(text[b]) && forall k :: i <= k < b ==> text[k] == ' ' || text[k] == '\t'
  }

  // A token is a key, spaces and tabs or nothing, and a value on the same line.
  ghost predicate IsToken(text: string, i: nat, key: string, value: string, end: nat) {
    exists a: nat, b: nat :: IsWord(text, i, KEY_STOP, key, a) && Gap(text, Behind(text, a), b)
      && IsWord(text, b, VALUE_STOP, value, end)
  }

  lemma TokenIff(text: string, i: nat, key: string, value: string, end: nat)
    requires NUL !in text && i < |text|
    ensures ReadToken(text, i) == Token(key, value, end) <==> IsToken(text, i, key, value, end)
  {
    hide ReadWord, SkipBlanks, IsWord, IsBlank;
    if ReadToken(text, i) == Token(key, value, end) {
      var a := ReadWord(text, i, KEY_STOP).end;
      var b := SkipBlanks(text, Behind(text, a));
      WordIff(text, i, KEY_STOP, key, a);
      WordIff(text, b, VALUE_STOP, value, end);
      GapIs(text, Behind(text, a), b);
      assert Gap(text, Behind(text, a), b);
    }
    if IsToken(text, i, key, value, end) {
      var a: nat, b: nat :| IsWord(text, i, KEY_STOP, key, a) && Gap(text, Behind(text, a), b)
        && IsWord(text, b, VALUE_STOP, value, end);
      WordIff(text, i, KEY_STOP, key, a);
      WordIff(text, b, VALUE_STOP, value, end);
      GapIs(text, Behind(text, a), b);
    }
  }

  lemma GapIs(text: string, i: nat, b: nat)
    requires NUL !in text && b < |text|
    ensures Gap(text, i, b) <==> SkipBlanks(text, i) == b && text[b] != '\r' && text[b] != '\n'
  {
    hide SkipBlanks;
    var j := SkipBlanks(text, i);
    assert forall k :: 0 <= k < |text| ==> Char(text, k) == text[k];
  }

  // A token where no brace, comment or blank stands goes into the list the reader is in.
  lemma TokenEntered(text: string, i: nat, key: string, value: string, end: nat, c: Cursor)
    requires c.Valid() && NUL !in text && i < |text| && !IsBlank(text[i]) && text[i] !in {'{', '}', '/'}
    requires IsToken(text, i, key, value, end)
    ensures Parse(text, i, c) == Parse(text, end + 1, Enter(c, key, value))
  {
    hide Parse, ReadToken, IsToken, Enter;
    TokenIff(text, i, key, value, end);
    ParseTurns(text, i, c);
  }

  // --- what is refused, and with which message ---

  lemma WordRefused(text: string, i: nat, stop: set<char>)
    requires NUL !in text && NUL in stop && i < |text|
    ensures (forall w, end: nat :: !IsWord(text, i, stop, w, end)) ==>
      ReadWord(text, i, stop) == BadWord(if text[i] == '"' then UnmatchedQuote else UnmatchedKey)
  {
    hide Scan, IsWord;
    var r := ReadWord(text, i, stop);
    if r.Word? {
      WordIff(text, i, stop, r.text, r.end);
    } else {
      NoStopBehind(text, i, stop);
    }
  }

  lemma NoStopBehind(text: string, i: nat, stop: set<char>)
    requires NUL !in text && NUL in stop && i < |text| && ReadWord(text, i, stop).BadWord?
    ensures ReadWord(text, i, stop).error == if text[i] == '"' then UnmatchedQuote else UnmatchedKey
  {
    hide Scan;
  }

  // A key that is read, and no value: at the end of the text, of the line, or a bad word.
  lemma ValueRefused(text: string, i: nat, key: string, a: nat, b: nat)
    requires NUL !in text && i < |text| && IsWord(text, i, KEY_STOP, key, a)
    requires Behind(text, a) <= b <= |text|
    requires forall k :: Behind(text, a) <= k < b ==> text[k] == ' ' || text[k] == '\t'
    ensures b == |text| ==> ReadToken(text, i) == Bad(EndOfFile)
    ensures b < |text| && (text[b] == '\r' || text[b] == '\n') ==> ReadToken(text, i) == Bad(EndOfLine)
    ensures b < |text| && !IsBlank(text[b]) && ReadWord(text, b, VALUE_STOP).BadWord? ==>
      ReadToken(text, i) == Bad(ReadWord(text, b, VALUE_STOP).error)
  {
    hide ReadWord, SkipBlanks, IsWord;
    WordIff(text, i, KEY_STOP, key, a);
    var j := SkipBlanks(text, Behind(text, a));
    assert forall k :: 0 <= k < |text| ==> Char(text, k) == text[k];
  }
}
