/**
 The text format of src/tconfig.c: what the reader makes of a text and what the
 writer prints for a forest, both as functions.  The reader's position in the
 forest is a zipper (`Cursor`); the linked blocks are in TconfigHeap.
 */
module TconfigText {

  // The strings of a block; a block made by '{' has neither until it is filled.
  datatype Entry = Blank | Pair(key: string, value: string)

  // A block with its child list; no child pointer is the empty list.
  datatype Tree = Tree(entry: Entry, kids: seq<Tree>)

  // The lists above the reader's list: `sibs[at]` owns the list below, and its
  // `kids` are kept empty while the reader is inside them.
  datatype Context = Top | Under(sibs: seq<Tree>, at: nat, up: Context)
  {
    predicate Valid() {
      Under? ==> at < |sibs| && sibs[at].kids == [] && up.Valid()
    }
  }

  // The reader stands at `level[at]`.
  datatype Cursor = Cursor(level: seq<Tree>, at: nat, up: Context)
  {
    predicate Valid() {
      at < |level| && up.Valid()
    }
  }

  datatype ParseError =
    | MismatchedBrace | StraySlash | OpenComment
    | UnmatchedQuote | UnmatchedKey | EndOfFile | EndOfLine

  // How the reader ends: it returns a forest, it exits with a message, or it
  // steps past the terminating NUL.
  datatype Outcome = Done(forest: seq<Tree>) | Exit(error: ParseError) | Overrun

  const NUL := '\0'

  // The reader's view of a NUL-terminated buffer.
  function Char(text: string, i: nat): char {
    if i < |text| then text[i] else NUL
  }

  // --- scanning ---

  const KEY_STOP := {NUL, ' ', '\t'}
  const VALUE_STOP := {NUL, ' ', '\t', '\r', '\n'}
  const QUOTE_STOP := {NUL, '\n', '\r', '"'}

  // The first position at or after `i` holding one of `stop`.
  function Scan(text: string, i: nat, stop: set<char>): (j: nat)
    requires NUL in stop
    ensures i <= j && Char(text, j) in stop
    ensures i <= |text| ==> j <= |text|
    ensures forall k :: i <= k < j ==> Char(text, k) !in stop
    decreases |text| - i
  {
    if Char(text, i) in stop then i else Scan(text, i + 1, stop)
  }

  // The first position at or after `i` that is neither a space nor a tab.
  function SkipBlanks(text: string, i: nat): (j: nat)
    ensures i <= j && Char(text, j) != ' ' && Char(text, j) != '\t'
    ensures i <= |text| ==> j <= |text|
    ensures forall k :: i <= k < j ==> Char(text, k) == ' ' || Char(text, k) == '\t'
    decreases |text| - i
  {
    if Char(text, i) == ' ' || Char(text, i) == '\t' then SkipBlanks(text, i + 1) else i
  }

  datatype Word = Word(text: string, end: nat) | BadWord(error: ParseError)

  // Reads a quoted or bare word; `end` is the closing quote or the blank after it.
  function ReadWord(text: string, i: nat, stop: set<char>): (w: Word)
    requires i < |text| && NUL in stop
    ensures w.Word? ==> i <= w.end < |text|
  {
    var quoted := text[i] == '"';
    var start := if quoted then i + 1 else i;
    var end := Scan(text, start, if quoted then QUOTE_STOP else stop);
    if quoted && Char(text, end) != '"' then BadWord(UnmatchedQuote)
    else if Char(text, end) == NUL then BadWord(UnmatchedKey)
    else Word(text[start..end], end)
  }

  datatype Token = Token(key: string, value: string, end: nat) | Bad(error: ParseError)

  // Reads a key and a value on one line; `end` is the closing quote or blank after the value.
  function ReadToken(text: string, i: nat): (t: Token)
    requires i < |text|
    ensures t.Token? ==> i <= t.end < |text|
  {
    match ReadWord(text, i, KEY_STOP)
    case BadWord(e) => Bad(e)
    case Word(key, end) =>
      var from := SkipBlanks(text, if text[end] == '"' then end + 1 else end);
      if Char(text, from) == NUL then Bad(EndOfFile)
      else if text[from] == '\r' || text[from] == '\n' then Bad(EndOfLine)
      else
        match ReadWord(text, from, VALUE_STOP)
        case BadWord(e) => Bad(e)
        case Word(value, end) => Token(key, value, end)
  }

  datatype Comment = At(pos: nat) | Finished | Failed(error: ParseError)

  // Skips a C comment from just after its opening; stops on the closing '/', or on the
  // terminating NUL when the text ends in the opening or in CR LF.
  function BlockComment(text: string, i: nat): (r: Comment)
    ensures !r.Finished? && (r.At? ==> i <= r.pos)
    decreases |text| - i
  {
    if Char(text, i) == NUL then At(i)
    else if Char(text, i + 1) == NUL then Failed(OpenComment)
    else if Char(text, i) == '*' && Char(text, i + 1) == '/' then At(i + 1)
    else if Char(text, i) == '\r' && Char(text, i + 1) == '\n' then BlockComment(text, i + 2)
    else BlockComment(text, i + 1)
  }

  // Skips a line comment.  After a bare CR the reader also drops the next character.
  function LineComment(text: string, i: nat): (r: Comment)
    ensures r.At? ==> i <= r.pos < |text|
    ensures !r.Failed?
    decreases |text| - i
  {
    if Char(text, i) == NUL then Finished
    else if text[i] == '\r' then
      if Char(text, i + 1) == NUL then Finished
      else if Char(text, i + 1) != '\n' then At(i + 1)
      else At(i)
    else if text[i] == '\n' then At(i)
    else LineComment(text, i + 1)
  }

  // --- moves in the forest ---

  // '{': into the child list, made with one blank block if there is none.
  function Open(c: Cursor): (r: Cursor)
    requires c.Valid()
    ensures r.Valid()
  {
    var node := c.level[c.at];
    if node.kids == [] then Cursor([Tree(Blank, [])], 0, Under(c.level, c.at, c.up))
    else Cursor(node.kids, 0, Under(c.level[c.at := node.(kids := [])], c.at, c.up))
  }

  // '}': back to the owner of the list.
  function Close(c: Cursor): (r: Cursor)
    requires c.Valid() && c.up.Under?
    ensures r.Valid()
  {
    var u := c.up;
    Cursor(u.sibs[u.at := u.sibs[u.at].(kids := c.level)], u.at, u.up)
  }

  // The first block of the list with this entry, or the length of the list.
  function Find(level: seq<Tree>, e: Entry): (i: nat)
    ensures i <= |level|
    ensures i < |level| ==> level[i].entry == e
    ensures forall j :: 0 <= j < i ==> level[j].entry != e
  {
    if level == [] || level[0].entry == e then 0 else 1 + Find(level[1..], e)
  }

  // A token: go to the sibling that has it, else fill the blank last block, else append.
  function Enter(c: Cursor, key: string, value: string): (r: Cursor)
    requires c.Valid()
    ensures r.Valid()
  {
    var e := Pair(key, value);
    var i := Find(c.level, e);
    var last := |c.level| - 1;
    if i < |c.level| then c.(at := i)
    else if c.level[last].entry == Blank then
      c.(level := c.level[last := c.level[last].(entry := e)], at := last)
    else c.(level := c.level + [Tree(e, [])], at := |c.level|)
  }

  // The whole forest around a cursor.
  function Root(c: Cursor): (f: seq<Tree>)
    requires c.Valid()
    ensures f != []
    decreases c.up
  {
    if c.up.Top? then c.level else Root(Close(c))
  }

  const START := Cursor([Tree(Blank, [])], 0, Top)

  // The reader's main loop from position `i`.
  function Parse(text: string, i: nat, c: Cursor): (o: Outcome)
    requires c.Valid() && NUL !in text
    ensures o.Done? ==> o.forest != []
    decreases |text| - i
  {
    if i >= |text| then Done(Root(c))
    else
      var ch := text[i];
      if ch == '{' then Parse(text, i + 1, Open(c))
      else if ch == '}' then
        if c.up.Top? then Exit(MismatchedBrace) else Parse(text, i + 1, Close(c))
      else if ch == '/' then ParseComment(text, i, c)
      else if ch == '\r' then
        Parse(text, if Char(text, i + 1) == '\n' then i + 2 else i + 1, c)
      else if ch == '\n' || ch == '\t' || ch == ' ' then Parse(text, i + 1, c)
      else
        match ReadToken(text, i)
        case Bad(e) => Exit(e)
        case Token(k, v, end) => Parse(text, end + 1, Enter(c, k, v))
  }

  function ParseComment(text: string, i: nat, c: Cursor): (o: Outcome)
    requires c.Valid() && NUL !in text
    requires i < |text|
    ensures o.Done? ==> o.forest != []
    decreases |text| - i, 0
  {
    if Char(text, i + 1) != '*' && Char(text, i + 1) != '/' then Exit(StraySlash)
    else
      var r := if Char(text, i + 1) == '*' then BlockComment(text, i + 2) else LineComment(text, i + 2);
      match r
      case Failed(e) => Exit(e)
      case Finished => Done(Root(c))
      case At(pos) => if Char(text, pos) == NUL then Overrun else Parse(text, pos + 1, c)
  }

  // --- the writer ---

  predicate HasBlank(s: string) { ' ' in s || '\t' in s }

  function Quote(s: string): string {
    if HasBlank(s) then "\"" + s + "\"" else s
  }

  function Spaces(n: nat): string {
    if n == 0 then "" else Spaces(n - 1) + " "
  }

  function Indent(depth: nat): string { Spaces(2 * depth) }

  function Line(key: string, value: string): string {
    Quote(key) + "\t" + Quote(value) + "\n"
  }

  // No block of the forest is blank: what the writer needs of its argument.
  predicate Filled(f: seq<Tree>) {
    forall i :: 0 <= i < |f| ==> f[i].entry.Pair? && Filled(f[i].kids)
  }

  function Leaf(key: string, value: string, depth: nat): string {
    Indent(depth) + Line(key, value)
  }

  function OpenBrace(depth: nat): string { Indent(depth) + "{\n" }

  function CloseBrace(depth: nat): string { Indent(depth) + "}\n\n" }

  function PrintTree(t: Tree, depth: nat): string
    requires t.entry.Pair? && Filled(t.kids)
    decreases t, 0
  {
    var leaf := Leaf(t.entry.key, t.entry.value, depth);
    if t.kids == [] then leaf
    else "\n" + leaf + OpenBrace(depth) + Print(t.kids, depth + 1) + CloseBrace(depth)
  }

  function Print(f: seq<Tree>, depth: nat): string
    requires Filled(f)
    decreases f, 0
  {
    if f == [] then "" else PrintTree(f[0], depth) + Print(f[1..], depth)
  }
}
