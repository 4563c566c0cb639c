/**
 file_to_tconfig of src/tconfig.c over linked blocks, proved to build exactly the forest
 that TconfigText.Parse describes.
 */
module TconfigReader {
  import opened Shared
  import opened TconfigText
  import opened TconfigEdit
  import opened TconfigHeap

  // --- scanning loops ---

  method ScanTo(text: string, i: nat, stop: set<char>) returns (j: nat)
    requires NUL in stop
    ensures j == Scan(text, i, stop)
  {
    j := i;
    while Char(text, j) !in stop
      invariant i <= j && Scan(text, j, stop) == Scan(text, i, stop)
      decreases |text| - j
    {
      j := j + 1;
    }
  }

  method ReadOneWord(text: string, i: nat, stop: set<char>) returns (w: Word)
    requires i < |text| && NUL in stop
    ensures w == ReadWord(text, i, stop)
  {
    var start, end;
    if text[i] == '"' {
      start := i + 1;
      end := ScanTo(text, start, QUOTE_STOP);
      if Char(text, end) != '"' { return BadWord(UnmatchedQuote); }
    } else {
      start := i;
      end := ScanTo(text, start, stop);
      if Char(text, end) == NUL { return BadWord(UnmatchedKey); }
    }
    return Word(text[start..end], end);
  }

  method ReadPair(text: string, i: nat) returns (t: Token)
    requires i < |text|
    ensures t == ReadToken(text, i)
  {
    hide Scan, ReadWord;
    var key := ReadOneWord(text, i, KEY_STOP);
    if key.BadWord? { return Bad(key.error); }
    var eip := if text[key.end] == '"' then key.end + 1 else key.end;
    ghost var gap := eip;
    while Char(text, eip) == '\t' || Char(text, eip) == ' '
      invariant SkipBlanks(text, eip) == SkipBlanks(text, gap)
      decreases |text| - eip
    {
      eip := eip + 1;
    }
    if Char(text, eip) == NUL { return Bad(EndOfFile); }
    if text[eip] == '\r' || text[eip] == '\n' { return Bad(EndOfLine); }
    var value := ReadOneWord(text, eip, VALUE_STOP);
    if value.BadWord? { return Bad(value.error); }
    return Token(key.text, value.text, value.end);
  }

  method SkipBlockComment(text: string, i: nat) returns (r: Comment)
    ensures r == BlockComment(text, i)
  {
    var eip := i;
    while Char(text, eip) != NUL
      invariant BlockComment(text, eip) == BlockComment(text, i)
      decreases |text| - eip
    {
      if Char(text, eip + 1) == NUL { return Failed(OpenComment); }
      if Char(text, eip) == '*' && Char(text, eip + 1) == '/' { return At(eip + 1); }
      if Char(text, eip) == '\r' && Char(text, eip + 1) == '\n' { eip := eip + 1; }
      eip := eip + 1;
    }
    return At(eip);
  }

  method SkipLineComment(text: string, i: nat) returns (r: Comment)
    ensures r == LineComment(text, i)
  {
    var eip := i;
    while Char(text, eip) != NUL
      invariant LineComment(text, eip) == LineComment(text, i)
      decreases |text| - eip
    {
      if text[eip] == '\r' {
        if Char(text, eip + 1) == NUL { return Finished; }
        if Char(text, eip + 1) != '\n' { return At(eip + 1); }
        return At(eip);
      } else if text[eip] == '\n' {
        return At(eip);
      }
      eip := eip + 1;
    }
    return Finished;
  }

  // --- '{' ---

  method OpenBrace(block: Block, ghost m: Memory, ghost z: Spot)
    returns (b: Block, ghost m': Memory, ghost z': Spot)
    requires Current(m) && Valid(m, z) && block == z.Here()
    modifies m.Keys
    ensures Current(m') && Valid(m', z') && b == z'.Here()
    ensures m.Keys <= m'.Keys && fresh(m'.Keys - m.Keys)
    ensures CursorOf(z') == Open(CursorOf(z)) && TopBlock(z') == TopBlock(z)
  {
    hide Blocks, Valid, ApartSpot, CursorOf, Open, TopBlock;
    HereCell(m, z);
    if block.child != null {
      DownStep(m, z);
      return block.child, m, Down(z);
    }
    assert z.level[z.at].kids == [];
    b := new Block();
    ChildStep(m, z, b);
    block.child := b;
    b.parent := block;
    m', z' := WithChild(m, block, b), ChildSpot(z, b);
  }

  // --- '}' ---

  // Rewinds to the first block of the list, the one that may carry `parent`.
  method Leftmost(block: Block, ghost m: Memory, ghost z: Spot) returns (b: Block)
    requires Current(m) && Valid(m, z) && block == z.Here()
    ensures b == z.level[0].block && b in m
    ensures b.parent == Owner(z.up) && b.prev == null
  {
    hide Blocks, Valid;
    b := block;
    ghost var i: nat := z.at;
    LeftLinks(m, z, i);
    while b.prev != null
      invariant i < |z.level| && b == z.level[i].block && b in m
      invariant m[b].prev == if i == 0 then null else z.level[i - 1].block
      invariant i == 0 ==> m[b].parent == Owner(z.up)
      decreases i
    {
      b := b.prev;
      i := i - 1;
      LeftLinks(m, z, i);
    }
  }

  lemma LeftLinks(m: Memory, z: Spot, i: nat)
    requires Valid(m, z) && i < |z.level|
    ensures z.level[i].block in m
    ensures m[z.level[i].block].prev == if i == 0 then null else z.level[i - 1].block
    ensures i == 0 ==> m[z.level[i].block].parent == Owner(z.up)
  {
    hide Valid;
    CellAt(m, z, i);
  }

  method CloseBrace(block: Block, ghost m: Memory, ghost z: Spot)
    returns (b: Block?, ghost z': Spot)
    requires Current(m) && Valid(m, z) && block == z.Here()
    ensures b == null <==> z.up.Outer?
    ensures b != null ==> Valid(m, z') && b == z'.Here()
    ensures b != null ==> CursorOf(z') == Close(CursorOf(z)) && TopBlock(z') == TopBlock(z)
  {
    var left := Leftmost(block, m, z);
    if left.parent == null { return null, z; }
    z' := Up(z);
    Turn(m, z);
    b := left.parent;
  }

  // --- a key and a value ---

  lemma FindIs(level: seq<Tree>, e: Entry, i: nat)
    requires i <= |level| && (i < |level| ==> level[i].entry == e)
    requires forall j :: 0 <= j < i ==> level[j].entry != e
    ensures Find(level, e) == i
  {
    hide Find;
    var j := Find(level, e);
    assert j < |level| ==> level[j].entry == e;
  }

  // What following a list and comparing its strings reads from memory.
  lemma LevelRead(m: Memory, z: Spot, i: nat)
    requires Valid(m, z) && i < |z.level|
    ensures z.level[i].block in m
    ensures var f := m[z.level[i].block];
      && f.next == (if i + 1 < |z.level| then z.level[i + 1].block else null)
      && (f.key == None && f.value == None <==> z.level[i].entry == Blank)
      && (f.key.Some? && f.value.Some? ==> z.level[i].entry == Pair(f.key.value, f.value.value))
      && (z.level[i].entry.Pair? ==> f.key.Some? && f.value.Some?)
  {
  }

  // Searches the list from its first block; `b` is the match, or the last block.
  method Search(block: Block, key: string, value: string, ghost m: Memory, ghost z: Spot)
    returns (found: bool, b: Block, ghost at: nat)
    requires Current(m) && Valid(m, z) && block == z.Here()
    ensures at < |z.level| && b == z.level[at].block && b in m
    ensures found ==> Find(Forest(z.level), Pair(key, value)) == at
    ensures !found ==> Find(Forest(z.level), Pair(key, value)) == |z.level| && at == |z.level| - 1
  {
    hide Blocks, Valid, Find, Cell, Forest, Owner;
    b := Leftmost(block, m, z);
    at := 0;
    ghost var i: nat := 0;
    ghost var e := Pair(key, value);
    var search: Block? := b;
    while search != null
      invariant i <= |z.level| && at == (if i == 0 then 0 else i - 1)
      invariant at < |z.level| && b == z.level[at].block && b in m
      invariant search == if i < |z.level| then z.level[i].block else null
      invariant forall j :: 0 <= j < i ==> z.level[j].entry != e
      decreases |z.level| - i
    {
      LevelRead(m, z, i);
      if search.key != None && search.value != None && search.key.value == key && search.value.value == value {
        FindIs(Forest(z.level), e, i);
        return true, search, i;
      }
      b, at := search, i;
      search, i := search.next, i + 1;
    }
    FindIs(Forest(z.level), e, i);
    return false, b, at;
  }

  // A pair that is not in the list yet.
  lemma EnterNew(c: Cursor, key: string, value: string)
    requires c.Valid() && Find(c.level, Pair(key, value)) == |c.level|
    ensures Enter(c, key, value) ==
      if c.level[|c.level| - 1].entry == Blank then LastEntry(c, Pair(key, value)) else Longer(c, Pair(key, value))
  {
  }

  // The token's block takes the place of a blank last block.
  method FillLast(last: Block, key: string, value: string, ghost m: Memory, ghost z: Spot)
    returns (ghost m': Memory, ghost z': Spot)
    requires Current(m) && Valid(m, z) && last == z.level[|z.level| - 1].block
    requires z.level[|z.level| - 1].entry == Blank
    requires Find(Forest(z.level), Pair(key, value)) == |z.level|
    modifies m.Keys
    ensures Current(m') && Valid(m', z') && last == z'.Here() && m'.Keys == m.Keys
    ensures CursorOf(z') == Enter(CursorOf(z), key, value) && TopBlock(z') == TopBlock(z)
  {
    hide Blocks, Valid, ApartSpot, Enter, TopBlock, Find, Forest;
    FilledStep(m, z, key, value);
    EnterNew(CursorOf(z), key, value);
    last.key, last.value := Some(key), Some(value);
    m' := WithPair(m, last, key, value);
    z' := FilledSpot(z, key, value);
  }

  // The token's block goes behind the last block.
  method AppendBlock(last: Block, key: string, value: string, ghost m: Memory, ghost z: Spot)
    returns (b: Block, ghost m': Memory, ghost z': Spot)
    requires Current(m) && Valid(m, z) && last == z.level[|z.level| - 1].block
    requires z.level[|z.level| - 1].entry != Blank
    requires Find(Forest(z.level), Pair(key, value)) == |z.level|
    modifies m.Keys
    ensures Current(m') && Valid(m', z') && b == z'.Here()
    ensures m.Keys <= m'.Keys && fresh(m'.Keys - m.Keys)
    ensures CursorOf(z') == Enter(CursorOf(z), key, value) && TopBlock(z') == TopBlock(z)
  {
    hide Blocks, Valid, ApartSpot, Enter, TopBlock, Find, Forest;
    b := new Block();
    AppendStep(m, z, b, Pair(key, value));
    EnterNew(CursorOf(z), key, value);
    b.key, b.value := Some(key), Some(value);
    last.next := b;
    b.prev := last;
    m' := WithNext(m, last, b, Pair(key, value));
    z' := AppendSpot(z, b, Pair(key, value));
  }

  method EnterPair(block: Block, key: string, value: string, ghost m: Memory, ghost z: Spot)
    returns (b: Block, ghost m': Memory, ghost z': Spot)
    requires Current(m) && Valid(m, z) && block == z.Here()
    modifies m.Keys
    ensures Current(m') && Valid(m', z') && b == z'.Here()
    ensures m.Keys <= m'.Keys && fresh(m'.Keys - m.Keys)
    ensures CursorOf(z') == Enter(CursorOf(z), key, value) && TopBlock(z') == TopBlock(z)
  {
    hide Blocks, Valid, ApartSpot, CursorOf, Enter, TopBlock, Find, Cell, Forest;
    var found, last; ghost var at;
    found, last, at := Search(block, key, value, m, z);
    if found {
      FoundStep(m, z, key, value, at);
      return last, m, Spot(z.level, at, z.up);
    }
    LevelRead(m, z, at);
    if last.key == None && last.value == None {
      m', z' := FillLast(last, key, value, m, z);
      return last, m', z';
    }
    b, m', z' := AppendBlock(last, key, value, m, z);
  }

  lemma FoundStep(m: Memory, z: Spot, k: string, v: string, at: nat)
    requires Valid(m, z) && at < |z.level| && Find(Forest(z.level), Pair(k, v)) == at
    ensures Valid(m, Spot(z.level, at, z.up))
    ensures CursorOf(Spot(z.level, at, z.up)) == Enter(CursorOf(z), k, v)
    ensures TopBlock(Spot(z.level, at, z.up)) == TopBlock(z)
  {
  }

  // --- the main loop ---

  lemma StartValid(head: Block)
    ensures var z := Spot([Node(head, Blank, [])], 0, Outer);
      Valid(map[head := EMPTY], z) && CursorOf(z) == START && TopBlock(z) == head
  {
    Singleton(Node(head, Blank, []));
    assert Linked(map[head := EMPTY], [], head);
  }

  // One round of the reader.
  lemma ParseStep(text: string, i: nat, c: Cursor)
    requires c.Valid() && NUL !in text && i < |text|
    ensures text[i] == '{' ==> Parse(text, i, c) == Parse(text, i + 1, Open(c))
    ensures text[i] == '}' ==>
      Parse(text, i, c) == if c.up.Top? then Exit(MismatchedBrace) else Parse(text, i + 1, Close(c))
    ensures text[i] == '/' ==> Parse(text, i, c) == ParseComment(text, i, c)
    ensures text[i] == '\r' ==>
      Parse(text, i, c) == Parse(text, if Char(text, i + 1) == '\n' then i + 2 else i + 1, c)
    ensures text[i] == '\n' || text[i] == '\t' || text[i] == ' ' ==> Parse(text, i, c) == Parse(text, i + 1, c)
    ensures text[i] !in {'{', '}', '/', '\r', '\n', '\t', ' '} ==>
      Parse(text, i, c) == match ReadToken(text, i)
                           case Bad(e) => Exit(e)
                           case Token(k, v, end) => Parse(text, end + 1, Enter(c, k, v))
  {
  }

  datatype ReadResult = Returned | Exited(error: ParseError) | SteppedPastEnd

  // What the caller sees agrees with the outcome of Parse.
  ghost predicate Agrees(o: Outcome, r: ReadResult, head: Block, m: Memory, shape: seq<Shape>)
    reads m.Keys
  {
    match o
    case Done(f) =>
      && r == Returned && Forest(shape) == f && Current(m)
      && shape != [] && head == shape[0].block && Apart(shape) && Linked(m, shape, null)
    case Exit(e) => r == Exited(e)
    case Overrun => r == SteppedPastEnd
  }

  // Comments: the position to go on from, or the way the reader ends.
  method ReadComment(text: string, i: nat, ghost c: Cursor) returns (r: Comment)
    requires NUL !in text && i < |text| && c.Valid()
    ensures r.At? ==> i < r.pos
    ensures ParseComment(text, i, c)
         == match r
            case Failed(e) => Exit(e)
            case Finished => Done(Root(c))
            case At(pos) => if Char(text, pos) == NUL then Overrun else Parse(text, pos + 1, c)
  {
    hide Parse, BlockComment, LineComment, Root;
    if Char(text, i + 1) == '*' {
      r := SkipBlockComment(text, i + 2);
    } else if Char(text, i + 1) == '/' {
      r := SkipLineComment(text, i + 2);
    } else {
      r := Failed(StraySlash);
    }
  }

  // Builds the blocks of a text.  `shape` shows what hangs under the returned head.
  method FileToTconfig(text: string)
    returns (r: ReadResult, head: Block, ghost m: Memory, ghost shape: seq<Shape>)
    requires NUL !in text
    ensures fresh(m.Keys)
    ensures Agrees(Parse(text, 0, START), r, head, m, shape)
  {
    hide Blocks, Linked, Apart, Valid, ApartSpot, CursorOf, TopBlock, Parse, ParseComment, Open;
    hide Close, Enter, ReadToken, Root, Whole;
    head := new Block();
    m, shape := map[head := EMPTY], [];
    ghost var z := Spot([Node(head, Blank, [])], 0, Outer);
    StartValid(head);
    var block := head;
    var eip := 0;
    while Char(text, eip) != NUL
      invariant Current(m) && fresh(m.Keys) && Valid(m, z) && block == z.Here()
      invariant TopBlock(z) == head
      invariant Parse(text, 0, START) == Parse(text, eip, CursorOf(z))
      decreases |text| - eip
    {
      ParseStep(text, eip, CursorOf(z));
      var ch := text[eip];
      if ch == '{' {
        block, m, z := OpenBrace(block, m, z);
      } else if ch == '}' {
        var up; ghost var z';
        up, z' := CloseBrace(block, m, z);
        if up == null { return Exited(MismatchedBrace), head, m, []; }
        block, z := up, z';
      } else if ch == '/' {
        var comment := ReadComment(text, eip, CursorOf(z));
        if comment.Failed? { return Exited(comment.error), head, m, []; }
        if comment.Finished? {
          WholeValid(m, z);
          return Returned, head, m, Whole(z);
        }
        if Char(text, comment.pos) == NUL { return SteppedPastEnd, head, m, []; }
        eip := comment.pos;
      } else if ch == '\r' {
        if Char(text, eip + 1) == '\n' { eip := eip + 1; }
      } else if ch == '\n' || ch == '\t' || ch == ' ' {
      } else {
        var t := ReadPair(text, eip);
        if t.Bad? { return Exited(t.error), head, m, []; }
        block, m, z := EnterPair(block, t.key, t.value, m, z);
        eip := t.end;
      }
      eip := eip + 1;
    }
    WholeValid(m, z);
    ParseEnd(text, eip, CursorOf(z));
    return Returned, head, m, Whole(z);
  }

  lemma ParseEnd(text: string, i: nat, c: Cursor)
    requires c.Valid() && NUL !in text && Char(text, i) == NUL
    ensures Parse(text, i, c) == Done(Root(c))
  {
  }
}
