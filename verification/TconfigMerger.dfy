/**
 tconfig_merge of src/tconfig.c over two sets of linked blocks, proved to do exactly what
 TconfigMerge.MergeList says.
 */
module TconfigMerger {
  import opened Shared
  import opened TconfigText
  import opened TconfigHeap
  import opened TconfigEdit
  import opened TconfigMerge
  import TconfigReader

  // How the call ends: it returns, it follows or compares a NULL pointer, or it has just
  // cleared the `parent` of the first block of a list.
  datatype Ended = Returned | NullKey | NullList | LostParent

  // --- a child list in place of the one there was ---

  // The spot with its block's children forgotten.
  ghost function Bare(z: Spot): Spot
    requires z.at < |z.level|
  {
    Spot(Attach(z.level, z.at, []), z.at, z.up)
  }

  lemma BareApart(z: Spot)
    requires ApartSpot(z)
    ensures ApartSpot(Bare(z)) && SpotBlocks(Bare(z)) <= SpotBlocks(z) && Bare(z).Here() == z.Here()
    ensures CursorOf(Bare(z)) == Cursor(SetKids(Forest(z.level), z.at, []), z.at, CursorOf(z).up)
  {
    hide Blocks, Apart;
    AttachSplits(Bare(z).level, z.at, z.level[z.at].kids);
    assert Attach(Bare(z).level, z.at, z.level[z.at].kids) == z.level;
    AttachForest(z.level, z.at, []);
  }

  lemma BareAround(m: Memory, n: Memory, s: seq<Shape>, parent: Block?, at: nat, b: Block)
    requires Linked(m, s, parent) && at < |s| && Apart(s) && Except(m, n, s[at].block)
    requires s[at].block in n && s[at].block in m && n[s[at].block] == m[s[at].block].(child := b)
    ensures LinkedAround(n, Attach(s, at, []), parent, at, b)
  {
    hide Blocks, Apart, Linked, Except, Cell, LinkedAround, Attach;
    OthersLinked(m, n, s, at, parent);
    NoneLinked(n, s[at].block);
    BareCells(s, at, parent, b);
    AroundIntro(n, Attach(s, at, []), parent, at, b);
  }

  lemma NoneLinked(m: Memory, parent: Block?)
    ensures Linked(m, [], parent)
  {
  }

  lemma AroundIntro(m: Memory, s: seq<Shape>, parent: Block?, at: nat, below: Block)
    requires forall i :: 0 <= i < |s| ==>
      s[i].block in m && m[s[i].block] == Cell(s, i, parent, if i == at then below else First(s[i].kids))
    requires forall i :: 0 <= i < |s| ==> Linked(m, s[i].kids, s[i].block)
    ensures LinkedAround(m, s, parent, at, below)
  {
  }

  lemma BareCells(s: seq<Shape>, at: nat, parent: Block?, b: Block)
    requires at < |s|
    ensures |Attach(s, at, [])| == |s| && Attach(s, at, [])[at].kids == []
    ensures var r := Attach(s, at, []); forall i :: 0 <= i < |s| ==>
      r[i].block == s[i].block && (i != at ==> r[i] == s[i])
      && (i != at ==> Cell(r, i, parent, First(r[i].kids)) == Cell(s, i, parent, First(s[i].kids)))
    ensures Cell(Attach(s, at, []), at, parent, b) == Cell(s, at, parent, First(s[at].kids)).(child := b)
  {
    var r := Attach(s, at, []);
    forall i | 0 <= i < |s| && i != at
      ensures Cell(r, i, parent, First(r[i].kids)) == Cell(s, i, parent, First(s[i].kids))
    {
      CellSame(s, r, i, parent, First(s[i].kids));
    }
  }

  // A blank block becomes the only child, whatever the child pointer was.
  lemma NewChildStep(m: Memory, z: Spot, b: Block)
    requires Valid(m, z) && b !in m
    ensures z.Here() in m && Valid(WithChild(m, z.Here(), b), ChildSpot(Bare(z), b))
    ensures CursorOf(ChildSpot(Bare(z), b)) == Cursor(BLANK, 0,
        Under(SetKids(Forest(z.level), z.at, []), z.at, CursorOf(z).up))
  {
    hide Blocks, LinkedSpot, Linked, LinkedAround, LinkedPath, Apart;
    HereCell(m, z);
    SpotInside(m, z);
    BareApart(z);
    ChildApart(Bare(z), b);
    NewChildLinked(m, z, b);
  }

  lemma NewChildLinked(m: Memory, z: Spot, b: Block)
    requires Valid(m, z) && b !in m && z.Here() in m && ApartSpot(Bare(z))
    ensures LinkedSpot(WithChild(m, z.Here(), b), ChildSpot(Bare(z), b))
  {
    hide Blocks, Apart, Linked, LinkedAround, LinkedPath;
    var n := WithChild(m, z.Here(), b);
    SpotInside(m, z);
    HereApart(z);
    BareAround(m, n, z.level, Owner(z.up), z.at, b);
    PathFrame(m, n, z.up, z.level[0].block);
    BlankLinked(n, b, z.Here());
    BelowLinked(n, Bare(z), b);
  }

  // --- where the walk stands ---

  // What is left of the source lists above.
  function Waiting(u: Context, n: nat): seq<seq<Tree>>
    requires Deep(u, n)
    decreases n
  {
    if n == 0 || u.at >= |u.sibs| then [] else [u.sibs[u.at + 1..]] + Waiting(u.up, n - 1)
  }

  // With the source at `c` and the target at `d`, `depth` lists below the start, what is
  // left ends as `want`; `from` is the first source block still to be merged.
  predicate Going(c: Cursor, from: nat, d: Cursor, depth: nat, want: MergeOutcome) {
    && c.Valid() && d.Valid() && Deep(c.up, depth) && Deep(d.up, depth) && |Waiting(c.up, depth)| == depth
    && from <= |c.level| && Tidy(d.level) && TidyContext(d.up)
    && Walk(c.level[from..], Waiting(c.up, depth), d.level, d.up) == want
  }

  function ToGo(c: Cursor, from: nat, depth: nat): nat {
    if Deep(c.up, depth) && from <= |c.level| then Count(c.level[from..]) + CountAll(Waiting(c.up, depth)) else 0
  }

  lemma GoingStarts(c: Cursor, d: Cursor)
    requires c.Valid() && d.Valid() && Tidy(d.level) && TidyContext(d.up)
    ensures Going(c, c.at, d, 0, MergeList(c.level[c.at..], d.level, d.up.Under?))
    ensures ToGo(c, c.at, 0) == Count(c.level[c.at..])
  {
    WalkStarts(c.level[c.at..], d.level, d.up);
  }

  // One source block that does not open a list.
  lemma GoingOn(c: Cursor, d: Cursor, depth: nat, want: MergeOutcome, d': Cursor)
    requires Going(c, c.at, d, depth, want) && d'.Valid() && d'.up == d.up
    requires MergeTree(c.level[c.at], d.level, d.up.Under?) == Merged(d'.level, false)
    ensures Wild(c.level[c.at]) && c.at + 1 == |c.level| ==>
      want == Merged(Base(d'.level, d'.up, depth), true)
    ensures !(Wild(c.level[c.at]) && c.at + 1 == |c.level|) ==> Going(c, c.at + 1, d', depth, want)
    ensures ToGo(c, c.at + 1, depth) < ToGo(c, c.at, depth)
  {
    hide MergeTree, MergeList, Walk, Tidy;
    var rest := c.level[c.at..];
    assert rest[0] == c.level[c.at] && rest[1..] == c.level[c.at + 1..];
    WalkOn(rest, Waiting(c.up, depth), d.level, d.up);
    MergeTreeTidy(c.level[c.at], d.level, d.up.Under?);
  }

  // A source block at which the merge breaks off.
  lemma GoingFails(c: Cursor, d: Cursor, depth: nat, want: MergeOutcome)
    requires Going(c, c.at, d, depth, want) && !MergeTree(c.level[c.at], d.level, d.up.Under?).Merged?
    ensures want == MergeTree(c.level[c.at], d.level, d.up.Under?)
  {
    hide MergeTree, MergeList, Walk, Tidy;
    assert c.level[c.at..][0] == c.level[c.at];
    WalkOn(c.level[c.at..], Waiting(c.up, depth), d.level, d.up);
  }

  // Into a child list on both sides.
  lemma GoingDown(c: Cursor, d: Cursor, depth: nat, want: MergeOutcome, l: seq<Tree>, i: nat, d': Cursor)
    requires Going(c, c.at, d, depth, want) && c.level[c.at].kids != [] && !Wild(c.level[c.at])
    requires i < |l| && d'.Valid() && d'.up == Under(SetKids(l, i, []), i, d.up) && Tidy(l) && Tidy(d'.level)
    requires MergeTree(c.level[c.at], d.level, d.up.Under?)
        == WithKids(l, i, MergeList(c.level[c.at].kids, d'.level, true))
    ensures Going(Open(c), 0, d', depth + 1, want) && Open(c).at == 0
    ensures ToGo(Open(c), 0, depth + 1) < ToGo(c, c.at, depth)
  {
    hide MergeTree, MergeList, Walk, Tidy, Count, CountAll, Closed, Deep, Waiting, Open, SetKids;
    var rest, into := c.level[c.at..], Open(c);
    assert rest[0] == c.level[c.at] && rest[1..] == c.level[c.at + 1..];
    OpenWaiting(c, depth);
    WalkDown(rest, Waiting(c.up, depth), d.level, d.up, l, i, d'.level);
    assert into.level[0..] == c.level[c.at].kids;
    CountDown(rest, Waiting(c.up, depth));
    EmptyTidy();
    KidsTidy(l, i, []);
    DeepUnder(d'.up, depth);
  }

  lemma OpenWaiting(c: Cursor, depth: nat)
    requires c.Valid() && c.level[c.at].kids != [] && Deep(c.up, depth)
    ensures var into := Open(c);
      && into.Valid() && into.at == 0 && into.level == c.level[c.at].kids && Deep(into.up, depth + 1)
      && Waiting(into.up, depth + 1) == [c.level[c.at..][1..]] + Waiting(c.up, depth)
  {
    var into := Open(c);
    assert into.up.sibs[c.at + 1..] == c.level[c.at..][1..];
  }

  lemma DeepUnder(u: Context, depth: nat)
    requires u.Under? && Deep(u.up, depth) && u.Valid()
    ensures Deep(u, depth + 1)
  {
  }

  lemma EmptyTidy()
    ensures Tidy([])
  {
  }

  // A finished source list: up on both sides.
  lemma GoingUp(c: Cursor, d: Cursor, depth: nat, want: MergeOutcome)
    requires Going(c, c.at + 1, d, depth, want) && c.at + 1 == |c.level|
    ensures depth == 0 ==> want == Merged(d.level, false)
    ensures depth > 0 ==>
      && c.up.Under? && d.up.Under? && Going(Close(c), Close(c).at + 1, Close(d), depth - 1, want)
      && ToGo(Close(c), Close(c).at + 1, depth - 1) == ToGo(c, c.at + 1, depth)
  {
    hide MergeList, Walk, Tidy;
    assert c.level[c.at + 1..] == [];
    WalkUp(Waiting(c.up, depth), d.level, d.up);
    if depth > 0 {
      var c' := Close(c);
      assert Waiting(c.up, depth)[1..] == Waiting(c.up.up, depth - 1);
      assert c'.level[c'.at + 1..] == c.up.sibs[c.up.at + 1..];
      KidsTidy(d.up.sibs, d.up.at, d.level);
      assert Count([]) == 0;
    }
  }

  // --- the target spot and the list the merge was called on ---

  ghost predicate Above(u: Path, n: nat, base: Path) {
    if n == 0 then u == base else u.Below? && Above(u.up, n - 1, base)
  }

  // The first block of the list `n` levels up.
  ghost function HeadAbove(u: Path, n: nat, first: Block): Block {
    if n == 0 || u.Outer? || u.sibs == [] then first else HeadAbove(u.up, n - 1, u.sibs[0].block)
  }

  ghost predicate From(z: Spot, n: nat, base: Path, head: Block) {
    z.level != [] && Above(z.up, n, base) && HeadAbove(z.up, n, z.level[0].block) == head
  }

  lemma FromUp(z: Spot, n: nat, base: Path, head: Block)
    requires From(z, n, base, head) && n > 0 && Inside(z)
    ensures From(Up(z), n - 1, base, head)
  {
  }

  // Seen from the list of the call, the target is what Base says.
  lemma {:induction false} ToBase(m: Memory, z: Spot, n: nat, base: Path, head: Block) returns (r: Spot)
    requires Valid(m, z) && From(z, n, base, head) && Deep(CursorOf(z).up, n)
    ensures Valid(m, r) && r.up == base && r.level[0].block == head
    ensures Forest(r.level) == Base(Forest(z.level), CursorOf(z).up, n)
    decreases n
  {
    hide Blocks, Valid, ApartSpot, Apart, CursorOf, Base, Deep, From, Forest, Up, Inside;
    if n == 0 {
      NoSteps(m, z, base, head);
      r := z;
    } else {
      BaseStep(m, z, n, base, head);
      r := ToBase(m, Up(z), n - 1, base, head);
    }
  }

  lemma NoSteps(m: Memory, z: Spot, base: Path, head: Block)
    requires Valid(m, z) && From(z, 0, base, head)
    ensures z.up == base && z.level[0].block == head && Base(Forest(z.level), CursorOf(z).up, 0) == Forest(z.level)
  {
  }

  lemma BaseStep(m: Memory, z: Spot, n: nat, base: Path, head: Block)
    requires Valid(m, z) && From(z, n, base, head) && n > 0 && Deep(CursorOf(z).up, n)
    ensures Inside(z) && Valid(m, Up(z)) && From(Up(z), n - 1, base, head) && Deep(CursorOf(Up(z)).up, n - 1)
    ensures Base(Forest(z.level), CursorOf(z).up, n) == Base(Forest(Up(z).level), CursorOf(Up(z)).up, n - 1)
  {
    hide Blocks, LinkedSpot, Apart, ApartSpot, HeadAbove;
    assert Inside(z) by { IsInside(m, z); }
    Turn(m, z);
    FromUp(z, n, base, head);
    Views(m, z);
    Views(m, Up(z));
    hide CursorOf;
    assert CursorOf(Up(z)).level == Closed(CursorOf(z).level, CursorOf(z).up);
  }

  lemma IsInside(m: Memory, z: Spot)
    requires Valid(m, z) && z.up.Below?
    ensures Inside(z)
  {
  }

  // A cursor is the picture without the blocks.
  lemma Views(m: Memory, z: Spot)
    requires Valid(m, z)
    ensures CursorOf(z).level == Forest(z.level) && CursorOf(z).at == z.at < |z.level|
    ensures CursorOf(z).up.Under? <==> z.up.Below?
    ensures |Forest(z.level)| == |z.level|
    ensures forall i :: 0 <= i < |z.level| ==>
      Forest(z.level)[i].entry == z.level[i].entry && (Forest(z.level)[i].kids == [] <==> z.level[i].kids == [])
  {
    hide Blocks;
    forall i | 0 <= i < |z.level| ensures Forest(z.level)[i].kids == [] <==> z.level[i].kids == [] {
      assert |Forest(z.level[i].kids)| == |z.level[i].kids|;
    }
  }

  // What the call reports of an outcome.
  ghost function Ends(o: MergeOutcome): Ended {
    match o
    case Merged(_, _) => Returned
    case NoKey => NullKey
    case NoList => NullList
    case Orphaned => LostParent
  }

  // What the caller sees agrees with the outcome of the merge.
  ghost predicate Agrees(want: MergeOutcome, r: Ended, m: Memory, z: Spot, base: Path, head: Block)
    reads m.Keys
  {
    && r == Ends(want)
    && (want.Merged? ==>
          Current(m) && Valid(m, z) && z.up == base && z.level[0].block == head && Forest(z.level) == want.list)
  }

  // --- searching a list ---

  // Is there a block with this key?  The search rewinds to the first block.
  method HasKey(dst: Block, key: string, ghost m: Memory, ghost z: Spot) returns (found: bool)
    requires Current(m) && Valid(m, z) && dst == z.Here()
    ensures found <==> FindKey(Forest(z.level), key) < |z.level|
  {
    hide Blocks, Valid, FindKey, Cell, Forest, Owner;
    var tmp: Block? := TconfigReader.Leftmost(dst, m, z);
    ghost var i: nat := 0;
    while tmp != null
      invariant i <= |z.level| && tmp == if i < |z.level| then z.level[i].block else null
      invariant forall j :: 0 <= j < i ==> !(z.level[j].entry.Pair? && z.level[j].entry.key == key)
      decreases |z.level| - i
    {
      TconfigReader.LevelRead(m, z, i);
      if tmp.key != None && tmp.key.value == key {
        KeyIs(z.level, key, i);
        return true;
      }
      tmp, i := tmp.next, i + 1;
    }
    KeyIs(z.level, key, i);
    return false;
  }

  lemma KeyIs(s: seq<Shape>, key: string, i: nat)
    requires i <= |s| && (i < |s| ==> s[i].entry.Pair? && s[i].entry.key == key)
    requires forall j :: 0 <= j < i ==> !(s[j].entry.Pair? && s[j].entry.key == key)
    ensures FindKey(Forest(s), key) == i
  {
    hide FindKey;
    var k := FindKey(Forest(s), key);
  }

  // Does any block have a key?
  method AnyKey(dst: Block, ghost m: Memory, ghost z: Spot) returns (found: bool)
    requires Current(m) && Valid(m, z) && dst == z.Here()
    ensures found <==> exists j :: 0 <= j < |Forest(z.level)| && Forest(z.level)[j].entry.Pair?
  {
    hide Blocks, Valid, Cell, Forest, Owner;
    var tmp: Block? := TconfigReader.Leftmost(dst, m, z);
    ghost var i: nat := 0;
    while tmp != null
      invariant i <= |z.level| && tmp == if i < |z.level| then z.level[i].block else null
      invariant forall j :: 0 <= j < i ==> !z.level[j].entry.Pair?
      decreases |z.level| - i
    {
      TconfigReader.LevelRead(m, z, i);
      if tmp.key != None {
        assert Forest(z.level)[i].entry.Pair?;
        return true;
      }
      tmp, i := tmp.next, i + 1;
    }
    return false;
  }

  // Forward to the last block, or to a blank one, which is the last.
  method LastBlock(dst: Block, ghost m: Memory, ghost z: Spot) returns (last: Block)
    requires Current(m) && Valid(m, z) && dst == z.Here() && Tidy(Forest(z.level))
    ensures last == z.level[|z.level| - 1].block && last in m
    ensures last.key == None <==> z.level[|z.level| - 1].entry == Blank
  {
    hide Blocks, Valid, Cell, Owner, Tidy, Forest, Apart, Linked;
    TidyShape(z.level);
    last := dst;
    ghost var i: nat := z.at;
    TconfigReader.LevelRead(m, z, i);
    while last.next != null && last.key != None
      invariant i < |z.level| && last == z.level[i].block && last in m
      invariant last.next == if i + 1 < |z.level| then z.level[i + 1].block else null
      invariant last.key == None <==> z.level[i].entry == Blank
      decreases |z.level| - i
    {
      last, i := last.next, i + 1;
      TconfigReader.LevelRead(m, z, i);
    }
  }

  lemma TidyShape(s: seq<Shape>)
    requires Tidy(Forest(s))
    ensures forall i :: 0 <= i < |s| - 1 ==> s[i].entry.Pair?
  {
  }

  // --- adding a block ---

  // Into a blank last block, or behind the last one; without strings only the first happens.
  method AddBlock(dst: Block, key: Option<string>, value: Option<string>, ghost e: Entry, ghost m: Memory,
      ghost z: Spot)
    returns (b: Block, ghost m': Memory, ghost z': Spot)
    requires Current(m) && Valid(m, z) && dst == z.Here() && Tidy(Forest(z.level))
    requires if e.Pair? then key == Some(e.key) && value == Some(e.value) else key == None && value == None
    requires e == Blank ==> z.level[|z.level| - 1].entry == Blank
    modifies m.Keys
    ensures Current(m') && Valid(m', z') && b == z'.Here() && z'.up == z.up && z'.at == Place(Forest(z.level))
    ensures m.Keys <= m'.Keys && fresh(m'.Keys - m.Keys)
    ensures z'.level[0].block == z.level[0].block
    ensures Forest(z'.level) == Added(Forest(z.level), e)
  {
    hide Blocks, Valid, ApartSpot, Cell, TopBlock, Owner, Tidy, CursorOf, Forest, Place, Added;
    var last := LastBlock(dst, m, z);
    if last.key != None {
      b, m', z' := AppendStrings(last, key, value, e, m, z);
    } else {
      m', z' := FillStrings(last, key, value, e, m, z);
      b := last;
    }
  }

  method AppendStrings(last: Block, key: Option<string>, value: Option<string>, ghost e: Entry, ghost m: Memory,
      ghost z: Spot)
    returns (b: Block, ghost m': Memory, ghost z': Spot)
    requires Current(m) && Valid(m, z) && last == z.level[|z.level| - 1].block
    requires e.Pair? && key == Some(e.key) && value == Some(e.value) && z.level[|z.level| - 1].entry != Blank
    modifies m.Keys
    ensures Current(m') && Valid(m', z') && b == z'.Here() && z'.up == z.up && z'.at == Place(Forest(z.level))
    ensures m.Keys <= m'.Keys && fresh(m'.Keys - m.Keys)
    ensures z'.level[0].block == z.level[0].block
    ensures Forest(z'.level) == Added(Forest(z.level), e)
  {
    hide Blocks, Valid, ApartSpot, TopBlock, Owner, CursorOf, Longer, Forest, Place, Added;
    hide AppendSpot;
    b := new Block();
    AppendStep(m, z, b, e);
    AppendedShape(z, b, e);
    b.key, b.value := key, value;
    last.next := b;
    b.prev := last;
    m', z' := WithNext(m, last, b, e), AppendSpot(z, b, e);
  }

  method FillStrings(last: Block, key: Option<string>, value: Option<string>, ghost e: Entry, ghost m: Memory,
      ghost z: Spot)
    returns (ghost m': Memory, ghost z': Spot)
    requires Current(m) && Valid(m, z) && last == z.level[|z.level| - 1].block
    requires if e.Pair? then key == Some(e.key) && value == Some(e.value) else key == None && value == None
    requires z.level[|z.level| - 1].entry == Blank
    modifies m.Keys
    ensures Current(m') && Valid(m', z') && last == z'.Here() && z'.up == z.up && z'.at == Place(Forest(z.level))
    ensures m'.Keys == m.Keys
    ensures z'.level[0].block == z.level[0].block
    ensures Forest(z'.level) == Added(Forest(z.level), e)
  {
    hide Blocks, Valid, ApartSpot, Cell, TopBlock, Owner, CursorOf, LastEntry, Forest, Place, Added;
    hide FilledSpot;
    FilledShape(z, e);
    MoveTo(m, z, |z.level| - 1);
    TconfigReader.LevelRead(m, z, |z.level| - 1);
    m', z' := m, Spot(z.level, |z.level| - 1, z.up);
    if e.Pair? {
      FilledStep(m, z, e.key, e.value);
      m', z' := WithPair(m, last, e.key, e.value), FilledSpot(z, e.key, e.value);
    }
    last.key := key;
    last.value := value;
  }

  lemma AppendedShape(z: Spot, b: Block, e: Entry)
    requires z.level != [] && z.level[|z.level| - 1].entry != Blank
    ensures var r := AppendSpot(z, b, e);
      && r.at == Place(Forest(z.level)) && r.level != [] && r.level[0].block == z.level[0].block
      && r.at < |r.level| && r.Here() == b && r.up == z.up
      && Forest(r.level) == Added(Forest(z.level), e)
  {
    AppendForest(z.level, b, e);
  }

  lemma FilledShape(z: Spot, e: Entry)
    requires z.level != [] && z.level[|z.level| - 1].entry == Blank
    ensures Place(Forest(z.level)) == |z.level| - 1
    ensures e == Blank ==> Added(Forest(z.level), e) == Forest(z.level)
    ensures e.Pair? ==>
      var r := FilledSpot(z, e.key, e.value);
      && |r.level| == |z.level| && r.level[0].block == z.level[0].block && r.at == |z.level| - 1 && r.up == z.up
      && r.Here() == z.level[|z.level| - 1].block && Forest(r.level) == Added(Forest(z.level), e)
  {
    hide Forest;
    var last := |z.level| - 1;
    assert Forest(z.level)[last].entry == Blank;
    if e.Pair? {
      FilledForest(z.level, e.key, e.value);
    }
  }

  lemma MoveTo(m: Memory, z: Spot, at: nat)
    requires Valid(m, z) && at < |z.level|
    ensures Valid(m, Spot(z.level, at, z.up))
    ensures CursorOf(Spot(z.level, at, z.up)) == CursorOf(z).(at := at)
  {
  }

  // The first child for a new parent block.
  method AddChild(b: Block, ghost m: Memory, ghost z: Spot) returns (child: Block, ghost m': Memory, ghost z': Spot)
    requires Current(m) && Valid(m, z) && b == z.Here()
    modifies m.Keys
    ensures Current(m') && Valid(m', z') && child == z'.Here()
    ensures m.Keys <= m'.Keys && fresh(m'.Keys - m.Keys)
    ensures z'.up == Below(Attach(z.level, z.at, []), z.at, z.up)
    ensures CursorOf(z') == Cursor(BLANK, 0, Under(SetKids(Forest(z.level), z.at, []), z.at, CursorOf(z).up))
  {
    hide Blocks, Valid, ApartSpot, CursorOf, ChildSpot, SetKids, Forest, Attach, WithChild;
    HereCell(m, z);
    child := new Block();
    NewChildStep(m, z, child);
    NewChildShape(z, child);
    NewChildNow(m, b, child);
    b.child := child;
    child.parent := b;
    m', z' := WithChild(m, b, child), ChildSpot(Bare(z), child);
  }

  lemma NewChildShape(z: Spot, b: Block)
    requires z.at < |z.level|
    ensures var r := ChildSpot(Bare(z), b);
      r.at == 0 < |r.level| && r.Here() == b && r.up == Below(Attach(z.level, z.at, []), z.at, z.up)
  {
  }

  lemma NewChildNow(m: Memory, owner: Block, b: Block)
    requires owner in m && b !in m
    ensures WithChild(m, owner, b) == m[owner := m[owner].(child := b)][b := EMPTY.(parent := owner)]
  {
  }

  // --- one source block ---

  // The strings of a source block.
  ghost predicate Strings(e: Entry, key: Option<string>, value: Option<string>) {
    if e.Pair? then key == Some(e.key) && value == Some(e.value) else key == None && value == None
  }

  // A leaf: nothing if its key is there, unless it is marked.
  method MergeLeafBlock(key: Option<string>, value: Option<string>, dst: Block, ghost e: Entry, ghost m: Memory,
      ghost z: Spot)
    returns (r: Ended, b: Block, ghost m': Memory, ghost z': Spot)
    requires Current(m) && Valid(m, z) && dst == z.Here() && Tidy(Forest(z.level)) && Strings(e, key, value)
    modifies m.Keys
    ensures r == if MergeLeaf(e, Forest(z.level)).Merged? then Returned else NullKey
    ensures MergeLeaf(e, Forest(z.level)).Merged? || MergeLeaf(e, Forest(z.level)) == NoKey
    ensures r == Returned ==>
      && Current(m') && Valid(m', z') && b == z'.Here() && z'.up == z.up && z'.level[0].block == z.level[0].block
      && MergeLeaf(e, Forest(z.level)) == Merged(Forest(z'.level), false)
    ensures r == Returned ==> m.Keys <= m'.Keys && fresh(m'.Keys - m.Keys)
  {
    hide Blocks, Valid, ApartSpot, CursorOf, Forest, Added, FindKey, Tidy, Place;
    // the search, or else the test for the mark, reads the key
    if key == None { return NullKey, dst, m, z; }
    var found := HasKey(dst, key.value, m, z);
    if found && !(key.value != "" && key.value[0] == '@') { return Returned, dst, m, z; }
    var name := if key.value != "" && key.value[0] == '@' then key.value[1..] else key.value;
    b, m', z' := AddBlock(dst, Some(name), value, Pair(Stripped(e.key), e.value), m, z);
    r := Returned;
  }

  // The spot `z'` is the child list that a source parent `t` is merged into from `z`; its
  // owner is block `i` of the list `l`.
  ghost predicate Entered(t: Tree, z: Spot, l: seq<Tree>, i: nat, z': Spot)
    requires z.level != [] && ApartSpot(z')
  {
    && i < |l| && Tidy(l) && Tidy(Forest(z'.level)) && z'.level != []
    && z'.up.Below? && z'.up.up == z.up && z'.up.sibs != [] && z'.up.sibs[0].block == z.level[0].block
    && (ApartSpot(z) ==> CursorOf(z').up == Under(SetKids(l, i, []), i, CursorOf(z).up))
    && MergeTree(t, Forest(z.level), z.up.Below?) == WithKids(l, i, MergeList(t.kids, Forest(z'.level), true))
  }

  // A parent: the child list of the block with the same strings, or of a new one.
  method EnterParent(key: Option<string>, value: Option<string>, dst: Block, ghost t: Tree, ghost m: Memory,
      ghost z: Spot)
    returns (r: Ended, b: Block, ghost l: seq<Tree>, ghost i: nat, ghost m': Memory, ghost z': Spot)
    requires Current(m) && Valid(m, z) && dst == z.Here() && Tidy(Forest(z.level)) && Strings(t.entry, key, value)
    requires t.kids != [] && !Wild(t)
    modifies m.Keys
    ensures r != Returned ==>
      var o := MergeTree(t, Forest(z.level), z.up.Below?); !o.Merged? && r == Ends(o)
    ensures r == Returned ==>
      Current(m') && Valid(m', z') && b == z'.Here() && Entered(t, z, l, i, z')
    ensures r == Returned ==> m.Keys <= m'.Keys && fresh(m'.Keys - m.Keys)
  {
    hide Blocks, Apart, Linked, LinkedAround, LinkedPath, LinkedSpot, ApartPath, ApartSpot, Valid;
    hide ContextOf, CursorOf, Forest, Find, FindKey, MergeTree, MergeList, MergeWild, MergeLeaf;
    hide Entered, Tidy, TidyContext, Down, Up, Attach, SetKids, ListOf, Going, ToGo, From, Walk;
    hide Count, CountAll, BelowSpot, Cell, Owner, Current;
    var found;
    if key == None {
      // strcmp reads the key if there is a key to compare it with
      var any := AnyKey(dst, m, z);
      KeylessParent(t, Forest(z.level), z.up.Below?);
      if any { return NullKey, dst, [], 0, m, z; }
      NoPairs(z.level);
    } else {
      var tmp; ghost var at;
      found, tmp, at := TconfigReader.Search(dst, key.value, value.value, m, z);
      if found {
        ChildRead(m, z, at);
        BlockNow(m, tmp);
        ChildlessParent(t, Forest(z.level), z.up.Below?);
        if tmp.child == null { return NullList, dst, [], 0, m, z; }
        FoundEntered(m, z, t, at);
        return Returned, tmp.child, Forest(z.level), at, m, Down(Spot(z.level, at, z.up));
      }
    }
    r, b, l, i, m', z' := MakeParent(key, value, dst, t, m, z);
  }

  lemma KeylessParent(t: Tree, l: seq<Tree>, owned: bool)
    requires l != [] && t.kids != [] && t.entry == Blank
    ensures (exists j :: 0 <= j < |l| && l[j].entry.Pair?) ==> MergeTree(t, l, owned) == NoKey
  {
  }

  lemma ChildlessParent(t: Tree, l: seq<Tree>, owned: bool)
    requires l != [] && t.kids != [] && t.entry.Pair? && !Wild(t)
    ensures Find(l, t.entry) < |l| && l[Find(l, t.entry)].kids == [] ==> MergeTree(t, l, owned) == NoList
  {
  }

  // No match: a new parent block with a blank child.
  method MakeParent(key: Option<string>, value: Option<string>, dst: Block, ghost t: Tree, ghost m: Memory,
      ghost z: Spot)
    returns (r: Ended, b: Block, ghost l: seq<Tree>, ghost i: nat, ghost m': Memory, ghost z': Spot)
    requires Current(m) && Valid(m, z) && dst == z.Here() && Tidy(Forest(z.level)) && Strings(t.entry, key, value)
    requires t.kids != [] && !Wild(t)
    requires t.entry.Pair? ==> Find(Forest(z.level), t.entry) == |z.level|
    requires t.entry == Blank ==> !exists j :: 0 <= j < |Forest(z.level)| && Forest(z.level)[j].entry.Pair?
    requires t.entry == Blank ==> z.level[|z.level| - 1].entry == Blank
    modifies m.Keys
    ensures r == Returned || (r == LostParent && MergeTree(t, Forest(z.level), z.up.Below?) == Orphaned)
    ensures r == Returned ==>
      Current(m') && Valid(m', z') && b == z'.Here() && Entered(t, z, l, i, z')
    ensures r == Returned ==> m.Keys <= m'.Keys && fresh(m'.Keys - m.Keys)
  {
    hide Blocks, Apart, Linked, LinkedAround, LinkedPath, LinkedSpot, ApartPath, ApartSpot, Valid;
    hide ContextOf, CursorOf, Forest, Find, FindKey, MergeTree, MergeList, MergeWild, MergeLeaf;
    hide Entered, Tidy, TidyContext, Down, Up, Attach, SetKids, ListOf, Going, ToGo, From, Walk;
    hide Count, CountAll, BelowSpot, Cell, Owner, Current;
    var owner;
    owner, m', z' := AddBlock(dst, key, value, t.entry, m, z);
    ParentRead(m', z', z, t.entry);
    NewParent(t, z);
    BlockNow(m', owner);
    // the parent pointer is cleared here
    if owner.parent != null { return LostParent, dst, [], 0, m, z; }
    ghost var zo := z';
    b, m', z' := AddChild(owner, m', z');
    NewEntered(t, m', z, zo, z');
    return Returned, b, Forest(zo.level), zo.at, m', z';
  }

  lemma BlockNow(m: Memory, b: Block)
    requires Current(m) && b in m
    ensures b.Now() == m[b] && b.parent == m[b].parent && b.child == m[b].child && b.next == m[b].next
    ensures b.key == m[b].key && b.value == m[b].value
  {
  }

  lemma NewParent(t: Tree, z: Spot)
    requires t.kids != [] && !Wild(t) && z.level != []
    requires t.entry.Pair? ==> Find(Forest(z.level), t.entry) == |z.level|
    requires t.entry == Blank ==> !exists j :: 0 <= j < |Forest(z.level)| && Forest(z.level)[j].entry.Pair?
    ensures MergeTree(t, Forest(z.level), z.up.Below?) ==
      if Loses(Forest(z.level), z.up.Below?) then Orphaned
      else WithKids(Added(Forest(z.level), t.entry), Place(Forest(z.level)), MergeList(t.kids, BLANK, true))
  {
    hide Find, MergeList, Added, Place;
  }

  lemma NoPairs(s: seq<Shape>)
    requires s != [] && !exists j :: 0 <= j < |Forest(s)| && Forest(s)[j].entry.Pair?
    ensures s[|s| - 1].entry == Blank
  {
    assert Forest(s)[|s| - 1].entry == s[|s| - 1].entry;
  }

  lemma ChildRead(m: Memory, z: Spot, at: nat)
    requires Valid(m, z) && at < |z.level|
    ensures z.level[at].block in m && m[z.level[at].block].child == First(z.level[at].kids)
    ensures First(z.level[at].kids) == null <==> z.level[at].kids == []
    ensures Forest(z.level)[at].kids == [] <==> z.level[at].kids == []
    ensures |Forest(z.level)| == |z.level|
  {
    hide Valid, Blocks;
    CellAt(m, z, at);
    Views(m, z);
  }

  lemma FoundEntered(m: Memory, z: Spot, t: Tree, at: nat)
    requires Valid(m, z) && at < |z.level| && z.level[at].kids != [] && Tidy(Forest(z.level))
    requires t.kids != [] && !Wild(t) && t.entry.Pair? && Find(Forest(z.level), t.entry) == at
    ensures var z' := Down(Spot(z.level, at, z.up));
      Valid(m, z') && First(z.level[at].kids) == z'.Here() && Entered(t, z, Forest(z.level), at, z')
  {
    hide Blocks, LinkedSpot, Apart, Find, MergeList, Tidy, Linked, ApartSpot, CursorOf, MergeTree;
    hide Open;
    MoveTo(m, z, at);
    DownStep(m, Spot(z.level, at, z.up));
    ChildRead(m, z, at);
    KidIsTidy(Forest(z.level), at);
    Views(m, z);
    FoundOpen(CursorOf(z), at);
    FoundMerge(t, Forest(z.level), z.up.Below?, at);
  }

  lemma FoundOpen(c: Cursor, at: nat)
    requires c.Valid() && at < |c.level| && c.level[at].kids != []
    ensures Open(c.(at := at)).up == Under(SetKids(c.level, at, []), at, c.up)
  {
  }

  lemma FoundMerge(t: Tree, l: seq<Tree>, owned: bool, at: nat)
    requires t.kids != [] && !Wild(t) && t.entry.Pair? && Find(l, t.entry) == at < |l| && l[at].kids != []
    ensures MergeTree(t, l, owned) == WithKids(l, at, MergeList(t.kids, l[at].kids, true))
  {
    hide Find, MergeList;
  }

  // Whose parent pointer is set.
  lemma ParentRead(m: Memory, z: Spot, z0: Spot, e: Entry)
    requires Valid(m, z) && z0.level != [] && z.up == z0.up && z.at == Place(Forest(z0.level))
    ensures z.Here() in m
    ensures m[z.Here()].parent != null <==> Loses(Forest(z0.level), z0.up.Below?)
  {
    hide Blocks, Apart, Linked;
    HereCell(m, z);
    assert Owner(z.up) == null <==> z.up.Outer? by { OwnerThere(m, z); }
  }

  lemma OwnerThere(m: Memory, z: Spot)
    requires Valid(m, z)
    ensures Owner(z.up) == null <==> z.up.Outer?
  {
    hide Blocks, Apart, Linked, LinkedAround;
  }

  lemma NewEntered(t: Tree, m: Memory, z: Spot, zo: Spot, z': Spot)
    requires t.kids != [] && !Wild(t) && z.level != [] && Tidy(Forest(z.level)) && zo.level != []
    requires t.entry.Pair? ==> Find(Forest(z.level), t.entry) == |z.level|
    requires t.entry == Blank ==> !exists j :: 0 <= j < |Forest(z.level)| && Forest(z.level)[j].entry.Pair?
    requires !Loses(Forest(z.level), z.up.Below?)
    requires zo.up == z.up && zo.level[0].block == z.level[0].block
        && Forest(zo.level) == Added(Forest(z.level), t.entry)
    requires zo.at == Place(Forest(z.level)) && ApartSpot(zo)
    requires Valid(m, z') && z'.up == Below(Attach(zo.level, zo.at, []), zo.at, zo.up)
    requires CursorOf(z') == Cursor(BLANK, 0, Under(SetKids(Forest(zo.level), zo.at, []), zo.at, CursorOf(zo).up))
    ensures Entered(t, z, Forest(zo.level), zo.at, z')
  {
    hide Blocks, LinkedSpot, Apart, Find, MergeList, Tidy, Linked, ApartPath, MergeTree, Added;
    hide Place;
    AddedTidy(Forest(z.level), t.entry);
    BlankTidy();
    NewParent(t, z);
    assert Forest(z'.level) == BLANK;
  }

  // --- up on both sides ---

  // Rewinds the list, and from its first block to the owner.
  method OwnerOf(block: Block, ghost m: Memory, ghost z: Spot) returns (b: Block)
    requires Current(m) && Valid(m, z) && block == z.Here() && z.up.Below?
    ensures Inside(z) && Valid(m, Up(z)) && b == Up(z).Here() && b in m && CursorOf(Up(z)) == Close(CursorOf(z))
  {
    hide Blocks, Apart, Linked, LinkedAround, LinkedPath, LinkedSpot, ApartPath, ApartSpot, Valid;
    hide ContextOf, CursorOf, Forest, Find, FindKey, MergeTree, MergeList, MergeWild, MergeLeaf;
    hide Entered, Tidy, TidyContext, Down, Up, Attach, SetKids, ListOf, Going, ToGo, From, Walk;
    hide Count, CountAll, BelowSpot, Cell, Owner, Current;
    var left := TconfigReader.Leftmost(block, m, z);
    OwnerUp(m, z);
    b := left.parent;
  }

  lemma OwnerUp(m: Memory, z: Spot)
    requires Valid(m, z) && z.up.Below?
    ensures Inside(z) && Valid(m, Up(z)) && CursorOf(Up(z)) == Close(CursorOf(z))
    ensures Owner(z.up) == Up(z).Here() && Owner(z.up) in m
  {
    hide Blocks, Apart, LinkedSpot, CursorOf, Close;
    IsInside(m, z);
    Turn(m, z);
    HereCell(m, Up(z));
  }

  // What the loops read of the block they stand at.
  lemma HereRead(m: Memory, z: Spot)
    requires Current(m) && Valid(m, z)
    ensures var b, t := z.Here(), CursorOf(z).level[z.at];
      && CursorOf(z).at == z.at && b in m && Strings(t.entry, b.key, b.value)
      && (b.child == null <==> t.kids == [])
      && b.next == (if z.at + 1 < |z.level| then z.level[z.at + 1].block else null)
    ensures |CursorOf(z).level| == |z.level| && CursorOf(z).level == Forest(z.level)
    ensures CursorOf(z).up.Under? <==> z.up.Below?
  {
    hide Blocks, Valid;
    Views(m, z);
    HereCell(m, z);
    BlockNow(m, z.Here());
  }

  // After a block without children: up while the source list is finished, then on.
  method Climb(src0: Block, dst0: Block, depth0: nat, ghost ms: Memory, ghost zs0: Spot, ghost m: Memory,
               ghost z0: Spot, ghost want: MergeOutcome, ghost base: Path, ghost head: Block)
    returns (done: bool, src: Block, dst: Block, depth: nat, ghost zs: Spot, ghost z: Spot)
    requires Current(ms) && Valid(ms, zs0) && src0 == zs0.Here()
    requires Current(m) && Valid(m, z0) && dst0 == z0.Here()
    requires Going(CursorOf(zs0), zs0.at + 1, CursorOf(z0), depth0, want) && From(z0, depth0, base, head)
    ensures done ==> Agrees(want, Returned, m, z, base, head)
    ensures !done ==>
      && Valid(ms, zs) && src == zs.Here() && Valid(m, z) && dst == z.Here()
      && Going(CursorOf(zs), zs.at, CursorOf(z), depth, want) && From(z, depth, base, head)
      && ToGo(CursorOf(zs), zs.at, depth) <= ToGo(CursorOf(zs0), zs0.at + 1, depth0)
  {
    hide Blocks, Apart, Linked, LinkedAround, LinkedPath, LinkedSpot, ApartPath, ApartSpot, Valid;
    hide ContextOf, CursorOf, Forest, Find, FindKey, MergeTree, MergeList, MergeWild, MergeLeaf;
    hide Entered, Tidy, TidyContext, Down, Up, Attach, SetKids, ListOf, Going, ToGo, From, Walk;
    hide Count, CountAll, BelowSpot, Cell, Owner, Current;
    src, dst, depth, zs, z := src0, dst0, depth0, zs0, z0;
    HereRead(ms, zs);
    while src.next == null
      invariant Valid(ms, zs) && src == zs.Here() && Valid(m, z) && dst == z.Here()
      invariant src.next == if zs.at + 1 < |zs.level| then zs.level[zs.at + 1].block else null
      invariant Going(CursorOf(zs), zs.at + 1, CursorOf(z), depth, want) && From(z, depth, base, head)
      invariant ToGo(CursorOf(zs), zs.at + 1, depth) <= ToGo(CursorOf(zs0), zs0.at + 1, depth0)
      decreases depth
    {
      HereRead(ms, zs);
      HereRead(m, z);
      GoingUp(CursorOf(zs), CursorOf(z), depth, want);
      if depth == 0 {
        AtBase(m, z, want, base, head);
        return true, src, dst, depth, zs, z;
      }
      src := OwnerOf(src, ms, zs);
      dst := OwnerOf(dst, m, z);
      FromUp(z, depth, base, head);
      zs, z := Up(zs), Up(z);
      depth := depth - 1;
      HereRead(ms, zs);
    }
    HereRead(ms, zs);
    MoveTo(ms, zs, zs.at + 1);
    GoingNext(CursorOf(zs), CursorOf(z), depth, want);
    return false, src.next, dst, depth, Spot(zs.level, zs.at + 1, zs.up), z;
  }

  lemma GoingNext(c: Cursor, d: Cursor, depth: nat, want: MergeOutcome)
    requires Going(c, c.at + 1, d, depth, want) && c.at + 1 < |c.level|
    ensures Going(c.(at := c.at + 1), c.at + 1, d, depth, want)
    ensures ToGo(c.(at := c.at + 1), c.at + 1, depth) == ToGo(c, c.at + 1, depth)
  {
    hide Walk, Tidy;
  }

  lemma AtBase(m: Memory, z: Spot, want: MergeOutcome, base: Path, head: Block)
    requires Current(m) && Valid(m, z) && From(z, 0, base, head)
    requires want.Merged? && want.list == CursorOf(z).level
    ensures Agrees(want, Returned, m, z, base, head)
  {
    hide Blocks, Valid;
    Views(m, z);
  }

  // --- a wildcard ---

  // The target keeps its place in the heap: the same list above, the same blocks.
  ghost predicate SamePlace(z: Spot, z': Spot) {
    z'.up == z.up && |z'.level| == |z.level| && forall i :: 0 <= i < |z.level| ==> z'.level[i].block == z.level[i].block
  }

  // The children of `src` into every block of the list that has its key.
  method MergeWildcard(src: Block, dst: Block, ghost ms: Memory, ghost zs: Spot, ghost m0: Memory,
      ghost z0: Spot, ghost t: Tree)
    returns (r: Ended, ghost m: Memory, ghost z: Spot)
    requires Current(ms) && Valid(ms, zs) && src == zs.Here() && CursorOf(zs).level[zs.at] == t && Wild(t)
    requires Current(m0) && Valid(m0, z0) && dst == z0.Here() && ms.Keys !! m0.Keys
    requires Tidy(Forest(z0.level)) && TidyContext(CursorOf(z0).up)
    modifies m0.Keys
    ensures r == Ends(MergeWild(t, Forest(z0.level), 0))
    ensures r == Returned ==>
      && Current(m) && Valid(m, z) && SamePlace(z0, z) && dst == z.Here()
      && MergeWild(t, Forest(z0.level), 0) == Merged(Forest(z.level), false)
    ensures r == Returned ==> m0.Keys <= m.Keys && fresh(m.Keys - m0.Keys)
    decreases Count(t.kids), 6
  {
    hide Blocks, Apart, Linked, LinkedAround, LinkedPath, LinkedSpot, ApartPath, ApartSpot, Valid;
    hide ContextOf, CursorOf, Forest, Find, FindKey, MergeTree, MergeList, MergeWild, MergeLeaf;
    hide Entered, Tidy, TidyContext, Down, Up, Attach, SetKids, ListOf, Going, ToGo, From, Walk;
    hide Count, CountAll, BelowSpot, Cell, Owner, Current, SamePlace;
    m, z := m0, z0;
    HereRead(ms, zs);
    WildRead(t);
    HereRead(m, z);
    SamePlaceSelf(z);
    assert z0.at < |z0.level|;
    var tmp: Block? := TconfigReader.Leftmost(dst, m, z);
    ghost var i: nat := 0;
    while tmp != null
      invariant Current(m) && ms.Keys !! m.Keys && m0.Keys <= m.Keys && fresh(m.Keys - m0.Keys)
      invariant Valid(m, z) && SamePlace(z0, z) && z.at == z0.at && i <= |z.level| == |z0.level|
      invariant tmp == if i < |z.level| then z.level[i].block else null
      invariant Tidy(Forest(z.level)) && TidyContext(CursorOf(z).up) && |Forest(z.level)| == |z.level|
      invariant MergeWild(t, Forest(z.level), i) == MergeWild(t, Forest(z0.level), 0)
      decreases |z.level| - i
    {
      TconfigReader.LevelRead(m, z, i);
      WildStep(t, z.level, i);
      BlockNow(m, tmp);
      if tmp.key != None && tmp.key.value == src.key.value {
        ghost var was := z;
        r, m, z := MergeBelow(src, tmp, ms, zs, m, z, i, t);
        if r != Returned { return; }
        SamePlaceTrans(z0, was, z);
        SameBlock(was, z, i);
        MoveTo(m, z, z0.at);
        z := Spot(z.level, z0.at, z.up);
        TconfigReader.LevelRead(m, z, i);
        BlockNow(m, tmp);
      }
      tmp, i := tmp.next, i + 1;
    }
    WildEnd(t, z.level);
    SamePlaceHere(z0, z);
    r := Returned;
  }

  lemma WildRead(t: Tree)
    requires Wild(t)
    ensures t.entry.Pair? && t.kids != []
  {
  }

  lemma SamePlaceSelf(z: Spot)
    ensures SamePlace(z, z)
  {
  }

  lemma SamePlaceTrans(a: Spot, b: Spot, c: Spot)
    requires SamePlace(a, b) && SamePlace(b, c)
    ensures SamePlace(a, Spot(c.level, a.at, c.up)) && |c.level| == |b.level| == |a.level| && c.up == a.up
  {
  }

  lemma SameBlock(a: Spot, b: Spot, i: nat)
    requires SamePlace(a, b) && i < |a.level|
    ensures i < |b.level| && b.level[i].block == a.level[i].block
  {
  }

  lemma SamePlaceHere(a: Spot, b: Spot)
    requires SamePlace(a, b) && a.at == b.at < |a.level|
    ensures a.Here() == b.Here() && a.level[0].block == b.level[0].block
  {
  }

  lemma WildStep(t: Tree, s: seq<Shape>, i: nat)
    requires i < |s| && t.entry.Pair?
    ensures var l := Forest(s);
      if s[i].entry.Pair? && s[i].entry.key == t.entry.key then
        var o := MergeList(t.kids, ListOf(l[i]), true);
        MergeWild(t, l, i) == if o.Merged? then MergeWild(t, SetKids(l, i, o.list), i + 1) else o
      else MergeWild(t, l, i) == MergeWild(t, l, i + 1)
  {
    hide MergeList;
  }

  lemma WildEnd(t: Tree, s: seq<Shape>)
    requires s != [] && t.entry.Pair?
    ensures MergeWild(t, Forest(s), |s|) == Merged(Forest(s), false)
  {
  }

  // The children of `src` into one block, which gets a child list if it has none.
  method MergeBelow(src: Block, tmp: Block, ghost ms: Memory, ghost zs: Spot, ghost m0: Memory, ghost z0: Spot,
      ghost i: nat, ghost t: Tree)
    returns (r: Ended, ghost m: Memory, ghost z: Spot)
    requires Current(ms) && Valid(ms, zs) && src == zs.Here() && CursorOf(zs).level[zs.at] == t && t.kids != []
    requires Current(m0) && Valid(m0, z0) && i < |z0.level| && tmp == z0.level[i].block && ms.Keys !! m0.Keys
    requires Tidy(Forest(z0.level)) && TidyContext(CursorOf(z0).up)
    modifies m0.Keys
    ensures r == Ends(MergeList(t.kids, ListOf(Forest(z0.level)[i]), true))
    ensures r == Returned ==>
      var o := MergeList(t.kids, ListOf(Forest(z0.level)[i]), true);
      && o.Merged? && Current(m) && Valid(m, z) && SamePlace(z0, z)
      && Forest(z.level) == SetKids(Forest(z0.level), i, o.list) && Tidy(Forest(z.level))
          && CursorOf(z).up == CursorOf(z0).up
    ensures r == Returned ==> m0.Keys <= m.Keys && fresh(m.Keys - m0.Keys)
    decreases Count(t.kids), 5
  {
    hide Blocks, Apart, Linked, LinkedAround, LinkedPath, LinkedSpot, ApartPath, ApartSpot, Valid;
    hide ContextOf, CursorOf, Forest, Find, FindKey, MergeTree, MergeList, MergeWild, MergeLeaf;
    hide Entered, Tidy, TidyContext, Down, Up, Attach, SetKids, ListOf, Going, ToGo, From, Walk;
    hide Count, CountAll, BelowSpot, Cell, Owner, Current;
    ghost var zi := Spot(z0.level, i, z0.up);
    MoveTo(m0, z0, i);
    HereRead(ms, zs);
    HereRead(m0, zi);
    BelowTidy(z0, i);
    BlockNow(m0, tmp);
    var child: Block;
    if tmp.child == null {
      child, m, z := AddChild(tmp, m0, zi);
      NewBelow(zi, z);
    } else {
      child, m, z := tmp.child, m0, Down(zi);
      OldBelow(m0, zi);
    }
    ghost var z1 := z;
    SourceDown(ms, zs);
    BelowReads(z1, zi);
    r, m, z := Merge(src.child, child, ms, Down(zs), m, z1);
    if r != Returned { return; }
    BelowDone(m, zi, z1, z);
    MergeTidy(t.kids, ListOf(Forest(z0.level)[i]), true);
    KidsTidy(Forest(z0.level), i, MergeList(t.kids, ListOf(Forest(z0.level)[i]), true).list);
    z := Up(z);
  }

  // The child list of the block in sight, as the target of a merge of its own.
  ghost predicate BelowSpot(zi: Spot, z1: Spot)
    requires ApartSpot(zi) && ApartSpot(z1)
  {
    && z1.up == Below(Attach(zi.level, zi.at, []), zi.at, zi.up)
    && CursorOf(z1) == Cursor(ListOf(Forest(zi.level)[zi.at]), 0,
        Under(SetKids(Forest(zi.level), zi.at, []), zi.at, CursorOf(zi).up))
  }

  lemma NewBelow(zi: Spot, z1: Spot)
    requires ApartSpot(zi) && ApartSpot(z1) && CursorOf(zi).level[zi.at].kids == []
    requires z1.up == Below(Attach(zi.level, zi.at, []), zi.at, zi.up)
    requires CursorOf(z1) == Cursor(BLANK, 0, Under(SetKids(Forest(zi.level), zi.at, []), zi.at, CursorOf(zi).up))
    ensures BelowSpot(zi, z1)
  {
    hide ApartPath, Apart, Blocks;
  }

  lemma OldBelow(m: Memory, zi: Spot)
    requires Valid(m, zi) && zi.Here() in m && m[zi.Here()].child != null
    ensures zi.level[zi.at].kids != [] && Valid(m, Down(zi)) && BelowSpot(zi, Down(zi))
    ensures m[zi.Here()].child == Down(zi).Here()
  {
    hide Blocks, LinkedSpot, Apart, ApartPath;
    HereCell(m, zi);
    DownStep(m, zi);
    Views(m, zi);
  }

  lemma BelowTidy(z: Spot, i: nat)
    requires ApartSpot(z) && i < |z.level| && Tidy(Forest(z.level)) && TidyContext(CursorOf(z).up)
    ensures Tidy(ListOf(Forest(z.level)[i])) && TidyContext(Under(SetKids(Forest(z.level), i, []), i, CursorOf(z).up))
  {
    hide Tidy, ApartSpot, Forest;
    KidIsTidy(Forest(z.level), i);
    EmptyTidy();
    KidsTidy(Forest(z.level), i, []);
  }

  lemma SourceDown(ms: Memory, zs: Spot)
    requires Current(ms) && Valid(ms, zs) && CursorOf(zs).level[zs.at].kids != []
    ensures zs.level[zs.at].kids != [] && Valid(ms, Down(zs)) && zs.Here() in ms
    ensures CursorOf(Down(zs)) == Open(CursorOf(zs)) && Down(zs).at == 0 == Open(CursorOf(zs)).at
    ensures CursorOf(Down(zs)).level[0..] == CursorOf(zs).level[zs.at].kids
    ensures zs.Here().child == Down(zs).Here()
  {
    hide Blocks, LinkedSpot, Apart, ApartPath;
    HereCell(ms, zs);
    Views(ms, zs);
    DownStep(ms, zs);
    BlockNow(ms, zs.Here());
  }

  lemma BelowReads(z1: Spot, zi: Spot)
    requires ApartSpot(zi) && ApartSpot(z1) && BelowSpot(zi, z1)
    ensures Forest(z1.level) == CursorOf(z1).level == ListOf(Forest(zi.level)[zi.at]) && z1.up.Below?
    ensures CursorOf(z1).up == Under(SetKids(Forest(zi.level), zi.at, []), zi.at, CursorOf(zi).up)
  {
    hide ApartPath, Apart, Blocks;
  }

  lemma BelowDone(m: Memory, zi: Spot, z1: Spot, z: Spot)
    requires ApartSpot(zi) && ApartSpot(z1) && BelowSpot(zi, z1) && Valid(m, z) && z.up == z1.up
    ensures Inside(z) && Valid(m, Up(z)) && SamePlace(zi, Up(z)) && Up(z).at == zi.at
    ensures Forest(Up(z).level) == SetKids(Forest(zi.level), zi.at, Forest(z.level))
    ensures CursorOf(Up(z)).up == CursorOf(zi).up
  {
    hide Blocks, LinkedSpot, Apart, Close, CursorOf, ApartSpot, Valid, Forest;
    IsInside(m, z);
    OwnerUp(m, z);
    ShapeUp(zi, z);
    SameContext(zi, Up(z));
  }

  lemma ShapeUp(zi: Spot, z: Spot)
    requires zi.at < |zi.level| && Inside(z) && z.up == Below(Attach(zi.level, zi.at, []), zi.at, zi.up)
    ensures SamePlace(zi, Up(z)) && Up(z).at == zi.at && Up(z).up == zi.up
    ensures Forest(Up(z).level) == SetKids(Forest(zi.level), zi.at, Forest(z.level))
  {
    hide Blocks, Forest;
    AttachForest(Attach(zi.level, zi.at, []), zi.at, z.level);
    AttachForest(zi.level, zi.at, []);
  }

  // --- the whole merge ---

  lemma GoingTidy(c: Cursor, d: Cursor, depth: nat, want: MergeOutcome)
    requires Going(c, c.at, d, depth, want)
    ensures Tidy(d.level) && TidyContext(d.up) && c.at < |c.level|
    ensures c.level[c.at].kids != [] ==> Count(c.level[c.at].kids) < ToGo(c, c.at, depth)
  {
    hide Walk, Tidy;
    assert c.level[c.at..][0] == c.level[c.at];
  }

  lemma FromStart(z: Spot)
    requires z.level != []
    ensures From(z, 0, z.up, z.level[0].block)
  {
  }

  lemma FromSame(z: Spot, z': Spot, n: nat, base: Path, head: Block)
    requires From(z, n, base, head) && z'.up == z.up && z'.level != [] && z'.level[0].block == z.level[0].block
    ensures From(z', n, base, head)
  {
  }

  lemma FromDown(z: Spot, z': Spot, n: nat, base: Path, head: Block)
    requires From(z, n, base, head) && z'.level != []
    requires z'.up.Below? && z'.up.up == z.up && z'.up.sibs != [] && z'.up.sibs[0].block == z.level[0].block
    ensures From(z', n + 1, base, head)
  {
  }

  lemma SameContext(z: Spot, z': Spot)
    requires ApartSpot(z) && ApartSpot(z') && z'.up == z.up
    ensures CursorOf(z').up == CursorOf(z).up
  {
  }

  // What a source block decides.
  lemma Decides(t: Tree, l: seq<Tree>, owned: bool)
    requires l != []
    ensures Wild(t) ==> MergeTree(t, l, owned) == MergeWild(t, l, 0)
    ensures t.kids == [] ==> MergeTree(t, l, owned) == MergeLeaf(t.entry, l) && !Wild(t)
  {
  }

  lemma FailEnds(o: MergeOutcome, m: Memory, z: Spot, base: Path, head: Block)
    requires !o.Merged?
    ensures Agrees(o, Ends(o), m, z, base, head)
  {
  }

  lemma EnteredGoing(zs: Spot, z: Spot, z': Spot, depth: nat, want: MergeOutcome, l: seq<Tree>, i: nat,
      base: Path, head: Block)
    requires ApartSpot(zs) && ApartSpot(z) && ApartSpot(z')
    requires Going(CursorOf(zs), zs.at, CursorOf(z), depth, want) && From(z, depth, base, head)
    requires var t := CursorOf(zs).level[zs.at]; t.kids != [] && !Wild(t) && Entered(t, z, l, i, z')
    ensures Going(Open(CursorOf(zs)), 0, CursorOf(z'), depth + 1, want) && From(z', depth + 1, base, head)
    ensures ToGo(Open(CursorOf(zs)), 0, depth + 1) < ToGo(CursorOf(zs), zs.at, depth)
  {
    hide Walk, Tidy, MergeTree, MergeList, Apart, Blocks, ApartPath, Open;
    assert CursorOf(z).level == Forest(z.level) && CursorOf(z').level == Forest(z'.level);
    assert CursorOf(z).up.Under? <==> z.up.Below?;
    GoingDown(CursorOf(zs), CursorOf(z), depth, want, l, i, CursorOf(z'));
    FromDown(z, z', depth, base, head);
  }

  // The source block and the list that the walk has come to, with the outcome to come.
  ghost predicate On(src: Block, dst: Block, depth: nat, ms: Memory, zs: Spot, m: Memory, z: Spot,
                     want: MergeOutcome, base: Path, head: Block)
    ensures On(src, dst, depth, ms, zs, m, z, want, base, head) ==> Valid(ms, zs) && Valid(m, z)
  {
    && Valid(ms, zs) && src == zs.Here() && Valid(m, z) && dst == z.Here()
    && Going(CursorOf(zs), zs.at, CursorOf(z), depth, want) && From(z, depth, base, head)
  }

  ghost function Left(zs: Spot, depth: nat): nat
    requires ApartSpot(zs)
  {
    ToGo(CursorOf(zs), zs.at, depth)
  }

  // A wildcard block.
  method WildBlock(src0: Block, dst: Block, depth: nat, ghost ms: Memory, ghost zs0: Spot, ghost m0: Memory,
               ghost z0: Spot, ghost want: MergeOutcome, ghost base: Path, ghost head: Block)
    returns (r: Ended, src: Block?, ghost zs: Spot, ghost m: Memory, ghost z: Spot)
    requires Current(ms) && Current(m0) && ms.Keys !! m0.Keys && On(src0, dst, depth, ms, zs0, m0, z0, want, base, head)
    requires src0.child != null && src0.value == Some("*")
    modifies m0.Keys
    ensures src == null ==> Agrees(want, r, m, z, base, head)
    ensures src != null ==> On(src, dst, depth, ms, zs, m, z, want, base, head) && Left(zs, depth) < Left(zs0, depth)
    ensures src != null || r == Returned ==> Current(m) && m0.Keys <= m.Keys && fresh(m.Keys - m0.Keys)
    decreases Left(zs0, depth), 1
  {
    hide Blocks, Apart, Linked, LinkedAround, LinkedPath, LinkedSpot, ApartPath, ApartSpot, Valid;
    hide ContextOf, CursorOf, Forest, Find, FindKey, MergeTree, MergeList, MergeWild, MergeLeaf;
    hide Entered, Tidy, TidyContext, Down, Up, Attach, SetKids, ListOf, Going, ToGo, From, Walk;
    hide Count, CountAll, BelowSpot, Cell, Owner, Current;
    zs := zs0;
    HereRead(ms, zs0);
    r, m, z := WildMerged(src0, dst, depth, ms, zs0, m0, z0, want, base, head);
    if r != Returned {
      return r, null, zs, m, z;
    }
    src := src0.next;
    if src == null {
      z := WalkStopped(m, z, depth, want, base, head);
    } else {
      MoveTo(ms, zs, zs.at + 1);
      zs := Spot(zs.level, zs.at + 1, zs.up);
    }
  }

  method WildMerged(src: Block, dst: Block, depth: nat, ghost ms: Memory, ghost zs: Spot, ghost m0: Memory,
                    ghost z0: Spot, ghost want: MergeOutcome, ghost base: Path, ghost head: Block)
    returns (r: Ended, ghost m: Memory, ghost z: Spot)
    requires Current(ms) && Current(m0) && ms.Keys !! m0.Keys && On(src, dst, depth, ms, zs, m0, z0, want, base, head)
    requires src.child != null && src.value == Some("*")
    modifies m0.Keys
    ensures r != Returned ==> Agrees(want, r, m, z, base, head)
    ensures r == Returned ==>
      && Current(m) && Valid(m, z) && dst == z.Here() && m0.Keys <= m.Keys && fresh(m.Keys - m0.Keys)
      && From(z, depth, base, head) && WildOn(CursorOf(zs), CursorOf(z), depth, want)
    decreases Left(zs, depth), 0
  {
    hide Blocks, Apart, Linked, LinkedAround, LinkedPath, LinkedSpot, ApartPath, ApartSpot, Valid;
    hide ContextOf, CursorOf, Forest, Find, FindKey, MergeTree, MergeList, MergeWild, MergeLeaf;
    hide Entered, Tidy, TidyContext, Down, Up, Attach, SetKids, ListOf, Going, ToGo, From, Walk;
    hide Count, CountAll, BelowSpot, Cell, Owner, Current;
    hide WildOn;
    HereRead(ms, zs);
    HereRead(m0, z0);
    ghost var c, d := CursorOf(zs), CursorOf(z0);
    ghost var t := c.level[c.at];
    GoingTidy(c, d, depth, want);
    Decides(t, d.level, d.up.Under?);
    IsWild(t, src.key, src.value);
    r, m, z := MergeWildcard(src, dst, ms, zs, m0, z0, t);
    if r != Returned {
      GoingFails(c, d, depth, want);
      FailEnds(want, m, z, base, head);
      return;
    }
    SameContext(z0, z);
    HereRead(m, z);
    SamePlaceFirst(z0, z);
    FromSame(z0, z, depth, base, head);
    WildGoesOn(c, d, depth, want, CursorOf(z));
  }

  // Behind the source block at `c`, the target being at `d`: the merge is done, or goes on.
  ghost predicate WildOn(c: Cursor, d: Cursor, depth: nat, want: MergeOutcome) {
    && c.at < |c.level| && d.Valid()
    && (c.at + 1 == |c.level| ==> Deep(d.up, depth) && want == Merged(Base(d.level, d.up, depth), true))
    && (c.at + 1 < |c.level| ==>
         var next := c.(at := c.at + 1);
         Going(next, next.at, d, depth, want) && ToGo(next, next.at, depth) < ToGo(c, c.at, depth))
  }

  lemma WildGoesOn(c: Cursor, d: Cursor, depth: nat, want: MergeOutcome, d': Cursor)
    requires Going(c, c.at, d, depth, want) && d'.Valid() && d'.up == d.up && c.at < |c.level| && Wild(c.level[c.at])
    requires MergeTree(c.level[c.at], d.level, d.up.Under?) == Merged(d'.level, false)
    ensures WildOn(c, d', depth, want)
  {
    hide MergeTree, Going, ToGo, Walk, Base, Wild;
    GoingOn(c, d, depth, want, d');
    DeepTarget(c, d, depth, want);
    if c.at + 1 < |c.level| {
      GoingNext(c, d', depth, want);
    }
  }

  lemma DeepTarget(c: Cursor, d: Cursor, depth: nat, want: MergeOutcome)
    requires Going(c, c.at, d, depth, want)
    ensures Deep(d.up, depth)
  {
  }

  // A parent block: down on both sides.
  method ParentBlock(src0: Block, dst0: Block, depth: nat, ghost ms: Memory, ghost zs0: Spot, ghost m0: Memory,
               ghost z0: Spot, ghost want: MergeOutcome, ghost base: Path, ghost head: Block)
    returns (r: Ended, src: Block?, dst: Block, ghost zs: Spot, ghost m: Memory, ghost z: Spot)
    requires Current(ms) && Current(m0) && ms.Keys !! m0.Keys
        && On(src0, dst0, depth, ms, zs0, m0, z0, want, base, head)
    requires src0.child != null && src0.value != Some("*")
    modifies m0.Keys
    ensures src == null ==> Agrees(want, r, m, z, base, head) && r != Returned
    ensures src != null ==>
      On(src, dst, depth + 1, ms, zs, m, z, want, base, head) && Left(zs, depth + 1) < Left(zs0, depth)
    ensures src != null ==> Current(m) && m0.Keys <= m.Keys && fresh(m.Keys - m0.Keys)
  {
    hide Blocks, Apart, Linked, LinkedAround, LinkedPath, LinkedSpot, ApartPath, ApartSpot, Valid;
    hide ContextOf, CursorOf, Forest, Find, FindKey, MergeTree, MergeList, MergeWild, MergeLeaf;
    hide Entered, Tidy, TidyContext, Down, Up, Attach, SetKids, ListOf, Going, ToGo, From, Walk;
    hide Count, CountAll, BelowSpot, Cell, Owner, Current;
    HereRead(ms, zs0);
    HereRead(m0, z0);
    ghost var c, d := CursorOf(zs0), CursorOf(z0);
    ghost var t := c.level[c.at];
    GoingTidy(c, d, depth, want);
    IsWild(t, src0.key, src0.value);
    ghost var l, i := [], 0;
    r, dst, l, i, m, z := EnterParent(src0.key, src0.value, dst0, t, m0, z0);
    if r != Returned {
      GoingFails(c, d, depth, want);
      FailEnds(want, m, z, base, head);
      return r, null, dst0, zs0, m, z;
    }
    EnteredGoing(zs0, z0, z, depth, want, l, i, base, head);
    SourceDown(ms, zs0);
    return r, src0.child, dst, Down(zs0), m, z;
  }

  // A leaf, and the climb behind it.
  method LeafBlock(src0: Block, dst0: Block, depth0: nat, ghost ms: Memory, ghost zs0: Spot, ghost m0: Memory,
               ghost z0: Spot, ghost want: MergeOutcome, ghost base: Path, ghost head: Block)
    returns (r: Ended, src: Block?, dst: Block, depth: nat, ghost zs: Spot, ghost m: Memory, ghost z: Spot)
    requires Current(ms) && Current(m0) && ms.Keys !! m0.Keys
        && On(src0, dst0, depth0, ms, zs0, m0, z0, want, base, head)
    requires src0.child == null
    modifies m0.Keys
    ensures src == null ==> Agrees(want, r, m, z, base, head)
    ensures src != null ==> On(src, dst, depth, ms, zs, m, z, want, base, head) && Left(zs, depth) < Left(zs0, depth0)
    ensures src != null || r == Returned ==> Current(m) && m0.Keys <= m.Keys && fresh(m.Keys - m0.Keys)
  {
    hide Blocks, Apart, Linked, LinkedAround, LinkedPath, LinkedSpot, ApartPath, ApartSpot, Valid;
    hide ContextOf, CursorOf, Forest, Find, FindKey, MergeTree, MergeList, MergeWild, MergeLeaf;
    hide Entered, Tidy, TidyContext, Down, Up, Attach, SetKids, ListOf, Going, ToGo, From, Walk;
    hide Count, CountAll, BelowSpot, Cell, Owner, Current;
    HereRead(ms, zs0);
    HereRead(m0, z0);
    ghost var c, d := CursorOf(zs0), CursorOf(z0);
    ghost var t := c.level[c.at];
    GoingTidy(c, d, depth0, want);
    Decides(t, d.level, d.up.Under?);
    r, dst, m, z := MergeLeafBlock(src0.key, src0.value, dst0, t.entry, m0, z0);
    if r != Returned {
      GoingFails(c, d, depth0, want);
      FailEnds(want, m, z, base, head);
      return r, null, dst0, depth0, zs0, m, z;
    }
    SameContext(z0, z);
    FromSame(z0, z, depth0, base, head);
    HereRead(m, z);
    GoingOn(c, d, depth0, want, CursorOf(z));
    var done, next;
    done, next, dst, depth, zs, z := Climb(src0, dst, depth0, ms, zs0, m, z, want, base, head);
    src := if done then null else next;
  }

  // One turn of the loop of tconfig_merge.
  method OneBlock(src0: Block, dst0: Block, depth0: nat, ghost ms: Memory, ghost zs0: Spot, ghost m0: Memory,
               ghost z0: Spot, ghost want: MergeOutcome, ghost base: Path, ghost head: Block)
    returns (r: Ended, src: Block?, dst: Block, depth: nat, ghost zs: Spot, ghost m: Memory, ghost z: Spot)
    requires Current(ms) && Current(m0) && ms.Keys !! m0.Keys
        && On(src0, dst0, depth0, ms, zs0, m0, z0, want, base, head)
    modifies m0.Keys
    ensures src == null ==> Agrees(want, r, m, z, base, head)
    ensures src != null ==> On(src, dst, depth, ms, zs, m, z, want, base, head) && Left(zs, depth) < Left(zs0, depth0)
    ensures src != null || r == Returned ==> Current(m) && m0.Keys <= m.Keys && fresh(m.Keys - m0.Keys)
    decreases Left(zs0, depth0), 2
  {
    hide Blocks, Apart, Linked, LinkedAround, LinkedPath, LinkedSpot, ApartPath, ApartSpot, Valid;
    hide ContextOf, CursorOf, Forest, Find, FindKey, MergeTree, MergeList, MergeWild, MergeLeaf;
    hide Entered, Tidy, TidyContext, Down, Up, Attach, SetKids, ListOf, Going, ToGo, From, Walk;
    hide Count, CountAll, BelowSpot, Cell, Owner, Current, On, Agrees, Left;
    dst, depth := dst0, depth0;
    if src0.child != null {
      if src0.value == Some("*") {
        r, src, zs, m, z := WildBlock(src0, dst0, depth0, ms, zs0, m0, z0, want, base, head);
      } else {
        r, src, dst, zs, m, z := ParentBlock(src0, dst0, depth0, ms, zs0, m0, z0, want, base, head);
        depth := depth0 + 1;
      }
    } else {
      r, src, dst, depth, zs, m, z := LeafBlock(src0, dst0, depth0, ms, zs0, m0, z0, want, base, head);
    }
  }

  // tconfig_merge on the block of `zs0` and the list of `z0`.
  method Merge(src0: Block?, dst0: Block?, ghost ms: Memory, ghost zs0: Spot, ghost m0: Memory, ghost z0: Spot)
    returns (r: Ended, ghost m: Memory, ghost z: Spot)
    requires Current(m0) && ms.Keys !! m0.Keys
    requires src0 != null && dst0 != null ==> Current(ms) && Valid(ms, zs0) && src0 == zs0.Here()
    requires src0 != null && dst0 != null ==>
      Valid(m0, z0) && dst0 == z0.Here() && Tidy(CursorOf(z0).level) && TidyContext(CursorOf(z0).up)
    modifies m0.Keys
    ensures src0 == null || dst0 == null ==> r == Returned && m == m0 && z == z0 && Current(m)
    ensures src0 != null && dst0 != null ==>
      Agrees(MergeList(CursorOf(zs0).level[zs0.at..], Forest(z0.level), z0.up.Below?), r, m, z, z0.up,
          z0.level[0].block)
    ensures r == Returned ==> m0.Keys <= m.Keys && fresh(m.Keys - m0.Keys)
    decreases if src0 != null && dst0 != null then Count(CursorOf(zs0).level[zs0.at..]) else 0, 4
  {
    if src0 == null || dst0 == null { return Returned, m0, z0; }
    hide Blocks, Apart, Linked, LinkedAround, LinkedPath, LinkedSpot, ApartPath, ApartSpot, Valid;
    hide ContextOf, CursorOf, Forest, Find, FindKey, MergeTree, MergeList, MergeWild, MergeLeaf;
    hide Entered, Tidy, TidyContext, Down, Up, Attach, SetKids, ListOf, Going, ToGo, From, Walk;
    hide Count, CountAll, BelowSpot, Cell, Owner, Current, On, Agrees, Left;
    OnStarts(src0, dst0, ms, zs0, m0, z0);
    r, m, z := MergeFrom(src0, dst0, ms, zs0, m0, z0,
                         MergeList(CursorOf(zs0).level[zs0.at..], Forest(z0.level), z0.up.Below?), z0.up,
                             z0.level[0].block);
  }

  // The loop of tconfig_merge.
  method MergeFrom(src0: Block, dst0: Block, ghost ms: Memory, ghost zs0: Spot, ghost m0: Memory, ghost z0: Spot,
                   ghost want: MergeOutcome, ghost base: Path, ghost head: Block)
    returns (r: Ended, ghost m: Memory, ghost z: Spot)
    requires Current(ms) && Current(m0) && ms.Keys !! m0.Keys && On(src0, dst0, 0, ms, zs0, m0, z0, want, base, head)
    modifies m0.Keys
    ensures Agrees(want, r, m, z, base, head)
    ensures r == Returned ==> m0.Keys <= m.Keys && fresh(m.Keys - m0.Keys)
    decreases Left(zs0, 0), 3
  {
    hide Blocks, Apart, Linked, LinkedAround, LinkedPath, LinkedSpot, ApartPath, ApartSpot, Valid;
    hide ContextOf, CursorOf, Forest, Find, FindKey, MergeTree, MergeList, MergeWild, MergeLeaf;
    hide Entered, Tidy, TidyContext, Down, Up, Attach, SetKids, ListOf, Going, ToGo, From, Walk;
    hide Count, CountAll, BelowSpot, Cell, Owner, Current, On, Agrees, Left;
    r, m, z := Returned, m0, z0;
    ghost var zs := zs0;
    var src: Block? := src0;
    var dst: Block, depth: nat := dst0, 0;
    while src != null
      invariant Current(ms)
      invariant src != null || r == Returned ==> m0.Keys <= m.Keys && fresh(m.Keys - m0.Keys)
      invariant src == null ==> Agrees(want, r, m, z, base, head)
      invariant src != null ==>
        && Current(m) && ms.Keys !! m.Keys && On(src, dst, depth, ms, zs, m, z, want, base, head)
        && Left(zs, depth) <= Left(zs0, 0)
      decreases if src == null then 0 else Left(zs, depth) + 1
    {
      r, src, dst, depth, zs, m, z := OneBlock(src, dst, depth, ms, zs, m, z, want, base, head);
    }
  }

  lemma OnStarts(src: Block, dst: Block, ms: Memory, zs: Spot, m: Memory, z: Spot)
    requires Valid(ms, zs) && src == zs.Here() && Current(ms)
    requires Valid(m, z) && dst == z.Here() && Current(m) && Tidy(CursorOf(z).level) && TidyContext(CursorOf(z).up)
    ensures zs.at <= |CursorOf(zs).level| && z.level != [] && Forest(z.level) != []
    ensures On(src, dst, 0, ms, zs, m, z, MergeList(CursorOf(zs).level[zs.at..], Forest(z.level), z.up.Below?),
        z.up, z.level[0].block)
    ensures zs.at < |CursorOf(zs).level| && Left(zs, 0) == Count(CursorOf(zs).level[zs.at..])
  {
    hide Blocks, Valid, ApartSpot, CursorOf, Forest, Tidy, TidyContext, MergeList, Going, ToGo;
    hide Count;
    HereRead(m, z);
    HereRead(ms, zs);
    GoingStarts(CursorOf(zs), CursorOf(z));
    FromStart(z);
  }

  lemma IsWild(t: Tree, key: Option<string>, value: Option<string>)
    requires Strings(t.entry, key, value)
    ensures Wild(t) <==> t.kids != [] && value == Some("*")
  {
  }

  lemma SamePlaceFirst(a: Spot, b: Spot)
    requires SamePlace(a, b) && a.level != []
    ensures b.up == a.up && b.level != [] && a.level[0].block == b.level[0].block
  {
  }

  // A wildcard at the end of a list ends everything.
  lemma WalkStopped(m: Memory, z: Spot, depth: nat, want: MergeOutcome, base: Path, head: Block) returns (r: Spot)
    requires Current(m) && Valid(m, z) && From(z, depth, base, head) && Deep(CursorOf(z).up, depth)
    requires want == Merged(Base(CursorOf(z).level, CursorOf(z).up, depth), true)
    ensures Agrees(want, Returned, m, r, base, head)
  {
    hide Base, Blocks, Valid, CursorOf;
    Views(m, z);
    r := ToBase(m, z, depth, base, head);
  }
}
