/**
 The changes that the users of src/tconfig.h make to linked blocks: a first child, strings
 for a blank last block, and a block behind the last one.  Each keeps the picture linked.
 */
module TconfigEdit {
  import opened Shared
  import opened TconfigText
  import opened TconfigHeap

  // --- a first child ---

  // The memory after a blank block `b` became the only child of the block in sight.
  ghost function WithChild(m: Memory, owner: Block, b: Block): Memory
    requires owner in m
  {
    m[owner := m[owner].(child := b)][b := EMPTY.(parent := owner)]
  }

  ghost function ChildSpot(z: Spot, b: Block): Spot {
    Spot([Node(b, Blank, [])], 0, Below(z.level, z.at, z.up))
  }

  lemma ChildApart(z: Spot, b: Block)
    requires ApartSpot(z) && z.level[z.at].kids == [] && b !in SpotBlocks(z)
    ensures ApartSpot(ChildSpot(z, b)) && SpotBlocks(ChildSpot(z, b)) == SpotBlocks(z) + {b}
    ensures CursorOf(ChildSpot(z, b)) == Open(CursorOf(z))
  {
    var s := [Node(b, Blank, [])];
    assert s[1..] == [] && Blocks(s) == {b} && Apart(s);
    assert Forest(s) == [Tree(Blank, [])];
  }

  lemma ChildAround(m: Memory, n: Memory, s: seq<Shape>, parent: Block?, at: nat, b: Block)
    requires Linked(m, s, parent) && at < |s| && s[at].kids == [] && Apart(s)
    requires Except(m, n, s[at].block)
    requires s[at].block in n && s[at].block in m && n[s[at].block] == m[s[at].block].(child := b)
    ensures LinkedAround(n, s, parent, at, b)
  {
    hide Blocks, Apart, Linked, Except;
    OthersLinked(m, n, s, at, parent);
  }

  lemma ChildLinked(m: Memory, z: Spot, b: Block)
    requires Valid(m, z) && z.level[z.at].kids == [] && b !in m
    ensures LinkedSpot(WithChild(m, z.Here(), b), ChildSpot(z, b))
  {
    hide Blocks, Apart, Linked, LinkedAround, LinkedPath;
    HereCell(m, z);
    var n := WithChild(m, z.Here(), b);
    SpotInside(m, z);
    HereApart(z);
    ChildAround(m, n, z.level, Owner(z.up), z.at, b);
    PathFrame(m, n, z.up, z.level[0].block);
    BlankLinked(n, b, z.Here());
    BelowLinked(n, z, b);
  }

  lemma BlankLinked(m: Memory, b: Block, parent: Block)
    requires b in m && m[b] == EMPTY.(parent := parent)
    ensures Linked(m, [Node(b, Blank, [])], parent)
  {
    assert Linked(m, [], b);
  }

  lemma BelowLinked(m: Memory, z: Spot, b: Block)
    requires z.at < |z.level| && LinkedAround(m, z.level, Owner(z.up), z.at, b)
    requires LinkedPath(m, z.up, z.level[0].block)
    ensures LinkedPath(m, ChildSpot(z, b).up, b)
  {
  }

  lemma ChildStep(m: Memory, z: Spot, b: Block)
    requires Valid(m, z) && z.level[z.at].kids == [] && b !in m
    ensures z.Here() in m && Valid(WithChild(m, z.Here(), b), ChildSpot(z, b))
    ensures CursorOf(ChildSpot(z, b)) == Open(CursorOf(z))
    ensures TopBlock(ChildSpot(z, b)) == TopBlock(z)
  {
    hide Blocks, LinkedSpot, ApartSpot, CursorOf, WithChild;
    HereCell(m, z);
    SpotInside(m, z);
    ChildApart(z, b);
    ChildLinked(m, z, b);
    assert TopBlock(ChildSpot(z, b)) == TopBlock(z);
  }

  // --- the list in sight ---

  // A new list in place of the one in sight, starting with the same block.
  lemma LevelStep(m: Memory, n: Memory, z: Spot, level: seq<Shape>, at: nat)
    requires Valid(m, z) && at < |level| && level[0].block == z.level[0].block
    requires Apart(level) && Blocks(level) !! PathBlocks(z.up)
    requires Linked(n, level, Owner(z.up)) && Same(m, n, PathBlocks(z.up))
    ensures Valid(n, Spot(level, at, z.up))
  {
    hide Blocks, Apart, Linked;
    PathFrame(m, n, z.up, z.level[0].block);
  }

  ghost function LastFilled(s: seq<Shape>, k: string, v: string): seq<Shape>
    requires s != []
  {
    s[|s| - 1 := s[|s| - 1].(entry := Pair(k, v))]
  }

  // The memory after block `b` was given its strings.
  ghost function WithPair(m: Memory, b: Block, k: string, v: string): Memory
    requires b in m
  {
    m[b := m[b].(key := Some(k), value := Some(v))]
  }

  lemma FilledBlocks(s: seq<Shape>, k: string, v: string)
    requires s != [] && Apart(s)
    ensures Blocks(LastFilled(s, k, v)) == Blocks(s) && Apart(LastFilled(s, k, v))
  {
    hide Blocks, Apart;
    var l, t := s[..|s| - 1], s[|s| - 1];
    var t' := t.(entry := Pair(k, v));
    assert s == l + [t] && LastFilled(s, k, v) == l + [t'];
    Concat(l, [t]);
    Concat(l, [t']);
    Singleton(t);
    Singleton(t');
  }

  lemma FilledForest(s: seq<Shape>, k: string, v: string)
    requires s != []
    ensures Forest(LastFilled(s, k, v)) == Forest(s)[|s| - 1 := Forest(s)[|s| - 1].(entry := Pair(k, v))]
  {
  }

  // Every block of the list but `at` is as it was, and so are all lists below.
  ghost predicate Others(n: Memory, s: seq<Shape>, at: nat, parent: Block?) {
    && (forall i :: 0 <= i < |s| ==> Linked(n, s[i].kids, s[i].block))
    && (forall i :: 0 <= i < |s| && i != at ==>
          s[i].block in n && n[s[i].block] == Cell(s, i, parent, First(s[i].kids)))
  }

  lemma CellsFilled(s: seq<Shape>, parent: Block?, k: string, v: string)
    requires s != []
    ensures var r, last, below := LastFilled(s, k, v), |s| - 1, First(s[|s| - 1].kids);
      Cell(r, last, parent, below) == Cell(s, last, parent, below).(key := Some(k), value := Some(v))
    ensures forall i :: 0 <= i < |s| - 1 ==>
      Cell(LastFilled(s, k, v), i, parent, First(s[i].kids)) == Cell(s, i, parent, First(s[i].kids))
  {
    forall i | 0 <= i < |s| - 1
      ensures Cell(LastFilled(s, k, v), i, parent, First(s[i].kids)) == Cell(s, i, parent, First(s[i].kids))
    {
      CellSame(s, LastFilled(s, k, v), i, parent, First(s[i].kids));
    }
  }

  lemma FilledCells(n: Memory, s: seq<Shape>, parent: Block?, k: string, v: string)
    requires s != [] && Others(n, s, |s| - 1, parent) && s[|s| - 1].block in n
    requires n[s[|s| - 1].block]
          == Cell(s, |s| - 1, parent, First(s[|s| - 1].kids)).(key := Some(k), value := Some(v))
    ensures Linked(n, LastFilled(s, k, v), parent)
  {
    hide Linked, Cell;
    var r := LastFilled(s, k, v);
    CellsFilled(s, parent, k, v);
    forall i | 0 <= i < |r|
      ensures r[i].block in n && n[r[i].block] == Cell(r, i, parent, First(r[i].kids))
      ensures Linked(n, r[i].kids, r[i].block)
    {
      assert r[i].block == s[i].block && r[i].kids == s[i].kids;
    }
    LinkedIntro(n, r, parent);
  }

  lemma FilledLinked(m: Memory, s: seq<Shape>, parent: Block?, k: string, v: string)
    requires Linked(m, s, parent) && Apart(s) && s != []
    ensures var b := s[|s| - 1].block;
      b in m && Linked(WithPair(m, b, k, v), LastFilled(s, k, v), parent)
  {
    hide Blocks, Apart, Linked, Filled;
    var last := |s| - 1;
    OthersLinked(m, m, s, last, parent);
    var b := s[last].block;
    var n := WithPair(m, b, k, v);
    OthersLinked(m, n, s, last, parent);
    FilledCells(n, s, parent, k, v);
  }

  lemma AppendBlocks(s: seq<Shape>, b: Block, e: Entry)
    requires Apart(s) && b !in Blocks(s)
    ensures var r := s + [Node(b, e, [])];
      Blocks(r) == Blocks(s) + {b} && Apart(r)
  {
    hide Blocks, Apart;
    var t := Node(b, e, []);
    Singleton(t);
    Concat(s, [t]);
    assert Blocks([]) == {} && Apart([]) by { Empty(); }
  }

  lemma Empty()
    ensures Blocks([]) == {} && Apart([])
  {
  }

  lemma AppendForest(s: seq<Shape>, b: Block, e: Entry)
    ensures Forest(s + [Node(b, e, [])]) == Forest(s) + [Tree(e, [])]
  {
  }

  // A block that only has its strings.
  ghost function StringsOf(e: Entry): Fields {
    if e.Pair? then EMPTY.(key := Some(e.key), value := Some(e.value)) else EMPTY
  }

  // The memory after block `b` was linked behind the last block of a list.
  ghost function WithNext(m: Memory, last: Block, b: Block, e: Entry): Memory
    requires last in m
  {
    m[last := m[last].(next := b)][b := StringsOf(e).(prev := last)]
  }

  // Only the last block of a list sees what is linked behind it.
  lemma CellsAppend(s: seq<Shape>, t: Shape, parent: Block?)
    requires s != []
    ensures forall i :: 0 <= i < |s| - 1 ==>
      Cell(s + [t], i, parent, First(s[i].kids)) == Cell(s, i, parent, First(s[i].kids))
    ensures var last, below := |s| - 1, First(s[|s| - 1].kids);
      Cell(s + [t], last, parent, below) == Cell(s, last, parent, below).(next := t.block)
    ensures t.kids == [] ==>
      Cell(s + [t], |s|, parent, First(t.kids)) == StringsOf(t.entry).(prev := s[|s| - 1].block)
  {
  }

  lemma AppendCells(n: Memory, s: seq<Shape>, parent: Block?, b: Block, e: Entry)
    requires s != [] && Others(n, s, |s| - 1, parent) && s[|s| - 1].block in n && b in n
    requires n[s[|s| - 1].block] == Cell(s, |s| - 1, parent, First(s[|s| - 1].kids)).(next := b)
    requires n[b] == StringsOf(e).(prev := s[|s| - 1].block)
    ensures Linked(n, s + [Node(b, e, [])], parent)
  {
    assert Linked(n, [], b);
    hide Linked, Cell;
    var t := Node(b, e, []);
    var r := s + [t];
    CellsAppend(s, t, parent);
    forall i | 0 <= i < |r|
      ensures r[i].block in n && n[r[i].block] == Cell(r, i, parent, First(r[i].kids))
      ensures Linked(n, r[i].kids, r[i].block)
    {
      assert i < |s| ==> r[i] == s[i];
    }
    LinkedIntro(n, r, parent);
  }

  lemma AppendLinked(m: Memory, s: seq<Shape>, parent: Block?, b: Block, e: Entry)
    requires Linked(m, s, parent) && Apart(s) && s != [] && b !in m
    ensures var last := s[|s| - 1].block;
      last in m && Linked(WithNext(m, last, b, e), s + [Node(b, e, [])], parent)
  {
    hide Blocks, Apart, Linked;
    var at := |s| - 1;
    OthersLinked(m, m, s, at, parent);
    var n := WithNext(m, s[at].block, b, e);
    OthersLinked(m, n, s, at, parent);
    AppendCells(n, s, parent, b, e);
  }

  ghost function FilledSpot(z: Spot, k: string, v: string): Spot
    requires z.level != []
  {
    Spot(LastFilled(z.level, k, v), |z.level| - 1, z.up)
  }

  // The cursor on the last tree, with this entry.
  function LastEntry(c: Cursor, e: Entry): Cursor
    requires c.level != []
  {
    var last := |c.level| - 1;
    c.(level := c.level[last := c.level[last].(entry := e)], at := last)
  }

  lemma FilledStep(m: Memory, z: Spot, k: string, v: string)
    requires Valid(m, z) && z.level[|z.level| - 1].entry == Blank
    ensures z.level[|z.level| - 1].block in m
    ensures Valid(WithPair(m, z.level[|z.level| - 1].block, k, v), FilledSpot(z, k, v))
    ensures CursorOf(FilledSpot(z, k, v)) == LastEntry(CursorOf(z), Pair(k, v))
    ensures TopBlock(FilledSpot(z, k, v)) == TopBlock(z)
  {
    hide Blocks, Apart, Linked, LinkedPath;
    var last := |z.level| - 1;
    LastApart(z);
    FilledLinked(m, z.level, Owner(z.up), k, v);
    FilledBlocks(z.level, k, v);
    FilledForest(z.level, k, v);
    LevelStep(m, WithPair(m, z.level[last].block, k, v), z, LastFilled(z.level, k, v), last);
  }

  lemma LastApart(z: Spot)
    requires ApartSpot(z)
    ensures z.level[|z.level| - 1].block !in PathBlocks(z.up)
  {
  }

  ghost function AppendSpot(z: Spot, b: Block, e: Entry): Spot {
    Spot(z.level + [Node(b, e, [])], |z.level|, z.up)
  }

  // The cursor on a leaf behind the last tree.
  function Longer(c: Cursor, e: Entry): Cursor {
    c.(level := c.level + [Tree(e, [])], at := |c.level|)
  }

  lemma AppendStep(m: Memory, z: Spot, b: Block, e: Entry)
    requires Valid(m, z) && b !in m
    ensures z.level[|z.level| - 1].block in m
    ensures Valid(WithNext(m, z.level[|z.level| - 1].block, b, e), AppendSpot(z, b, e))
    ensures CursorOf(AppendSpot(z, b, e)) == Longer(CursorOf(z), e)
    ensures TopBlock(AppendSpot(z, b, e)) == TopBlock(z)
  {
    hide Blocks, Apart, Linked, LinkedPath, Forest, WithNext, TopBlock, CursorOf, Longer;
    var last := z.level[|z.level| - 1].block;
    LastApart(z);
    SpotInside(m, z);
    AppendView(z, b, e);
    AppendLinked(m, z.level, Owner(z.up), b, e);
    AppendBlocks(z.level, b, e);
    LastSame(m, last, b, e, PathBlocks(z.up));
    LevelStep(m, WithNext(m, last, b, e), z, z.level + [Node(b, e, [])], |z.level|);
  }

  lemma LastSame(m: Memory, last: Block, b: Block, e: Entry, bs: set<Block>)
    requires last in m && last !in bs && b !in m
    ensures Same(m, WithNext(m, last, b, e), bs)
  {
  }

  lemma AppendView(z: Spot, b: Block, e: Entry)
    requires ApartSpot(z) && b !in SpotBlocks(z)
    ensures ApartSpot(AppendSpot(z, b, e))
    ensures CursorOf(AppendSpot(z, b, e)) == Longer(CursorOf(z), e)
    ensures TopBlock(AppendSpot(z, b, e)) == TopBlock(z)
  {
    hide Blocks, Apart, Forest;
    AppendBlocks(z.level, b, e);
    AppendForest(z.level, b, e);
  }
}
