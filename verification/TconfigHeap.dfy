/**
 The linked blocks of src/tconfig.h.  `Memory` is a ghost record of the fields of the
 blocks in use, a `Shape` a ghost picture of a forest that names the block at every node,
 and `Linked` says the recorded pointers form that picture.  Only the first block of a
 list carries `parent`.
 */
module TconfigHeap {
  import opened Shared
  import opened TconfigText

  class Block {
    var key: Option<string>
    var value: Option<string>
    var parent: Block?
    var child: Block?
    var prev: Block?
    var next: Block?

    constructor ()
      ensures Now() == EMPTY
    {
      key, value := None, None;
      parent, child, prev, next := null, null, null, null;
    }

    ghost function Now(): Fields
      reads this
    {
      Fields(key, value, parent, child, prev, next)
    }
  }

  datatype Fields = Fields(key: Option<string>, value: Option<string>,
                           parent: Block?, child: Block?, prev: Block?, next: Block?)

  ghost const EMPTY := Fields(None, None, null, null, null, null)

  type Memory = map<Block, Fields>

  // The record is what the blocks hold now.
  ghost predicate Current(m: Memory)
    reads m.Keys
  {
    forall b :: b in m ==> b.Now() == m[b]
  }

  datatype Shape = Node(block: Block, entry: Entry, kids: seq<Shape>)

  ghost function Blocks(s: seq<Shape>): (r: set<Block>)
    ensures forall i :: 0 <= i < |s| ==> s[i].block in r && Blocks(s[i].kids) <= r
  {
    if s == [] then {} else
      assert forall i :: 0 < i < |s| ==> s[i] == s[1..][i - 1];
      {s[0].block} + Blocks(s[0].kids) + Blocks(s[1..])
  }

  ghost function All(t: Shape): set<Block> { {t.block} + Blocks(t.kids) }

  // No block occurs twice.
  ghost predicate Apart(s: seq<Shape>)
    ensures Apart(s) ==> forall i :: 0 <= i < |s| ==> Apart(s[i].kids) && s[i].block !in Blocks(s[i].kids)
    ensures Apart(s) ==> forall i, j :: 0 <= i < j < |s| ==> All(s[i]) !! All(s[j])
  {
    s == [] ||
    (assert forall i :: 0 < i < |s| ==> s[i] == s[1..][i - 1] && All(s[1..][i - 1]) <= Blocks(s[1..]);
     && s[0].block !in Blocks(s[0].kids) && Apart(s[0].kids)
     && All(s[0]) !! Blocks(s[1..]) && Apart(s[1..]))
  }

  ghost function First(s: seq<Shape>): Block? { if s == [] then null else s[0].block }

  // The fields block `i` of a list has, given the owner of the list and its first child.
  ghost function Cell(s: seq<Shape>, i: nat, parent: Block?, child: Block?): Fields
    requires i < |s|
  {
    var e := s[i].entry;
    Fields(if e.Pair? then Some(e.key) else None,
           if e.Pair? then Some(e.value) else None,
           if i == 0 then parent else null,
           child,
           if i == 0 then null else s[i - 1].block,
           if i == |s| - 1 then null else s[i + 1].block)
  }

  ghost predicate Linked(m: Memory, s: seq<Shape>, parent: Block?)
    decreases s
  {
    forall i :: 0 <= i < |s| ==>
      && s[i].block in m && m[s[i].block] == Cell(s, i, parent, First(s[i].kids))
      && Linked(m, s[i].kids, s[i].block)
  }

  // Like Linked, but the child pointer of block `at` is `below` and its list is elsewhere.
  ghost predicate LinkedAround(m: Memory, s: seq<Shape>, parent: Block?, at: nat, below: Block) {
    forall i :: 0 <= i < |s| ==>
      && s[i].block in m && m[s[i].block] == Cell(s, i, parent, if i == at then below else First(s[i].kids))
      && Linked(m, s[i].kids, s[i].block)
  }

  // The forest a picture shows, without the blocks.
  ghost function Forest(s: seq<Shape>): (f: seq<Tree>)
    ensures |f| == |s|
    ensures forall i :: 0 <= i < |s| ==> f[i] == Tree(s[i].entry, Forest(s[i].kids))
  {
    if s == [] then [] else [Tree(s[0].entry, Forest(s[0].kids))] + Forest(s[1..])
  }

  // The blocks of `bs` hold the same in both memories.
  ghost predicate Same(m: Memory, n: Memory, bs: set<Block>) {
    forall b :: b in bs && b in m ==> b in n && n[b] == m[b]
  }

  lemma {:induction false} LinkedFrame(m: Memory, n: Memory, s: seq<Shape>, parent: Block?)
    requires Linked(m, s, parent) && Same(m, n, Blocks(s))
    ensures Linked(n, s, parent)
    decreases s
  {
    hide Blocks;
    forall i | 0 <= i < |s|
      ensures s[i].block in n && n[s[i].block] == m[s[i].block] && Linked(n, s[i].kids, s[i].block)
    {
      LinkedFrame(m, n, s[i].kids, s[i].block);
    }
  }

  lemma {:induction false} BlocksBound(s: seq<Shape>, bound: set<Block>)
    requires forall i :: 0 <= i < |s| ==> s[i].block in bound && Blocks(s[i].kids) <= bound
    ensures Blocks(s) <= bound
  {
    if s != [] {
      BlocksBound(s[1..], bound);
    }
  }

  lemma {:induction false} LinkedInside(m: Memory, s: seq<Shape>, parent: Block?)
    requires Linked(m, s, parent)
    ensures Blocks(s) <= m.Keys
    decreases s
  {
    hide Blocks;
    forall i | 0 <= i < |s| ensures s[i].block in m && Blocks(s[i].kids) <= m.Keys {
      LinkedInside(m, s[i].kids, s[i].block);
    }
    BlocksBound(s, m.Keys);
  }

  // --- lists put together ---

  lemma {:induction false} Concat(a: seq<Shape>, b: seq<Shape>)
    ensures Blocks(a + b) == Blocks(a) + Blocks(b)
    ensures Apart(a + b) <==> Apart(a) && Apart(b) && Blocks(a) !! Blocks(b)
  {
    if a == [] {
      assert a + b == b;
    } else {
      assert (a + b)[1..] == a[1..] + b;
      Concat(a[1..], b);
    }
  }

  // `s` with the list `kids` hung under its block `at`.
  ghost function Attach(s: seq<Shape>, at: nat, kids: seq<Shape>): seq<Shape>
    requires at < |s|
  {
    s[at := s[at].(kids := kids)]
  }

  lemma AttachSplits(s: seq<Shape>, at: nat, kids: seq<Shape>)
    requires at < |s| && s[at].kids == []
    ensures Blocks(Attach(s, at, kids)) == Blocks(s) + Blocks(kids)
    ensures Apart(Attach(s, at, kids)) <==> Apart(s) && Apart(kids) && Blocks(s) !! Blocks(kids)
  {
    var t := s[at].(kids := kids);
    var l, r := s[..at], s[at + 1..];
    assert s == l + ([s[at]] + r);
    assert Attach(s, at, kids) == l + ([t] + r);
    Concat([s[at]], r);
    Concat([t], r);
    Concat(l, [s[at]] + r);
    Concat(l, [t] + r);
    assert Blocks([s[at]]) == {t.block} && Blocks([t]) == {t.block} + Blocks(kids);
    assert Apart([s[at]]) && (Apart([t]) <==> t.block !in Blocks(kids) && Apart(kids));
  }

  lemma AttachForest(s: seq<Shape>, at: nat, kids: seq<Shape>)
    requires at < |s|
    ensures Forest(Attach(s, at, kids)) == Forest(s)[at := Forest(s)[at].(kids := Forest(kids))]
  {
  }

  lemma AttachLinked(m: Memory, s: seq<Shape>, at: nat, kids: seq<Shape>, parent: Block?)
    requires at < |s| && s[at].kids == [] && kids != []
    ensures Linked(m, Attach(s, at, kids), parent) <==>
            LinkedAround(m, s, parent, at, kids[0].block) && Linked(m, kids, s[at].block)
  {
    hide Blocks;
    var r := Attach(s, at, kids);
    assert Linked(m, [], s[at].block);
    AttachCells(s, at, kids, parent);
    hide Cell;
    assert r[at].kids == kids;
    assert forall i :: 0 <= i < |s| && i != at ==> r[i] == s[i];
  }

  lemma AttachCells(s: seq<Shape>, at: nat, kids: seq<Shape>, parent: Block?)
    requires at < |s| && kids != []
    ensures var r := Attach(s, at, kids); forall i :: 0 <= i < |s| ==>
      r[i].block == s[i].block && Cell(r, i, parent, First(r[i].kids))
           == Cell(s, i, parent, if i == at then kids[0].block else First(s[i].kids))
  {
    var r := Attach(s, at, kids);
    forall i | 0 <= i < |s|
      ensures r[i].block == s[i].block
      ensures Cell(r, i, parent, First(r[i].kids))
           == Cell(s, i, parent, if i == at then kids[0].block else First(s[i].kids))
    {
      CellSame(s, r, i, parent, First(r[i].kids));
    }
  }

  lemma CellSame(s: seq<Shape>, r: seq<Shape>, i: nat, parent: Block?, child: Block?)
    requires i < |s| == |r| && r[i].entry == s[i].entry
    requires i > 0 ==> r[i - 1].block == s[i - 1].block
    requires i + 1 < |s| ==> r[i + 1].block == s[i + 1].block
    ensures Cell(r, i, parent, child) == Cell(s, i, parent, child)
  {
  }

  // --- a picture seen from one block ---

  // The lists above the one in sight; `sibs[at]` owns the list below it.
  datatype Path = Outer | Below(sibs: seq<Shape>, at: nat, up: Path)

  datatype Spot = Spot(level: seq<Shape>, at: nat, up: Path)
  {
    ghost function Here(): Block
      requires at < |level|
    {
      level[at].block
    }
  }

  ghost function PathBlocks(u: Path): set<Block> {
    match u
    case Outer => {}
    case Below(sibs, _, up) => Blocks(sibs) + PathBlocks(up)
  }

  ghost function SpotBlocks(z: Spot): set<Block> { Blocks(z.level) + PathBlocks(z.up) }

  ghost predicate ApartPath(u: Path) {
    u.Below? ==>
      && u.at < |u.sibs| && u.sibs[u.at].kids == []
      && Apart(u.sibs) && Blocks(u.sibs) !! PathBlocks(u.up) && ApartPath(u.up)
  }

  ghost predicate ApartSpot(z: Spot) {
    z.at < |z.level| && Apart(z.level) && Blocks(z.level) !! PathBlocks(z.up) && ApartPath(z.up)
  }

  // The block that owns the list below `u`.
  ghost function Owner(u: Path): Block? {
    if u.Outer? || u.at >= |u.sibs| then null else u.sibs[u.at].block
  }

  // The lists above a list that starts with `below`.
  ghost predicate LinkedPath(m: Memory, u: Path, below: Block) {
    u.Below? ==>
      && u.at < |u.sibs| && LinkedAround(m, u.sibs, Owner(u.up), u.at, below)
      && LinkedPath(m, u.up, u.sibs[0].block)
  }

  ghost predicate LinkedSpot(m: Memory, z: Spot) {
    z.level != [] && Linked(m, z.level, Owner(z.up)) && LinkedPath(m, z.up, z.level[0].block)
  }

  ghost predicate Valid(m: Memory, z: Spot)
    ensures Valid(m, z) ==> z.at < |z.level| && ApartSpot(z)
  {
    ApartSpot(z) && LinkedSpot(m, z)
  }

  ghost function ContextOf(u: Path): (c: Context)
    requires ApartPath(u)
    ensures c.Valid()
  {
    match u
    case Outer => Top
    case Below(sibs, at, up) => Under(Forest(sibs), at, ContextOf(up))
  }

  // The reader's cursor a spot stands for.
  ghost function CursorOf(z: Spot): (c: Cursor)
    requires ApartSpot(z)
    ensures c.Valid() && (c.up.Top? <==> z.up.Outer?)
  {
    Cursor(Forest(z.level), z.at, ContextOf(z.up))
  }

  // --- moving the spot: the heap stays as it is ---

  // The spot is inside a child list.
  ghost predicate Inside(z: Spot) {
    && z.at < |z.level| && z.up.Below?
    && z.up.at < |z.up.sibs| && z.up.sibs[z.up.at].kids == []
  }

  ghost function Up(z: Spot): Spot
    requires Inside(z)
  {
    var u := z.up;
    Spot(Attach(u.sibs, u.at, z.level), u.at, u.up)
  }

  ghost function Down(z: Spot): (r: Spot)
    requires z.at < |z.level| && z.level[z.at].kids != []
    ensures Inside(r) && Up(r) == z
  {
    var t := z.level[z.at];
    var sibs := Attach(z.level, z.at, []);
    assert Attach(sibs, z.at, t.kids) == z.level;
    Spot(t.kids, 0, Below(sibs, z.at, z.up))
  }

  lemma TurnApart(z: Spot)
    requires Inside(z)
    ensures ApartSpot(Up(z)) <==> ApartSpot(z)
    ensures SpotBlocks(Up(z)) == SpotBlocks(z)
  {
    hide Blocks, Apart;
    AttachSplits(z.up.sibs, z.up.at, z.level);
  }

  lemma TurnLinked(m: Memory, z: Spot)
    requires Inside(z)
    ensures LinkedSpot(m, Up(z)) <==> LinkedSpot(m, z)
  {
    hide Blocks, Apart, Linked, LinkedAround;
    AttachLinked(m, z.up.sibs, z.up.at, z.level, Owner(z.up.up));
  }

  // Climbing to the owner of the list is the reader's '}'; the blocks stay as they are.
  lemma Turn(m: Memory, z: Spot)
    requires Inside(z)
    ensures Valid(m, Up(z)) <==> Valid(m, z)
    ensures SpotBlocks(Up(z)) == SpotBlocks(z)
    ensures Valid(m, z) ==> CursorOf(Up(z)) == Close(CursorOf(z))
  {
    hide Blocks, Apart, LinkedSpot;
    TurnApart(z);
    TurnLinked(m, z);
    AttachForest(z.up.sibs, z.up.at, z.level);
  }

  lemma {:induction false} PathInside(m: Memory, u: Path, below: Block)
    requires LinkedPath(m, u, below)
    ensures PathBlocks(u) <= m.Keys
    decreases u
  {
    hide Blocks;
    if u.Below? {
      forall i | 0 <= i < |u.sibs| ensures Blocks(u.sibs[i].kids) <= m.Keys {
        LinkedInside(m, u.sibs[i].kids, u.sibs[i].block);
      }
      BlocksBound(u.sibs, m.Keys);
      PathInside(m, u.up, u.sibs[0].block);
    }
  }

  // Every block of the picture is in memory.
  lemma SpotInside(m: Memory, z: Spot)
    requires Valid(m, z)
    ensures SpotBlocks(z) <= m.Keys
  {
    LinkedInside(m, z.level, Owner(z.up));
    PathInside(m, z.up, z.level[0].block);
  }

  lemma {:induction false} PathFrame(m: Memory, n: Memory, u: Path, below: Block)
    requires LinkedPath(m, u, below) && Same(m, n, PathBlocks(u))
    ensures LinkedPath(n, u, below)
    decreases u
  {
    hide Blocks, Linked;
    if u.Below? {
      forall i | 0 <= i < |u.sibs| ensures Linked(n, u.sibs[i].kids, u.sibs[i].block) {
        LinkedFrame(m, n, u.sibs[i].kids, u.sibs[i].block);
      }
      PathFrame(m, n, u.up, u.sibs[0].block);
    }
  }

  // The block of a spot differs from every other block of the picture.
  lemma HereApart(z: Spot)
    requires ApartSpot(z)
    ensures z.Here() !in PathBlocks(z.up)
    ensures forall i :: 0 <= i < |z.level| ==> z.Here() !in Blocks(z.level[i].kids)
    ensures forall i :: 0 <= i < |z.level| && i != z.at ==> z.level[i].block != z.Here()
  {
    forall i | 0 <= i < |z.level| && i != z.at
      ensures z.Here() !in Blocks(z.level[i].kids) && z.level[i].block != z.Here()
    {
      assert All(z.level[i]) !! All(z.level[z.at]);
    }
  }

  // What the block of a spot holds.
  lemma HereCell(m: Memory, z: Spot)
    requires Valid(m, z)
    ensures z.at < |z.level|
    ensures z.Here() in m && m[z.Here()] == Cell(z.level, z.at, Owner(z.up), First(z.level[z.at].kids))
    ensures m[z.Here()].child == null <==> z.level[z.at].kids == []
  {
  }

  // Every block but `b` holds the same in both memories.
  ghost predicate Except(m: Memory, n: Memory, b: Block) {
    forall o :: o in m && o != b ==> o in n && n[o] == m[o]
  }

  // Changing block `at` of a list leaves the other blocks and all lists below linked.
  lemma OthersLinked(m: Memory, n: Memory, s: seq<Shape>, at: nat, parent: Block?)
    requires Linked(m, s, parent) && Apart(s) && at < |s| && Except(m, n, s[at].block)
    ensures s[at].block in m && m[s[at].block] == Cell(s, at, parent, First(s[at].kids))
    ensures forall i :: 0 <= i < |s| ==> Linked(n, s[i].kids, s[i].block)
    ensures forall i :: 0 <= i < |s| && i != at ==>
      s[i].block in n && n[s[i].block] == Cell(s, i, parent, First(s[i].kids))
  {
    hide Blocks, Apart;
    HereApart(Spot(s, at, Outer));
    forall i | 0 <= i < |s| ensures Linked(n, s[i].kids, s[i].block) {
      assert s[at].block !in Blocks(s[i].kids);
      LinkedFrame(m, n, s[i].kids, s[i].block);
    }
  }

  lemma Singleton(t: Shape)
    ensures Blocks([t]) == All(t)
    ensures Apart([t]) <==> t.block !in Blocks(t.kids) && Apart(t.kids)
  {
    assert [t][1..] == [];
  }

  lemma LinkedIntro(m: Memory, s: seq<Shape>, parent: Block?)
    requires forall i :: 0 <= i < |s| ==> s[i].block in m && m[s[i].block] == Cell(s, i, parent, First(s[i].kids))
    requires forall i :: 0 <= i < |s| ==> Linked(m, s[i].kids, s[i].block)
    ensures Linked(m, s, parent)
  {
  }

  // --- the whole forest around a spot ---

  ghost function TopOfPath(u: Path): Block
    requires ApartPath(u) && u.Below?
  {
    if u.up.Below? then TopOfPath(u.up) else u.sibs[0].block
  }

  // The first block of the outermost list.
  ghost function TopBlock(z: Spot): Block
    requires ApartSpot(z)
  {
    if z.up.Below? then TopOfPath(z.up) else z.level[0].block
  }

  ghost function Whole(z: Spot): seq<Shape>
    requires ApartSpot(z)
    decreases z.up
  {
    if z.up.Outer? then z.level else
      TurnApart(z);
      Whole(Up(z))
  }

  // Climbing all the way gives one linked picture of the reader's whole forest.
  lemma {:induction false} WholeValid(m: Memory, z: Spot)
    requires Valid(m, z)
    ensures Apart(Whole(z)) && Linked(m, Whole(z), null)
    ensures Whole(z) != [] && Whole(z)[0].block == TopBlock(z)
    ensures Forest(Whole(z)) == Root(CursorOf(z))
    ensures Blocks(Whole(z)) == SpotBlocks(z)
    decreases z.up
  {
    if z.up.Below? {
      Turn(m, z);
      WholeValid(m, Up(z));
    }
  }

  lemma CellAt(m: Memory, z: Spot, i: nat)
    requires Valid(m, z) && i < |z.level|
    ensures z.level[i].block in m
    ensures m[z.level[i].block] == Cell(z.level, i, Owner(z.up), First(z.level[i].kids))
  {
  }

  // Entering a child list that exists is the reader's '{'.
  lemma DownStep(m: Memory, z: Spot)
    requires Valid(m, z) && z.level[z.at].kids != []
    ensures Valid(m, Down(z)) && CursorOf(Down(z)) == Open(CursorOf(z)) && TopBlock(Down(z)) == TopBlock(z)
  {
    hide Blocks, Apart, LinkedSpot, ApartPath;
    Turn(m, Down(z));
    AttachForest(z.level, z.at, []);
  }
}
