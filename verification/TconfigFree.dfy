/**
 free_tconfig of src/tconfig.c: the walk frees every block, key and value of a forest
 exactly once and follows pointers of live blocks only.
 */
module TconfigFree {
  import opened TconfigText
  import opened TconfigHeap

  // What malloc has handed out: blocks, and the key and value strings they own.  Reading
  // a field needs a live block, freeing needs something not yet freed.
  class Allocator {
    var blocks: set<Block>
    var keys: set<Block>
    var values: set<Block>

    function Next(b: Block): Block?
      requires b in blocks
      reads this, b
    {
      b.next
    }

    function Prev(b: Block): Block?
      requires b in blocks
      reads this, b
    {
      b.prev
    }

    function Parent(b: Block): Block?
      requires b in blocks
      reads this, b
    {
      b.parent
    }

    function Child(b: Block): Block?
      requires b in blocks
      reads this, b
    {
      b.child
    }

    method FreeStrings(b: Block)
      requires b in blocks && b in keys && b in values
      modifies this
      ensures blocks == old(blocks) && keys == old(keys) - {b} && values == old(values) - {b}
    {
      keys := keys - {b};
      values := values - {b};
    }

    method FreeBlock(b: Block)
      requires b in blocks
      modifies this
      ensures blocks == old(blocks) - {b} && keys == old(keys) && values == old(values)
    {
      blocks := blocks - {b};
    }

    // Nothing but `base` and the blocks `alive`, with their strings, is allocated.
    ghost predicate Holds(base: Base, alive: set<Block>)
      reads this
    {
      blocks == base.blocks + alive && keys == base.keys + alive && values == base.values + alive
    }
  }

  // What was allocated beside the forest.
  datatype Base = Base(blocks: set<Block>, keys: set<Block>, values: set<Block>)
  {
    ghost function Everything(): set<Block> { blocks + keys + values }
  }

  // --- what is still allocated when the walk is at a spot ---

  ghost function Heads(s: seq<Shape>): set<Block> {
    if s == [] then {} else {s[0].block} + Heads(s[1..])
  }

  lemma {:induction false} HeadsConcat(a: seq<Shape>, b: seq<Shape>)
    ensures Heads(a + b) == Heads(a) + Heads(b)
  {
    if a == [] {
      assert a + b == b;
    } else {
      assert (a + b)[1..] == a[1..] + b;
      HeadsConcat(a[1..], b);
    }
  }

  lemma {:induction false} HeadsInBlocks(s: seq<Shape>)
    ensures Heads(s) <= Blocks(s)
  {
    if s != [] {
      HeadsInBlocks(s[1..]);
    }
  }

  // The lists above: everything right of the owner is untouched, everything up to the
  // owner has lost what was below it.
  ghost function AlivePath(u: Path): set<Block> {
    match u
    case Outer => {}
    case Below(sibs, at, up) =>
      if at < |sibs| then Heads(sibs[..at + 1]) + Blocks(sibs[at + 1..]) + AlivePath(up) else {}
  }

  // On arrival at the block of the spot.
  ghost function Alive(z: Spot): set<Block>
    requires z.at < |z.level|
  {
    Heads(z.level[..z.at]) + Blocks(z.level[z.at..]) + AlivePath(z.up)
  }

  // When what was below the block of the spot is freed.
  ghost function AliveAfter(z: Spot): set<Block>
    requires z.at < |z.level|
  {
    Heads(z.level[..z.at + 1]) + Blocks(z.level[z.at + 1..]) + AlivePath(z.up)
  }

  // --- how many blocks the walk has yet to reach ---

  ghost function Count(s: seq<Shape>): nat {
    if s == [] then 0 else 1 + Count(s[0].kids) + Count(s[1..])
  }

  ghost function CountPath(u: Path): nat {
    if u.Outer? || u.at >= |u.sibs| then 0 else Count(u.sibs[u.at + 1..]) + CountPath(u.up)
  }

  ghost function ToReach(z: Spot): nat
    requires z.at < |z.level|
  {
    Count(z.level[z.at..]) + CountPath(z.up)
  }

  // The same once the block of the spot is left behind.
  ghost function ToReachAfter(z: Spot): nat
    requires z.at < |z.level|
  {
    Count(z.level[z.at + 1..]) + CountPath(z.up)
  }

  // --- the moves ---

  lemma HeadsStep(s: seq<Shape>, i: nat)
    requires i < |s|
    ensures Heads(s[..i + 1]) == Heads(s[..i]) + {s[i].block}
    ensures Blocks(s[i..]) == All(s[i]) + Blocks(s[i + 1..])
    ensures Count(s[i..]) == 1 + Count(s[i].kids) + Count(s[i + 1..])
  {
    assert s[..i + 1] == s[..i] + [s[i]];
    HeadsConcat(s[..i], [s[i]]);
    assert s[i..][1..] == s[i + 1..];
    assert [s[i]][1..] == [];
  }

  lemma AliveDown(z: Spot)
    requires z.at < |z.level| && z.level[z.at].kids != []
    ensures Alive(Down(z)) == Alive(z) && ToReach(Down(z)) < ToReach(z)
  {
    hide Heads, Blocks, Count;
    var sibs, kids := Down(z).up.sibs, z.level[z.at].kids;
    assert sibs[..z.at] == z.level[..z.at] && sibs[z.at + 1..] == z.level[z.at + 1..];
    HeadsStep(z.level, z.at);
    HeadsStep(sibs, z.at);
    assert kids[0..] == kids && kids[..0] == [];
    assert Heads([]) == {} by { EmptyHeads(); }
  }

  lemma EmptyHeads()
    ensures Heads([]) == {} && Blocks([]) == {} && Count([]) == 0
  {
  }

  lemma AliveLeaf(z: Spot)
    requires z.at < |z.level| && z.level[z.at].kids == []
    ensures AliveAfter(z) == Alive(z) && ToReachAfter(z) < ToReach(z)
  {
    HeadsStep(z.level, z.at);
  }

  lemma AliveNext(z: Spot)
    requires z.at + 1 < |z.level|
    ensures Alive(z.(at := z.at + 1)) == AliveAfter(z) && ToReach(z.(at := z.at + 1)) == ToReachAfter(z)
  {
    hide Heads, Blocks, Count, AlivePath, CountPath;
  }

  lemma AliveUp(z: Spot)
    requires Inside(z)
    ensures AlivePath(z.up) == AliveAfter(Up(z)) && CountPath(z.up) == ToReachAfter(Up(z))
  {
    hide Blocks, Count;
    var s, r, at := z.up.sibs, Up(z).level, z.up.at;
    assert s[..at] == r[..at] && s[at + 1..] == r[at + 1..];
    HeadsStep(s, at);
    HeadsStep(r, at);
  }

  lemma HeadsApart(s: seq<Shape>, i: nat)
    requires i < |s| && Apart(s)
    ensures s[i].block !in Heads(s[..i])
  {
    hide Blocks, Apart;
    HeadsInBlocks(s[..i]);
    assert s == s[..i] + s[i..];
    Concat(s[..i], s[i..]);
  }

  lemma {:induction false} PathAlive(u: Path)
    ensures AlivePath(u) <= PathBlocks(u)
  {
    hide Blocks, Heads;
    if u.Below? && u.at < |u.sibs| {
      PathAlive(u.up);
      HeadsInBlocks(u.sibs[..u.at + 1]);
      assert u.sibs == u.sibs[..u.at + 1] + u.sibs[u.at + 1..];
      Concat(u.sibs[..u.at + 1], u.sibs[u.at + 1..]);
    }
  }

  // When the blocks of the list from `i` on are freed as well.
  ghost function LevelAlive(z: Spot, i: nat): set<Block>
    requires i <= |z.level|
  {
    Heads(z.level[..i]) + AlivePath(z.up)
  }

  // Block `i` of a list is none of the blocks that stay when it goes.
  lemma FreeOne(z: Spot, i: nat, base: Base)
    requires ApartSpot(z) && i < |z.level| && base.Everything() !! SpotBlocks(z)
    ensures z.level[i].block !in base.Everything()
    ensures LevelAlive(z, i + 1) - {z.level[i].block} == LevelAlive(z, i)
    ensures z.level[i].block in LevelAlive(z, i + 1)
  {
    hide Blocks, Apart, Heads;
    HeadsStep(z.level, i);
    HeadsApart(z.level, i);
    PathAlive(z.up);
  }

  lemma LevelEnds(z: Spot)
    requires z.at < |z.level|
    ensures z.at + 1 == |z.level| ==> AliveAfter(z) == LevelAlive(z, |z.level|)
    ensures LevelAlive(z, 0) == AlivePath(z.up) && LevelAlive(z, 1) == {z.level[0].block} + AlivePath(z.up)
    ensures z.up.Outer? ==> AlivePath(z.up) == {}
    ensures z.Here() in AliveAfter(z)
  {
    hide Blocks, Heads;
    EmptyHeads();
    HeadsStep(z.level, 0);
    HeadsStep(z.level, z.at);
    assert z.level[..|z.level|] == z.level && z.level[|z.level|..] == [] && z.level[..0] == [];
  }

  lemma OwnerBelow(m: Memory, z: Spot)
    requires Valid(m, z)
    ensures Owner(z.up) == null <==> z.up.Outer?
    ensures z.up.Below? ==> Inside(z)
  {
  }

  lemma ToReachEnd(z: Spot)
    requires z.at + 1 == |z.level|
    ensures ToReachAfter(z) == CountPath(z.up)
  {
    assert z.level[z.at + 1..] == [];
  }

  // What the climb from a freed list to its owner reads.
  lemma ClimbReads(m: Memory, z: Spot)
    requires Valid(m, z) && z.up.Below?
    ensures Inside(z) && Valid(m, Up(z)) && SpotBlocks(Up(z)) == SpotBlocks(z)
    ensures var first, owner := z.level[0].block, Up(z).Here();
      first in m && m[first].parent == owner && owner in m && m[owner].child == first
  {
    hide Blocks, Apart, Linked, CursorOf, Close;
    OwnerBelow(m, z);
    Turn(m, z);
    CellAt(m, z, 0);
    HereCell(m, Up(z));
  }

  // What is left when the rest of the list is freed too.
  lemma ClimbFrees(z: Spot, base: Base)
    requires ApartSpot(z) && Inside(z) && z.at + 1 == |z.level| && base.Everything() !! SpotBlocks(z)
    ensures AliveAfter(Up(z)) == AlivePath(z.up) && ToReachAfter(Up(z)) == ToReachAfter(z)
    ensures var first := z.level[0].block;
      first !in AlivePath(z.up) && first !in base.Everything()
    ensures Up(z).Here() in AlivePath(z.up)
  {
    hide Blocks, Apart, Heads, Count, CountPath, ToReachAfter, AliveAfter, AlivePath;
    AliveUp(z);
    LevelEnds(Up(z));
    FreeOne(z, 0, base);
    PathAlive(z.up);
    ToReachEnd(z);
  }

  // What freeing block `i` of a list from the right meets.
  lemma LevelBlock(m: Memory, z: Spot, i: nat, base: Base)
    requires Valid(m, z) && i < |z.level| && base.Everything() !! SpotBlocks(z)
    ensures z.level[i].block in m
    ensures m[z.level[i].block].parent == if i == 0 then Owner(z.up) else null
    ensures m[z.level[i].block].prev == if i == 0 then null else z.level[i - 1].block
    ensures z.level[i].block !in base.Everything() && z.level[i].block in LevelAlive(z, i + 1)
    ensures LevelAlive(z, i + 1) - {z.level[i].block} == LevelAlive(z, i)
  {
    hide Linked, Blocks, Apart, LevelAlive, SpotBlocks;
    CellAt(m, z, i);
    FreeOne(z, i, base);
  }

  // --- the walk ---

  // From the last block of a list to the left: frees the blocks up to the one that
  // carries `parent`, or all of them in the outermost list.
  method FreeLevel(block: Block, a: Allocator, ghost m: Memory, ghost z: Spot, ghost base: Base)
    returns (first: Block?)
    requires Current(m) && Valid(m, z) && block == z.Here() && z.at + 1 == |z.level|
    requires base.Everything() !! SpotBlocks(z) && a.Holds(base, AliveAfter(z))
    modifies a
    ensures first == null ==> z.up.Outer? && a.Holds(base, {})
    ensures first != null ==>
      z.up.Below? && first == z.level[0].block && a.Holds(base, {first} + AlivePath(z.up))
  {
    hide Blocks, Valid, ApartSpot, SpotBlocks, AliveAfter, AlivePath, LevelAlive;
    var tcfg: Block? := block;
    ghost var i: int := z.at;
    LevelEnds(z);
    OwnerBelow(m, z);
    LevelBlock(m, z, i, base);
    while tcfg != null && a.Parent(tcfg) == null
      invariant -1 <= i < |z.level|
      invariant i == -1 ==> tcfg == null && z.up.Outer?
      invariant i >= 0 ==> tcfg == z.level[i].block && tcfg in m && tcfg in a.blocks
      invariant i >= 0 ==> m[tcfg].parent == if i == 0 then Owner(z.up) else null
      invariant a.Holds(base, LevelAlive(z, i + 1))
      decreases i
    {
      LevelBlock(m, z, i, base);
      a.FreeStrings(tcfg);
      var oldptr := tcfg;
      tcfg := a.Prev(tcfg);
      a.FreeBlock(oldptr);
      i := i - 1;
      if i >= 0 {
        LevelBlock(m, z, i, base);
      }
    }
    first := tcfg;
  }

  // Frees the list of a last block without children and steps up to its owner.
  method FreeListAndAscend(block: Block, a: Allocator, ghost m: Memory, ghost z: Spot, ghost base: Base)
    returns (owner: Block?)
    requires Current(m) && Valid(m, z) && block == z.Here() && z.at + 1 == |z.level|
    requires base.Everything() !! SpotBlocks(z) && a.Holds(base, AliveAfter(z))
    modifies a
    ensures owner == null ==> a.Holds(base, {})
    ensures owner != null ==>
      && Inside(z) && Valid(m, Up(z)) && owner == Up(z).Here() && owner in a.blocks && owner in m
      && base.Everything() !! SpotBlocks(Up(z)) && a.Holds(base, AliveAfter(Up(z)))
      && ToReachAfter(Up(z)) == ToReachAfter(z)
  {
    hide Blocks, Valid, ApartSpot, SpotBlocks, AliveAfter, AlivePath, ToReachAfter, Cell;
    var first := FreeLevel(block, a, m, z, base);
    if first == null { return null; }
    ClimbReads(m, z);
    ClimbFrees(z, base);
    a.FreeStrings(first);
    owner := a.Parent(first);
    a.FreeBlock(a.Child(owner));
  }

  // The climb after a last block without children: frees whole lists until one has a
  // block to go on with; `b` is that block, null when all is freed.
  method FreeUp(block: Block, a: Allocator, ghost m: Memory, ghost z: Spot, ghost base: Base)
    returns (b: Block?, ghost z': Spot)
    requires Current(m) && Valid(m, z) && block == z.Here() && z.at + 1 == |z.level|
    requires base.Everything() !! SpotBlocks(z) && a.Holds(base, AliveAfter(z))
    modifies a
    ensures b == null ==> a.Holds(base, {})
    ensures b != null ==>
      && Valid(m, z') && b == z'.Here() && base.Everything() !! SpotBlocks(z')
      && a.Holds(base, Alive(z')) && ToReach(z') <= ToReachAfter(z)
  {
    hide Blocks, Valid, ApartSpot, SpotBlocks, AliveAfter, Alive, ToReach, ToReachAfter, Cell;
    z' := z;
    var tcfg := block;
    LevelEnds(z);
    HereCell(m, z);
    while a.Next(tcfg) == null
      invariant Valid(m, z') && tcfg == z'.Here() && tcfg in a.blocks && tcfg in m
      invariant base.Everything() !! SpotBlocks(z') && a.Holds(base, AliveAfter(z'))
      invariant ToReachAfter(z') <= ToReachAfter(z)
      decreases z'.up
    {
      NextRead(m, z');
      var owner := FreeListAndAscend(tcfg, a, m, z', base);
      if owner == null { return null, z'; }
      tcfg, z' := owner, Up(z');
    }
    NextRead(m, z');
    AliveNext(z');
    b, z' := a.Next(tcfg), z'.(at := z'.at + 1);
  }

  lemma NextRead(m: Memory, z: Spot)
    requires Valid(m, z)
    ensures z.Here() in m
    ensures m[z.Here()].next == (if z.at + 1 < |z.level| then z.level[z.at + 1].block else null)
    ensures z.at + 1 < |z.level| ==>
      Valid(m, z.(at := z.at + 1)) && SpotBlocks(z.(at := z.at + 1)) == SpotBlocks(z)
  {
  }

  // Frees the whole forest; nothing else is touched.
  method FreeTconfig(head: Block?, a: Allocator, ghost m: Memory, ghost shape: seq<Shape>)
    requires Current(m) && Apart(shape) && Linked(m, shape, null) && head == First(shape)
    requires Blocks(shape) <= a.blocks && Blocks(shape) <= a.keys && Blocks(shape) <= a.values
    modifies a
    ensures a.blocks == old(a.blocks) - Blocks(shape)
    ensures a.keys == old(a.keys) - Blocks(shape) && a.values == old(a.values) - Blocks(shape)
  {
    hide Apart, Linked, Heads, AlivePath, ApartPath, LinkedPath;
    ghost var base := Base(a.blocks - Blocks(shape), a.keys - Blocks(shape), a.values - Blocks(shape));
    ghost var z := Spot(shape, 0, Outer);
    if head == null { return; }
    StartAlive(m, shape);
    hide Blocks, Valid, ApartSpot, SpotBlocks, AliveAfter, Alive, ToReach, ToReachAfter, Cell;
    hide CursorOf, Open;
    var tcfg: Block? := head;
    while tcfg != null
      invariant tcfg == null ==> a.Holds(base, {})
      invariant tcfg != null ==>
        && Valid(m, z) && tcfg == z.Here() && base.Everything() !! SpotBlocks(z) && a.Holds(base, Alive(z))
      decreases if tcfg == null then -1 else ToReach(z)
    {
      HereAlive(m, z);
      if a.Child(tcfg) != null {
        tcfg := a.Child(tcfg);
        AliveDown(z);
        z := Down(z);
        continue;
      }
      AliveLeaf(z);
      if a.Next(tcfg) != null {
        tcfg := a.Next(tcfg);
        AliveNext(z);
        z := z.(at := z.at + 1);
        continue;
      }
      tcfg, z := FreeUp(tcfg, a, m, z, base);
    }
  }

  lemma StartAlive(m: Memory, shape: seq<Shape>)
    requires shape != [] && Apart(shape) && Linked(m, shape, null)
    ensures var z := Spot(shape, 0, Outer);
      Valid(m, z) && SpotBlocks(z) == Blocks(shape) && Alive(z) == Blocks(shape)
  {
    hide Blocks, Apart, Linked, Heads;
    EmptyHeads();
    assert shape[0..] == shape && shape[..0] == [];
  }

  // What the walk reads on arriving at a block.
  lemma HereAlive(m: Memory, z: Spot)
    requires Valid(m, z)
    ensures z.Here() in m && z.Here() in Alive(z)
    ensures m[z.Here()].child == First(z.level[z.at].kids)
    ensures z.level[z.at].kids != [] ==> Valid(m, Down(z)) && SpotBlocks(Down(z)) == SpotBlocks(z)
    ensures m[z.Here()].next == (if z.at + 1 < |z.level| then z.level[z.at + 1].block else null)
    ensures z.at + 1 < |z.level| ==>
      Valid(m, z.(at := z.at + 1)) && SpotBlocks(z.(at := z.at + 1)) == SpotBlocks(z)
  {
    hide Blocks, Apart, Linked, Heads, AlivePath, SpotBlocks, LinkedSpot, ApartSpot;
    HereCell(m, z);
    NextRead(m, z);
    HeadsStep(z.level, z.at);
    if z.level[z.at].kids != [] {
      Turn(m, Down(z));
    }
  }
}
