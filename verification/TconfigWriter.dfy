/**
 tconfig_r_depth_first_write of src/tconfig.c: the walk over the linked blocks prints
 exactly TconfigText.Print of the forest they show.
 */
module TconfigWriter {
  import opened TconfigText
  import opened TconfigHeap

  // The file being written.
  class Output {
    var text: string

    constructor ()
      ensures text == ""
    {
      text := "";
    }

    method Put(s: string)
      modifies this
      ensures text == old(text) + s
    {
      text := text + s;
    }

    method PutIndent(depth: nat)
      modifies this
      ensures text == old(text) + Indent(depth)
    {
      var i := 0;
      while i < depth * 2
        invariant i <= depth * 2 && text == old(text) + Spaces(i)
      {
        Put(" ");
        i := i + 1;
      }
    }

    method PutQuoted(s: string)
      modifies this
      ensures text == old(text) + Quote(s)
    {
      if HasBlank(s) { text := text + "\""; }
      text := text + s;
      if HasBlank(s) { text := text + "\""; }
    }

    method PutLeaf(key: string, value: string, depth: nat)
      modifies this
      ensures text == old(text) + Leaf(key, value, depth)
    {
      hide Indent, Quote;
      PutIndent(depth);
      PutQuoted(key);
      Put("\t");
      PutQuoted(value);
      Put("\n");
    }

    method PutOpenBrace(depth: nat)
      modifies this
      ensures text == old(text) + OpenBrace(depth)
    {
      PutIndent(depth);
      Put("{\n");
    }

    method PutCloseBrace(depth: nat)
      modifies this
      ensures text == old(text) + CloseBrace(depth)
    {
      PutIndent(depth);
      Put("}\n\n");
    }
  }

  // --- what is left to print from a cursor ---

  function Depth(u: Context): nat {
    if u.Top? then 0 else 1 + Depth(u.up)
  }

  // No block around the cursor is blank.
  predicate FilledContext(u: Context) {
    u.Under? ==> Filled(u.sibs) && FilledContext(u.up)
  }

  predicate FilledCursor(c: Cursor) {
    Filled(c.level) && FilledContext(c.up)
  }

  // Closing the lists above, with the siblings that come after their owners.
  function RestUp(u: Context): string
    requires u.Valid() && FilledContext(u)
  {
    match u
    case Top => ""
    case Under(sibs, at, up) =>
      CloseBrace(Depth(up)) + (Print(sibs[at + 1..], Depth(up)) + RestUp(up))
  }

  // What remains once the block of the cursor and its children are printed.
  function RestAfter(c: Cursor): string
    requires c.Valid() && FilledCursor(c)
  {
    Print(c.level[c.at + 1..], Depth(c.up)) + RestUp(c.up)
  }

  function Rest(c: Cursor): string
    requires c.Valid() && FilledCursor(c)
  {
    PrintTree(c.level[c.at], Depth(c.up)) + RestAfter(c)
  }

  lemma RestNext(c: Cursor)
    requires c.Valid() && FilledCursor(c) && c.at + 1 < |c.level|
    ensures FilledCursor(c.(at := c.at + 1)) && RestAfter(c) == Rest(c.(at := c.at + 1))
  {
    assert c.level[c.at + 1..][1..] == c.level[c.at + 2..];
  }

  lemma Regroup(h: string, p: string, q: string, c: string, r: string)
    ensures h + (p + q) + c + r == h + (p + (q + (c + r)))
  {
  }

  function Head(t: Tree, depth: nat): string
    requires t.entry.Pair?
  {
    "\n" + Leaf(t.entry.key, t.entry.value, depth) + OpenBrace(depth)
  }

  lemma FilledOpen(c: Cursor)
    requires c.Valid() && FilledCursor(c)
    ensures c.level[c.at].entry.Pair? && Filled(c.level[c.at].kids)
    ensures FilledCursor(Open(c)) <== c.level[c.at].kids != []
  {
    assert Filled([]);
    var sibs := c.level[c.at := c.level[c.at].(kids := [])];
    assert forall i :: 0 <= i < |sibs| && i != c.at ==> sibs[i] == c.level[i];
  }

  lemma FilledClose(c: Cursor)
    requires c.Valid() && FilledCursor(c) && c.up.Under?
    ensures FilledCursor(Close(c))
  {
    var sibs := c.up.sibs[c.up.at := c.up.sibs[c.up.at].(kids := c.level)];
    assert forall i :: 0 <= i < |sibs| && i != c.up.at ==> sibs[i] == c.up.sibs[i];
  }

  lemma RestOpen(c: Cursor)
    requires c.Valid() && FilledCursor(c) && c.level[c.at].kids != []
    ensures FilledCursor(Open(c)) && Depth(Open(c).up) == Depth(c.up) + 1
    ensures Rest(c) == Head(c.level[c.at], Depth(c.up)) + Rest(Open(c))
    ensures |Rest(Open(c))| < |Rest(c)|
  {
    hide Leaf, OpenBrace, CloseBrace;
    var d, t := Depth(c.up), c.level[c.at];
    FilledOpen(c);
    assert Open(c).up.sibs[c.at + 1..] == c.level[c.at + 1..];
    Regroup(Head(t, d), PrintTree(t.kids[0], d + 1), Print(t.kids[1..], d + 1), CloseBrace(d), RestAfter(c));
    assert PrintTree(t, d) == Head(t, d) + Print(t.kids, d + 1) + CloseBrace(d);
  }

  lemma RestClose(c: Cursor)
    requires c.Valid() && FilledCursor(c) && c.at + 1 == |c.level| && c.up.Under?
    ensures FilledCursor(Close(c)) && Depth(c.up) == Depth(Close(c).up) + 1
    ensures RestAfter(c) == CloseBrace(Depth(Close(c).up)) + RestAfter(Close(c))
  {
    hide CloseBrace;
    FilledClose(c);
    assert Close(c).level[c.up.at + 1..] == c.up.sibs[c.up.at + 1..];
    assert Print(c.level[c.at + 1..], Depth(c.up)) == "";
  }

  // --- the walk ---

  // What the writer reads from the block of a spot.
  lemma HereRead(m: Memory, z: Spot)
    requires Valid(m, z) && FilledCursor(CursorOf(z))
    ensures z.Here() in m
    ensures var f, t := m[z.Here()], CursorOf(z).level[z.at];
      && CursorOf(z).at == z.at && z.at < |CursorOf(z).level| && |CursorOf(z).level| == |z.level|
      && t.entry == Pair(if f.key.Some? then f.key.value else "", if f.value.Some? then f.value.value else "")
      && f.key.Some? && f.value.Some?
      && (t.kids == [] <==> z.level[z.at].kids == [])
      && f.child == First(z.level[z.at].kids)
      && f.next == (if z.at + 1 < |z.level| then z.level[z.at + 1].block else null)
      && Filled(t.kids)
  {
    hide Blocks;
    HereCell(m, z);
    FilledOpen(CursorOf(z));
    assert CursorOf(z).level[z.at] == Tree(z.level[z.at].entry, Forest(z.level[z.at].kids));
  }

  lemma NextSpot(m: Memory, z: Spot)
    requires Valid(m, z) && z.at + 1 < |z.level|
    ensures Valid(m, z.(at := z.at + 1))
    ensures CursorOf(z.(at := z.at + 1)) == CursorOf(z).(at := z.at + 1)
  {
  }

  // Along `prev` to the block that carries `parent`, and to that parent.
  method Ascend(block: Block, ghost m: Memory, ghost z: Spot) returns (b: Block)
    requires Current(m) && Valid(m, z) && block == z.Here() && z.up.Below?
    ensures Inside(z) && Valid(m, Up(z)) && b == Up(z).Here()
    ensures CursorOf(Up(z)) == Close(CursorOf(z))
  {
    hide Blocks, Valid, ApartSpot, CursorOf, Close;
    Turn(m, z) by { ValidInside(m, z); }
    ghost var i: nat := z.at;
    HereCell(m, z);
    var tmp := block;
    while tmp.parent == null
      invariant i < |z.level| && tmp == z.level[i].block && tmp in m
      invariant m[tmp] == Cell(z.level, i, Owner(z.up), First(z.level[i].kids))
      decreases i
    {
      ValidInside(m, z);
      assert i > 0;
      tmp := tmp.prev;
      i := i - 1;
      CellAt(m, z, i);
    }
    ValidInside(m, z);
    b := tmp.parent;
  }

  lemma ValidInside(m: Memory, z: Spot)
    requires Valid(m, z) && z.up.Below?
    ensures Inside(z) && Owner(z.up) == Up(z).Here()
  {
  }

  // From a last block: up through every list that ends here, writing the braces, to the
  // block to print next; null at the end of the forest.
  method Climb(depth: nat, out: Output, block: Block, ghost m: Memory, ghost z: Spot)
    returns (d: nat, b: Block?, ghost z': Spot)
    requires Current(m) && Valid(m, z) && block == z.Here()
    requires FilledCursor(CursorOf(z)) && depth == Depth(CursorOf(z).up)
    modifies out
    ensures b == null ==> out.text == old(out.text) + RestAfter(CursorOf(z))
    ensures b != null ==>
      && Valid(m, z') && b == z'.Here() && FilledCursor(CursorOf(z')) && d == Depth(CursorOf(z').up)
      && out.text + Rest(CursorOf(z')) == old(out.text) + RestAfter(CursorOf(z))
      && |Rest(CursorOf(z'))| <= |RestAfter(CursorOf(z))|
  {
    hide Blocks, Valid, ApartSpot, CursorOf, RestAfter, Rest, FilledCursor, CloseBrace, Close;
    hide Filled, Attach;
    var tmp: Block := block;
    d, z' := depth, z;
    HereRead(m, z);
    while tmp.next == null
      invariant Valid(m, z') && tmp == z'.Here() && tmp in m
      invariant FilledCursor(CursorOf(z')) && d == Depth(CursorOf(z').up)
      invariant out.text + RestAfter(CursorOf(z')) == old(out.text) + RestAfter(CursorOf(z))
      invariant |RestAfter(CursorOf(z'))| <= |RestAfter(CursorOf(z))|
      decreases d
    {
      HereRead(m, z');
      if d == 0 {
        RestEnd(CursorOf(z'));
        return 0, null, z';
      }
      RestClose(CursorOf(z'));
      tmp := Ascend(tmp, m, z');
      z' := Up(z');
      d := d - 1;
      out.PutCloseBrace(d);
      HereRead(m, z');
    }
    HereRead(m, z');
    RestNext(CursorOf(z'));
    NextSpot(m, z');
    b, z' := tmp.next, z'.(at := z'.at + 1);
  }

  lemma RestEnd(c: Cursor)
    requires c.Valid() && FilledCursor(c) && c.at + 1 == |c.level| && c.up.Top?
    ensures RestAfter(c) == ""
  {
  }

  lemma RestLeaf(c: Cursor)
    requires c.Valid() && FilledCursor(c) && c.level[c.at].kids == []
    ensures var t := c.level[c.at];
      t.entry.Pair? && Rest(c) == Leaf(t.entry.key, t.entry.value, Depth(c.up)) + RestAfter(c)
    ensures |RestAfter(c)| < |Rest(c)|
  {
    hide RestAfter;
  }

  // Prints the block in sight and everything after it.
  method WriteDepthFirst(depth: nat, out: Output, block: Block?, ghost m: Memory, ghost z: Spot)
    requires Current(m) && Valid(m, z) && block == z.Here()
    requires FilledCursor(CursorOf(z)) && depth == Depth(CursorOf(z).up)
    modifies out
    ensures out.text == old(out.text) + Rest(CursorOf(z))
    decreases |Rest(CursorOf(z))|
  {
    hide Blocks, Valid, ApartSpot, CursorOf, Rest, RestAfter, FilledCursor, Leaf, OpenBrace;
    hide CloseBrace, Depth, Open;
    HereRead(m, z);
    ghost var c := CursorOf(z);
    if block.child != null {
      RestOpen(c);
      DownStep(m, z);
      out.Put("\n");
      out.PutLeaf(block.key.value, block.value.value, depth);
      out.PutOpenBrace(depth);
      WriteDepthFirst(depth + 1, out, block.child, m, Down(z));
    } else if block.next != null {
      RestLeaf(c);
      RestNext(c);
      NextSpot(m, z);
      out.PutLeaf(block.key.value, block.value.value, depth);
      WriteDepthFirst(depth, out, block.next, m, z.(at := z.at + 1));
    } else {
      RestLeaf(c);
      out.PutLeaf(block.key.value, block.value.value, depth);
      var d, b; ghost var z';
      d, b, z' := Climb(depth, out, block, m, z);
      if b != null {
        WriteDepthFirst(d, out, b, m, z');
      }
    }
  }

  // tconfig_to_file on the head of a forest without blank blocks.
  method TconfigToFile(head: Block?, out: Output, ghost m: Memory, ghost shape: seq<Shape>)
    requires Current(m) && Apart(shape) && Linked(m, shape, null) && head == First(shape)
    requires Filled(Forest(shape))
    modifies out
    ensures out.text == old(out.text) + Print(Forest(shape), 0)
  {
    if head == null {
      return;
    }
    hide Blocks, Apart, Print, PrintTree, Filled;
    ghost var z := Spot(shape, 0, Outer);
    assert PathBlocks(Outer) == {};
    WholeRest(CursorOf(z));
    WriteDepthFirst(0, out, head, m, z);
  }

  lemma WholeRest(c: Cursor)
    requires c.Valid() && FilledCursor(c) && c.at == 0 && c.up.Top?
    ensures Rest(c) == Print(c.level, 0)
  {
  }
}
