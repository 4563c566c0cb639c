/**
 What tconfig_merge of src/tconfig.c makes of two forests, as a recursive function, and the
 same once more as the walk of the code does it, with a stack of what is left of the lists
 above.
 */
module TconfigMerge {
  import opened TconfigText

  // How a merge ends.  It stops at a source block without a key, at a source list for a
  // block that has none, and when the first block of a list loses its `parent`, after which
  // nothing leads back from that list.  `stopped` says that a wildcard ended a list: then the
  // lists above are not gone through any further.
  datatype MergeOutcome = Merged(list: seq<Tree>, stopped: bool) | NoKey | NoList | Orphaned

  const BLANK := [Tree(Blank, [])]

  // A parent block that stands for every value of its key.
  predicate Wild(t: Tree) { t.kids != [] && t.entry.Pair? && t.entry.value == "*" }

  predicate Marked(key: string) { key != "" && key[0] == '@' }

  function Stripped(key: string): string { if Marked(key) then key[1..] else key }

  // The first block that has a key, or the length of the list.
  function FindKey(l: seq<Tree>, key: string): (i: nat)
    ensures i <= |l|
    ensures i < |l| ==> l[i].entry.Pair? && l[i].entry.key == key
    ensures forall j :: 0 <= j < i ==> !(l[j].entry.Pair? && l[j].entry.key == key)
  {
    if l == [] || (l[0].entry.Pair? && l[0].entry.key == key) then 0 else 1 + FindKey(l[1..], key)
  }

  // The first block with both strings; a block without strings never counts.
  function FindPair(l: seq<Tree>, e: Entry): (i: nat)
    ensures i <= |l| && (i < |l| ==> e.Pair? && l[i].entry == e)
  {
    if e.Pair? then Find(l, e) else |l|
  }

  // Where a new entry goes: into a blank last block, or behind the list.
  function Place(l: seq<Tree>): (i: nat)
    requires l != []
    ensures i <= |l|
  {
    if l[|l| - 1].entry == Blank then |l| - 1 else |l|
  }

  function Added(l: seq<Tree>, e: Entry): (r: seq<Tree>)
    requires l != []
    ensures Place(l) < |r| && r[Place(l)].entry == e
  {
    var last := |l| - 1;
    if l[last].entry == Blank then l[last := l[last].(entry := e)] else l + [Tree(e, [])]
  }

  function SetKids(l: seq<Tree>, i: nat, kids: seq<Tree>): (r: seq<Tree>)
    requires i < |l|
    ensures |r| == |l|
  {
    l[i := l[i].(kids := kids)]
  }

  function WithKids(l: seq<Tree>, i: nat, o: MergeOutcome): MergeOutcome
    requires i < |l|
  {
    if o.Merged? then Merged(SetKids(l, i, o.list), o.stopped) else o
  }

  function ListOf(t: Tree): (l: seq<Tree>)
    ensures l != []
  {
    if t.kids == [] then BLANK else t.kids
  }

  // A new parent block would take away the way back from this list.
  predicate Loses(l: seq<Tree>, owned: bool) { owned && |l| == 1 && l[0].entry == Blank }

  // Merges a source list; `owned` says that a block owns the target list.
  function MergeList(src: seq<Tree>, dst: seq<Tree>, owned: bool): (o: MergeOutcome)
    requires dst != []
    ensures o.Merged? ==> |o.list| >= |dst|
    decreases src, 0
  {
    if src == [] then Merged(dst, false)
    else
      match MergeTree(src[0], dst, owned)
      case Merged(l, stopped) =>
        if stopped || (Wild(src[0]) && |src| == 1) then Merged(l, true) else MergeList(src[1..], l, owned)
      case o => o
  }

  function MergeTree(t: Tree, dst: seq<Tree>, owned: bool): (o: MergeOutcome)
    requires dst != []
    ensures o.Merged? ==> |o.list| >= |dst|
    decreases t, 0
  {
    if t.kids == [] then MergeLeaf(t.entry, dst)
    else if Wild(t) then MergeWild(t, dst, 0)
    else
      var i := FindPair(dst, t.entry);
      if t.entry == Blank && exists j :: 0 <= j < |dst| && dst[j].entry.Pair? then NoKey
      else if i < |dst| then
        if dst[i].kids == [] then NoList else WithKids(dst, i, MergeList(t.kids, dst[i].kids, true))
      else if Loses(dst, owned) then Orphaned
      else WithKids(Added(dst, t.entry), Place(dst), MergeList(t.kids, BLANK, true))
  }

  // A leaf is added unless its key is there; the mark asks for a second one.
  function MergeLeaf(e: Entry, dst: seq<Tree>): (o: MergeOutcome)
    requires dst != []
    ensures o.Merged? ==> |o.list| >= |dst| && !o.stopped
  {
    if e == Blank then NoKey
    else if !Marked(e.key) && FindKey(dst, e.key) < |dst| then Merged(dst, false)
    else Merged(Added(dst, Pair(Stripped(e.key), e.value)), false)
  }

  // The children of a wildcard go into every block with its key, from position `i` on.
  function MergeWild(t: Tree, dst: seq<Tree>, i: nat): (o: MergeOutcome)
    requires dst != [] && i <= |dst| && t.entry.Pair?
    ensures o.Merged? ==> |o.list| == |dst| && !o.stopped
    decreases t.kids, 1, |dst| - i
  {
    if i == |dst| then Merged(dst, false)
    else if dst[i].entry.Pair? && dst[i].entry.key == t.entry.key then
      var o := MergeList(t.kids, ListOf(dst[i]), true);
      if o.Merged? then MergeWild(t, SetKids(dst, i, o.list), i + 1) else o
    else MergeWild(t, dst, i + 1)
  }

  // --- blank blocks ---

  // Only the last block of a list may be blank, as the reader and users_to_tconfig leave it.
  predicate Tidy(l: seq<Tree>) {
    forall i :: 0 <= i < |l| ==> (i < |l| - 1 ==> l[i].entry.Pair?) && Tidy(l[i].kids)
  }

  predicate TidyContext(u: Context) { u.Under? ==> Tidy(u.sibs) && TidyContext(u.up) }

  lemma AddedTidy(l: seq<Tree>, e: Entry)
    requires l != [] && Tidy(l)
    ensures Tidy(Added(l, e))
  {
    assert Tidy([]);
  }

  lemma KidsTidy(l: seq<Tree>, i: nat, kids: seq<Tree>)
    requires i < |l| && Tidy(l) && Tidy(kids)
    ensures Tidy(SetKids(l, i, kids))
  {
  }

  lemma BlankTidy()
    ensures Tidy(BLANK)
  {
    assert Tidy([]);
  }

  lemma {:induction false} MergeTidy(src: seq<Tree>, dst: seq<Tree>, owned: bool)
    requires dst != [] && Tidy(dst) && MergeList(src, dst, owned).Merged?
    ensures Tidy(MergeList(src, dst, owned).list)
    decreases src, 0
  {
    if src != [] {
      MergeTreeTidy(src[0], dst, owned);
      var o := MergeTree(src[0], dst, owned);
      if !(o.stopped || (Wild(src[0]) && |src| == 1)) {
        MergeTidy(src[1..], o.list, owned);
      }
    }
  }

  lemma {:induction false} MergeTreeTidy(t: Tree, dst: seq<Tree>, owned: bool)
    requires dst != [] && Tidy(dst) && MergeTree(t, dst, owned).Merged?
    ensures Tidy(MergeTree(t, dst, owned).list)
    decreases t, 0
  {
    hide Tidy, Added;
    if t.kids == [] {
      AddedTidy(dst, if t.entry.Pair? then Pair(Stripped(t.entry.key), t.entry.value) else Blank);
    } else if Wild(t) {
      MergeWildTidy(t, dst, 0);
    } else {
      var i := FindPair(dst, t.entry);
      if i < |dst| {
        KidIsTidy(dst, i);
        MergeTidy(t.kids, dst[i].kids, true);
        KidsTidy(dst, i, MergeList(t.kids, dst[i].kids, true).list);
      } else {
        AddedTidy(dst, t.entry);
        BlankTidy();
        MergeTidy(t.kids, BLANK, true);
        KidsTidy(Added(dst, t.entry), Place(dst), MergeList(t.kids, BLANK, true).list);
      }
    }
  }

  lemma KidIsTidy(l: seq<Tree>, i: nat)
    requires i < |l| && Tidy(l)
    ensures Tidy(l[i].kids) && Tidy(ListOf(l[i]))
  {
    BlankTidy();
  }

  lemma {:induction false} MergeWildTidy(t: Tree, dst: seq<Tree>, i: nat)
    requires dst != [] && i <= |dst| && t.entry.Pair? && Tidy(dst) && MergeWild(t, dst, i).Merged?
    ensures Tidy(MergeWild(t, dst, i).list)
    decreases t.kids, 1, |dst| - i
  {
    hide Tidy;
    if i < |dst| {
      if dst[i].entry.Pair? && dst[i].entry.key == t.entry.key {
        var o := MergeList(t.kids, ListOf(dst[i]), true);
        KidIsTidy(dst, i);
        MergeTidy(t.kids, ListOf(dst[i]), true);
        KidsTidy(dst, i, o.list);
        MergeWildTidy(t, SetKids(dst, i, o.list), i + 1);
      } else {
        MergeWildTidy(t, dst, i + 1);
      }
    }
  }

  // --- the walk ---

  // The walk is `n` lists below the one it started in.
  predicate Deep(up: Context, n: nat) {
    up.Valid() && (n > 0 ==> up.Under? && Deep(up.up, n - 1))
  }

  function Closed(level: seq<Tree>, up: Context): (l: seq<Tree>)
    requires up.Valid() && up.Under?
    ensures l != []
  {
    SetKids(up.sibs, up.at, level)
  }

  // The list the walk started in, seen from `n` lists below.
  function Base(level: seq<Tree>, up: Context, n: nat): seq<Tree>
    requires Deep(up, n)
    decreases n
  {
    if n == 0 then level else Base(Closed(level, up), up.up, n - 1)
  }

  // The outcome with `rest` left of the source list, `ups` of the lists above it, and the
  // target list `level` inside `up`.
  function Walk(rest: seq<Tree>, ups: seq<seq<Tree>>, level: seq<Tree>, up: Context): MergeOutcome
    requires level != [] && Deep(up, |ups|)
    decreases |ups|
  {
    match MergeList(rest, level, up.Under?)
    case Merged(l, stopped) =>
      if stopped || ups == [] then Merged(Base(l, up, |ups|), stopped)
      else Walk(ups[0], ups[1..], Closed(l, up), up.up)
    case o => o
  }

  // Without lists above, the walk is the merge.
  lemma WalkStarts(rest: seq<Tree>, level: seq<Tree>, up: Context)
    requires level != [] && up.Valid()
    ensures Walk(rest, [], level, up) == MergeList(rest, level, up.Under?)
  {
  }

  // A block that does not open a list.
  lemma WalkOn(rest: seq<Tree>, ups: seq<seq<Tree>>, level: seq<Tree>, up: Context)
    requires level != [] && Deep(up, |ups|) && rest != []
    ensures var o := MergeTree(rest[0], level, up.Under?);
      && (!o.Merged? ==> Walk(rest, ups, level, up) == o)
      && (o.Merged? && !o.stopped && Wild(rest[0]) && |rest| == 1 ==>
           Walk(rest, ups, level, up) == Merged(Base(o.list, up, |ups|), true))
      && (o.Merged? && !o.stopped && !(Wild(rest[0]) && |rest| == 1) ==>
           Walk(rest, ups, level, up) == Walk(rest[1..], ups, o.list, up))
  {
  }

  // Into the children of a block: what follows it waits, and so does the target list.
  lemma WalkDown(rest: seq<Tree>, ups: seq<seq<Tree>>, level: seq<Tree>, up: Context, l: seq<Tree>, i: nat,
      below: seq<Tree>)
    requires level != [] && Deep(up, |ups|) && rest != [] && i < |l| && below != []
    requires !Wild(rest[0])
    requires MergeTree(rest[0], level, up.Under?) == WithKids(l, i, MergeList(rest[0].kids, below, true))
    ensures var into := Under(SetKids(l, i, []), i, up);
      Deep(into, |ups| + 1) && Walk(rest, ups, level, up) == Walk(rest[0].kids, [rest[1..]] + ups, below, into)
  {
    var into := Under(SetKids(l, i, []), i, up);
    var o := MergeList(rest[0].kids, below, true);
    assert ([rest[1..]] + ups)[1..] == ups;
    if o.Merged? {
      assert Closed(o.list, into) == SetKids(l, i, o.list);
    }
  }

  // At the end of a source list: back to the owner of the target list.
  lemma WalkUp(ups: seq<seq<Tree>>, level: seq<Tree>, up: Context)
    requires level != [] && Deep(up, |ups|)
    ensures Walk([], ups, level, up) ==
      if ups == [] then Merged(level, false) else Walk(ups[0], ups[1..], Closed(level, up), up.up)
  {
  }

  // --- how much the walk has yet to go through ---

  function Count(f: seq<Tree>): nat {
    if f == [] then 0 else 1 + Count(f[0].kids) + Count(f[1..])
  }

  function CountAll(ups: seq<seq<Tree>>): nat {
    if ups == [] then 0 else Count(ups[0]) + CountAll(ups[1..])
  }

  lemma CountDown(rest: seq<Tree>, ups: seq<seq<Tree>>)
    requires rest != []
    ensures Count(rest[0].kids) + CountAll([rest[1..]] + ups) + 1 == Count(rest) + CountAll(ups)
  {
    assert ([rest[1..]] + ups)[1..] == ups;
  }
}
