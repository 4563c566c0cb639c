/**
 How much a merge adds: which blocks of the source are missing from a list, in what order
 they come into it, and how many blocks the whole forest gains.
 */
module TconfigMergeCount {
  import opened TconfigText
  import opened TconfigMerge
  import opened TconfigMergeLaws

  // --- what is missing ---

  predicate HasKey(l: seq<Tree>, key: string) { exists j :: 0 <= j < |l| && Keyed(l[j], key) }

  predicate HasEntry(l: seq<Tree>, e: Entry) { exists j :: 0 <= j < |l| && l[j].entry == e }

  // One of the first `n` blocks gives the key.
  predicate GivesKey(src: seq<Tree>, n: nat, key: string)
    requires n <= |src|
  {
    exists j :: 0 <= j < n && !Wild(src[j]) && Gives(src[j]).Pair? && Gives(src[j]).key == key
  }

  // A marked leaf is always missing; another leaf, when neither the target nor an earlier
  // block of the source has its key.
  predicate LeafMissing(src: seq<Tree>, i: nat, dst: seq<Tree>)
    requires i < |src| && src[i].entry.Pair?
  {
    var key := src[i].entry.key;
    Marked(key) || !(HasKey(dst, key) || GivesKey(src, i, key))
  }

  // One of the first `n` blocks is a parent with the pair, or a missing leaf that gives it.
  predicate Puts(src: seq<Tree>, n: nat, dst: seq<Tree>, e: Entry)
    requires n <= |src| && e.Pair?
  {
    exists j :: 0 <= j < n && !Wild(src[j]) && Gives(src[j]) == e && (src[j].kids != [] || LeafMissing(src, j, dst))
  }

  // A parent is missing, when neither the target nor what came before has its pair.
  predicate Missing(src: seq<Tree>, i: nat, dst: seq<Tree>)
    requires i < |src|
  {
    var e := src[i].entry;
    && !Wild(src[i]) && e.Pair?
    && if src[i].kids == [] then LeafMissing(src, i, dst) else !(HasEntry(dst, e) || Puts(src, i, dst, e))
  }

  // What the missing blocks among the first `n` put into the target, in their order.
  function News(src: seq<Tree>, n: nat, dst: seq<Tree>): seq<Entry>
    requires n <= |src|
  {
    if n == 0 then []
    else News(src, n - 1, dst) + if Missing(src, n - 1, dst) then [Gives(src[n - 1])] else []
  }

  // The strings of a list in order, without blank blocks.
  function Entries(l: seq<Tree>): seq<Entry> {
    if l == [] then [] else (if l[0].entry.Pair? then [l[0].entry] else []) + Entries(l[1..])
  }

  lemma {:induction false} EntriesConcat(a: seq<Tree>, b: seq<Tree>)
    ensures Entries(a + b) == Entries(a) + Entries(b)
  {
    if a == [] {
      assert a + b == b;
    } else {
      assert (a + b)[1..] == a[1..] + b;
      EntriesConcat(a[1..], b);
    }
  }

  lemma {:induction false} SameEntries(a: seq<Tree>, b: seq<Tree>)
    requires |a| == |b| && forall j :: 0 <= j < |a| ==> a[j].entry == b[j].entry
    ensures Entries(a) == Entries(b)
  {
    if a != [] {
      SameEntries(a[1..], b[1..]);
    }
  }

  lemma {:induction false} EntriesHave(l: seq<Tree>, e: Entry)
    requires e.Pair?
    ensures e in Entries(l) <==> HasEntry(l, e)
  {
    if l != [] {
      EntriesHave(l[1..], e);
      assert forall j :: 0 <= j < |l[1..]| ==> l[1..][j] == l[j + 1];
      if HasEntry(l, e) && l[0].entry != e {
        var j :| 0 <= j < |l| && l[j].entry == e;
        assert l[1..][j - 1].entry == e;
      }
    }
  }

  lemma AddedEntries(l: seq<Tree>, e: Entry)
    requires l != [] && e.Pair?
    ensures Entries(Added(l, e)) == Entries(l) + [e]
  {
    var last := |l| - 1;
    OneEntry(Tree(e, []));
    if l[last].entry == Blank {
      OneEntry(l[last]);
      OneEntry(l[last].(entry := e));
      EntriesConcat(l[..last], [l[last]]);
      EntriesConcat(l[..last], [l[last].(entry := e)]);
      assert l == l[..last] + [l[last]] && Added(l, e) == l[..last] + [l[last].(entry := e)];
    } else {
      EntriesConcat(l, [Tree(e, [])]);
    }
  }

  lemma OneEntry(t: Tree)
    ensures Entries([t]) == if t.entry.Pair? then [t.entry] else []
  {
    assert [t][1..] == [];
  }

  // --- one block ---

  // Merging the block into this list adds a block to it.
  predicate AddsBlock(t: Tree, l: seq<Tree>) {
    && !Wild(t) && t.entry.Pair?
    && if t.kids == [] then Marked(t.entry.key) || !HasKey(l, t.entry.key) else !HasEntry(l, t.entry)
  }

  // A block that was added stands last; otherwise the list has the entries it had.
  predicate LastAdded(l: seq<Tree>, r: seq<Tree>, e: Entry) {
    r != [] && r[|r| - 1].entry == e && Entries(r) == Entries(l) + [e]
  }

  predicate NoneAdded(l: seq<Tree>, r: seq<Tree>) {
    |r| == |l| && forall j :: 0 <= j < |l| ==> r[j].entry == l[j].entry
  }

  lemma TreeEntries(t: Tree, l: seq<Tree>, owned: bool)
    requires l != [] && t.entry.Pair? && MergeTree(t, l, owned).Merged?
    ensures var r := MergeTree(t, l, owned).list;
      if AddsBlock(t, l) then LastAdded(l, r, Gives(t)) else NoneAdded(l, r)
  {
    hide MergeList, Entries;
    if Wild(t) {
      WildElsewhere(t, l, 0);
      WildLength(t, l, 0);
    } else {
      FoundKey(l, t.entry.key);
      FoundEntry(l, t.entry);
      AddedEntries(l, Gives(t));
      if t.kids != [] && AddsBlock(t, l) {
        SameEntries(Added(l, t.entry), MergeTree(t, l, owned).list);
      }
    }
  }

  lemma WildLength(t: Tree, l: seq<Tree>, i: nat)
    requires l != [] && i <= |l| && Wild(t) && MergeWild(t, l, i).Merged?
    ensures |MergeWild(t, l, i).list| == |l|
  {
  }

  lemma FoundKey(l: seq<Tree>, key: string)
    ensures FindKey(l, key) < |l| <==> HasKey(l, key)
  {
    hide FindKey;
    var i := FindKey(l, key);
    assert i < |l| ==> Keyed(l[i], key);
  }

  lemma FoundEntry(l: seq<Tree>, e: Entry)
    ensures Find(l, e) < |l| <==> HasEntry(l, e)
  {
    hide Find;
    var i := Find(l, e);
  }

  // --- the whole list ---

  // The list has the entries of the target and those given so far.
  predicate Grown(src: seq<Tree>, i: nat, dst: seq<Tree>, l: seq<Tree>)
    requires i <= |src|
  {
    Entries(l) == Entries(dst) + News(src, i, dst)
  }

  lemma {:induction false} PairsThere(src: seq<Tree>, i: nat, dst: seq<Tree>, e: Entry)
    requires i <= |src| && Filled(src) && e.Pair?
    ensures HasEntry(dst, e) || e in News(src, i, dst) <==> HasEntry(dst, e) || Puts(src, i, dst, e)
  {
    if i > 0 {
      hide HasEntry, LeafMissing;
      PairsThere(src, i - 1, dst, e);
      PutsNext(src, i - 1, dst, e);
    }
  }

  lemma PutsNext(src: seq<Tree>, i: nat, dst: seq<Tree>, e: Entry)
    requires i < |src| && e.Pair?
    ensures var now := !Wild(src[i]) && Gives(src[i]) == e && (src[i].kids != [] || LeafMissing(src, i, dst));
      Puts(src, i + 1, dst, e) <==> Puts(src, i, dst, e) || now
  {
    hide LeafMissing, Gives, Wild;
  }

  ghost predicate KeyIn(es: seq<Entry>, key: string) { exists e :: e in es && e.Pair? && e.key == key }

  lemma {:induction false} KeysThere(src: seq<Tree>, i: nat, dst: seq<Tree>, key: string)
    requires i <= |src| && Filled(src)
    ensures HasKey(dst, key) || KeyIn(News(src, i, dst), key) <==> HasKey(dst, key) || GivesKey(src, i, key)
  {
    if i > 0 {
      hide HasKey;
      KeysThere(src, i - 1, dst, key);
      var t := src[i - 1];
      if !Wild(t) && t.kids != [] && !Missing(src, i - 1, dst) && t.entry.key == key {
        PairHasKey(src, i - 1, dst, t.entry);
      }
      if Missing(src, i - 1, dst) {
        assert Gives(t) in News(src, i, dst);
      }
    }
  }

  lemma PairHasKey(src: seq<Tree>, i: nat, dst: seq<Tree>, e: Entry)
    requires i <= |src| && e.Pair? && (HasEntry(dst, e) || Puts(src, i, dst, e))
    ensures HasKey(dst, e.key) || GivesKey(src, i, e.key)
  {
    hide LeafMissing;
    if HasEntry(dst, e) {
      var j :| 0 <= j < |dst| && dst[j].entry == e;
      assert Keyed(dst[j], e.key);
    }
  }

  lemma KeyHas(l: seq<Tree>, key: string)
    ensures KeyIn(Entries(l), key) <==> HasKey(l, key)
  {
    hide Entries;
    if HasKey(l, key) {
      var j :| 0 <= j < |l| && Keyed(l[j], key);
      EntriesHave(l, l[j].entry);
    }
    if KeyIn(Entries(l), key) {
      var e :| e in Entries(l) && e.Pair? && e.key == key;
      EntriesHave(l, e);
      var j :| 0 <= j < |l| && l[j].entry == e;
      assert Keyed(l[j], key);
    }
  }

  // So what the merge adds at each block is what is missing from the start.
  lemma AddsMissing(src: seq<Tree>, i: nat, dst: seq<Tree>, l: seq<Tree>)
    requires i < |src| && Filled(src) && Grown(src, i, dst, l)
    ensures AddsBlock(src[i], l) <==> Missing(src, i, dst)
  {
    hide HasKey, HasEntry, News, Entries, GivesKey, Puts, KeyIn;
    var e := src[i].entry;
    KeysThere(src, i, dst, e.key);
    PairsThere(src, i, dst, e);
    KeyHas(l, e.key);
    KeyHas(dst, e.key);
    EntriesHave(l, e);
    EntriesHave(dst, e);
    KeyInConcat(Entries(dst), News(src, i, dst), e.key);
  }

  lemma KeyInConcat(a: seq<Entry>, b: seq<Entry>, key: string)
    ensures KeyIn(a + b, key) <==> KeyIn(a, key) || KeyIn(b, key)
  {
  }

  lemma {:induction false} ListEntries(src: seq<Tree>, i: nat, dst: seq<Tree>, l: seq<Tree>, owned: bool)
    requires i <= |src| && Filled(src) && Whole(src) && l != [] && Grown(src, i, dst, l)
    requires MergeList(src[i..], l, owned).Merged?
    ensures Grown(src, |src|, dst, MergeList(src[i..], l, owned).list)
    decreases |src| - i
  {
    if i < |src| {
      hide MergeTree, News, Entries, EndsWild, Missing, AddsBlock, Wild, NoneAdded;
      var o := MergeTree(src[i], l, owned);
      assert src[i..][1..] == src[i + 1..];
      TreeEntries(src[i], l, owned);
      AddsMissing(src, i, dst, l);
      StoppedTree(src[i], l, owned);
      if !AddsBlock(src[i], l) {
        NoneEntries(l, o.list);
      }
      NewsNext(src, i, dst);
      if i + 1 < |src| {
        ListEntries(src, i + 1, dst, o.list, owned);
      }
    }
  }

  lemma NoneEntries(l: seq<Tree>, r: seq<Tree>)
    requires NoneAdded(l, r)
    ensures Entries(r) == Entries(l)
  {
    SameEntries(l, r);
  }

  lemma NewsNext(src: seq<Tree>, i: nat, dst: seq<Tree>)
    requires i < |src|
    ensures News(src, i + 1, dst) == News(src, i, dst) + if Missing(src, i, dst) then [Gives(src[i])] else []
  {
  }

  // A merge leaves the entries of the list as they are and puts the missing ones behind
  // them, each of them once, in the order of the source: for every source and target.
  lemma MergeEntries(src: seq<Tree>, dst: seq<Tree>, owned: bool)
    requires dst != [] && Filled(src) && MergeList(src, dst, owned).Merged?
    ensures var q := Reached(src);
      Entries(MergeList(src, dst, owned).list) == Entries(dst) + News(q, |q|, dst)
  {
    hide Entries;
    var q := Reached(src);
    ReachedWhole(src);
    ReachedSame(src, dst, owned);
    assert q[0..] == q;
    assert News(q, 0, dst) == [];
    ListEntries(q, 0, dst, dst, owned);
  }

  // One leaf: with the mark it always comes into the list, and without the mark's character;
  // another one only when no block has its key.
  lemma OneLeaf(key: string, value: string, dst: seq<Tree>, owned: bool)
    requires dst != []
    ensures var o := MergeList([Tree(Pair("@" + key, value), [])], dst, owned);
      o.Merged? && Entries(o.list) == Entries(dst) + [Pair(key, value)]
    ensures var o := MergeList([Tree(Pair(key, value), [])], dst, owned);
      key == "" || key[0] != '@' ==>
        o.Merged? && Entries(o.list) == Entries(dst) + if HasKey(dst, key) then [] else [Pair(key, value)]
  {
    hide Entries, HasKey;
    FoundKey(dst, key);
    AddedEntries(dst, Pair(key, value));
    assert ("@" + key)[1..] == key;
    OneMerged(Tree(Pair(key, value), []), dst, owned);
    OneMerged(Tree(Pair("@" + key, value), []), dst, owned);
  }

  // --- nothing twice ---

  lemma AddedDistinct(l: seq<Tree>, e: Entry)
    requires l != [] && DistinctAll(l) && e.Pair? && !HasEntry(l, e)
    ensures DistinctAll(Added(l, e))
  {
    assert DistinctAll([]);
  }

  lemma KidsDistinct(l: seq<Tree>, i: nat, kids: seq<Tree>)
    requires i < |l| && DistinctAll(l) && DistinctAll(kids)
    ensures DistinctAll(SetKids(l, i, kids))
  {
  }

  lemma KidIsDistinct(l: seq<Tree>, i: nat)
    requires i < |l| && DistinctAll(l)
    ensures DistinctAll(l[i].kids) && DistinctAll(ListOf(l[i]))
  {
    BlankDistinct();
  }

  lemma BlankDistinct()
    ensures DistinctAll(BLANK)
  {
    assert DistinctAll([]);
  }

  // Without marked leaves, no list gets two blocks with the same strings, at any depth.
  lemma {:induction false} MergeDistinct(src: seq<Tree>, dst: seq<Tree>, owned: bool)
    requires dst != [] && DistinctAll(dst) && Filled(src) && Marks(src) == 0 && MergeList(src, dst, owned).Merged?
    ensures DistinctAll(MergeList(src, dst, owned).list)
    decreases src, 0
  {
    if src != [] {
      hide DistinctAll, MergeTree;
      FilledParts(src);
      MarksAt(src, 0);
      TreeDistinct(src[0], dst, owned);
      var o := MergeTree(src[0], dst, owned);
      if !(o.stopped || (Wild(src[0]) && |src| == 1)) {
        MergeDistinct(src[1..], o.list, owned);
      }
    }
  }

  lemma {:induction false} TreeDistinct(t: Tree, dst: seq<Tree>, owned: bool)
    requires dst != [] && DistinctAll(dst) && t.entry.Pair? && Filled(t.kids) && Marks(t.kids) == 0
    requires (t.kids == [] ==> !Marked(t.entry.key)) && MergeTree(t, dst, owned).Merged?
    ensures DistinctAll(MergeTree(t, dst, owned).list)
    decreases t, 0
  {
    hide DistinctAll, Added, Filled, Marks;
    FoundKey(dst, t.entry.key);
    FoundEntry(dst, t.entry);
    if t.kids == [] {
      if FindKey(dst, t.entry.key) == |dst| {
        NoKeyNoEntry(dst, t.entry);
        AddedDistinct(dst, t.entry);
      }
    } else if Wild(t) {
      WildDistinct(t, dst, 0);
    } else {
      var i := FindPair(dst, t.entry);
      if i < |dst| {
        KidIsDistinct(dst, i);
        MergeDistinct(t.kids, dst[i].kids, true);
        KidsDistinct(dst, i, MergeList(t.kids, dst[i].kids, true).list);
      } else {
        AddedDistinct(dst, t.entry);
        BlankDistinct();
        MergeDistinct(t.kids, BLANK, true);
        KidsDistinct(Added(dst, t.entry), Place(dst), MergeList(t.kids, BLANK, true).list);
      }
    }
  }

  lemma NoKeyNoEntry(l: seq<Tree>, e: Entry)
    requires e.Pair? && !HasKey(l, e.key)
    ensures !HasEntry(l, e)
  {
    assert forall j :: 0 <= j < |l| ==> !Keyed(l[j], e.key);
  }

  lemma {:induction false} WildDistinct(t: Tree, dst: seq<Tree>, i: nat)
    requires dst != [] && i <= |dst| && DistinctAll(dst) && t.entry.Pair? && Filled(t.kids) && Marks(t.kids) == 0
    requires MergeWild(t, dst, i).Merged?
    ensures DistinctAll(MergeWild(t, dst, i).list)
    decreases t.kids, 1, |dst| - i
  {
    hide DistinctAll, Filled, Marks;
    if i < |dst| {
      if Keyed(dst[i], t.entry.key) {
        var o := MergeList(t.kids, ListOf(dst[i]), true);
        KidIsDistinct(dst, i);
        MergeDistinct(t.kids, ListOf(dst[i]), true);
        KidsDistinct(dst, i, o.list);
        WildDistinct(t, SetKids(dst, i, o.list), i + 1);
      } else {
        WildDistinct(t, dst, i + 1);
      }
    }
  }

  // --- how many blocks ---

  // What the first `n` source blocks add to a target and below its blocks, as a number of
  // blocks with strings.
  function Gain(src: seq<Tree>, n: nat, dst: seq<Tree>): int
    requires n <= |src|
    decreases src, n, 0
  {
    if n == 0 then 0 else Gain(src, n - 1, dst) + GainOf(src, n - 1, dst)
  }

  // A missing leaf adds one block; a missing parent one and all that its children make in a
  // new list; a parent that is there what is missing below it, and a wildcard what is missing
  // below each block with its key.
  function GainOf(src: seq<Tree>, i: nat, dst: seq<Tree>): int
    requires i < |src|
    decreases src, i, 1
  {
    var t := src[i];
    if t.entry == Blank then 0
    else if t.kids == [] then if Missing(src, i, dst) then 1 else 0
    else if Wild(t) then GainWild(t, dst, 0)
    else if Missing(src, i, dst) then 1 + Gain(t.kids, |t.kids|, BLANK) - Lost(src, i, dst)
    else if Find(dst, t.entry) < |dst| then Gain(t.kids, |t.kids|, dst[Find(dst, t.entry)].kids)
    else 0
  }

  function GainWild(t: Tree, dst: seq<Tree>, j: nat): int
    requires t.entry.Pair? && j <= |dst|
    decreases t.kids, |t.kids| + 1, |dst| - j
  {
    if j == |dst| then 0
    else (if Keyed(dst[j], t.entry.key) then Gain(t.kids, |t.kids|, ListOf(dst[j])) else 0) + GainWild(t, dst, j + 1)
  }

  // A new parent that fills a blank block gets a new list for its children: the blocks below
  // the blank one go.  It is the first missing block that fills it.
  function Lost(src: seq<Tree>, i: nat, dst: seq<Tree>): nat
    requires i < |src|
  {
    if (exists j :: 0 <= j < i && Missing(src, j, dst)) then 0 else BelowBlank(dst)
  }

  function BelowBlank(l: seq<Tree>): nat {
    if l != [] && l[|l| - 1].entry == Blank then Pairs(l[|l| - 1].kids) else 0
  }

  // What one block adds to the list it meets.
  function TreeAdds(t: Tree, l: seq<Tree>): int
    requires t.entry.Pair?
  {
    if t.kids == [] then if AddsBlock(t, l) then 1 else 0
    else if Wild(t) then GainWild(t, l, 0)
    else if Find(l, t.entry) < |l| then Gain(t.kids, |t.kids|, l[Find(l, t.entry)].kids)
    else 1 + Gain(t.kids, |t.kids|, BLANK) - BelowBlank(l)
  }

  lemma {:induction false} TreeGain(t: Tree, l: seq<Tree>, owned: bool)
    requires l != [] && t.entry.Pair? && Sound(t.kids) && Clear(t.kids) && MergeTree(t, l, owned).Merged?
    ensures Pairs(MergeTree(t, l, owned).list) == Pairs(l) + TreeAdds(t, l)
    decreases t, 0
  {
    hide Sound, Clear, Pairs, Gain, Find, FindKey, HasKey, GainWild;
    if t.kids == [] {
      FoundKey(l, t.entry.key);
      PairsAdded(l, Gives(t));
    } else if Wild(t) {
      WildGain(t, l, 0);
    } else {
      var i := Find(l, t.entry);
      if i < |l| {
        ListGain(t.kids, l[i].kids, true);
        PairsKids(l, i, MergeList(t.kids, l[i].kids, true).list);
      } else {
        ListGain(t.kids, BLANK, true);
        PairsAdded(l, t.entry);
        PairsKids(Added(l, t.entry), Place(l), MergeList(t.kids, BLANK, true).list);
        NoPairs();
      }
    }
  }

  lemma NoPairs()
    ensures Pairs([]) == 0 && Pairs(BLANK) == 0
  {
  }

  lemma PairsListOf(t: Tree)
    ensures Pairs(ListOf(t)) == Pairs(t.kids)
  {
    NoPairs();
  }

  lemma {:induction false} WildGain(t: Tree, l: seq<Tree>, i: nat)
    requires l != [] && i <= |l| && t.entry.Pair? && Sound(t.kids) && Clear(t.kids) && MergeWild(t, l, i).Merged?
    ensures Pairs(MergeWild(t, l, i).list) == Pairs(l) + GainWild(t, l, i)
    decreases t.kids, |t.kids| + 2, |l| - i
  {
    hide Sound, Clear, Pairs, Gain;
    if i < |l| {
      if Keyed(l[i], t.entry.key) {
        var o := MergeList(t.kids, ListOf(l[i]), true);
        ListGain(t.kids, ListOf(l[i]), true);
        PairsListOf(l[i]);
        PairsKids(l, i, o.list);
        GainBehind(t, l, SetKids(l, i, o.list), i + 1);
        WildGain(t, SetKids(l, i, o.list), i + 1);
      } else {
        WildGain(t, l, i + 1);
      }
    }
  }

  lemma {:induction false} GainBehind(t: Tree, a: seq<Tree>, b: seq<Tree>, i: nat)
    requires t.entry.Pair? && i <= |a| == |b| && forall j :: i <= j < |a| ==> a[j] == b[j]
    ensures GainWild(t, a, i) == GainWild(t, b, i)
    decreases |a| - i
  {
    hide Gain;
    if i < |a| {
      GainBehind(t, a, b, i + 1);
    }
  }

  // A wildcard adds the same to two lists in which it stands for the same blocks.
  lemma {:induction false} GainSame(t: Tree, a: seq<Tree>, b: seq<Tree>, i: nat)
    requires Wild(t) && MeetsSame(t, a, b) && i <= |b|
    ensures GainWild(t, b, i) == if i <= |a| then GainWild(t, a, i) else 0
    decreases |b| - i
  {
    hide Gain;
    if i < |b| {
      GainSame(t, a, b, i + 1);
    }
  }

  // Whether the list still has the blank block of the target, and with what below it.
  predicate BlankSame(src: seq<Tree>, i: nat, dst: seq<Tree>, l: seq<Tree>)
    requires i <= |src| && dst != [] && l != []
  {
    var was, now := dst[|dst| - 1], l[|l| - 1];
    if (exists j :: 0 <= j < i && Missing(src, j, dst)) then now.entry.Pair?
    else now.entry == was.entry && (was.entry == Blank ==> now == was)
  }

  // The list in front of block `i` of the source, as far as the blocks behind can tell.
  predicate Reaches(src: seq<Tree>, i: nat, dst: seq<Tree>, l: seq<Tree>)
    requires i <= |src| && dst != [] && l != []
  {
    && Grown(src, i, dst, l) && BlankSame(src, i, dst, l)
    && forall k :: i <= k < |src| ==> MeetsSame(src[k], dst, l)
  }

  lemma AddsGain(src: seq<Tree>, i: nat, dst: seq<Tree>, l: seq<Tree>)
    requires i < |src| && Filled(src) && dst != [] && l != [] && Reaches(src, i, dst, l)
    ensures TreeAdds(src[i], l) == GainOf(src, i, dst)
  {
    hide Gain, Find, Grown, GainWild, HasKey;
    var t := src[i];
    AddsMissing(src, i, dst, l);
    assert MeetsSame(t, dst, l);
    if Wild(t) {
      GainSame(t, dst, l, 0);
    } else if t.kids != [] {
      FoundEntry(l, t.entry);
      FoundEntry(dst, t.entry);
    }
  }

  lemma ReachesNext(src: seq<Tree>, i: nat, dst: seq<Tree>, l: seq<Tree>, owned: bool)
    requires i < |src| && Sound(src) && Clear(src) && dst != [] && l != [] && Reaches(src, i, dst, l)
    requires MergeTree(src[i], l, owned).Merged?
    ensures var r := MergeTree(src[i], l, owned).list; r != [] && Reaches(src, i + 1, dst, r)
  {
    hide Clear, MergeTree, MeetsSame, Missing, AddsBlock, News, Entries, Elsewhere, Wild, BlankSame;
    var t, r := src[i], MergeTree(src[i], l, owned).list;
    TreeEntries(t, l, owned);
    AddsMissing(src, i, dst, l);
    NewsNext(src, i, dst);
    TreeElsewhere(t, l, owned);
    if !AddsBlock(t, l) {
      NoneEntries(l, r);
    }
    LastSame(t, l, r);
    BlankNext(src, i, dst, l, r);
    forall k | i + 1 <= k < |src| ensures MeetsSame(src[k], dst, r) {
      KeysApart(src, i, k);
      Untouched(src[k], t, l, r);
      MeetsTrans(src[k], dst, l, r);
    }
  }

  lemma BlankNext(src: seq<Tree>, i: nat, dst: seq<Tree>, l: seq<Tree>, r: seq<Tree>)
    requires i < |src| && dst != [] && l != [] && r != [] && BlankSame(src, i, dst, l)
    requires if Missing(src, i, dst) then r[|r| - 1].entry.Pair? else NoneAdded(l, r)
    requires r[|r| - 1].entry == Blank ==> r[|r| - 1] == l[|l| - 1]
    ensures BlankSame(src, i + 1, dst, r)
  {
    hide Missing;
    assert (exists j :: 0 <= j < i + 1 && Missing(src, j, dst)) <==>
      (exists j :: 0 <= j < i && Missing(src, j, dst)) || Missing(src, i, dst);
  }

  // A blank block is not touched.
  lemma LastSame(t: Tree, a: seq<Tree>, b: seq<Tree>)
    requires Elsewhere(t, a, b) && b != []
    ensures b[|b| - 1].entry == Blank ==> |a| == |b| && b[|b| - 1] == a[|a| - 1]
  {
  }

  lemma {:induction false} ListGain(src: seq<Tree>, dst: seq<Tree>, owned: bool)
    requires dst != [] && Sound(src) && Clear(src) && MergeList(src, dst, owned).Merged?
    ensures Pairs(MergeList(src, dst, owned).list) == Pairs(dst) + Gain(src, |src|, dst)
    decreases src, |src| + 1, 0
  {
    hide Sound, Clear, Pairs, Find;
    assert src[0..] == src;
    assert News(src, 0, dst) == [];
    RestGain(src, 0, dst, dst, owned);
  }

  lemma {:induction false} RestGain(src: seq<Tree>, i: nat, dst: seq<Tree>, l: seq<Tree>, owned: bool)
    requires i <= |src| && Sound(src) && Clear(src) && dst != [] && l != [] && Reaches(src, i, dst, l)
    requires Pairs(l) == Pairs(dst) + Gain(src, i, dst) && MergeList(src[i..], l, owned).Merged?
    ensures Pairs(MergeList(src[i..], l, owned).list) == Pairs(dst) + Gain(src, |src|, dst)
    decreases src, |src| - i, 0
  {
    if i < |src| {
      hide MergeTree, Pairs, EndsWild, Sound, Clear, Reaches, TreeAdds, GainOf, Wild;
      var o := MergeTree(src[i], l, owned);
      assert src[i..][1..] == src[i + 1..];
      SoundAt(src, i);
      AddsGain(src, i, dst, l);
      ReachesNext(src, i, dst, l, owned);
      TreeGain(src[i], l, owned);
      StoppedTree(src[i], l, owned);
      if i + 1 < |src| {
        RestGain(src, i + 1, dst, o.list, owned);
      }
    }
  }

  lemma {:induction false} SoundAt(src: seq<Tree>, i: nat)
    requires i < |src| && Sound(src) && Clear(src)
    ensures Filled(src) && src[i].entry.Pair? && Sound(src[i].kids) && Clear(src[i].kids)
    ensures i + 1 < |src| && EndsWild(src[i].kids) ==> Wild(src[i])
  {
    hide EndsWild, Wild;
    SoundParts(src);
    ClearParts(src);
    if i > 0 {
      SoundAt(src[1..], i - 1);
    }
  }

  // A first merge adds exactly what is missing, at every depth and below every block that a
  // wildcard stands for; only what stood below a blank block goes when a parent fills it.
  lemma MergeGains(src: seq<Tree>, dst: seq<Tree>, owned: bool)
    requires dst != [] && Filled(src) && Settled(Reached(src)) && Clear(Reached(src))
    requires MergeList(src, dst, owned).Merged?
    ensures var q := Reached(src);
      Pairs(MergeList(src, dst, owned).list) == Pairs(dst) + Gain(q, |q|, dst)
  {
    hide Pairs, Gain, Clear;
    ReachedWhole(src);
    ReachedSame(src, dst, owned);
    ListGain(Reached(src), dst, owned);
  }
}
