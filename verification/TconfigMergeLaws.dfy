/**
 What merging keeps, reaches, adds and repeats, for the merge of TconfigMerge.
 */
module TconfigMergeLaws {
  import opened Shared
  import opened TconfigText
  import opened TconfigMerge
  import UserFile

  // --- nothing that was there is changed ---

  // Every block with strings keeps its place, its strings, and in the same way its children.
  predicate Extends(a: seq<Tree>, b: seq<Tree>) {
    |a| <= |b| &&
    forall i :: 0 <= i < |a| ==> a[i].entry.Pair? ==> b[i].entry == a[i].entry && Extends(a[i].kids, b[i].kids)
  }

  function KeyOf(e: Entry): Option<string> { if e.Pair? then Some(e.key) else None }

  // The same, and what is new in the list of a block that was there, or has changed there,
  // has one of the keys.
  predicate Grows(a: seq<Tree>, b: seq<Tree>, keys: set<Option<string>>) {
    && |a| <= |b|
    && (forall i :: 0 <= i < |a| && a[i].entry.Pair? ==> b[i].entry == a[i].entry && Grows(a[i].kids, b[i].kids, keys))
    && (forall i :: 0 <= i < |a| && a[i].entry.Blank? ==> b[i] == a[i] || KeyOf(b[i].entry) in keys)
    && (forall i :: |a| <= i < |b| && b[i].entry.Pair? ==> KeyOf(b[i].entry) in keys)
  }

  lemma {:induction false} GrowsSelf(a: seq<Tree>, keys: set<Option<string>>)
    ensures Grows(a, a, keys)
  {
    forall i | 0 <= i < |a| ensures Grows(a[i].kids, a[i].kids, keys) {
      GrowsSelf(a[i].kids, keys);
    }
  }

  lemma {:induction false} GrowsTrans(a: seq<Tree>, b: seq<Tree>, c: seq<Tree>, keys: set<Option<string>>)
    requires Grows(a, b, keys) && Grows(b, c, keys)
    ensures Grows(a, c, keys)
  {
    forall i | 0 <= i < |a| && a[i].entry.Pair?
      ensures c[i].entry == a[i].entry && Grows(a[i].kids, c[i].kids, keys)
    {
      GrowsTrans(a[i].kids, b[i].kids, c[i].kids, keys);
    }
  }

  lemma {:induction false} GrowsExtends(a: seq<Tree>, b: seq<Tree>, keys: set<Option<string>>)
    requires Grows(a, b, keys)
    ensures Extends(a, b)
  {
    forall i | 0 <= i < |a| && a[i].entry.Pair?
      ensures b[i].entry == a[i].entry && Extends(a[i].kids, b[i].kids)
    {
      GrowsExtends(a[i].kids, b[i].kids, keys);
    }
  }

  lemma AddedGrows(l: seq<Tree>, e: Entry, keys: set<Option<string>>)
    requires l != [] && KeyOf(e) in keys
    ensures Grows(l, Added(l, e), keys)
  {
    forall i | 0 <= i < |l| ensures Grows(l[i].kids, l[i].kids, keys) {
      GrowsSelf(l[i].kids, keys);
    }
  }

  lemma KidsGrow(a: seq<Tree>, b: seq<Tree>, i: nat, kids: seq<Tree>, keys: set<Option<string>>)
    requires i < |b| && Grows(a, b, keys)
    requires i < |a| ==> if a[i].entry.Pair? then Grows(b[i].kids, kids, keys) else KeyOf(b[i].entry) in keys
    ensures Grows(a, SetKids(b, i, kids), keys)
  {
    if i < |a| && a[i].entry.Pair? {
      GrowsTrans(a[i].kids, b[i].kids, kids, keys);
    }
  }

  // What a block puts into a list that lacks it.
  function Gives(t: Tree): Entry {
    if t.kids == [] && t.entry.Pair? then Pair(Stripped(t.entry.key), t.entry.value) else t.entry
  }

  // The keys of all blocks that can be added.
  function AddKeys(src: seq<Tree>): set<Option<string>> {
    if src == [] then {}
    else
      (if Wild(src[0]) then {} else {KeyOf(Gives(src[0]))})
      + AddKeys(src[0].kids) + AddKeys(src[1..])
  }

  // A merge adds blocks with keys of the source only.
  lemma {:induction false} MergeGrows(src: seq<Tree>, dst: seq<Tree>, owned: bool, keys: set<Option<string>>)
    requires dst != [] && MergeList(src, dst, owned).Merged? && AddKeys(src) <= keys
    ensures Grows(dst, MergeList(src, dst, owned).list, keys)
    decreases src, 0
  {
    hide Grows;
    if src == [] {
      GrowsSelf(dst, keys);
    } else {
      var o := MergeTree(src[0], dst, owned);
      MergeTreeGrows(src[0], dst, owned, keys);
      if !(o.stopped || (Wild(src[0]) && |src| == 1)) {
        MergeGrows(src[1..], o.list, owned, keys);
        GrowsTrans(dst, o.list, MergeList(src, dst, owned).list, keys);
      }
    }
  }

  lemma {:induction false} MergeTreeGrows(t: Tree, dst: seq<Tree>, owned: bool, keys: set<Option<string>>)
    requires dst != [] && MergeTree(t, dst, owned).Merged?
    requires AddKeys(t.kids) <= keys && (!Wild(t) ==> KeyOf(Gives(t)) in keys)
    ensures Grows(dst, MergeTree(t, dst, owned).list, keys)
    decreases t, 0
  {
    hide Grows, Added;
    GrowsSelf(dst, keys);
    if t.kids == [] {
      AddedGrows(dst, Gives(t), keys);
    } else if Wild(t) {
      MergeWildGrows(t, dst, 0, keys);
    } else {
      var i := FindPair(dst, t.entry);
      if i < |dst| {
        MergeGrows(t.kids, dst[i].kids, true, keys);
        KidsGrow(dst, dst, i, MergeList(t.kids, dst[i].kids, true).list, keys);
      } else {
        AddedGrows(dst, t.entry, keys);
        PlaceFree(dst);
        KidsGrow(dst, Added(dst, t.entry), Place(dst), MergeList(t.kids, BLANK, true).list, keys);
      }
    }
  }

  lemma PlaceFree(l: seq<Tree>)
    requires l != []
    ensures Place(l) < |l| ==> l[Place(l)].entry == Blank
  {
  }

  lemma {:induction false} MergeWildGrows(t: Tree, dst: seq<Tree>, i: nat, keys: set<Option<string>>)
    requires dst != [] && i <= |dst| && t.entry.Pair? && MergeWild(t, dst, i).Merged? && AddKeys(t.kids) <= keys
    ensures Grows(dst, MergeWild(t, dst, i).list, keys)
    decreases t.kids, 1, |dst| - i
  {
    hide Grows;
    GrowsSelf(dst, keys);
    if i < |dst| {
      if dst[i].entry.Pair? && dst[i].entry.key == t.entry.key {
        var o := MergeList(t.kids, ListOf(dst[i]), true);
        MergeGrows(t.kids, ListOf(dst[i]), true, keys);
        BlankGrows(dst[i], o.list, keys);
        KidsGrow(dst, dst, i, o.list, keys);
        MergeWildGrows(t, SetKids(dst, i, o.list), i + 1, keys);
        GrowsTrans(dst, SetKids(dst, i, o.list), MergeWild(t, dst, i).list, keys);
      } else {
        MergeWildGrows(t, dst, i + 1, keys);
      }
    }
  }

  lemma BlankGrows(t: Tree, l: seq<Tree>, keys: set<Option<string>>)
    requires Grows(ListOf(t), l, keys)
    ensures Grows(t.kids, l, keys)
  {
  }

  // Merging never overrides: for all sources, wildcards and marked keys included.
  lemma MergeExtends(src: seq<Tree>, dst: seq<Tree>, owned: bool)
    requires dst != [] && MergeList(src, dst, owned).Merged?
    ensures Extends(dst, MergeList(src, dst, owned).list)
  {
    MergeGrows(src, dst, owned, AddKeys(src));
    GrowsExtends(dst, MergeList(src, dst, owned).list, AddKeys(src));
  }

  // So a setting that was there is read back as it was.
  lemma {:induction false} SettingKept(a: seq<Tree>, b: seq<Tree>, key: string)
    requires Extends(a, b) && UserFile.Lookup(a, key).Some?
    requires Tidy(a)
    ensures UserFile.Lookup(b, key) == UserFile.Lookup(a, key)
  {
    if !(a[0].entry.Pair? && a[0].entry.key == key) {
      assert |a| > 1 && a[0].entry.Pair?;
      TailsExtend(a, b);
      SettingKept(a[1..], b[1..], key);
    }
  }

  lemma TailsExtend(a: seq<Tree>, b: seq<Tree>)
    requires a != [] && Extends(a, b) && Tidy(a)
    ensures Extends(a[1..], b[1..]) && Tidy(a[1..])
  {
  }

  // --- what a merge gets to see of its source ---

  // A wildcard at the end of a list, or of the last list below a parent, ends the merge.
  predicate EndsWild(src: seq<Tree>) {
    src != [] &&
    ((!Wild(src[0]) && EndsWild(src[0].kids)) || (Wild(src[0]) && |src| == 1) || EndsWild(src[1..]))
  }

  // The merge is ended early exactly by such a source.
  lemma {:induction false} StoppedIff(src: seq<Tree>, dst: seq<Tree>, owned: bool)
    requires dst != [] && MergeList(src, dst, owned).Merged?
    ensures MergeList(src, dst, owned).stopped <==> EndsWild(src)
    decreases src, 0
  {
    if src != [] {
      hide MergeTree;
      StoppedTree(src[0], dst, owned);
      var o := MergeTree(src[0], dst, owned);
      if !(o.stopped || (Wild(src[0]) && |src| == 1)) {
        StoppedIff(src[1..], o.list, owned);
      }
    }
  }

  lemma {:induction false} StoppedTree(t: Tree, dst: seq<Tree>, owned: bool)
    requires dst != [] && MergeTree(t, dst, owned).Merged?
    ensures MergeTree(t, dst, owned).stopped <==> !Wild(t) && EndsWild(t.kids)
    decreases t, 0
  {
    if t.kids != [] && !Wild(t) {
      var i := FindPair(dst, t.entry);
      StoppedIff(t.kids, if i < |dst| then dst[i].kids else BLANK, true);
    }
  }

  // The source without what stands behind an end like that.
  function Reached(src: seq<Tree>): (r: seq<Tree>)
    ensures |r| <= |src| && (r == [] <==> src == [])
  {
    if src == [] then []
    else
      var t := src[0].(kids := Reached(src[0].kids));
      if !Wild(src[0]) && EndsWild(src[0].kids) then [t] else [t] + Reached(src[1..])
  }

  // Merging it is the same; a wildcard's own children are a list of their own.
  lemma {:induction false} ReachedSame(src: seq<Tree>, dst: seq<Tree>, owned: bool)
    requires dst != []
    ensures MergeList(Reached(src), dst, owned) == MergeList(src, dst, owned)
    decreases src, 0
  {
    if src != [] {
      hide MergeTree, Reached;
      var t := src[0].(kids := Reached(src[0].kids));
      ReachedFirst(src);
      ReachedTree(src[0], dst, owned);
      var o := MergeTree(src[0], dst, owned);
      if o.Merged? {
        StoppedTree(src[0], dst, owned);
        if !o.stopped && |src| > 1 {
          ReachedSame(src[1..], o.list, owned);
        }
      }
    }
  }

  lemma ReachedFirst(src: seq<Tree>)
    requires src != []
    ensures var t, r := src[0].(kids := Reached(src[0].kids)), Reached(src);
      && r != [] && r[0] == t && (Wild(t) <==> Wild(src[0]))
      && r[1..] == (if !Wild(src[0]) && EndsWild(src[0].kids) then [] else Reached(src[1..]))
  {
  }

  lemma {:induction false} ReachedTree(t: Tree, dst: seq<Tree>, owned: bool)
    requires dst != []
    ensures MergeTree(t.(kids := Reached(t.kids)), dst, owned) == MergeTree(t, dst, owned)
    decreases t, 0
  {
    hide Reached;
    if t.kids != [] {
      if Wild(t) {
        ReachedWild(t, dst, 0);
      } else {
        var i := FindPair(dst, t.entry);
        if i < |dst| {
          if dst[i].kids != [] {
            ReachedSame(t.kids, dst[i].kids, true);
          }
        } else {
          ReachedSame(t.kids, BLANK, true);
        }
      }
    }
  }

  lemma {:induction false} ReachedWild(t: Tree, dst: seq<Tree>, i: nat)
    requires dst != [] && i <= |dst| && t.entry.Pair?
    ensures MergeWild(t.(kids := Reached(t.kids)), dst, i) == MergeWild(t, dst, i)
    decreases t.kids, 1, |dst| - i
  {
    if i < |dst| {
      if dst[i].entry.Pair? && dst[i].entry.key == t.entry.key {
        var o := MergeList(t.kids, ListOf(dst[i]), true);
        ReachedSame(t.kids, ListOf(dst[i]), true);
        if o.Merged? {
          ReachedWild(t, SetKids(dst, i, o.list), i + 1);
        }
      } else {
        ReachedWild(t, dst, i + 1);
      }
    }
  }

  // What follows a parent whose children end like that is not merged.
  lemma {:induction false} WildcardEnds(before: seq<Tree>, owner: Tree, next: seq<Tree>, dst: seq<Tree>, owned: bool)
    requires dst != [] && !Wild(owner) && EndsWild(owner.kids)
    ensures MergeList(before + [owner] + next, dst, owned) == MergeList(before + [owner], dst, owned)
    decreases |before|
  {
    hide MergeTree, EndsWild;
    var l, k := before + [owner] + next, before + [owner];
    if before == [] {
      assert l[0] == owner == k[0];
      if MergeTree(owner, dst, owned).Merged? {
        StoppedTree(owner, dst, owned);
      }
    } else {
      assert l[0] == before[0] == k[0] && l[1..] == before[1..] + [owner] + next && k[1..] == before[1..] + [owner];
      var o := MergeTree(before[0], dst, owned);
      if o.Merged? {
        WildcardEnds(before[1..], owner, next, o.list, owned);
      }
    }
  }

  // Nothing of the source is cut off.
  predicate Whole(src: seq<Tree>) {
    forall i :: 0 <= i < |src| ==>
      (i < |src| - 1 && EndsWild(src[i].kids) ==> Wild(src[i])) && Whole(src[i].kids)
  }

  lemma {:induction false} WholeIff(src: seq<Tree>)
    ensures Whole(src) <==> Reached(src) == src
  {
    if src != [] {
      hide Whole, Reached;
      ReachedFirst(src);
      WholeParts(src);
      WholeIff(src[0].kids);
      WholeIff(src[1..]);
      var r := Reached(src);
      assert r == [r[0]] + r[1..] && src == [src[0]] + src[1..];
    } else {
      assert Reached([]) == [];
    }
  }

  lemma WholeParts(src: seq<Tree>)
    requires src != []
    ensures Whole(src) <==>
      (|src| > 1 && EndsWild(src[0].kids) ==> Wild(src[0])) && Whole(src[0].kids) && Whole(src[1..])
  {
    hide EndsWild;
    if Whole(src) {
      assert forall i :: 0 <= i < |src[1..]| ==> src[1..][i] == src[i + 1];
    }
    assert forall i :: 0 < i < |src| ==> src[i] == src[1..][i - 1];
  }

  lemma {:induction false} ReachedWhole(src: seq<Tree>)
    ensures Whole(Reached(src)) && (EndsWild(Reached(src)) <==> EndsWild(src))
    ensures Filled(src) ==> Filled(Reached(src))
  {
    if src != [] {
      hide Whole, Reached;
      var r := Reached(src);
      ReachedFirst(src);
      ReachedWhole(src[0].kids);
      ReachedWhole(src[1..]);
      WholeParts(r);
      assert Whole([]);
      assert forall i :: 0 < i < |r| ==> r[i] == r[1..][i - 1];
    } else {
      assert Reached([]) == [];
    }
  }

  // --- everything that was missing is there ---

  predicate Keyed(t: Tree, key: string) { t.entry.Pair? && t.entry.key == key }

  // The block is found again, and its children below its match; those of a wildcard below
  // every block with its key.
  predicate AbsorbedOne(t: Tree, r: seq<Tree>)
    decreases t, 0
  {
    t.entry.Pair? &&
    if t.kids == [] then
      if Marked(t.entry.key) then FindPair(r, Gives(t)) < |r| else FindKey(r, t.entry.key) < |r|
    else if Wild(t) then
      forall j :: 0 <= j < |r| && Keyed(r[j], t.entry.key) ==> r[j].kids != [] && Absorbed(t.kids, r[j].kids)
    else
      var j := FindPair(r, t.entry);
      j < |r| && r[j].kids != [] && Absorbed(t.kids, r[j].kids)
  }

  predicate Absorbed(src: seq<Tree>, r: seq<Tree>)
    decreases src, 0
  {
    forall i :: 0 <= i < |src| ==> AbsorbedOne(src[i], r)
  }

  function WildKeys(src: seq<Tree>): set<Option<string>> {
    if src == [] then {}
    else (if Wild(src[0]) then {Some(src[0].entry.key)} else {}) + WildKeys(src[0].kids) + WildKeys(src[1..])
  }

  // No wildcard stands for a key that the source itself can add.
  predicate Settled(src: seq<Tree>) { WildKeys(src) !! AddKeys(src) }

  lemma {:induction false} WildKeysAt(src: seq<Tree>, i: nat)
    requires i < |src|
    ensures WildKeys(src[i].kids) <= WildKeys(src) && (Wild(src[i]) ==> Some(src[i].entry.key) in WildKeys(src))
  {
    if i > 0 {
      WildKeysAt(src[1..], i - 1);
    }
  }

  lemma FindStays(a: seq<Tree>, b: seq<Tree>, e: Entry, keys: set<Option<string>>)
    requires Grows(a, b, keys) && Tidy(a) && FindPair(a, e) < |a|
    ensures FindPair(b, e) == FindPair(a, e) < |b|
  {
    hide Find;
    var i := Find(a, e);
    assert b[i].entry == e && forall j :: 0 <= j < i ==> b[j].entry == a[j].entry;
    FirstIs(b, e, i);
  }

  lemma FirstIs(l: seq<Tree>, e: Entry, i: nat)
    requires i < |l| && l[i].entry == e && forall j :: 0 <= j < i ==> l[j].entry != e
    ensures Find(l, e) == i
  {
    hide Find;
    var k := Find(l, e);
  }

  lemma KeyStays(a: seq<Tree>, b: seq<Tree>, key: string, keys: set<Option<string>>)
    requires Grows(a, b, keys) && FindKey(a, key) < |a|
    ensures FindKey(b, key) < |b|
  {
    hide FindKey;
    var i := FindKey(a, key);
    assert b[i].entry == a[i].entry;
  }

  lemma KidsOf(a: seq<Tree>, b: seq<Tree>, j: nat, keys: set<Option<string>>)
    requires Grows(a, b, keys) && Tidy(a) && j < |a| && a[j].entry.Pair?
    ensures j < |b| && Grows(a[j].kids, b[j].kids, keys) && Tidy(a[j].kids) && b[j].entry == a[j].entry
    ensures a[j].kids != [] ==> b[j].kids != []
  {
  }

  // A block with a key that was not added was there.
  lemma WasThere(a: seq<Tree>, b: seq<Tree>, j: nat, keys: set<Option<string>>)
    requires Grows(a, b, keys) && j < |b| && b[j].entry.Pair? && Some(b[j].entry.key) !in keys
    ensures j < |a| && a[j].entry == b[j].entry
  {
  }

  lemma {:induction false} AbsorbedStays(src: seq<Tree>, a: seq<Tree>, b: seq<Tree>, keys: set<Option<string>>)
    requires Absorbed(src, a) && Grows(a, b, keys) && Tidy(a) && WildKeys(src) !! keys
    ensures Absorbed(src, b)
    decreases src, 0
  {
    hide AbsorbedOne, Grows, Tidy;
    forall i | 0 <= i < |src| ensures AbsorbedOne(src[i], b) {
      WildKeysAt(src, i);
      OneStays(src[i], a, b, keys);
    }
  }

  lemma {:induction false} OneStays(t: Tree, a: seq<Tree>, b: seq<Tree>, keys: set<Option<string>>)
    requires AbsorbedOne(t, a) && Grows(a, b, keys) && Tidy(a)
    requires WildKeys(t.kids) !! keys && (Wild(t) ==> Some(t.entry.key) !in keys)
    ensures AbsorbedOne(t, b)
    decreases t, 0
  {
    hide FindPair, FindKey, Grows, Tidy, Absorbed;
    if t.kids == [] {
      if Marked(t.entry.key) {
        FindStays(a, b, Gives(t), keys);
      } else {
        KeyStays(a, b, t.entry.key, keys);
      }
    } else if Wild(t) {
      forall j | 0 <= j < |b| && Keyed(b[j], t.entry.key) ensures b[j].kids != [] && Absorbed(t.kids, b[j].kids) {
        WasThere(a, b, j, keys);
        assert Keyed(a[j], t.entry.key);
        KidsOf(a, b, j, keys);
        AbsorbedStays(t.kids, a[j].kids, b[j].kids, keys);
      }
    } else {
      var j := FindPair(a, t.entry);
      FindStays(a, b, t.entry, keys);
      KidsOf(a, b, j, keys);
      AbsorbedStays(t.kids, a[j].kids, b[j].kids, keys);
    }
  }

  // A source of which nothing is cut off, and whose blocks all have strings.
  predicate Sound(src: seq<Tree>) { Filled(src) && Whole(src) && Settled(src) }

  lemma SoundParts(src: seq<Tree>)
    requires src != [] && Sound(src)
    ensures src[0].entry.Pair? && Sound(src[0].kids) && Sound(src[1..])
    ensures |src| > 1 && EndsWild(src[0].kids) ==> Wild(src[0])
    ensures AddKeys(src[1..]) <= AddKeys(src) && WildKeys(src[1..]) <= WildKeys(src) && AddKeys(src) !! WildKeys(src)
    ensures AddKeys(src[0].kids) <= AddKeys(src) && WildKeys(src[0].kids) <= WildKeys(src)
    ensures if Wild(src[0]) then Some(src[0].entry.key) in WildKeys(src) else KeyOf(Gives(src[0])) in AddKeys(src)
  {
    hide EndsWild, Whole, Wild, Filled, AddKeys, WildKeys;
    WholeParts(src);
    FilledParts(src);
    KeyParts(src);
  }

  lemma FilledParts(src: seq<Tree>)
    requires src != [] && Filled(src)
    ensures src[0].entry.Pair? && Filled(src[0].kids) && Filled(src[1..])
  {
  }

  lemma KeyParts(src: seq<Tree>)
    requires src != [] && src[0].entry.Pair?
    ensures AddKeys(src[1..]) <= AddKeys(src) && WildKeys(src[1..]) <= WildKeys(src)
    ensures AddKeys(src[0].kids) <= AddKeys(src) && WildKeys(src[0].kids) <= WildKeys(src)
    ensures if Wild(src[0]) then Some(src[0].entry.key) in WildKeys(src) else KeyOf(Gives(src[0])) in AddKeys(src)
  {
  }

  lemma {:induction false} SoundAbsorbs(src: seq<Tree>, dst: seq<Tree>, owned: bool)
    requires dst != [] && Tidy(dst) && Sound(src) && MergeList(src, dst, owned).Merged?
    ensures Absorbed(src, MergeList(src, dst, owned).list)
    decreases src, 0
  {
    if src != [] {
      hide AbsorbedOne, MergeTree, Sound, EndsWild, Grows, Tidy, AddKeys, WildKeys;
      var l, r := MergeTree(src[0], dst, owned).list, MergeList(src, dst, owned).list;
      SoundParts(src);
      TreeAbsorbs(src[0], dst, owned);
      MergeTreeTidy(src[0], dst, owned);
      StoppedTree(src[0], dst, owned);
      if |src| > 1 {
        SoundAbsorbs(src[1..], l, owned);
        MergeGrows(src[1..], l, owned, AddKeys(src));
        WildKeysAt(src, 0);
        OneStays(src[0], l, r, AddKeys(src));
        assert forall i :: 0 < i < |src| ==> src[i] == src[1..][i - 1];
      }
    }
  }

  lemma {:induction false} TreeAbsorbs(t: Tree, dst: seq<Tree>, owned: bool)
    requires dst != [] && Tidy(dst) && t.entry.Pair? && Sound(t.kids) && MergeTree(t, dst, owned).Merged?
    ensures AbsorbedOne(t, MergeTree(t, dst, owned).list)
    decreases t, 0
  {
    hide Absorbed, Find, FindKey, Tidy, Sound;
    var r := MergeTree(t, dst, owned).list;
    if t.kids == [] {
      AddedFound(dst, Gives(t));
    } else if Wild(t) {
      WildAbsorbs(t, dst, 0);
    } else {
      var i := FindPair(dst, t.entry);
      FirstEntry(dst, t.entry);
      if i < |dst| {
        KidIsTidy(dst, i);
        SoundAbsorbs(t.kids, dst[i].kids, true);
        FirstIs(r, t.entry, i);
      } else {
        BlankTidy();
        SoundAbsorbs(t.kids, BLANK, true);
        AddedFound(dst, t.entry);
        FirstIs(r, t.entry, Place(dst));
      }
    }
  }

  lemma {:induction false} WildAbsorbs(t: Tree, dst: seq<Tree>, i: nat)
    requires dst != [] && i <= |dst| && Tidy(dst) && t.entry.Pair? && Sound(t.kids) && MergeWild(t, dst, i).Merged?
    requires forall j :: 0 <= j < i && Keyed(dst[j], t.entry.key) ==> dst[j].kids != [] && Absorbed(t.kids, dst[j].kids)
    ensures var r := MergeWild(t, dst, i).list;
      forall j :: 0 <= j < |r| && Keyed(r[j], t.entry.key) ==> r[j].kids != [] && Absorbed(t.kids, r[j].kids)
    decreases t.kids, 1, |dst| - i
  {
    hide Absorbed, Sound, Tidy;
    if i < |dst| {
      if Keyed(dst[i], t.entry.key) {
        var o := MergeList(t.kids, ListOf(dst[i]), true);
        KidIsTidy(dst, i);
        SoundAbsorbs(t.kids, ListOf(dst[i]), true);
        MergeTidy(t.kids, ListOf(dst[i]), true);
        KidsTidy(dst, i, o.list);
        WildAbsorbs(t, SetKids(dst, i, o.list), i + 1);
      } else {
        WildAbsorbs(t, dst, i + 1);
      }
    }
  }

  lemma FirstEntry(l: seq<Tree>, e: Entry)
    ensures forall j :: 0 <= j < Find(l, e) ==> l[j].entry != e
  {
  }

  lemma AddedFound(l: seq<Tree>, e: Entry)
    requires l != [] && e.Pair?
    ensures FindPair(Added(l, e), e) < |Added(l, e)| && FindKey(Added(l, e), e.key) < |Added(l, e)|
  {
    hide Find, FindKey;
    var r, i := Added(l, e), Place(l);
    assert r[i].entry == e;
    var j, k := Find(r, e), FindKey(r, e.key);
  }

  // What the merge gets to see is there afterwards, if no wildcard stands for a key the
  // source adds.
  lemma MergeAbsorbs(src: seq<Tree>, dst: seq<Tree>, owned: bool)
    requires dst != [] && Tidy(dst) && Filled(src) && Settled(Reached(src)) && MergeList(src, dst, owned).Merged?
    ensures Absorbed(Reached(src), MergeList(src, dst, owned).list)
  {
    hide Absorbed;
    ReachedWhole(src);
    ReachedSame(src, dst, owned);
    SoundAbsorbs(Reached(src), dst, owned);
  }

  // --- merging again ---

  // The marked leaves of the source.
  function Marks(src: seq<Tree>): nat {
    if src == [] then 0
    else (if src[0].kids == [] && src[0].entry.Pair? && Marked(src[0].entry.key) then 1 else 0)
         + Marks(src[0].kids) + Marks(src[1..])
  }

  // The blocks with strings.
  function Pairs(l: seq<Tree>): nat {
    if l == [] then 0 else (if l[0].entry.Pair? then 1 else 0) + Pairs(l[0].kids) + Pairs(l[1..])
  }

  lemma {:induction false} PairsConcat(a: seq<Tree>, b: seq<Tree>)
    ensures Pairs(a + b) == Pairs(a) + Pairs(b)
  {
    if a == [] {
      assert a + b == b;
    } else {
      assert (a + b)[1..] == a[1..] + b;
      PairsConcat(a[1..], b);
    }
  }

  // One block of a list exchanged for another.
  lemma PairsSet(l: seq<Tree>, i: nat, t: Tree)
    requires i < |l|
    ensures Pairs(l[i := t]) + Pairs([l[i]]) == Pairs(l) + Pairs([t])
  {
    hide Pairs;
    assert l == l[..i] + ([l[i]] + l[i + 1..]) && l[i := t] == l[..i] + ([t] + l[i + 1..]);
    PairsConcat([l[i]], l[i + 1..]);
    PairsConcat([t], l[i + 1..]);
    PairsConcat(l[..i], [l[i]] + l[i + 1..]);
    PairsConcat(l[..i], [t] + l[i + 1..]);
  }

  lemma PairsOne(t: Tree)
    ensures Pairs([t]) == (if t.entry.Pair? then 1 else 0) + Pairs(t.kids)
  {
    assert [t][1..] == [];
  }

  lemma PairsAdded(l: seq<Tree>, e: Entry)
    requires l != [] && e.Pair?
    ensures Pairs(Added(l, e)) == Pairs(l) + 1
  {
    var last := |l| - 1;
    PairsSet(l, last, l[last].(entry := e));
    PairsOne(l[last]);
    PairsOne(l[last].(entry := e));
    PairsConcat(l, [Tree(e, [])]);
    PairsOne(Tree(e, []));
  }

  lemma PairsKids(l: seq<Tree>, i: nat, kids: seq<Tree>)
    requires i < |l|
    ensures Pairs(SetKids(l, i, kids)) + Pairs(l[i].kids) == Pairs(l) + Pairs(kids)
  {
    PairsSet(l, i, l[i].(kids := kids));
    PairsOne(l[i]);
    PairsOne(l[i].(kids := kids));
  }

  // The marked leaves a merge adds to a list that has absorbed the source: one below every
  // block that a wildcard above the leaf stands for.
  function Adds(src: seq<Tree>, r: seq<Tree>): nat
    decreases src, 0
  {
    if src == [] then 0 else AddsOne(src[0], r) + Adds(src[1..], r)
  }

  function AddsOne(t: Tree, r: seq<Tree>): nat
    decreases t, 0
  {
    if t.kids == [] then if t.entry.Pair? && Marked(t.entry.key) then 1 else 0
    else if Wild(t) then AddsWild(t, r, 0)
    else if FindPair(r, t.entry) < |r| then Adds(t.kids, r[FindPair(r, t.entry)].kids)
    else 0
  }

  function AddsWild(t: Tree, r: seq<Tree>, i: nat): nat
    requires t.entry.Pair? && i <= |r|
    decreases t.kids, 1, |r| - i
  {
    if i == |r| then 0
    else (if Keyed(r[i], t.entry.key) then Adds(t.kids, r[i].kids) else 0) + AddsWild(t, r, i + 1)
  }

  // Without wildcards, just the marked leaves.
  lemma {:induction false} AddsIsMarks(src: seq<Tree>, r: seq<Tree>)
    requires Absorbed(src, r) && NoWild(src)
    ensures Adds(src, r) == Marks(src)
    decreases src, 0
  {
    hide Find;
    if src != [] {
      var t := src[0];
      assert AbsorbedOne(t, r);
      assert forall i :: 0 <= i < |src[1..]| ==> src[1..][i] == src[i + 1];
      AddsIsMarks(src[1..], r);
      if t.kids != [] {
        AddsIsMarks(t.kids, r[FindPair(r, t.entry)].kids);
      }
    }
  }

  // No parent stands for every value of its key.
  predicate NoWild(src: seq<Tree>) {
    forall i :: 0 <= i < |src| ==> !Wild(src[i]) && NoWild(src[i].kids)
  }

  // Growing by other keys changes none of that.
  lemma {:induction false} AddsStays(src: seq<Tree>, a: seq<Tree>, b: seq<Tree>, keys: set<Option<string>>)
    requires Absorbed(src, a) && Grows(a, b, keys) && Tidy(a) && WildKeys(src) !! keys
    ensures Adds(src, b) == Adds(src, a)
    decreases src, 0
  {
    if src != [] {
      hide AbsorbedOne, Grows, Tidy, AddsOne;
      WildKeysAt(src, 0);
      OneAddsStays(src[0], a, b, keys);
      assert forall i :: 0 <= i < |src[1..]| ==> src[1..][i] == src[i + 1];
      AddsStays(src[1..], a, b, keys);
    }
  }

  lemma {:induction false} OneAddsStays(t: Tree, a: seq<Tree>, b: seq<Tree>, keys: set<Option<string>>)
    requires AbsorbedOne(t, a) && Grows(a, b, keys) && Tidy(a)
    requires WildKeys(t.kids) !! keys && (Wild(t) ==> Some(t.entry.key) !in keys)
    ensures AddsOne(t, b) == AddsOne(t, a)
    decreases t, 0
  {
    hide FindPair, FindKey, Grows, Tidy, Absorbed, Adds;
    if t.kids != [] {
      if Wild(t) {
        Longer(a, b, keys);
        WildAddsStays(t, a, b, keys, 0);
      } else {
        var j := FindPair(a, t.entry);
        FindStays(a, b, t.entry, keys);
        KidsOf(a, b, j, keys);
        AddsStays(t.kids, a[j].kids, b[j].kids, keys);
      }
    }
  }

  lemma Longer(a: seq<Tree>, b: seq<Tree>, keys: set<Option<string>>)
    requires Grows(a, b, keys)
    ensures |a| <= |b|
  {
  }

  lemma {:induction false} WildAddsStays(t: Tree, a: seq<Tree>, b: seq<Tree>, keys: set<Option<string>>, i: nat)
    requires AbsorbedOne(t, a) && Wild(t) && Grows(a, b, keys) && Tidy(a) && i <= |a| <= |b|
    requires WildKeys(t.kids) !! keys && Some(t.entry.key) !in keys
    ensures AddsWild(t, b, i) == AddsWild(t, a, i)
    decreases t.kids, 1, |a| - i
  {
    hide Grows, Tidy, Absorbed, Adds;
    if i == |a| {
      NewAdds(t, a, b, keys, i);
    } else {
      WildAddsStays(t, a, b, keys, i + 1);
      if Keyed(a[i], t.entry.key) {
        KidsOf(a, b, i, keys);
        AddsStays(t.kids, a[i].kids, b[i].kids, keys);
      } else if Keyed(b[i], t.entry.key) {
        WasThere(a, b, i, keys);
      }
    }
  }

  lemma {:induction false} NewAdds(t: Tree, a: seq<Tree>, b: seq<Tree>, keys: set<Option<string>>, i: nat)
    requires Grows(a, b, keys) && |a| <= i <= |b| && t.entry.Pair? && Some(t.entry.key) !in keys
    ensures AddsWild(t, b, i) == 0
    decreases |b| - i
  {
    if i < |b| {
      NewAdds(t, a, b, keys, i + 1);
    }
  }

  // A source that is there already is merged without any effect but these leaves.
  lemma {:induction false} Again(src: seq<Tree>, r: seq<Tree>, owned: bool)
    requires r != [] && Tidy(r) && Sound(src) && Absorbed(src, r)
    ensures var o := MergeList(src, r, owned);
      && o.Merged? && (o.stopped <==> EndsWild(src)) && Pairs(o.list) == Pairs(r) + Adds(src, r)
      && (Adds(src, r) == 0 ==> o.list == r)
    decreases src, 0
  {
    if src != [] {
      hide AbsorbedOne, MergeTree, Pairs, AddsOne, Sound, EndsWild, Tidy, Grows, AddKeys, WildKeys;
      SoundParts(src);
      assert AbsorbedOne(src[0], r);
      AgainTree(src[0], r, owned);
      var l := MergeTree(src[0], r, owned).list;
      MergeTreeTidy(src[0], r, owned);
      StoppedTree(src[0], r, owned);
      if |src| > 1 {
        assert forall i :: 0 <= i < |src[1..]| ==> src[1..][i] == src[i + 1];
        MergeTreeGrows(src[0], r, owned, AddKeys(src));
        AbsorbedStays(src[1..], r, l, AddKeys(src));
        AddsStays(src[1..], r, l, AddKeys(src));
        Again(src[1..], l, owned);
      } else {
        LastAdds(src, r);
      }
      StoppedIff(src, r, owned);
    }
  }

  lemma LastAdds(src: seq<Tree>, r: seq<Tree>)
    requires |src| == 1
    ensures Adds(src, r) == AddsOne(src[0], r)
  {
    assert src[1..] == [];
  }

  lemma {:induction false} AgainTree(t: Tree, r: seq<Tree>, owned: bool)
    requires r != [] && Tidy(r) && Sound(t.kids) && AbsorbedOne(t, r)
    ensures var o := MergeTree(t, r, owned);
      && o.Merged? && Pairs(o.list) == Pairs(r) + AddsOne(t, r)
      && (AddsOne(t, r) == 0 ==> o.list == r)
    decreases t, 0
  {
    hide Absorbed, Pairs, FindKey, Find, Tidy, SetKids, Added, Sound;
    if t.kids == [] {
      PairsAdded(r, Gives(t));
    } else if Wild(t) {
      AgainWild(t, r, 0);
    } else {
      var i := FindPair(r, t.entry);
      KidIsTidy(r, i);
      Again(t.kids, r[i].kids, true);
      PairsKids(r, i, MergeList(t.kids, r[i].kids, true).list);
      SameKids(r, i);
    }
  }

  lemma {:induction false} AgainWild(t: Tree, r: seq<Tree>, i: nat)
    requires r != [] && i <= |r| && Tidy(r) && t.entry.Pair? && Sound(t.kids)
    requires forall j :: i <= j < |r| && Keyed(r[j], t.entry.key) ==> r[j].kids != [] && Absorbed(t.kids, r[j].kids)
    ensures var o := MergeWild(t, r, i);
      && o.Merged? && Pairs(o.list) == Pairs(r) + AddsWild(t, r, i)
      && (AddsWild(t, r, i) == 0 ==> o.list == r)
    decreases t.kids, 1, |r| - i
  {
    hide Absorbed, Pairs, Tidy, Sound, Adds;
    if i < |r| {
      if Keyed(r[i], t.entry.key) {
        KidIsTidy(r, i);
        Again(t.kids, r[i].kids, true);
        var l := MergeList(t.kids, r[i].kids, true).list;
        MergeTidy(t.kids, r[i].kids, true);
        KidsTidy(r, i, l);
        PairsKids(r, i, l);
        SameKids(r, i);
        AddsBehind(t, r, SetKids(r, i, l), i + 1);
        AgainWild(t, SetKids(r, i, l), i + 1);
      } else {
        AgainWild(t, r, i + 1);
      }
    }
  }

  lemma {:induction false} AddsBehind(t: Tree, a: seq<Tree>, b: seq<Tree>, i: nat)
    requires t.entry.Pair? && i <= |a| == |b| && forall j :: i <= j < |a| ==> a[j] == b[j]
    ensures AddsWild(t, a, i) == AddsWild(t, b, i)
    decreases |a| - i
  {
    if i < |a| {
      AddsBehind(t, a, b, i + 1);
    }
  }

  lemma SameKids(l: seq<Tree>, i: nat)
    requires i < |l|
    ensures SetKids(l, i, l[i].kids) == l
  {
  }

  // Merging the same source twice is merging it once, exactly when what the merge gets to
  // see of it has no marked leaf below blocks that are there; wildcards included, as long as
  // none stands for a key the source adds.
  lemma TwiceIff(src: seq<Tree>, dst: seq<Tree>, owned: bool)
    requires dst != [] && Tidy(dst) && Filled(src) && Settled(Reached(src)) && MergeList(src, dst, owned).Merged?
    ensures var r := MergeList(src, dst, owned).list;
      && MergeList(src, r, owned).Merged?
      && (MergeList(src, r, owned).list == r <==> Adds(Reached(src), r) == 0)
      && (NoWild(src) ==> Reached(src) == src && Adds(src, r) == Marks(src))
  {
    hide Absorbed, Settled, Pairs, Adds, Tidy;
    var r := MergeList(src, dst, owned).list;
    MergeAbsorbs(src, dst, owned);
    MergeTidy(src, dst, owned);
    ReachedWhole(src);
    ReachedSame(src, r, owned);
    Again(Reached(src), r, owned);
    if NoWild(src) {
      NothingCut(src);
      AddsIsMarks(src, r);
    }
  }

  lemma {:induction false} NothingCut(src: seq<Tree>)
    requires NoWild(src)
    ensures !EndsWild(src) && Reached(src) == src && WildKeys(src) == {}
  {
    if src != [] {
      NothingCut(src[0].kids);
      NothingCut(src[1..]);
      assert src == [src[0]] + src[1..];
    }
  }

  // --- exactly when merging changes nothing ---

  lemma {:induction false} GrowsBoth(a: seq<Tree>, b: seq<Tree>, keys: set<Option<string>>)
    requires Grows(a, b, keys) && Grows(b, a, keys) && None !in keys
    ensures a == b
  {
    forall i | 0 <= i < |a| ensures a[i] == b[i] {
      if a[i].entry.Pair? {
        GrowsBoth(a[i].kids, b[i].kids, keys);
      }
    }
  }

  lemma {:induction false} FilledKeys(src: seq<Tree>)
    requires Filled(src)
    ensures None !in AddKeys(src)
  {
    if src != [] {
      FilledKeys(src[0].kids);
      FilledKeys(src[1..]);
    }
  }

  lemma AddedDiffers(l: seq<Tree>, e: Entry, kids: seq<Tree>)
    requires l != [] && e.Pair?
    ensures Added(l, e) != l && SetKids(Added(l, e), Place(l), kids) != l
  {
    assert Added(l, e)[Place(l)].entry == e && SetKids(Added(l, e), Place(l), kids)[Place(l)].entry == e;
  }

  // A list that a merge leaves alone has absorbed the source.
  lemma {:induction false} FixedAbsorbs(src: seq<Tree>, r: seq<Tree>, owned: bool)
    requires r != [] && Filled(src) && Whole(src)
    requires MergeList(src, r, owned).Merged? && MergeList(src, r, owned).list == r
    ensures Absorbed(src, r) && Adds(src, r) == 0
    decreases src, 0
  {
    if src != [] {
      hide AbsorbedOne, AddsOne, MergeTree, Grows, EndsWild, Whole, AddKeys;
      var l := MergeTree(src[0], r, owned).list;
      WholeParts(src);
      FilledParts(src);
      FilledKeys(src);
      KeyParts(src);
      StoppedTree(src[0], r, owned);
      if |src| > 1 {
        MergeTreeGrows(src[0], r, owned, AddKeys(src));
        MergeGrows(src[1..], l, owned, AddKeys(src));
        GrowsBoth(r, l, AddKeys(src));
        FixedAbsorbs(src[1..], r, owned);
        assert forall i :: 0 < i < |src| ==> src[i] == src[1..][i - 1];
      } else {
        LastAdds(src, r);
      }
      FixedTree(src[0], r, owned);
    }
  }

  lemma {:induction false} FixedTree(t: Tree, r: seq<Tree>, owned: bool)
    requires r != [] && t.entry.Pair? && Filled(t.kids) && Whole(t.kids)
    requires MergeTree(t, r, owned).Merged? && MergeTree(t, r, owned).list == r
    ensures AbsorbedOne(t, r) && AddsOne(t, r) == 0
    decreases t, 0
  {
    hide Absorbed, Adds, Find, FindKey, Added, Whole, Filled;
    if t.kids == [] {
      AddedDiffers(r, Gives(t), []);
    } else if Wild(t) {
      FixedWild(t, r, 0);
    } else {
      var i := FindPair(r, t.entry);
      if i < |r| {
        assert SetKids(r, i, MergeList(t.kids, r[i].kids, true).list)[i] == r[i];
        FixedAbsorbs(t.kids, r[i].kids, true);
      } else {
        AddedDiffers(r, t.entry, MergeList(t.kids, BLANK, true).list);
      }
    }
  }

  lemma {:induction false} FixedWild(t: Tree, r: seq<Tree>, i: nat)
    requires r != [] && i <= |r| && t.entry.Pair? && Filled(t.kids) && Whole(t.kids)
    requires MergeWild(t, r, i).Merged? && MergeWild(t, r, i).list == r
    ensures forall j :: i <= j < |r| && Keyed(r[j], t.entry.key) ==> r[j].kids != [] && Absorbed(t.kids, r[j].kids)
    ensures AddsWild(t, r, i) == 0
    decreases t.kids, 1, |r| - i
  {
    hide Absorbed, Adds, Filled, Whole;
    if i < |r| {
      if Keyed(r[i], t.entry.key) {
        var o := MergeList(t.kids, ListOf(r[i]), true);
        var l := SetKids(r, i, o.list);
        WildBehind(t, l, i + 1);
        assert l[i] == r[i] && l == r;
        FixedAbsorbs(t.kids, r[i].kids, true);
      }
      FixedWild(t, r, i + 1);
    }
  }

  // A wildcard's walk leaves the blocks behind it alone.
  lemma {:induction false} WildBehind(t: Tree, l: seq<Tree>, i: nat)
    requires l != [] && i <= |l| && t.entry.Pair? && MergeWild(t, l, i).Merged?
    ensures MergeWild(t, l, i).list[..i] == l[..i]
    decreases |l| - i
  {
    hide MergeList;
    if i < |l| {
      var next := if Keyed(l[i], t.entry.key) then SetKids(l, i, MergeList(t.kids, ListOf(l[i]), true).list) else l;
      WildBehind(t, next, i + 1);
      assert next[..i] == l[..i];
      assert MergeWild(t, l, i).list[..i] == MergeWild(t, l, i).list[..i + 1][..i];
      assert next[..i + 1][..i] == next[..i];
    }
  }

  // Merging changes nothing exactly when what it gets to see of the source is all there,
  // below every block that a wildcard stands for too, and has no marked leaf to add: for any
  // source, also one whose wildcards stand for keys that it adds.
  lemma AgainIff(src: seq<Tree>, r: seq<Tree>, owned: bool)
    requires r != [] && Tidy(r) && Filled(src)
    ensures MergeList(src, r, owned).Merged? && MergeList(src, r, owned).list == r
      <==> Absorbed(Reached(src), r) && Adds(Reached(src), r) == 0
  {
    hide Absorbed, Adds, Tidy;
    ReachedWhole(src);
    ReachedSame(src, r, owned);
    var q, o := Reached(src), MergeList(src, r, owned);
    if o.Merged? && o.list == r {
      FixedAbsorbs(q, r, owned);
    }
    if Absorbed(q, r) && Adds(q, r) == 0 {
      StaysFixed(q, r, owned);
    }
  }

  lemma {:induction false} StaysFixed(src: seq<Tree>, r: seq<Tree>, owned: bool)
    requires r != [] && Filled(src) && Absorbed(src, r) && Adds(src, r) == 0
    ensures MergeList(src, r, owned).Merged? && MergeList(src, r, owned).list == r
    decreases src, 0
  {
    if src != [] {
      hide AbsorbedOne, AddsOne, MergeTree;
      assert AbsorbedOne(src[0], r);
      FilledParts(src);
      StaysTree(src[0], r, owned);
      assert forall i :: 0 <= i < |src[1..]| ==> src[1..][i] == src[i + 1];
      StaysFixed(src[1..], r, owned);
    }
  }

  lemma {:induction false} StaysTree(t: Tree, r: seq<Tree>, owned: bool)
    requires r != [] && Filled(t.kids) && AbsorbedOne(t, r) && AddsOne(t, r) == 0
    ensures MergeTree(t, r, owned).Merged? && MergeTree(t, r, owned).list == r
    decreases t, 0
  {
    hide Absorbed, Adds, Find, FindKey, Added, Filled;
    if t.kids != [] {
      if Wild(t) {
        StaysWild(t, r, 0);
      } else {
        var i := FindPair(r, t.entry);
        StaysFixed(t.kids, r[i].kids, true);
        SameKids(r, i);
      }
    }
  }

  lemma {:induction false} StaysWild(t: Tree, r: seq<Tree>, i: nat)
    requires r != [] && i <= |r| && t.entry.Pair? && Filled(t.kids) && AddsWild(t, r, i) == 0
    requires forall j :: i <= j < |r| && Keyed(r[j], t.entry.key) ==> r[j].kids != [] && Absorbed(t.kids, r[j].kids)
    ensures MergeWild(t, r, i) == Merged(r, false)
    decreases t.kids, 1, |r| - i
  {
    hide Absorbed, Adds, Filled;
    if i < |r| {
      if Keyed(r[i], t.entry.key) {
        StaysFixed(t.kids, r[i].kids, true);
        SameKids(r, i);
      }
      StaysWild(t, r, i + 1);
    }
  }

  // So a wildcard does not reach a block with its key that the same merge adds behind it:
  // merging once more changes that block, unless its own children are all the wildcard has.
  lemma WildcardLate(w: Tree, p: Tree, dst: seq<Tree>, owned: bool)
    requires Wild(w) && p.entry.Pair? && p.kids != [] && !Wild(p) && p.entry.key == w.entry.key
    requires Filled([w, p]) && dst != [] && Tidy(dst) && FindKey(dst, w.entry.key) == |dst|
    requires MergeList([w, p], dst, owned).Merged? && MergeList(p.kids, BLANK, true).Merged?
    requires !Absorbed(Reached(w.kids), MergeList(p.kids, BLANK, true).list)
    ensures var r := MergeList([w, p], dst, owned).list;
      !(MergeList([w, p], r, owned).Merged? && MergeList([w, p], r, owned).list == r)
  {
    hide Absorbed, Adds, Tidy, FindKey, Find, Added, Place, SetKids;
    var src := [w, p];
    assert src[1..] == [p] && [p][1..] == [];
    NoneKeyed(w, dst, 0);
    var r := MergeList(src, dst, owned).list;
    NoneIs(dst, p.entry);
    MergeTidy(src, dst, owned);
    AgainIff(src, r, owned);
    var kids := MergeList(p.kids, BLANK, true).list;
    assert MergeTree(w, dst, owned) == Merged(dst, false);
    OneMerged(p, dst, owned);
    assert MergeList(src, dst, owned) == MergeList([p], dst, owned);
    assert r == MergeTree(p, dst, owned).list == SetKids(Added(dst, p.entry), Place(dst), kids);
    AddedThere(dst, p.entry, kids);
    ReachedFirst(src);
    if Absorbed(Reached(src), r) {
      WildAbsorbed(Reached(src), r, Place(dst));
    }
  }

  lemma AddedThere(l: seq<Tree>, e: Entry, kids: seq<Tree>)
    requires l != []
    ensures var r := SetKids(Added(l, e), Place(l), kids); Place(l) < |r| && r[Place(l)] == Tree(e, kids)
  {
  }

  lemma WildAbsorbed(src: seq<Tree>, r: seq<Tree>, j: nat)
    requires src != [] && Wild(src[0]) && Absorbed(src, r) && j < |r| && Keyed(r[j], src[0].entry.key)
    ensures Absorbed(src[0].kids, r[j].kids)
  {
    assert AbsorbedOne(src[0], r);
  }

  lemma OneMerged(t: Tree, l: seq<Tree>, owned: bool)
    requires l != [] && !Wild(t)
    ensures MergeList([t], l, owned) == MergeTree(t, l, owned)
  {
    hide MergeTree;
    assert [t][1..] == [];
  }

  lemma {:induction false} NoneKeyed(t: Tree, l: seq<Tree>, i: nat)
    requires l != [] && i <= |l| && t.entry.Pair? && FindKey(l, t.entry.key) == |l|
    ensures MergeWild(t, l, i) == Merged(l, false)
    decreases |l| - i
  {
    hide FindKey;
    var k := FindKey(l, t.entry.key);
    if i < |l| {
      NoneKeyed(t, l, i + 1);
    }
  }

  // --- exactly when the merge comes to its end ---

  predicate DistinctAll(f: seq<Tree>) {
    (forall i, j :: 0 <= i < j < |f| ==> f[i].entry != f[j].entry) &&
    forall i :: 0 <= i < |f| ==> DistinctAll(f[i].kids)
  }

  // What a source parent needs: its match has children; without a match, that this does not
  // fill the blank only block of an owned list; and the same below.  A wildcard needs it
  // below every block with its key.
  predicate FitsOne(t: Tree, dst: seq<Tree>, loses: bool)
    decreases t, 0
  {
    t.kids != [] ==>
      if Wild(t) then forall j :: 0 <= j < |dst| && Keyed(dst[j], t.entry.key) ==> Fits(t.kids, ListOf(dst[j]), true)
      else
        var j := FindPair(dst, t.entry);
        if j < |dst| then dst[j].kids != [] && Fits(t.kids, dst[j].kids, true)
        else !loses && Fits(t.kids, BLANK, true)
  }

  predicate Fits(src: seq<Tree>, dst: seq<Tree>, owned: bool)
    decreases src, 0
  {
    forall i :: 0 <= i < |src| ==> FitsOne(src[i], dst, Loses(dst, owned) && AllWild(src[..i]))
  }

  // Wildcards leave a blank block blank.
  predicate AllWild(src: seq<Tree>) { forall i :: 0 <= i < |src| ==> Wild(src[i]) }

  // No parent gets what another block of its list gives, as in what the reader makes of a
  // text without marked keys.
  predicate Clear(src: seq<Tree>) {
    (forall i, j :: 0 <= i < j < |src| && (src[i].kids != [] || src[j].kids != []) ==>
      Gives(src[i]) != Gives(src[j])) &&
    forall i :: 0 <= i < |src| ==> Clear(src[i].kids)
  }

  lemma {:induction false} DistinctClear(src: seq<Tree>)
    requires DistinctAll(src) && Marks(src) == 0
    ensures Clear(src)
  {
    forall i | 0 <= i < |src| ensures Gives(src[i]) == src[i].entry && Clear(src[i].kids) {
      MarksAt(src, i);
      DistinctClear(src[i].kids);
    }
  }

  lemma {:induction false} MarksAt(src: seq<Tree>, i: nat)
    requires i < |src| && Marks(src) == 0
    ensures Marks(src[i].kids) == 0 && Gives(src[i]) == src[i].entry
  {
    if i > 0 {
      MarksAt(src[1..], i - 1);
    }
  }

  // What a merge gets to see of such a source is like that, too.
  lemma ReachedClear(src: seq<Tree>)
    requires DistinctAll(src) && Marks(src) == 0
    ensures Clear(Reached(src))
  {
    hide DistinctAll, Marks, Clear, Reached;
    ReachedDistinct(src);
    DistinctClear(Reached(src));
  }

  lemma {:induction false} ReachedDistinct(src: seq<Tree>)
    requires DistinctAll(src) && Marks(src) == 0
    ensures DistinctAll(Reached(src)) && Marks(Reached(src)) == 0
  {
    if src != [] {
      hide Reached, EndsWild;
      var r := Reached(src);
      ReachedFirst(src);
      DistinctParts(src);
      ReachedDistinct(src[0].kids);
      ReachedDistinct(src[1..]);
      ReachedEntries(src);
      assert forall i :: 0 < i < |r| ==> r[i] == r[1..][i - 1];
    } else {
      assert Reached([]) == [];
    }
  }

  lemma DistinctParts(src: seq<Tree>)
    requires src != [] && DistinctAll(src)
    ensures DistinctAll(src[0].kids) && DistinctAll(src[1..])
  {
    assert forall i :: 0 <= i < |src[1..]| ==> src[1..][i] == src[i + 1];
  }

  lemma {:induction false} ReachedEntries(src: seq<Tree>)
    ensures forall i :: 0 <= i < |Reached(src)| ==> Reached(src)[i].entry == src[i].entry
  {
    if src != [] {
      hide Reached, EndsWild;
      var r := Reached(src);
      ReachedFirst(src);
      ReachedEntries(src[1..]);
      assert forall i :: 0 < i < |r| ==> r[i] == r[1..][i - 1] && src[i] == src[1..][i - 1];
    }
  }

  // The blocks that merging `t` adds to or changes.
  predicate Touches(t: Tree, e: Entry) {
    e.Pair? && if Wild(t) then e.key == t.entry.key else e == Gives(t)
  }

  // All others stay as they are.
  predicate Elsewhere(t: Tree, a: seq<Tree>, b: seq<Tree>) {
    && |a| <= |b|
    && (forall j :: 0 <= j < |a| && a[j].entry.Pair? ==> b[j].entry == a[j].entry)
    && (forall j :: 0 <= j < |b| && !Touches(t, b[j].entry) ==> j < |a| && b[j] == a[j])
  }

  lemma TreeElsewhere(t: Tree, dst: seq<Tree>, owned: bool)
    requires dst != [] && t.entry.Pair? && MergeTree(t, dst, owned).Merged?
    ensures Elsewhere(t, dst, MergeTree(t, dst, owned).list)
    ensures Loses(MergeTree(t, dst, owned).list, owned) <==> Loses(dst, owned) && Wild(t)
  {
    hide Find, FindKey, MergeList;
    if Wild(t) {
      WildElsewhere(t, dst, 0);
    } else if t.kids == [] {
      BlankHasNoKey(dst, t.entry.key);
    }
  }

  lemma BlankHasNoKey(dst: seq<Tree>, key: string)
    ensures |dst| == 1 && dst[0].entry == Blank ==> FindKey(dst, key) == 1
  {
    var k := FindKey(dst, key);
  }

  lemma {:induction false} WildElsewhere(t: Tree, dst: seq<Tree>, i: nat)
    requires dst != [] && i <= |dst| && Wild(t) && MergeWild(t, dst, i).Merged?
    ensures var r := MergeWild(t, dst, i).list;
      Elsewhere(t, dst, r) && forall j :: 0 <= j < |dst| ==> r[j].entry == dst[j].entry
    decreases |dst| - i
  {
    hide MergeList;
    if i < |dst| {
      if Keyed(dst[i], t.entry.key) {
        WildElsewhere(t, SetKids(dst, i, MergeList(t.kids, ListOf(dst[i]), true).list), i + 1);
      } else {
        WildElsewhere(t, dst, i + 1);
      }
    }
  }

  // What a parent meets in both lists: its match, or the blocks a wildcard stands for.
  predicate MeetsSame(u: Tree, a: seq<Tree>, b: seq<Tree>) {
    u.kids != [] && u.entry.Pair? ==>
      if Wild(u) then
        && |a| <= |b|
        && (forall j :: 0 <= j < |b| && Keyed(b[j], u.entry.key) ==> j < |a| && b[j] == a[j])
        && (forall j :: 0 <= j < |a| && Keyed(a[j], u.entry.key) ==> b[j] == a[j])
      else if Find(a, u.entry) == |a| then Find(b, u.entry) == |b|
      else Find(b, u.entry) == Find(a, u.entry) < |b| && b[Find(a, u.entry)].kids == a[Find(a, u.entry)].kids
  }

  // It is the same when it was not touched.
  lemma Untouched(u: Tree, t: Tree, a: seq<Tree>, b: seq<Tree>)
    requires Elsewhere(t, a, b) && u.entry.Pair? && t.entry.Pair?
    requires u.kids != [] ==> Gives(t) != u.entry && (Wild(t) || Wild(u) ==> Gives(t).key != u.entry.key)
    ensures MeetsSame(u, a, b)
  {
    hide Find;
    if u.kids != [] && !Wild(u) {
      var i := Find(a, u.entry);
      FirstEntry(a, u.entry);
      if i < |a| {
        FirstIs(b, u.entry, i);
      } else {
        NoneIs(b, u.entry);
      }
    }
  }

  lemma MeetsTrans(u: Tree, a: seq<Tree>, b: seq<Tree>, c: seq<Tree>)
    requires MeetsSame(u, a, b) && MeetsSame(u, b, c)
    ensures MeetsSame(u, a, c)
  {
    hide Find;
  }

  // A parent fits as it did when it meets the same.
  lemma FitsSame(u: Tree, a: seq<Tree>, b: seq<Tree>, loses: bool)
    requires u.entry.Pair? && MeetsSame(u, a, b)
    ensures FitsOne(u, a, loses) <==> FitsOne(u, b, loses)
  {
    hide Find, Fits;
  }

  lemma NoneIs(l: seq<Tree>, e: Entry)
    requires forall j :: 0 <= j < |l| ==> l[j].entry != e
    ensures Find(l, e) == |l|
  {
    hide Find;
    var i := Find(l, e);
  }

  lemma ClearParts(src: seq<Tree>)
    requires src != [] && Clear(src)
    ensures Clear(src[0].kids) && Clear(src[1..])
    ensures forall i :: 0 < i < |src| && src[i].kids != [] ==> Gives(src[0]) != src[i].entry
    ensures forall i :: 0 < i < |src| && Wild(src[0]) && Wild(src[i]) ==> src[0].entry != src[i].entry
  {
    assert forall i :: 0 < i < |src| ==> src[1..][i - 1] == src[i];
    forall i | 0 < i < |src| && src[i].kids != [] ensures Gives(src[0]) != src[i].entry {
      assert Gives(src[0]) != Gives(src[i]);
    }
  }

  // What a block touches, no parent behind it meets.
  lemma KeysApart(src: seq<Tree>, i: nat, k: nat)
    requires i < k < |src| && Sound(src) && Clear(src)
    ensures src[i].entry.Pair? && src[k].entry.Pair?
    ensures src[k].kids != [] ==>
      Gives(src[i]) != src[k].entry && (Wild(src[i]) || Wild(src[k]) ==> Gives(src[i]).key != src[k].entry.key)
  {
    hide Whole;
    WildKeysAt(src, i);
    WildKeysAt(src, k);
    AddKeysAt(src, i);
    AddKeysAt(src, k);
    if src[k].kids != [] {
      assert Gives(src[i]) != Gives(src[k]);
    }
  }

  lemma {:induction false} AddKeysAt(src: seq<Tree>, i: nat)
    requires i < |src| && src[i].entry.Pair?
    ensures Wild(src[i]) || KeyOf(Gives(src[i])) in AddKeys(src)
  {
    if i > 0 {
      AddKeysAt(src[1..], i - 1);
    }
  }

  lemma {:induction false} SoundFitsIff(src: seq<Tree>, dst: seq<Tree>, owned: bool)
    requires dst != [] && Sound(src) && Clear(src)
    ensures MergeList(src, dst, owned).Merged? <==> Fits(src, dst, owned)
    decreases src, 0
  {
    if src != [] {
      hide Sound, Clear, MergeTree, FitsOne, Elsewhere, EndsWild, Loses, MeetsSame, Wild;
      SoundParts(src);
      ClearParts(src);
      TreeFitsIff(src[0], dst, owned);
      assert src[..0] == [] && AllWild(src[..0]);
      if MergeTree(src[0], dst, owned).Merged? {
        var l := MergeTree(src[0], dst, owned).list;
        StoppedTree(src[0], dst, owned);
        TreeElsewhere(src[0], dst, owned);
        if |src| > 1 {
          SoundFitsIff(src[1..], l, owned);
        }
        forall i, loses | 0 < i < |src| ensures FitsOne(src[i], dst, loses) <==> FitsOne(src[i], l, loses) {
          KeysApart(src, 0, i);
          Untouched(src[i], src[0], dst, l);
          FitsSame(src[i], dst, l, loses);
        }
        FitsTail(src, dst, l, owned);
      }
    }
  }

  lemma FitsTail(src: seq<Tree>, dst: seq<Tree>, l: seq<Tree>, owned: bool)
    requires src != [] && FitsOne(src[0], dst, Loses(dst, owned))
    requires Loses(l, owned) <==> Loses(dst, owned) && Wild(src[0])
    requires forall i, loses :: 0 < i < |src| ==> (FitsOne(src[i], dst, loses) <==> FitsOne(src[i], l, loses))
    ensures Fits(src, dst, owned) <==> Fits(src[1..], l, owned)
  {
    hide FitsOne, Loses, Wild;
    forall i | 0 < i < |src|
      ensures src[1..][i - 1] == src[i]
      ensures (Loses(dst, owned) && AllWild(src[..i])) <==> (Loses(l, owned) && AllWild(src[1..][..i - 1]))
    {
      assert src[..i] == [src[0]] + src[1..][..i - 1];
      WildFirst(src[0], src[1..][..i - 1]);
    }
    if Fits(src, dst, owned) {
      forall i | 0 <= i < |src[1..]|
        ensures FitsOne(src[1..][i], l, Loses(l, owned) && AllWild(src[1..][..i]))
      {
        assert FitsOne(src[i + 1], dst, Loses(dst, owned) && AllWild(src[..i + 1]));
        assert src[1..][i + 1 - 1] == src[i + 1];
      }
    }
    if Fits(src[1..], l, owned) {
      forall i | 0 <= i < |src| ensures FitsOne(src[i], dst, Loses(dst, owned) && AllWild(src[..i])) {
        if i > 0 {
          assert FitsOne(src[1..][i - 1], l, Loses(l, owned) && AllWild(src[1..][..i - 1]));
        } else {
          assert src[..0] == [];
        }
      }
    }
  }

  lemma WildFirst(t: Tree, src: seq<Tree>)
    ensures AllWild([t] + src) <==> Wild(t) && AllWild(src)
  {
    hide Wild;
    var l := [t] + src;
    assert l[0] == t && forall i :: 0 <= i < |src| ==> l[i + 1] == src[i];
  }

  lemma {:induction false} TreeFitsIff(t: Tree, dst: seq<Tree>, owned: bool)
    requires dst != [] && t.entry.Pair? && Sound(t.kids) && Clear(t.kids)
    ensures MergeTree(t, dst, owned).Merged? <==> FitsOne(t, dst, Loses(dst, owned))
    decreases t, 0
  {
    hide Sound, Clear, Fits, Loses;
    if t.kids != [] {
      if Wild(t) {
        WildFitsIff(t, dst, 0);
      } else {
        var i := FindPair(dst, t.entry);
        if i < |dst| {
          if dst[i].kids != [] {
            SoundFitsIff(t.kids, dst[i].kids, true);
          }
        } else {
          SoundFitsIff(t.kids, BLANK, true);
        }
      }
    }
  }

  lemma {:induction false} WildFitsIff(t: Tree, dst: seq<Tree>, i: nat)
    requires dst != [] && i <= |dst| && t.entry.Pair? && Sound(t.kids) && Clear(t.kids)
    ensures MergeWild(t, dst, i).Merged? <==>
      forall j :: i <= j < |dst| && Keyed(dst[j], t.entry.key) ==> Fits(t.kids, ListOf(dst[j]), true)
    decreases t.kids, 1, |dst| - i
  {
    hide Sound, Clear, Fits;
    if i < |dst| {
      if Keyed(dst[i], t.entry.key) {
        var o := MergeList(t.kids, ListOf(dst[i]), true);
        SoundFitsIff(t.kids, ListOf(dst[i]), true);
        if o.Merged? {
          var l := SetKids(dst, i, o.list);
          WildFitsIff(t, l, i + 1);
          assert forall j :: i < j < |dst| ==> l[j] == dst[j];
        }
      } else {
        WildFitsIff(t, dst, i + 1);
      }
    }
  }

  // The merge comes to its end exactly when what it gets to see of the source fits.
  lemma FitsIff(src: seq<Tree>, dst: seq<Tree>, owned: bool)
    requires dst != [] && Filled(src) && Settled(Reached(src)) && Clear(Reached(src))
    ensures MergeList(src, dst, owned).Merged? <==> Fits(Reached(src), dst, owned)
  {
    hide Fits;
    ReachedWhole(src);
    ReachedSame(src, dst, owned);
    SoundFitsIff(Reached(src), dst, owned);
  }
}
