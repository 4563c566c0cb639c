/**
 The accounting of the libltdl handle registry (libltdl/ltdl.c), on recorded states: what
 a reference count counts, and which handles can be listed at all.
 */
module HandleInvariant {

  // A handle of the registry; `deplibs` holds its successfully loaded dependencies.
  class Handle {
    var filename: string
    var refCount: int
    var deplibs: seq<Handle>
    var next: Handle?

    constructor ()
      ensures refCount == 0 && deplibs == [] && next == null
    {
      filename, refCount, deplibs, next := "", 0, [], null;
    }

    ghost function Now(): Info
      reads this
    {
      Info(filename, refCount, deplibs, next)
    }
  }

  datatype Info = Info(filename: string, refCount: int, deplibs: seq<Handle>, next: Handle?)

  type Record = map<Handle, Info>

  // The dependencies of all listed handles, with multiplicity.
  ghost function Deps(m: Record, list: seq<Handle>): multiset<Handle>
    requires forall h :: h in list ==> h in m
  {
    if list == [] then multiset{} else multiset(m[list[0]].deplibs) + Deps(m, list[1..])
  }

  ghost predicate Distinct(list: seq<Handle>) {
    forall i, j :: 0 <= i < j < |list| ==> list[i] != list[j]
  }

  // The `next` pointers run through the list.
  ghost predicate Chained(m: Record, list: seq<Handle>) {
    && Distinct(list)
    && forall i :: 0 <= i < |list| ==>
         list[i] in m && m[list[i]].next == if i + 1 < |list| then list[i + 1] else null
  }

  ghost predicate DistinctNames(m: Record, list: seq<Handle>)
    requires forall h :: h in list ==> h in m
  {
    forall i, j :: 0 <= i < j < |list| ==> m[list[i]].filename != m[list[j]].filename
  }

  ghost predicate Behind(list: seq<Handle>, i: int, h: Handle) {
    exists j :: i < j < |list| && 0 <= j && list[j] == h
  }

  // Dependencies stand behind their users: they were registered before them.
  ghost predicate Ordered(m: Record, list: seq<Handle>)
    requires forall h :: h in list ==> h in m
  {
    forall i, d :: 0 <= i < |list| && d in m[list[i]].deplibs ==> Behind(list, i, d)
  }

  // A count is the references from outside plus the listed dependencies, and never zero.
  ghost predicate Counted(m: Record, list: seq<Handle>, outside: multiset<Handle>)
    requires forall h :: h in list ==> h in m
  {
    && (forall h :: h in list ==> 0 < m[h].refCount == outside[h] + Deps(m, list)[h])
    && (forall h :: h in outside ==> h in list)
  }

  ghost predicate Inv(m: Record, list: seq<Handle>, outside: multiset<Handle>) {
    && m.Keys == (set h | h in list)
    && Chained(m, list) && DistinctNames(m, list) && Ordered(m, list) && Counted(m, list, outside)
  }

  // --- consequences ---

  // The registry is empty once nothing is held from outside.
  lemma NoLeak(m: Record, list: seq<Handle>)
    requires Inv(m, list, multiset{})
    ensures list == []
  {
    if list != [] {
      FirstUnused(m, list);
    }
  }

  lemma {:induction false} DepsFrom(m: Record, list: seq<Handle>, d: Handle)
    requires forall h :: h in list ==> h in m
    ensures d in Deps(m, list) <==> exists i :: 0 <= i < |list| && d in m[list[i]].deplibs
  {
    if list != [] {
      DepsFrom(m, list[1..], d);
      if d in Deps(m, list[1..]) {
        var i :| 0 <= i < |list[1..]| && d in m[list[1..][i]].deplibs;
        assert d in m[list[i + 1]].deplibs;
      }
      if i :| 0 < i < |list| && d in m[list[i]].deplibs {
        assert d in m[list[1..][i - 1]].deplibs;
      }
    }
  }

  lemma FirstUnused(m: Record, list: seq<Handle>)
    requires list != [] && Distinct(list) && (forall h :: h in list ==> h in m) && Ordered(m, list)
    ensures list[0] !in Deps(m, list)
  {
    DepsFrom(m, list, list[0]);
    assert forall i :: 0 <= i < |list| ==> !Behind(list, i, list[0]);
  }

  // Held from outside, or a dependency of a held handle.
  ghost predicate Held(m: Record, list: seq<Handle>, outside: multiset<Handle>, i: nat)
    requires i < |list| && forall h :: h in list ==> h in m
    decreases i
  {
    list[i] in outside ||
    exists j :: 0 <= j < i && list[i] in m[list[j]].deplibs && Held(m, list, outside, j)
  }

  // Exactly the handles in use are listed: every listed handle is held, and so is every
  // dependency of a listed handle, which is listed too.
  lemma {:induction false} ListedIsHeld(m: Record, list: seq<Handle>, outside: multiset<Handle>, i: nat)
    requires Inv(m, list, outside) && i < |list|
    ensures Held(m, list, outside, i)
    ensures forall d :: d in m[list[i]].deplibs ==> d in list
    decreases i
  {
    if list[i] !in outside {
      assert list[i] in list;
      DepsFrom(m, list, list[i]);
      var j :| 0 <= j < |list| && list[i] in m[list[j]].deplibs;
      assert Behind(list, j, list[i]);
      ListedIsHeld(m, list, outside, j);
    }
  }

  // --- what is held decides what is listed ---

  // Names and dependencies of handles that stay listed do not change.
  ghost predicate Keeps(m: Record, n: Record) {
    forall h :: h in m && h in n ==> n[h].filename == m[h].filename && n[h].deplibs == m[h].deplibs
  }

  // The same handles are listed, with the same names, counts and dependencies.
  ghost predicate SameHandles(m: Record, n: Record) {
    m.Keys == n.Keys && forall h :: h in m ==> n[h].(next := null) == m[h].(next := null)
  }

  // Two registries with the same references from outside, whose common handles have the
  // same names and dependencies, list the same handles with the same counts.
  lemma Determined(m: Record, list: seq<Handle>, n: Record, list': seq<Handle>, outside: multiset<Handle>)
    requires Inv(m, list, outside) && Inv(n, list', outside) && Keeps(m, n)
    ensures SameHandles(m, n)
  {
    hide Chained, DistinctNames, Ordered, Deps;
    ListedBoth(m, list, outside, n, list', outside);
    ListedBoth(n, list', outside, m, list, outside);
    ChainedDistinct(m, list);
    ChainedDistinct(n, list');
    DepsSame(m, n, list);
    DepsPermuted(n, list, list');
  }

  // While all that was held is listed, nothing leaves the registry.
  lemma ListedBoth(m: Record, list: seq<Handle>, outside: multiset<Handle>,
      n: Record, list': seq<Handle>, outside': multiset<Handle>)
    requires Inv(m, list, outside) && Inv(n, list', outside') && Keeps(m, n)
    requires forall h :: h in outside ==> h in list'
    ensures m.Keys <= n.Keys && forall h :: h in list ==> h in list'
  {
    hide Chained, DistinctNames, Ordered, Counted;
    forall h | h in list ensures h in list' {
      var i :| 0 <= i < |list| && list[i] == h;
      ListedToo(m, list, outside, n, list', outside', i);
    }
  }

  lemma {:induction false} ListedToo(m: Record, list: seq<Handle>, outside: multiset<Handle>,
      n: Record, list': seq<Handle>, outside': multiset<Handle>, i: nat)
    requires Inv(m, list, outside) && Inv(n, list', outside') && Keeps(m, n) && i < |list|
    requires forall h :: h in outside ==> h in list'
    ensures list[i] in list'
    decreases i
  {
    hide Chained, DistinctNames, Ordered, Deps;
    ListedIsHeld(m, list, outside, i);
    if list[i] !in outside {
      var j :| 0 <= j < i && list[i] in m[list[j]].deplibs;
      ListedToo(m, list, outside, n, list', outside', j);
      var k :| 0 <= k < |list'| && list'[k] == list[j];
      assert list[j] in list;
      ListedIsHeld(n, list', outside', k);
    }
  }

  lemma FirstIn(b: seq<Handle>)
    requires b != []
    ensures b[0] in b
  {
  }

  lemma {:induction false} DepsPermuted(m: Record, a: seq<Handle>, b: seq<Handle>)
    requires Distinct(a) && Distinct(b) && forall h :: h in a <==> h in b
    requires forall h :: h in a || h in b ==> h in m
    ensures Deps(m, a) == Deps(m, b)
    decreases |a|
  {
    if a == [] {
      if b != [] {
        FirstIn(b);
        assert false;
      }
    } else {
      assert a[0] in b;
      var i :| 0 <= i < |b| && b[i] == a[0];
      WithoutFacts(b, i);
      WithoutFacts(a, 0);
      assert Without(a, 0) == a[1..];
      DepsPermuted(m, a[1..], Without(b, i));
      SplitDeps(m, b, i);
    }
  }

  // --- steps of the accounting ---

  lemma {:induction false} DepsSame(m: Record, n: Record, list: seq<Handle>)
    requires forall h :: h in list ==> h in m && h in n && n[h].deplibs == m[h].deplibs
    ensures Deps(n, list) == Deps(m, list)
  {
    if list != [] {
      DepsSame(m, n, list[1..]);
    }
  }

  lemma {:induction false} DepsConcat(m: Record, a: seq<Handle>, b: seq<Handle>)
    requires forall h :: h in a + b ==> h in m
    requires forall h :: h in a || h in b ==> h in m
    ensures Deps(m, a + b) == Deps(m, a) + Deps(m, b)
  {
    if a == [] {
      assert a + b == b;
    } else {
      assert (a + b)[1..] == a[1..] + b;
      DepsConcat(m, a[1..], b);
    }
  }

  // A count changed together with the references from outside.
  lemma Recount(m: Record, list: seq<Handle>, outside: multiset<Handle>, h: Handle, outside': multiset<Handle>)
    requires Inv(m, list, outside) && h in list
    requires outside' == outside + multiset{h}
        || (outside' == outside - multiset{h} && h in outside && m[h].refCount > 1)
    ensures Inv(m[h := m[h].(refCount := m[h].refCount + |outside'| - |outside|)], list, outside')
  {
    hide Deps;
    var n := m[h := m[h].(refCount := m[h].refCount + |outside'| - |outside|)];
    RecountLists(m, n, list);
    DepsSame(m, n, list);
  }

  // The same handles with the same names, dependencies and links.
  lemma RecountLists(m: Record, n: Record, list: seq<Handle>)
    requires m.Keys == (set h | h in list) && Chained(m, list) && DistinctNames(m, list) && Ordered(m, list)
    requires n.Keys == m.Keys && forall h :: h in m ==> n[h] == m[h].(refCount := n[h].refCount)
    ensures Chained(n, list) && DistinctNames(n, list) && Ordered(n, list)
  {
    assert forall i :: 0 <= i < |list| ==> n[list[i]].filename == m[list[i]].filename;
    assert forall i :: 0 <= i < |list| ==> n[list[i]].deplibs == m[list[i]].deplibs;
  }

  // The record after `h` was put in front of the list.
  ghost function Registered(m: Record, list: seq<Handle>, h: Handle, filename: string, deplibs: seq<Handle>): Record {
    m[h := Info(filename, 1, deplibs, if list == [] then null else list[0])]
  }

  // A new handle takes over the references to its dependencies.
  lemma Register(m: Record, list: seq<Handle>, outside: multiset<Handle>, h: Handle, filename: string,
      deplibs: seq<Handle>)
    requires Inv(m, list, outside) && h !in m && multiset(deplibs) <= outside
    requires forall g :: g in list ==> m[g].filename != filename
    ensures Inv(Registered(m, list, h, filename, deplibs), [h] + list, outside - multiset(deplibs) + multiset{h})
  {
    hide Deps, DistinctNames, Ordered;
    var n, l := Registered(m, list, h, filename, deplibs), [h] + list;
    assert forall g :: g in deplibs ==> g in multiset(deplibs) && g in outside;
    RegisterLists(m, list, h, filename, deplibs);
    RegisterDeps(m, list, h, filename, deplibs);
    FirstUnused(n, l);
  }

  lemma RegisterDeps(m: Record, list: seq<Handle>, h: Handle, filename: string, deplibs: seq<Handle>)
    requires h !in m && forall g :: g in list ==> g in m
    ensures forall g :: g in [h] + list ==> g in Registered(m, list, h, filename, deplibs)
    ensures Deps(Registered(m, list, h, filename, deplibs), [h] + list) == multiset(deplibs) + Deps(m, list)
  {
    assert ([h] + list)[1..] == list;
    DepsSame(m, Registered(m, list, h, filename, deplibs), list);
  }

  lemma RegisterLists(m: Record, list: seq<Handle>, h: Handle, filename: string, deplibs: seq<Handle>)
    requires m.Keys == (set g | g in list) && Chained(m, list) && DistinctNames(m, list) && Ordered(m, list)
    requires h !in m && (forall d :: d in deplibs ==> d in list)
    requires forall g :: g in list ==> m[g].filename != filename
    ensures var n, l := Registered(m, list, h, filename, deplibs), [h] + list;
      n.Keys == (set g | g in l) && Chained(n, l) && DistinctNames(n, l) && Ordered(n, l)
  {
    hide Ordered, DistinctNames, Chained;
    RegisterChained(m, list, h, filename, deplibs);
    RegisterNames(m, list, h, filename, deplibs);
    RegisterOrdered(m, list, h, filename, deplibs);
  }

  lemma RegisterChained(m: Record, list: seq<Handle>, h: Handle, filename: string, deplibs: seq<Handle>)
    requires m.Keys == (set g | g in list) && Chained(m, list) && h !in m
    ensures Chained(Registered(m, list, h, filename, deplibs), [h] + list)
  {
    hide Chained;
    var n, l := Registered(m, list, h, filename, deplibs), [h] + list;
    forall i | 0 <= i < |l| ensures l[i] in n && n[l[i]].next == if i + 1 < |l| then l[i + 1] else null {
      if i > 0 {
        ChainedAt(m, list, i - 1);
      }
    }
    ChainedDistinct(m, list);
    ChainedIntro(n, l);
  }

  lemma RegisterNames(m: Record, list: seq<Handle>, h: Handle, filename: string, deplibs: seq<Handle>)
    requires m.Keys == (set g | g in list) && DistinctNames(m, list) && h !in m
    requires forall g :: g in list ==> m[g].filename != filename
    ensures DistinctNames(Registered(m, list, h, filename, deplibs), [h] + list)
  {
    var n, l := Registered(m, list, h, filename, deplibs), [h] + list;
    forall i, j | 0 <= i < j < |l| ensures n[l[i]].filename != n[l[j]].filename {
      assert l[j] == list[j - 1] && (i > 0 ==> l[i] == list[i - 1]);
    }
  }

  lemma RegisterOrdered(m: Record, list: seq<Handle>, h: Handle, filename: string, deplibs: seq<Handle>)
    requires m.Keys == (set g | g in list) && Ordered(m, list)
    requires h !in m && (forall d :: d in deplibs ==> d in list)
    ensures Ordered(Registered(m, list, h, filename, deplibs), [h] + list)
  {
    var n, l := Registered(m, list, h, filename, deplibs), [h] + list;
    assert forall i :: 0 < i < |l| ==> l[i] == list[i - 1] && n[l[i]] == m[list[i - 1]];
    forall i, d | 0 <= i < |l| && d in n[l[i]].deplibs ensures Behind(l, i, d) {
      if i == 0 {
        var j :| 0 <= j < |list| && list[j] == d;
        assert l[j + 1] == d;
      } else {
        assert Behind(list, i - 1, d);
        var j :| i - 1 < j < |list| && list[j] == d;
        assert l[j + 1] == d;
      }
    }
  }

  ghost function Without(list: seq<Handle>, i: nat): seq<Handle>
    requires i < |list|
  {
    list[..i] + list[i + 1..]
  }

  // Where position `j` of the shortened list was before.
  ghost function Before(i: nat, j: nat): nat { if j < i then j else j + 1 }

  lemma WithoutFacts(list: seq<Handle>, i: nat)
    requires i < |list| && Distinct(list)
    ensures |Without(list, i)| == |list| - 1 && Distinct(Without(list, i))
    ensures forall j :: 0 <= j < |list| - 1 ==> Without(list, i)[j] == list[Before(i, j)]
    ensures forall h :: h in Without(list, i) <==> h in list && h != list[i]
  {
    var l := Without(list, i);
    forall h | h in list && h != list[i] ensures h in l {
      var y :| 0 <= y < |list| && list[y] == h;
      assert l[if y < i then y else y - 1] == h;
    }
    forall h | h in l ensures h in list && h != list[i] {
      var j :| 0 <= j < |l| && l[j] == h;
      assert l[j] == list[Before(i, j)];
    }
  }

  // The record after the handle at `i` was taken out of the list.
  ghost function Unlinked(m: Record, list: seq<Handle>, i: nat): Record
    requires i < |list| && list[i] in m && (i > 0 ==> list[i - 1] in m)
  {
    if i == 0 then m - {list[i]}
    else m[list[i - 1] := m[list[i - 1]].(next := m[list[i]].next)] - {list[i]}
  }

  lemma UnlinkedFacts(m: Record, list: seq<Handle>, i: nat)
    requires i < |list| && Chained(m, list) && m.Keys == (set h | h in list)
    ensures Unlinked(m, list, i).Keys == (set h | h in Without(list, i))
    ensures forall h :: h in Unlinked(m, list, i) ==>
      h in m && h != list[i] && Unlinked(m, list, i)[h]
          == m[h].(next := if i > 0 && h == list[i - 1] then m[list[i]].next else m[h].next)
  {
    hide Without;
    WithoutFacts(list, i);
  }

  // Taking out a handle on its last reference hands its dependencies to the outside.
  lemma Unlink(m: Record, list: seq<Handle>, outside: multiset<Handle>, i: nat)
    requires Inv(m, list, outside) && i < |list| && list[i] in outside && m[list[i]].refCount == 1
    ensures Inv(Unlinked(m, list, i), Without(list, i),
                outside - multiset{list[i]} + multiset(m[list[i]].deplibs))
  {
    hide Deps, DistinctNames, Ordered, Without, Unlinked, Chained;
    ChainedDistinct(m, list);
    var h := list[i];
    assert h in list && Deps(m, list)[h] == 0;
    WithoutFacts(list, i);
    UnlinkedFacts(m, list, i);
    forall d | d in m[h].deplibs ensures d in list && d != h {
      DepsListed(m, list, i, d);
      NotUsed(m, list, i, i, d);
    }
    assert forall d :: d in multiset(m[h].deplibs) ==> d in m[h].deplibs;
    UnlinkChained(m, list, i);
    UnlinkOrdered(m, list, i);
    UnlinkNames(m, list, i);
    UnlinkDeps(m, list, i);
  }

  lemma DepsListed(m: Record, list: seq<Handle>, i: nat, d: Handle)
    requires (forall h :: h in list ==> h in m) && Ordered(m, list) && i < |list| && d in m[list[i]].deplibs
    ensures d in list
  {
    assert Behind(list, i, d);
  }

  lemma ChainedAt(m: Record, list: seq<Handle>, k: nat)
    requires Chained(m, list) && k < |list|
    ensures list[k] in m && m[list[k]].next == if k + 1 < |list| then list[k + 1] else null
    ensures forall i :: 0 <= i < |list| && list[i] == list[k] ==> i == k
  {
  }

  lemma UnlinkDeps(m: Record, list: seq<Handle>, i: nat)
    requires i < |list| && Chained(m, list) && m.Keys == (set h | h in list)
    ensures forall h :: h in Without(list, i) ==> h in m && h in Unlinked(m, list, i)
    ensures Deps(m, list) == Deps(Unlinked(m, list, i), Without(list, i)) + multiset(m[list[i]].deplibs)
  {
    hide Unlinked;
    UnlinkedFacts(m, list, i);
    WithoutFacts(list, i);
    SplitDeps(m, list, i);
    DepsSame(m, Unlinked(m, list, i), Without(list, i));
  }

  lemma SplitDeps(m: Record, list: seq<Handle>, i: nat)
    requires i < |list| && forall h :: h in list ==> h in m
    ensures forall h :: h in Without(list, i) ==> h in m
    ensures Deps(m, list) == Deps(m, Without(list, i)) + multiset(m[list[i]].deplibs)
  {
    var a, b := list[..i], list[i + 1..];
    assert list == a + ([list[i]] + b) && ([list[i]] + b)[1..] == b;
    DepsConcat(m, a, [list[i]] + b);
    DepsConcat(m, a, b);
  }

  lemma UnlinkChained(m: Record, list: seq<Handle>, i: nat)
    requires i < |list| && Chained(m, list) && m.Keys == (set h | h in list)
    ensures Chained(Unlinked(m, list, i), Without(list, i))
  {
    hide Without, Unlinked, Chained;
    var n, l := Unlinked(m, list, i), Without(list, i);
    assert Distinct(list) by { ChainedDistinct(m, list); }
    UnlinkedFacts(m, list, i);
    WithoutFacts(list, i);
    forall j | 0 <= j < |l|
      ensures l[j] in n && n[l[j]].next == if j + 1 < |l| then l[j + 1] else null
    {
      assert l[j] == list[Before(i, j)] && l[j] in l;
      ChainedAt(m, list, Before(i, j));
      ChainedAt(m, list, i);
      assert j + 1 < |l| ==> l[j + 1] == list[Before(i, j + 1)];
      assert i > 0 && l[j] == list[i - 1] ==> j == i - 1;
    }
    ChainedIntro(n, l);
  }

  lemma ChainedDistinct(m: Record, list: seq<Handle>)
    requires Chained(m, list)
    ensures Distinct(list)
  {
  }

  lemma ChainedIntro(m: Record, list: seq<Handle>)
    requires Distinct(list)
    requires forall i :: 0 <= i < |list| ==>
      list[i] in m && m[list[i]].next == if i + 1 < |list| then list[i + 1] else null
    ensures Chained(m, list)
  {
  }

  lemma UnlinkNames(m: Record, list: seq<Handle>, i: nat)
    requires i < |list| && Chained(m, list) && DistinctNames(m, list) && m.Keys == (set h | h in list)
    ensures forall h :: h in Without(list, i) ==> h in Unlinked(m, list, i)
    ensures DistinctNames(Unlinked(m, list, i), Without(list, i))
  {
    hide Without, Unlinked;
    UnlinkedFacts(m, list, i);
    WithoutFacts(list, i);
    var n, l := Unlinked(m, list, i), Without(list, i);
    forall j, k | 0 <= j < k < |l| ensures n[l[j]].filename != n[l[k]].filename {
      assert l[j] in l && l[k] in l && Before(i, j) < Before(i, k);
    }
  }

  lemma UnlinkOrdered(m: Record, list: seq<Handle>, i: nat)
    requires i < |list| && Chained(m, list) && Ordered(m, list)
    requires m.Keys == (set h | h in list) && list[i] !in Deps(m, list)
    ensures forall h :: h in Without(list, i) ==> h in Unlinked(m, list, i)
    ensures Ordered(Unlinked(m, list, i), Without(list, i))
  {
    hide Without, Unlinked, Deps;
    UnlinkedFacts(m, list, i);
    WithoutFacts(list, i);
    var n, l := Unlinked(m, list, i), Without(list, i);
    forall j, d | 0 <= j < |l| && d in n[l[j]].deplibs ensures Behind(l, j, d) {
      assert l[j] in l && d in m[list[Before(i, j)]].deplibs;
      NotUsed(m, list, i, Before(i, j), d);
      BehindWithout(list, i, j, d);
    }
  }

  lemma NotUsed(m: Record, list: seq<Handle>, i: nat, k: nat, d: Handle)
    requires i < |list| && k < |list| && (forall h :: h in list ==> h in m)
    requires list[i] !in Deps(m, list) && d in m[list[k]].deplibs
    ensures d != list[i]
  {
    DepsFrom(m, list, d);
  }

  lemma BehindWithout(list: seq<Handle>, i: nat, j: nat, d: Handle)
    requires i < |list| && j < |list| - 1 && Distinct(list) && d != list[i]
    requires Behind(list, Before(i, j), d)
    ensures Behind(Without(list, i), j, d)
  {
    var y :| Before(i, j) < y < |list| && list[y] == d;
    WithoutFacts(list, i);
    var x := if y < i then y else y - 1;
    assert y != i && Before(i, x) == y && Without(list, i)[x] == d;
  }
}
