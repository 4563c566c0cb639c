/**
 Opening and closing modules in libltdl (libltdl/ltdl.c), with the registry as a linked
 list of reference-counted handles; what is found is the search of ModuleSearch.
 */
module HandleRegistry {
  import opened Shared
  import opened HandleInvariant
  import opened ModuleSearch

  // --- the registry as the search sees it ---

  ghost function NamesOf(m: Record): Names {
    set h | h in m :: m[h].filename
  }

  ghost function NameIn(m: Record, h: Handle): string { if h in m then m[h].filename else "" }

  ghost function DepNames(m: Record, deps: seq<Handle>): seq<string> {
    seq(|deps|, i requires 0 <= i < |deps| => NameIn(m, deps[i]))
  }

  // A handle with its name and those of its dependencies.
  ghost function FoundIn(m: Record, r: Handle?): Option<Found> {
    if r == null || r !in m then None else Some(Found(m[r].filename, DepNames(m, m[r].deplibs)))
  }

  class Registry {
    var handles: Handle?
    // How often INVALID_HANDLE was reported.
    var invalidHandles: nat
    ghost var m: Record
    ghost var list: seq<Handle>

    ghost predicate Valid(outside: multiset<Handle>)
      reads `handles, `m, `list, m.Keys
    {
      && (forall h :: h in m ==> h.Now() == m[h])
      && Inv(m, list, outside)
      && handles == if list == [] then null else list[0]
    }

    constructor ()
      ensures Valid(multiset{}) && list == [] && invalidHandles == 0
    {
      handles, invalidHandles, m, list := null, 0, map[], [];
    }

    // The walk along the list; `last` is the handle before the one found.
    method Lookup(handle: Handle, ghost outside: multiset<Handle>)
      returns (cur: Handle?, last: Handle?, ghost i: nat)
      requires Valid(outside)
      ensures cur == null <==> handle !in list
      ensures cur != null ==> cur == handle && i < |list| && list[i] == handle
      ensures cur != null ==> last != null && last == if i == 0 then handles else list[i - 1]
    {
      last, cur, i := handles, handles, 0;
      while cur != null && handle != cur
        invariant i <= |list| && cur == (if i < |list| then list[i] else null)
        invariant last == if i == 0 then handles else list[i - 1]
        invariant handle !in list[..i]
        decreases |list| - i
      {
        ChainedAt(m, list, i);
        last := cur;
        cur := cur.next;
        i := i + 1;
      }
    }
  
    // ++ref_count and --ref_count while references remain.
    method Count(h: Handle, up: bool, ghost outside: multiset<Handle>)
      requires Valid(outside) && h in list
      requires !up ==> h in outside && h.refCount > 1
      modifies `m, m.Keys
      ensures Valid(if up then outside + multiset{h} else outside - multiset{h})
      ensures m.Keys == old(m.Keys) && Keeps(old(m), m)
    {
      hide Chained, DistinctNames, Ordered, Counted;
      ghost var outside' := if up then outside + multiset{h} else outside - multiset{h};
      Recount(m, list, outside, h, outside');
      if up { h.refCount := h.refCount + 1; } else { h.refCount := h.refCount - 1; }
      m := m[h := m[h].(refCount := h.refCount)];
    }

    // The last reference is gone: takes the handle out of the list.
    method Drop(cur: Handle, last: Handle, ghost i: nat, ghost outside: multiset<Handle>)
      requires Valid(outside) && i < |list| && list[i] == cur && cur in outside && cur.refCount == 1
      requires last == if i == 0 then handles else list[i - 1]
      modifies this, m.Keys
      ensures Valid(outside - multiset{cur} + multiset(cur.deplibs))
      ensures m.Keys == old(m.Keys) - {cur} && cur.deplibs == old(cur.deplibs) && |list| == |old(list)| - 1
      ensures Keeps(old(m), m) && invalidHandles == old(invalidHandles)
    {
      hide Chained, DistinctNames, Ordered, Counted;
      Unlink(m, list, outside, i);
      UnlinkedFacts(m, list, i);
      ChainedAt(m, list, i);
      cur.refCount := cur.refCount - 1;
      if cur != handles {
        last.next := cur.next;
      } else {
        handles := cur.next;
      }
      m, list := Unlinked(m, list, i), Without(list, i);
    }
  
    // lt_dlclose.  A caller gives up a reference it holds; an unlisted handle is refused.
    method Dlclose(handle: Handle, ghost outside: multiset<Handle>) returns (errors: nat)
      requires Valid(outside) && (handle in list ==> handle in outside)
      modifies this, m.Keys
      ensures handle in old(list) ==> Valid(outside - multiset{handle}) && invalidHandles == old(invalidHandles)
      ensures handle !in old(list) ==>
        Valid(outside) && list == old(list) && m == old(m) && errors == 1 && invalidHandles == old(invalidHandles) + 1
      ensures m.Keys <= old(m.Keys) && |list| <= |old(list)| && Keeps(old(m), m)
      decreases |list|, 0
    {
      hide Registry.Valid, Inv, Keeps;
      KeepsSelf(m);
      errors := 0;
      var cur, last; ghost var i;
      cur, last, i := Lookup(handle, outside);
      if cur == null {
        invalidHandles := invalidHandles + 1;
        return 1;
      }
      Used(outside, i);
      if cur.refCount - 1 <= 0 {
        Drop(cur, last, i, outside);
        var closeFails: bool := *;
        if closeFails { errors := errors + 1; }
        ghost var pending, dropped := outside - multiset{cur} + multiset(cur.deplibs), m;
        var more := UnloadDeplibs(cur, pending);
        KeepsThrough(old(m), dropped, m);
        errors := errors + more;
        assert pending - multiset(cur.deplibs) == outside - multiset{cur};
      } else {
        Count(cur, false, outside);
      }
    }

    // What the walks read from a listed handle.
    lemma Used(outside: multiset<Handle>, i: nat)
      requires Valid(outside) && i < |list|
      ensures list[i] in list && list[i] in m && list[i].refCount > 0
      ensures list[i].next == if i + 1 < |list| then list[i + 1] else null
      ensures m[list[i]].filename == list[i].filename
      ensures handles == list[0]
    {
      hide Counted, Ordered, DistinctNames;
      assert list[i] in list;
      ChainedAt(m, list, i);
      assert m[list[i]].refCount > 0 by { CountPositive(m, list, outside, i); }
    }

    // unload_deplibs on a handle that is not listed; it gives up one reference to each.
    method UnloadDeplibs(cur: Handle, ghost outside: multiset<Handle>) returns (errors: nat)
      requires Valid(outside) && cur !in m && multiset(cur.deplibs) <= outside
      modifies this, m.Keys
      ensures Valid(outside - multiset(cur.deplibs)) && invalidHandles == old(invalidHandles)
      ensures m.Keys <= old(m.Keys) && |list| <= |old(list)| && Keeps(old(m), m)
      ensures cur.deplibs == old(cur.deplibs)
      decreases |list|, 1
    {
      hide Registry.Valid, Inv, Keeps, Left;
      errors := 0;
      ghost var deps := cur.deplibs;
      LeftEnds(outside, deps);
      assert Keeps(m, m) by { KeepsSelf(m); }
      var i := 0;
      while i < |cur.deplibs|
        invariant cur.deplibs == deps && i <= |deps| && cur !in m
        invariant Valid(Left(outside, deps, i)) && invalidHandles == old(invalidHandles)
        invariant m.Keys <= old(m.Keys) && |list| <= |old(list)| && Keeps(old(m), m)
      {
        LeftStep(outside, deps, i);
        Listed(Left(outside, deps, i), deps[i]);
        ghost var before := m;
        var more := Dlclose(cur.deplibs[i], Left(outside, deps, i));
        KeepsThrough(old(m), before, m);
        errors := errors + more;
        i := i + 1;
      }
    }

    // The listed handle with this file name, if any.
    method FindByName(filename: string, ghost outside: multiset<Handle>) returns (handle: Handle?)
      requires Valid(outside)
      ensures handle != null ==> handle in list && handle in m
      ensures handle != null ==> m[handle].filename == filename
      ensures handle == null ==> forall g :: g in list ==> g in m && m[g].filename != filename
      ensures handle == null <==> filename !in NamesOf(m)
    {
      hide Inv;
      handle := handles;
      ghost var i: nat := 0;
      First(outside);
      while handle != null && handle.filename != filename
        invariant i <= |list| && handle == if i < |list| then list[i] else null
        invariant forall j :: 0 <= j < i ==> m[list[j]].filename != filename
        decreases |list| - i
      {
        Used(outside, i);
        handle := handle.next;
        i := i + 1;
      }
      if handle == null {
        forall g | g in list ensures m[g].filename != filename {
          var j :| 0 <= j < |list| && list[j] == g;
        }
        AllListed(outside);
      }
    }

    // tryall_dlopen for a new handle `h`: a listed handle with that file name gets one
    // more reference; otherwise `h` takes the name if a loader opens the file.
    method TryallDlopen(h: Handle, probe: Probe, ghost outside: multiset<Handle>) returns (r: Handle?)
      requires Valid(outside) && h !in m
      modifies `m, m.Keys, h`filename
      ensures m.Keys == old(m.Keys) && Keeps(old(m), m)
      ensures r == null || r == h ==> Valid(outside)
      ensures r == h ==>
        h.filename == probe.filename && forall g :: g in list ==> g in m && m[g].filename != h.filename
      ensures r != null && r != h ==> r in list && Valid(outside + multiset{r})
      ensures r == null <==> !probe.loads && probe.filename !in NamesOf(old(m))
      ensures r == h <==> probe.loads && probe.filename !in NamesOf(old(m))
      ensures r == null || r == h ==> m == old(m)
      ensures r != null && r != h ==> r in m && m[r].filename == probe.filename
    {
      hide Registry.Valid, Keeps;
      KeepsSelf(m);
      var handle := FindByName(probe.filename, outside);
      if handle != null {
        Count(handle, true, outside);
        KeepsName(old(m), m, handle);
        return handle;
      }
      if !probe.loads { return null; }
      h.filename := probe.filename;
      return h;
    }

    // The registration tail of try_dlopen: a handle without references is put in front.
    method RegisterHandle(h: Handle, ghost outside: multiset<Handle>)
      requires Valid(outside) && h !in m && h.refCount == 0 && multiset(h.deplibs) <= outside
      requires forall g :: g in list ==> g in m && m[g].filename != h.filename
      modifies this, h
      ensures Valid(outside - multiset(h.deplibs) + multiset{h}) && h in list
      ensures m.Keys == old(m.Keys) + {h} && Keeps(old(m), m) && invalidHandles == old(invalidHandles)
      ensures m[h].filename == old(h.filename) && m[h].deplibs == h.deplibs == old(h.deplibs)
    {
      hide Chained, DistinctNames, Ordered, Counted;
      Register(m, list, outside, h, h.filename, h.deplibs);
      m := Registered(m, list, h, h.filename, h.deplibs);
      list := [h] + list;
      h.refCount := 1;
      h.next := handles;
      handles := h;
    }

    // find_module: the first file name that works.
    method FindModule(h: Handle, probes: seq<Probe>, ghost outside: multiset<Handle>)
      returns (r: Handle?, ghost at: nat)
      requires Valid(outside) && h !in m
      modifies `m, m.Keys, h`filename
      ensures m.Keys == old(m.Keys) && Keeps(old(m), m)
      ensures r == null || r == h ==> Valid(outside)
      ensures r == h ==> forall g :: g in list ==> g in m && m[g].filename != h.filename
      ensures r != null && r != h ==> r in list && r in m && Valid(outside + multiset{r})
      ensures at <= |probes| && Nothing(NamesOf(old(m)), probes[..at]) && (at == |probes| <==> r == null)
      ensures r == h ==>
        probes[at].filename == h.filename && probes[at].loads && h.filename !in NamesOf(old(m))
      ensures r != null && r != h ==>
        probes[at].filename == m[r].filename && m[r].filename in NamesOf(old(m))
    {
      hide Registry.Valid, Keeps, NamesOf;
      KeepsSelf(m);
      r, at := null, 0;
      var i := 0;
      while i < |probes|
        invariant i == at <= |probes| && r == null && Valid(outside) && m == old(m) && h !in m
        invariant Nothing(NamesOf(old(m)), probes[..i])
      {
        r := TryallDlopen(h, probes[i], outside);
        if r != null { return; }
        assert probes[..i + 1] == probes[..i] + [probes[i]];
        i, at := i + 1, at + 1;
      }
    }

    // What a caller of an open call gets: a reference to a listed handle, or nothing.
    ghost predicate Granted(r: Handle?, outside: multiset<Handle>)
      reads `handles, `m, `list, m.Keys
    {
      if r == null then Valid(outside) else r in list && Valid(outside + multiset{r})
    }

    // try_dlopen
    method TryDlopen(req: Request, ghost outside: multiset<Handle>) returns (r: Handle?)
      requires Valid(outside)
      modifies this, m.Keys
      ensures Granted(r, outside) && Answers(NamesOf(old(m)), req, FoundIn(m, r), NamesOf(m))
      ensures fresh(m.Keys - old(m.Keys)) && Keeps(old(m), m) && invalidHandles == old(invalidHandles)
      decreases req, 1
    {
      hide Registry.Valid, Keeps, Leaves, Loads, NamesOf, FoundIn;
      KeepsSelf(m);
      if req.preload != [] {
        r := OpenPlain(req.preload[0], outside);
        GrantedListed(r, outside);
        if r != null { return; }
      }
      ghost var before := m;
      assert Nothing(NamesOf(before), req.Preload());
      match req.file {
        case Missing => r := null;
        case Plain(probe) => r := OpenPlain(probe, outside);
        case Archive(deplibs, probes) =>
          ghost var mid, deps;
          r, mid, deps := OpenArchive(deplibs, probes, outside);
          assert Loads(NamesOf(before), deplibs, 0, deps, mid);
      }
      GrantedListed(r, outside);
      KeepsAcross(old(m), before, m);
    }

    // A module without dependencies.
    method OpenPlain(probe: Probe, ghost outside: multiset<Handle>) returns (r: Handle?)
      requires Valid(outside)
      modifies this, m.Keys
      ensures Granted(r, outside) && Places(NamesOf(old(m)), [], [probe], FoundIn(m, r))
      ensures Leaves(NamesOf(old(m)), NamesOf(old(m)), FoundIn(m, r), NamesOf(m)) && (r == null ==> m == old(m))
      ensures fresh(m.Keys - old(m.Keys)) && Keeps(old(m), m) && invalidHandles == old(invalidHandles)
    {
      hide Registry.Valid, Keeps, NamesOf;
      var h := new Handle();
      r := TryallDlopen(h, probe, outside);
      ghost var before := m;
      NamesGrow(old(m), m);
      KeepsBack(old(m), m);
      NamesGrow(m, old(m));
      if r == h {
        RegisterHandle(h, outside);
        assert outside - multiset(h.deplibs) == outside;
        NamesMore(before, m, h);
      }
      KeepsAcross(old(m), before, m);
      assert [probe][0] == probe && [probe][..0] == [];
    }

    // A libtool archive: dependencies first, in reverse order; they are given back when
    // the module does not load or turns out to be listed already.
    method OpenArchive(deplibs: seq<Attempts>, probes: seq<Probe>, ghost outside: multiset<Handle>)
      returns (r: Handle?, ghost mid: Names, ghost deps: seq<string>)
      requires Valid(outside)
      modifies this, m.Keys
      ensures Granted(r, outside) && Loads(NamesOf(old(m)), deplibs, 0, deps, mid)
      ensures Places(mid, deps, probes, FoundIn(m, r)) && Leaves(NamesOf(old(m)), mid, FoundIn(m, r), NamesOf(m))
      ensures fresh(m.Keys - old(m.Keys)) && Keeps(old(m), m) && invalidHandles == old(invalidHandles)
      decreases deplibs, 1
    {
      hide Registry.Valid, Keeps, Loads, Places, Leaves, NamesOf;
      var h := new Handle();
      LoadDeplibs(h, deplibs, outside);
      ghost var loaded, row, held := m, list, h.deplibs;
      mid, deps := NamesOf(m), DepNames(m, h.deplibs);
      DepsIn(outside, held);
      Accounted(outside + multiset(held));
      r := PlaceModule(h, probes, outside);
      KeepsAcross(old(m), loaded, m);
      ArchiveLeaves(outside, loaded, row, held, h, r);
    }

    // What stays of the dependencies.
    twostate lemma ArchiveLeaves(outside: multiset<Handle>, new mid: Record, new row: seq<Handle>,
        new held: seq<Handle>, new h: Handle, new r: Handle?)
      requires old(Valid(outside)) && Granted(r, outside) && Inv(mid, row, outside + multiset(held)) && h !in mid
      requires Keeps(old(m), m) && Keeps(old(m), mid) && Keeps(mid, m)
      requires r == h ==> m.Keys == mid.Keys + {h} && m[h].filename !in NamesOf(mid)
      requires r != h ==> m.Keys <= mid.Keys
      ensures Leaves(NamesOf(old(m)), NamesOf(mid), FoundIn(m, r), NamesOf(m))
    {
      hide Inv, Keeps;
      if r == null {
        SameWhenHeld(outside);
        SameNames(old(m), m);
      } else {
        Accounted(outside + multiset{r});
        KeepsBack(old(m), m);
        KeepsBack(mid, m);
        StayListed(old(m), old(list), outside, mid, row, outside + multiset(held));
        StayListed(old(m), old(list), outside, m, list, outside + multiset{r});
        NamesGrow(old(m), mid);
        NamesGrow(old(m), m);
        if r == h {
          NamesMore(mid, m, h);
        } else {
          NamesGrow(m, mid);
          if m[r].filename in NamesOf(old(m)) {
            SameName(old(m), mid, row, outside + multiset(held), r);
            StayListed(m, list, outside + multiset{r}, old(m), old(list), outside);
            NamesGrow(m, old(m));
          }
        }
      }
    }

    // The module itself, once the dependencies of `h` are loaded.
    method PlaceModule(h: Handle, probes: seq<Probe>, ghost outside: multiset<Handle>) returns (r: Handle?)
      requires Valid(outside + multiset(h.deplibs)) && h !in m && h.refCount == 0
      modifies this, m.Keys, h
      ensures Granted(r, outside)
      ensures Places(NamesOf(old(m)), DepNames(old(m), old(h.deplibs)), probes, FoundIn(m, r))
      ensures if r == h then m.Keys == old(m.Keys) + {h} && m[h].filename !in NamesOf(old(m)) else m.Keys <= old(m.Keys)
      ensures Keeps(old(m), m) && invalidHandles == old(invalidHandles)
    {
      hide Registry.Valid, Nothing, NamesOf;
      ghost var deps := h.deplibs;
      ghost var held := outside + multiset(deps);
      DepsIn(outside, deps);
      ghost var at;
      r, at := FindModule(h, probes, held);
      KeepsSelf(old(m));
      ghost var found := m;
      if r == null {
        var errors := UnloadDeplibs(h, held);
        assert held - multiset(deps) == outside;
      } else if r != h {
        var errors := UnloadDeplibs(h, held + multiset{r});
        assert held + multiset{r} - multiset(deps) == outside + multiset{r};
        Listed(outside + multiset{r}, r);
      } else {
        RegisterHandle(h, held);
        assert held - multiset(deps) == outside;
      }
      KeepsAcross(old(m), found, m);
      assert at == |probes| ==> probes[..at] == probes;
      if r == h {
        SameDeps(old(m), m, deps);
      }
    }

    // load_deplibs for a handle that is not listed yet.
    method LoadDeplibs(h: Handle, deplibs: seq<Attempts>, ghost outside: multiset<Handle>)
      requires Valid(outside) && h !in m && h.deplibs == []
      modifies this, m.Keys, h`deplibs
      ensures Valid(outside + multiset(h.deplibs)) && h !in m
      ensures Loads(NamesOf(old(m)), deplibs, 0, DepNames(m, h.deplibs), NamesOf(m))
      ensures fresh(m.Keys - old(m.Keys)) && Keeps(old(m), m) && invalidHandles == old(invalidHandles)
      decreases deplibs, 0
    {
      hide Registry.Valid, Keeps, Opens, NamesOf, Loads, DepNames;
      KeepsSelf(m);
      LoadsNone(NamesOf(m), deplibs, [], NamesOf(m));
      NoDeps(m);
      assert outside + multiset([]) == outside;
      var i := 0;
      while i < |deplibs|
        invariant i <= |deplibs| && Valid(outside + multiset(h.deplibs)) && h !in m
        invariant Loads(NamesOf(old(m)), deplibs, |deplibs| - i, DepNames(m, h.deplibs), NamesOf(m))
        invariant fresh(m.Keys - old(m.Keys)) && Keeps(old(m), m) && invalidHandles == old(invalidHandles)
      {
        ghost var before, deps := m, h.deplibs;
        var d := LoadDeplib(h, deplibs[|deplibs| - 1 - i], outside);
        KeepsAcross(old(m), before, m);
        LoadsNext(NamesOf(old(m)), deplibs, |deplibs| - 1 - i, DepNames(before, deps), NamesOf(before), FoundIn(m, d),
          NamesOf(m));
        i := i + 1;
      }
    }

    // One dependency more, if it is found.
    method LoadDeplib(h: Handle, attempts: Attempts, ghost outside: multiset<Handle>) returns (d: Handle?)
      requires Valid(outside + multiset(h.deplibs)) && h !in m
      modifies this, m.Keys, h`deplibs
      ensures Valid(outside + multiset(h.deplibs)) && h !in m
      ensures Opens(NamesOf(old(m)), attempts.requests, FoundIn(m, d), NamesOf(m))
      ensures h.deplibs == old(h.deplibs) + if d == null then [] else [d]
      ensures DepNames(m, h.deplibs) == DepNames(old(m), old(h.deplibs)) + NameOf(FoundIn(m, d))
      ensures fresh(m.Keys - old(m.Keys)) && Keeps(old(m), m) && invalidHandles == old(invalidHandles)
      decreases attempts, 1
    {
      hide Registry.Valid, Keeps, Opens, NamesOf;
      ghost var deps := h.deplibs;
      DepsIn(outside, deps);
      d := Dlopenext(attempts, outside + multiset(h.deplibs));
      if d != null {
        h.deplibs := h.deplibs + [d];
        assert outside + multiset(h.deplibs) == outside + multiset(deps) + multiset{d};
      } else {
        assert deps + [] == deps;
      }
      DepsIn(outside, h.deplibs);
      SameDeps(old(m), m, deps);
    }

    // lt_dlopenext: one attempt after the other until one succeeds, or fails on a file that
    // is there.
    method Dlopenext(attempts: Attempts, ghost outside: multiset<Handle>) returns (r: Handle?)
      requires Valid(outside)
      modifies this, m.Keys
      ensures Granted(r, outside) && Opens(NamesOf(old(m)), attempts.requests, FoundIn(m, r), NamesOf(m))
      ensures r == null ==> SameHandles(old(m), m)
      ensures fresh(m.Keys - old(m.Keys)) && Keeps(old(m), m) && invalidHandles == old(invalidHandles)
      decreases attempts, 0
    {
      hide Registry.Valid, Keeps, Answers, NamesOf, FoundIn;
      KeepsSelf(m);
      r := null;
      var i := 0;
      ghost var a, requests := NamesOf(m), attempts.requests;
      assert requests[0..] == requests;
      while i < |attempts.requests|
        invariant i <= |attempts.requests| && r == null && Valid(outside) && fresh(m.Keys - old(m.Keys))
        invariant NamesOf(m) == a && forall f, n :: Opens(a, requests[i..], f, n) ==> Opens(a, requests, f, n)
        invariant Keeps(old(m), m) && invalidHandles == old(invalidHandles)
      {
        ghost var before := m;
        r := TryDlopen(attempts.requests[i], outside);
        KeepsAcross(old(m), before, m);
        GrantedListed(r, outside);
        AnswersFrame(a, requests[i], FoundIn(m, r), NamesOf(m));
        OpensNext(a, requests, i, FoundIn(m, r), NamesOf(m));
        if r != null { return; }
        if !attempts.requests[i].GoesOn() { break; }
        forall f, n | Opens(a, requests[i + 1..], f, n) ensures Opens(a, requests[i..], f, n) {
          OpensNext(a, requests, i, f, n);
        }
        i := i + 1;
        assert i == |requests| ==> Opens(a, requests[i..], None, a);
      }
      SameWhenHeld(outside);
      GrantedListed(r, outside);
    }

    twostate lemma SameWhenHeld(outside: multiset<Handle>)
      requires old(Valid(outside)) && Valid(outside) && Keeps(old(m), m)
      ensures SameHandles(old(m), m)
    {
      hide Inv;
      Determined(old(m), old(list), m, list, outside);
    }

    lemma AllListed(outside: multiset<Handle>)
      requires Valid(outside)
      ensures forall h :: h in m ==> h in list
    {
    }

    lemma DepsIn(outside: multiset<Handle>, deps: seq<Handle>)
      requires Valid(outside + multiset(deps))
      ensures forall d :: d in deps ==> d in m
    {
      forall d | d in deps ensures d in m {
        assert d in outside + multiset(deps);
        Listed(outside + multiset(deps), d);
      }
    }

    lemma Accounted(outside: multiset<Handle>)
      requires Valid(outside)
      ensures Inv(m, list, outside) && forall h :: h in list <==> h in m
    {
    }

    // The answer of an open call is listed.
    lemma GrantedListed(r: Handle?, outside: multiset<Handle>)
      requires Granted(r, outside)
      ensures r == null <==> FoundIn(m, r) == None
    {
    }

    lemma First(outside: multiset<Handle>)
      requires Valid(outside)
      ensures handles == if list == [] then null else list[0]
      ensures forall h :: h in list ==> h in m
    {
    }

    lemma Listed(outside: multiset<Handle>, h: Handle)
      requires Valid(outside) && h in outside
      ensures h in list && h in m
    {
    }
  }

  // What a client does: it opens modules and closes references it holds.
  datatype Op = OpenOp(attempts: Attempts) | CloseOp(which: nat)

  // Any run of a client that closes only what it holds; other closes are not made.
  method Run(reg: Registry, ops: seq<Op>) returns (held: seq<Handle>)
    requires reg.Valid(multiset{})
    modifies reg, reg.m.Keys
    ensures reg.Valid(multiset(held)) && reg.invalidHandles == old(reg.invalidHandles)
  {
    hide Registry.Valid;
    held := [];
    var i := 0;
    while i < |ops|
      invariant reg.Valid(multiset(held)) && reg.invalidHandles == old(reg.invalidHandles)
      invariant fresh(reg.m.Keys - old(reg.m.Keys))
    {
      match ops[i] {
        case OpenOp(attempts) =>
          var h := reg.Dlopenext(attempts, multiset(held));
          if h != null { held := held + [h]; }
        case CloseOp(which) =>
          if which < |held| {
            var rest := held[..which] + held[which + 1..];
            assert held == held[..which] + [held[which]] + held[which + 1..];
            assert multiset(rest) == multiset(held) - multiset{held[which]};
            reg.Listed(multiset(held), held[which]);
            var errors := reg.Dlclose(held[which], multiset(held));
            held := rest;
          }
      }
      i := i + 1;
    }
  }

  // Closing everything that is held empties the registry.
  method CloseAll(reg: Registry, held: seq<Handle>)
    requires reg.Valid(multiset(held))
    modifies reg, reg.m.Keys
    ensures reg.Valid(multiset{}) && reg.list == [] && reg.invalidHandles == old(reg.invalidHandles)
  {
    hide Inv;
    var i := 0;
    assert held[0..] == held;
    while i < |held|
      invariant i <= |held| && reg.Valid(multiset(held[i..])) && reg.m.Keys <= old(reg.m.Keys)
      invariant reg.invalidHandles == old(reg.invalidHandles)
    {
      assert held[i..] == [held[i]] + held[i + 1..];
      reg.Listed(multiset(held[i..]), held[i]);
      var errors := reg.Dlclose(held[i], multiset(held[i..]));
      assert multiset(held[i..]) - multiset{held[i]} == multiset(held[i + 1..]);
      i := i + 1;
    }
    assert held[i..] == [];
    assert multiset(held[i..]) == multiset{};
    NoLeak(reg.m, reg.list);
  }

  // The whole effect of opening a module and closing it again, or of failing to open it.
  method OpenAndClose(reg: Registry, attempts: Attempts, ghost outside: multiset<Handle>) returns (worked: bool)
    requires reg.Valid(outside)
    modifies reg, reg.m.Keys
    ensures reg.Valid(outside) && SameHandles(old(reg.m), reg.m) && reg.invalidHandles == old(reg.invalidHandles)
  {
    hide Registry.Valid, Keeps, SameHandles;
    var r := reg.Dlopenext(attempts, outside);
    worked := r != null;
    if worked {
      ghost var before := reg.m;
      reg.Listed(outside + multiset{r}, r);
      var errors := reg.Dlclose(r, outside + multiset{r});
      assert outside + multiset{r} - multiset{r} == outside;
      KeepsThrough(old(reg.m), before, reg.m);
      reg.SameWhenHeld(outside);
    }
  }

  // --- the names that are listed ---

  lemma NamesGrow(a: Record, b: Record)
    requires a.Keys <= b.Keys && Keeps(a, b)
    ensures NamesOf(a) <= NamesOf(b)
  {
  }

  lemma SameNames(a: Record, b: Record)
    requires SameHandles(a, b)
    ensures NamesOf(a) == NamesOf(b)
  {
  }

  lemma NamesMore(a: Record, b: Record, h: Handle)
    requires h !in a && b.Keys == a.Keys + {h} && Keeps(a, b)
    ensures NamesOf(b) == NamesOf(a) + {b[h].filename}
  {
    NamesGrow(a, b);
  }

  lemma NoDeps(m: Record)
    ensures DepNames(m, []) == []
  {
  }

  lemma SameDeps(a: Record, b: Record, deps: seq<Handle>)
    requires Keeps(a, b) && forall d :: d in deps ==> d in a && d in b
    ensures DepNames(b, deps) == DepNames(a, deps)
  {
  }

  lemma KeepsBack(a: Record, b: Record)
    requires Keeps(a, b)
    ensures Keeps(b, a)
  {
  }

  // What is held stays listed.
  lemma StayListed(a: Record, la: seq<Handle>, outside: multiset<Handle>,
      b: Record, lb: seq<Handle>, outside': multiset<Handle>)
    requires Inv(a, la, outside) && Inv(b, lb, outside') && Keeps(a, b)
    requires forall h :: h in outside ==> h in outside' || h in b
    ensures a.Keys <= b.Keys
  {
    ListedBoth(a, la, outside, b, lb, outside');
  }

  // Only one listed handle has a name.
  lemma SameName(a: Record, mid: Record, row: seq<Handle>, outside: multiset<Handle>, r: Handle)
    requires Inv(mid, row, outside) && a.Keys <= mid.Keys && Keeps(a, mid)
    requires r in mid && mid[r].filename in NamesOf(a)
    ensures r in a
  {
    hide Chained, Ordered, Counted;
    var g :| g in a && a[g].filename == mid[r].filename;
    var i :| 0 <= i < |row| && row[i] == g;
    var j :| 0 <= j < |row| && row[j] == r;
  }

  // What is held when the first `i` dependencies are given up.
  ghost function Left(outside: multiset<Handle>, deps: seq<Handle>, i: nat): multiset<Handle>
    requires i <= |deps|
  {
    outside - multiset(deps[..i])
  }

  lemma LeftEnds(outside: multiset<Handle>, deps: seq<Handle>)
    ensures Left(outside, deps, 0) == outside
    ensures Left(outside, deps, |deps|) == outside - multiset(deps)
  {
    assert deps[..|deps|] == deps;
  }

  lemma LeftStep(outside: multiset<Handle>, deps: seq<Handle>, i: nat)
    requires i < |deps| && multiset(deps) <= outside
    ensures deps[i] in Left(outside, deps, i)
    ensures Left(outside, deps, i) - multiset{deps[i]} == Left(outside, deps, i + 1)
  {
    assert deps == deps[..i] + ([deps[i]] + deps[i + 1..]);
    assert deps[..i + 1] == deps[..i] + [deps[i]];
  }

  lemma KeepsName(a: Record, b: Record, h: Handle)
    requires Keeps(a, b) && h in a && h in b
    ensures b[h].filename == a[h].filename
  {
  }

  lemma KeepsSelf(a: Record)
    ensures Keeps(a, a)
  {
  }

  lemma CountPositive(m: Record, list: seq<Handle>, outside: multiset<Handle>, i: nat)
    requires Inv(m, list, outside) && i < |list|
    ensures m[list[i]].refCount > 0
  {
    assert list[i] in list;
  }

  // A handle that was and is listed was listed in between.
  lemma KeepsAcross(a: Record, b: Record, c: Record)
    requires Keeps(a, b) && Keeps(b, c) && forall h :: h in a && h in c ==> h in b
    ensures Keeps(a, c)
  {
  }

  lemma KeepsThrough(a: Record, b: Record, c: Record)
    requires Keeps(a, b) && Keeps(b, c) && c.Keys <= b.Keys
    ensures Keeps(a, c)
  {
  }
}
