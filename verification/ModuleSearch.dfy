/**
 What opening a module finds in libltdl (libltdl/ltdl.c), on the names of the modules that
 are listed.  The file system and the loaders answer through a `Request`: which file names
 are tried and whether they load.
 */
module ModuleSearch {
  import opened Shared

  // One call of tryall_dlopen: the file name, and whether a loader opens it.
  datatype Probe = Probe(filename: string, loads: bool)

  // One call of try_dlopen: a preloaded module is tried first if the name has no
  // directory; then the file is a libtool archive with dependencies, a plain module, or
  // not there.  `notFound` is the answer of file_not_found if the call fails: a missing
  // file always gives it, a loader may.  Each dependency is a call of lt_dlopenext, with
  // its requests in order.
  datatype Request = Request(preload: seq<Probe>, file: File, notFound: bool) {
    predicate GoesOn() { notFound || file.Missing? }

    function Preload(): seq<Probe> { if preload == [] then [] else [preload[0]] }
  }
  datatype File = Missing | Plain(probe: Probe) | Archive(deplibs: seq<Attempts>, probes: seq<Probe>)
  datatype Attempts = Attempts(requests: seq<Request>)

  type Names = set<string>

  // The module that was found: its name and those of its dependencies.
  datatype Found = Found(name: string, deps: seq<string>)

  // No name is listed or loads.
  predicate Nothing(a: Names, probes: seq<Probe>) {
    forall p :: p in probes ==> !p.loads && p.filename !in a
  }

  // The first name that is listed or that a loader opens is the answer; a module that a
  // loader opens gets the dependencies `deps`.
  predicate Places(a: Names, deps: seq<string>, probes: seq<Probe>, r: Option<Found>) {
    if r.None? then Nothing(a, probes)
    else
      exists i ::
        && 0 <= i < |probes| && probes[i].filename == r.value.name && Nothing(a, probes[..i])
        && (probes[i].filename in a || (probes[i].loads && r.value.deps == deps))
  }

  // What is listed afterwards, when `a` was before and `mid` with the dependencies: they are
  // given back when the module is not new, but for those it has itself.
  predicate Leaves(a: Names, mid: Names, r: Option<Found>, n: Names) {
    if r.None? || r.value.name in a then n == a
    else if r.value.name in mid then a + {r.value.name} <= n <= mid
    else n == mid + {r.value.name}
  }

  // One request: a preloaded module before the file; the dependencies of an archive before
  // its own names.
  ghost predicate Answers(a: Names, req: Request, r: Option<Found>, n: Names)
    decreases req, 0
  {
    || (r.Some? && Places(a, [], req.Preload(), r) && Leaves(a, a, r, n))
    || (Nothing(a, req.Preload()) &&
        match req.file
        case Missing => r == None && n == a
        case Plain(probe) => Places(a, [], [probe], r) && Leaves(a, a, r, n)
        case Archive(deplibs, probes) =>
          exists mid: Names, deps: seq<string> ::
            Loads(a, deplibs, 0, deps, mid) && Places(mid, deps, probes, r) && Leaves(a, mid, r, n))
  }

  // The dependencies from position `i` on, last one first; one that is not found is left out.
  ghost predicate Loads(a: Names, deplibs: seq<Attempts>, i: nat, deps: seq<string>, n: Names)
    requires i <= |deplibs|
    decreases deplibs, |deplibs| - i
  {
    if i == |deplibs| then deps == [] && n == a
    else
      exists mid: Names, more: seq<string>, d: Option<Found> ::
        && Loads(a, deplibs, i + 1, more, mid)
        && Opens(mid, deplibs[i].requests, d, n) && deps == more + NameOf(d)
  }

  function NameOf(d: Option<Found>): seq<string> { if d.None? then [] else [d.value.name] }

  // The requests in order, until one finds a module or fails on a file that is there.
  ghost predicate Opens(a: Names, requests: seq<Request>, r: Option<Found>, n: Names)
    decreases requests, 0
  {
    if requests == [] then r == None && n == a
    else
      || (Answers(a, requests[0], r, n) && (r.Some? || !requests[0].GoesOn()))
      || (Answers(a, requests[0], None, a) && requests[0].GoesOn() && Opens(a, requests[1..], r, n))
  }

  lemma LoadsNone(a: Names, deplibs: seq<Attempts>, deps: seq<string>, n: Names)
    ensures Loads(a, deplibs, |deplibs|, deps, n) <==> deps == [] && n == a
  {
  }

  // One dependency more.
  lemma LoadsNext(a: Names, deplibs: seq<Attempts>, i: nat, more: seq<string>, mid: Names, d: Option<Found>, n: Names)
    requires i < |deplibs| && Loads(a, deplibs, i + 1, more, mid) && Opens(mid, deplibs[i].requests, d, n)
    ensures Loads(a, deplibs, i, more + NameOf(d), n)
  {
  }

  // One request more.
  lemma OpensNext(a: Names, requests: seq<Request>, i: nat, r: Option<Found>, n: Names)
    requires i < |requests|
    ensures Answers(a, requests[i], r, n) && (r.Some? || !requests[i].GoesOn()) ==> Opens(a, requests[i..], r, n)
    ensures Answers(a, requests[i], None, a) && requests[i].GoesOn() && Opens(a, requests[i + 1..], r, n)
      ==> Opens(a, requests[i..], r, n)
  {
    hide Answers;
    assert requests[i..][1..] == requests[i + 1..];
  }

  // --- the names that are tried ---

  // The calls of tryall_dlopen for the module itself.
  function Tried(req: Request): seq<Probe> {
    req.Preload() +
    match req.file {
      case Missing => []
      case Plain(probe) => [probe]
      case Archive(_, probes) => probes
    }
  }

  // Those of lt_dlopenext: a file that is there but does not load ends the search.
  function TriedAll(requests: seq<Request>): seq<Probe> {
    if requests == [] then []
    else Tried(requests[0]) + if requests[0].GoesOn() then TriedAll(requests[1..]) else []
  }

  lemma PlacesConcat(a: Names, deps: seq<string>, p: seq<Probe>, q: seq<Probe>, r: Option<Found>)
    ensures Places(a, deps, p + q, r) <==>
      (r.Some? && Places(a, deps, p, r)) || (Nothing(a, p) && Places(a, deps, q, r))
  {
    if r.Some? {
      forall i | 0 <= i < |p| ensures (p + q)[..i] == p[..i] && (p + q)[i] == p[i] {
      }
      forall i | 0 <= i < |q| ensures (p + q)[..|p| + i] == p + q[..i] && (p + q)[|p| + i] == q[i] {
      }
      assert forall i :: |p| <= i < |p + q| ==> q[i - |p|] == (p + q)[i];
      if Places(a, deps, p + q, r) {
        var i :| 0 <= i < |p + q| && (p + q)[i].filename == r.value.name && Nothing(a, (p + q)[..i])
          && ((p + q)[i].filename in a || ((p + q)[i].loads && r.value.deps == deps));
        if i < |p| {
          assert Nothing(a, p[..i]);
        } else {
          assert (p + q)[..i] == p + q[..i - |p|];
          assert Nothing(a, q[..i - |p|]);
        }
      }
    }
  }

  // --- modules without dependencies ---

  predicate Bare(req: Request) { req.file.Archive? ==> req.file.deplibs == [] }

  predicate AllBare(requests: seq<Request>) { forall req :: req in requests ==> Bare(req) }

  lemma BareAnswers(a: Names, req: Request, r: Option<Found>, n: Names)
    requires Bare(req)
    ensures Answers(a, req, r, n) <==> Places(a, [], Tried(req), r) && Leaves(a, a, r, n)
  {
    hide Places, Nothing, Leaves;
    var names := match req.file case Missing => [] case Plain(p) => [p] case Archive(_, probes) => probes;
    PlacesConcat(a, [], req.Preload(), names, r);
    NoneOf(a, r);
    if req.file.Archive? {
      assert Loads(a, req.file.deplibs, 0, [], a);
    }
    assert r.None? ==> (Leaves(a, a, r, n) <==> n == a) by { NothingLeaves(a, n); }
  }

  lemma NoneOf(a: Names, r: Option<Found>)
    ensures Places(a, [], [], r) <==> r.None?
  {
  }

  lemma NothingLeaves(a: Names, n: Names)
    ensures Leaves(a, a, None, n) <==> n == a
  {
  }

  // Then a call opens the first name that is listed or loads, over all its requests.
  lemma {:induction false} OpensFirst(a: Names, requests: seq<Request>, r: Option<Found>, n: Names)
    requires AllBare(requests)
    ensures Opens(a, requests, r, n) <==> Places(a, [], TriedAll(requests), r) && Leaves(a, a, r, n)
  {
    hide Places, Nothing, Leaves, Answers, Bare, Tried;
    NoneOf(a, r);
    NothingLeaves(a, n);
    NothingLeaves(a, a);
    if requests != [] {
      BareAnswers(a, requests[0], r, n);
      BareAnswers(a, requests[0], None, a);
      PlacesNone(a, Tried(requests[0]));
      var more := if requests[0].GoesOn() then TriedAll(requests[1..]) else [];
      PlacesConcat(a, [], Tried(requests[0]), more, r);
      OpensFirst(a, requests[1..], r, n);
    }
  }

  lemma PlacesNone(a: Names, probes: seq<Probe>)
    ensures Places(a, [], probes, None) <==> Nothing(a, probes)
  {
  }

  // --- dependencies ---

  // What is listed before and behind each of the calls for the dependencies from position
  // `i` on, last one first, and what the calls find.
  ghost predicate Steps(a: Names, deplibs: seq<Attempts>, i: nat, states: seq<Names>, ds: seq<Option<Found>>, n: Names)
  {
    && i + |ds| == |deplibs| && |states| == |ds| + 1 && states[0] == a && states[|ds|] == n
    && forall k :: 0 <= k < |ds| ==> Opens(states[k], deplibs[|deplibs| - 1 - k].requests, ds[k], states[k + 1])
  }

  function EachName(ds: seq<Option<Found>>): seq<seq<string>> {
    seq(|ds|, k requires 0 <= k < |ds| => NameOf(ds[k]))
  }

  function FoundNames(ds: seq<Option<Found>>): seq<string> { Flatten(EachName(ds)) }

  // The dependencies are what each call finds in what the calls before it leave.
  lemma {:induction false} LoadsSteps(a: Names, deplibs: seq<Attempts>, i: nat, deps: seq<string>, n: Names)
    requires i <= |deplibs|
    ensures Loads(a, deplibs, i, deps, n) <==>
      exists states, ds :: Steps(a, deplibs, i, states, ds, n) && deps == FoundNames(ds)
    decreases |deplibs| - i
  {
    hide Opens, Loads, NameOf, FoundNames;
    if i == |deplibs| {
      LoadsNone(a, deplibs, deps, n);
      NoneFound();
      assert Steps(a, deplibs, i, [a], [], a);
    } else {
      hide Steps;
      if Loads(a, deplibs, i, deps, n) {
        var mid, more, d := LastLoaded(a, deplibs, i, deps, n);
        LoadsSteps(a, deplibs, i + 1, more, mid);
        var states, ds :| Steps(a, deplibs, i + 1, states, ds, mid) && more == FoundNames(ds);
        OneFound(ds, d);
        StepMore(a, deplibs, i, states, ds, mid, d, n);
      }
      if states, ds :| Steps(a, deplibs, i, states, ds, n) && deps == FoundNames(ds) {
        StepLess(a, deplibs, i, states, ds, n);
        var k := |ds| - 1;
        LoadsSteps(a, deplibs, i + 1, FoundNames(ds[..k]), states[k]);
        OneFound(ds[..k], ds[k]);
        assert ds == ds[..k] + [ds[k]];
        LoadsNext(a, deplibs, i, FoundNames(ds[..k]), states[k], ds[k], n);
      }
    }
  }

  lemma StepMore(a: Names, deplibs: seq<Attempts>, i: nat, states: seq<Names>, ds: seq<Option<Found>>, mid: Names,
      d: Option<Found>, n: Names)
    requires i < |deplibs| && Steps(a, deplibs, i + 1, states, ds, mid) && Opens(mid, deplibs[i].requests, d, n)
    ensures Steps(a, deplibs, i, states + [n], ds + [d], n)
  {
    hide Opens;
  }

  lemma StepLess(a: Names, deplibs: seq<Attempts>, i: nat, states: seq<Names>, ds: seq<Option<Found>>, n: Names)
    requires i < |deplibs| && Steps(a, deplibs, i, states, ds, n)
    ensures ds != [] && |states| == |ds| + 1
    ensures var k := |ds| - 1;
      Steps(a, deplibs, i + 1, states[..k + 1], ds[..k], states[k]) && Opens(states[k], deplibs[i].requests, ds[k], n)
  {
    hide Opens;
  }

  lemma NoneFound()
    ensures FoundNames([]) == []
  {
  }

  lemma OneFound(ds: seq<Option<Found>>, d: Option<Found>)
    ensures FoundNames(ds + [d]) == FoundNames(ds) + NameOf(d)
  {
    assert EachName(ds + [d]) == EachName(ds) + [NameOf(d)];
    assert (EachName(ds) + [NameOf(d)])[..|ds|] == EachName(ds);
  }

  // The names of modules that are plain files, from position `i` on, last one first.
  function Backwards(probes: seq<Probe>, i: nat): seq<string>
    requires i <= |probes|
  {
    seq(|probes| - i, k requires 0 <= k < |probes| - i => probes[|probes| - 1 - k].filename)
  }

  function NamesFrom(probes: seq<Probe>, i: nat): Names {
    set k | i <= k < |probes| :: probes[k].filename
  }

  // Dependencies that are there are all opened, each of them once.
  lemma {:induction false} LoadsAll(a: Names, deplibs: seq<Attempts>, probes: seq<Probe>, i: nat, deps: seq<string>,
      n: Names)
    requires |probes| == |deplibs| && i <= |deplibs|
    requires forall k :: 0 <= k < |deplibs| ==> probes[k].loads && OnlyPlain(deplibs[k], probes[k])
    ensures Loads(a, deplibs, i, deps, n) <==>
      deps == Backwards(probes, i) && n == a + NamesFrom(probes, i)
    decreases |deplibs| - i
  {
    hide Opens, Loads, OnlyPlain, NameOf;
    if i == |deplibs| {
      LoadsNone(a, deplibs, deps, n);
      assert NamesFrom(probes, i) == {};
    } else {
      var behind := a + NamesFrom(probes, i + 1);
      assert Backwards(probes, i) == Backwards(probes, i + 1) + [probes[i].filename];
      assert behind + {probes[i].filename} == a + NamesFrom(probes, i);
      if Loads(a, deplibs, i, deps, n) {
        var mid, more, d := LastLoaded(a, deplibs, i, deps, n);
        LoadsAll(a, deplibs, probes, i + 1, more, mid);
        OpensPlain(mid, deplibs[i], probes[i], d, n);
      }
      var d := Some(Found(probes[i].filename, []));
      LoadsAll(a, deplibs, probes, i + 1, Backwards(probes, i + 1), behind);
      OpensPlain(behind, deplibs[i], probes[i], d, behind + {probes[i].filename});
      LoadsNext(a, deplibs, i, Backwards(probes, i + 1), behind, d, behind + {probes[i].filename});
      assert NameOf(d) == [probes[i].filename] by { NameOfSome(d.value); }
    }
  }

  lemma LastLoaded(a: Names, deplibs: seq<Attempts>, i: nat, deps: seq<string>, n: Names)
      returns (mid: Names, more: seq<string>, d: Option<Found>)
    requires i < |deplibs| && Loads(a, deplibs, i, deps, n)
    ensures Loads(a, deplibs, i + 1, more, mid) && Opens(mid, deplibs[i].requests, d, n) && deps == more + NameOf(d)
  {
    mid, more, d :| Loads(a, deplibs, i + 1, more, mid)
      && Opens(mid, deplibs[i].requests, d, n) && deps == more + NameOf(d);
  }

  lemma NameOfSome(f: Found)
    ensures NameOf(Some(f)) == [f.name]
  {
  }

  predicate OnlyPlain(attempts: Attempts, probe: Probe) {
    |attempts.requests| == 1 && attempts.requests[0].preload == [] && attempts.requests[0].file == Plain(probe)
  }

  lemma OpensPlain(a: Names, attempts: Attempts, probe: Probe, d: Option<Found>, n: Names)
    requires OnlyPlain(attempts, probe) && probe.loads
    ensures Opens(a, attempts.requests, d, n) ==> NameOf(d) == [probe.filename] && n == a + {probe.filename}
    ensures d == Some(Found(probe.filename, [])) && n == a + {probe.filename} ==> Opens(a, attempts.requests, d, n)
  {
    var requests := attempts.requests;
    OpensFirst(a, requests, d, n);
    assert requests[1..] == [] && TriedAll(requests) == [probe];
    assert [probe][..0] == [] && [probe][0] == probe;
  }

  // So an archive whose module loads is opened with all of them as its dependencies.
  lemma ArchiveOpens(a: Names, req: Request, libs: seq<Probe>, r: Option<Found>, n: Names)
    requires req.preload == [] && req.file.Archive? && req.file.probes != [] && req.file.probes[0].loads
    requires |libs| == |req.file.deplibs|
    requires forall k :: 0 <= k < |libs| ==> libs[k].loads && OnlyPlain(req.file.deplibs[k], libs[k])
    requires forall lib :: lib in libs ==> lib.filename != req.file.probes[0].filename
    requires req.file.probes[0].filename !in a
    ensures Answers(a, req, r, n) <==>
      && r == Some(Found(req.file.probes[0].filename, Backwards(libs, 0)))
      && n == a + NamesFrom(libs, 0) + {req.file.probes[0].filename}
  {
    hide Loads, Opens;
    var deplibs, probes := req.file.deplibs, req.file.probes;
    var mid := a + NamesFrom(libs, 0);
    var first := Some(Found(probes[0].filename, Backwards(libs, 0)));
    FirstLoads(mid, Backwards(libs, 0), probes, r);
    if Answers(a, req, r, n) {
      var names, deps := LookedUp(a, req, r, n);
      LoadsAll(a, deplibs, libs, 0, deps, names);
    }
    LoadsAll(a, deplibs, libs, 0, Backwards(libs, 0), mid);
    assert Loads(a, deplibs, 0, Backwards(libs, 0), mid);
  }

  lemma FirstLoads(a: Names, deps: seq<string>, probes: seq<Probe>, r: Option<Found>)
    requires probes != [] && probes[0].loads && probes[0].filename !in a
    ensures Places(a, deps, probes, r) <==> r == Some(Found(probes[0].filename, deps))
  {
    assert probes[..0] == [];
    assert forall i :: 0 < i < |probes| ==> probes[0] in probes[..i];
  }

  lemma LookedUp(a: Names, req: Request, r: Option<Found>, n: Names) returns (mid: Names, deps: seq<string>)
    requires Answers(a, req, r, n) && req.preload == [] && req.file.Archive?
    ensures Loads(a, req.file.deplibs, 0, deps, mid) && Places(mid, deps, req.file.probes, r) && Leaves(a, mid, r, n)
  {
    mid, deps :| Loads(a, req.file.deplibs, 0, deps, mid)
      && Places(mid, deps, req.file.probes, r) && Leaves(a, mid, r, n);
  }

  // --- for all modules ---

  // A call that fails leaves what was listed; else all that was listed still is, and the
  // answer, too.
  predicate Frame(a: Names, r: Option<Found>, n: Names) {
    a <= n && (if r.None? then n == a else r.value.name in n)
  }

  lemma {:induction false} AnswersFrame(a: Names, req: Request, r: Option<Found>, n: Names)
    requires Answers(a, req, r, n)
    ensures Frame(a, r, n)
    decreases req, 0
  {
    hide Places, Nothing, Loads;
    if req.file.Archive? && !(r.Some? && Places(a, [], req.Preload(), r) && Leaves(a, a, r, n)) {
      var mid, deps :| Loads(a, req.file.deplibs, 0, deps, mid)
        && Places(mid, deps, req.file.probes, r) && Leaves(a, mid, r, n);
      LoadsFrame(a, req.file.deplibs, 0, deps, mid);
    }
  }

  lemma {:induction false} LoadsFrame(a: Names, deplibs: seq<Attempts>, i: nat, deps: seq<string>, n: Names)
    requires i <= |deplibs| && Loads(a, deplibs, i, deps, n)
    ensures a <= n && forall d :: d in deps ==> d in n
    decreases deplibs, |deplibs| - i
  {
    if i < |deplibs| {
      var mid, more, d := LastLoaded(a, deplibs, i, deps, n);
      LoadsFrame(a, deplibs, i + 1, more, mid);
      OpensFrame(mid, deplibs[i].requests, d, n);
    }
  }

  lemma {:induction false} OpensFrame(a: Names, requests: seq<Request>, r: Option<Found>, n: Names)
    requires Opens(a, requests, r, n)
    ensures Frame(a, r, n)
    decreases requests, 0
  {
    hide Answers;
    if requests != [] {
      if Answers(a, requests[0], r, n) {
        AnswersFrame(a, requests[0], r, n);
      } else {
        OpensFrame(a, requests[1..], r, n);
      }
    }
  }

  // The module that is found has a name that was tried; when none is found, no loader opens
  // any of them.
  predicate IsTried(r: Option<Found>, tried: seq<Probe>) {
    if r == None then forall p :: p in tried ==> !p.loads
    else exists p :: p in tried && p.filename == r.value.name
  }

  lemma {:induction false} OpensTried(a: Names, requests: seq<Request>, r: Option<Found>, n: Names)
    requires Opens(a, requests, r, n)
    ensures IsTried(r, TriedAll(requests))
  {
    hide Answers, Tried;
    if requests != [] {
      if Answers(a, requests[0], r, n) && (r.Some? || !requests[0].GoesOn()) {
        AnswersTried(a, requests[0], r, n);
      } else {
        AnswersTried(a, requests[0], None, a);
        OpensTried(a, requests[1..], r, n);
      }
    }
  }

  lemma AnswersTried(a: Names, req: Request, r: Option<Found>, n: Names)
    requires Answers(a, req, r, n)
    ensures IsTried(r, Tried(req))
  {
    hide Loads, Leaves;
  }
}
