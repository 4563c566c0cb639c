/**
 What comes back of a saved user list: every stored field of every user, in order.
 */
module UserRoundTrip {
  import opened Shared
  import opened TconfigText
  import opened TconfigHeap
  import opened UserFile
  import TconfigReader
  import TconfigWriter
  import RoundTrip = TconfigRoundTrip

  // --- one user, block to block ---

  lemma LeafLookup(t: Slot, x: Option<string>, s: Slot)
    requires t != Other && s != Other
    ensures Lookup(FieldLeaf((KeyOf(t), x)), KeyOf(s)) == if t == s then x else None
  {
    hide KeyOf, SlotOf;
    SlotKey(KeyOf(t), t);
    SlotKey(KeyOf(t), s);
  }

  // The field that goes with a key; there is none for `realname`.
  function FieldOf(u: Account, s: Slot): Option<string> {
    match s
    case Nick => u.nick
    case Passhash => u.passhash
    case HashType => u.hashType
    case Ident => u.ident
    case Console => u.console
    case Realname => None
    case Host => u.host
    case Uhost => u.uhost
    case Flags => u.flags
    case Other => None
  }

  lemma NamesLookup(u: Account, s: Slot)
    requires s != Other
    ensures Lookup(Names(u), KeyOf(s)) == if s in {Nick, Ident, Host, Console} then FieldOf(u, s) else None
  {
    hide Lookup, FieldLeaf;
    var a, b, c, d := FieldLeaf((KeyOf(Nick), u.nick)), FieldLeaf((KeyOf(Ident), u.ident)),
                      FieldLeaf((KeyOf(Host), u.host)), FieldLeaf((KeyOf(Console), u.console));
    LookupConcat(a + b + c, d, KeyOf(s));
    LookupConcat(a + b, c, KeyOf(s));
    LookupConcat(a, b, KeyOf(s));
    LeafLookup(Nick, u.nick, s);
    LeafLookup(Ident, u.ident, s);
    LeafLookup(Host, u.host, s);
    LeafLookup(Console, u.console, s);
  }

  lemma FieldsLookup(u: Account, s: Slot)
    requires s != Other
    ensures Lookup(SevenFields(u), KeyOf(s)) == if s == Flags then None else FieldOf(u, s)
  {
    hide Lookup, FieldLeaf, Names;
    var n, a, b, c := Names(u), FieldLeaf((KeyOf(Uhost), u.uhost)), FieldLeaf((KeyOf(Passhash), u.passhash)),
                      FieldLeaf((KeyOf(HashType), u.hashType));
    NamesLookup(u, s);
    LookupConcat(n + a + b, c, KeyOf(s));
    LookupConcat(n + a, b, KeyOf(s));
    LookupConcat(n, a, KeyOf(s));
    LeafLookup(Uhost, u.uhost, s);
    LeafLookup(Passhash, u.passhash, s);
    LeafLookup(HashType, u.hashType, s);
  }

  lemma KidsLookup(u: Account, s: Slot)
    requires s != Other && u.flags.Some?
    ensures Lookup(Kids(u), KeyOf(s)) == FieldOf(u, s)
  {
    hide Lookup, SevenFields;
    FieldsLookup(u, s);
    var last := FieldLeaf((KeyOf(Flags), u.flags));
    LookupConcat(SevenFields(u), last, KeyOf(s));
    LeafLookup(Flags, u.flags, s);
  }

  // --- the children of a saved user ---

  // The order in which the fields are saved.
  function Rank(s: Slot): nat {
    match s
    case Nick => 0
    case Ident => 1
    case Host => 2
    case Console => 3
    case Uhost => 4
    case Passhash => 5
    case HashType => 6
    case Flags => 7
    case Realname => 8
    case Other => 9
  }

  function RankOf(t: Tree): nat { if t.entry.Pair? then Rank(SlotOf(t.entry.key)) else 10 }

  // Leaves in that order, from `lo` to below `hi`, printable if they are to be.
  predicate Ranked(f: seq<Tree>, lo: nat, hi: nat, ok: bool) {
    && (forall i :: 0 <= i < |f| ==> lo <= RankOf(f[i]) < hi && f[i].entry.Pair? && f[i].kids == [])
    && (forall i :: 0 <= i < |f| ==> (ok ==> RoundTrip.EntryOk(f[i].entry)))
    && (forall i, j :: 0 <= i < j < |f| ==> RankOf(f[i]) < RankOf(f[j]))
  }

  predicate FieldOk(x: Option<string>) { x.Some? ==> RoundTrip.ValueOk(x.value) }

  lemma RankedLeaf(s: Slot, x: Option<string>, ok: bool)
    requires s != Other && (ok ==> FieldOk(x))
    ensures Ranked(FieldLeaf((KeyOf(s), x)), Rank(s), Rank(s) + 1, ok)
  {
    hide KeyOf, SlotOf, Rank, RoundTrip.KeyOk, RoundTrip.ValueOk;
    SlotKey(KeyOf(s), s);
    KeyPrintable(s);
  }

  lemma KeyPrintable(s: Slot)
    requires s != Other
    ensures RoundTrip.KeyOk(KeyOf(s))
  {
    hide RoundTrip.QuotedOk;
    var k := KeyOf(s);
    forall c | c in k ensures c !in KEY_STOP {
      PlainKey(s, c);
    }
    assert k[0] in {'n', 'p', 'h', 'i', 'c', 'r', 'u', 'f'};
  }

  lemma PlainKey(s: Slot, c: char)
    requires s != Other && c in KeyOf(s)
    ensures c != NUL && c != ' ' && c != '\t'
  {
  }

  lemma RankedConcat(a: seq<Tree>, b: seq<Tree>, lo: nat, mid: nat, hi: nat, ok: bool)
    requires Ranked(a, lo, mid, ok) && Ranked(b, mid, hi, ok) && lo <= mid <= hi
    ensures Ranked(a + b, lo, hi, ok)
  {
    hide RankOf, RoundTrip.EntryOk;
  }

  predicate FieldsOk(u: Account) {
    FieldOk(u.nick) && FieldOk(u.ident) && FieldOk(u.host) && FieldOk(u.console) && FieldOk(u.uhost)
    && FieldOk(u.passhash) && FieldOk(u.hashType) && FieldOk(u.flags)
  }

  lemma RankedNames(u: Account, ok: bool)
    requires ok ==> FieldsOk(u)
    ensures Ranked(Names(u), 0, 4, ok)
  {
    hide FieldLeaf, Ranked, FieldOk;
    var a, b, c, d := FieldLeaf((KeyOf(Nick), u.nick)), FieldLeaf((KeyOf(Ident), u.ident)),
                      FieldLeaf((KeyOf(Host), u.host)), FieldLeaf((KeyOf(Console), u.console));
    RankedLeaf(Nick, u.nick, ok);
    RankedLeaf(Ident, u.ident, ok);
    RankedLeaf(Host, u.host, ok);
    RankedLeaf(Console, u.console, ok);
    RankedConcat(a, b, 0, 1, 2, ok);
    RankedConcat(a + b, c, 0, 2, 3, ok);
    RankedConcat(a + b + c, d, 0, 3, 4, ok);
  }

  lemma RankedFields(u: Account, ok: bool)
    requires ok ==> FieldsOk(u)
    ensures Ranked(SevenFields(u), 0, 7, ok)
  {
    hide FieldLeaf, Ranked, FieldOk, Names;
    var n, a, b, c := Names(u), FieldLeaf((KeyOf(Uhost), u.uhost)), FieldLeaf((KeyOf(Passhash), u.passhash)),
                      FieldLeaf((KeyOf(HashType), u.hashType));
    RankedNames(u, ok);
    RankedLeaf(Uhost, u.uhost, ok);
    RankedLeaf(Passhash, u.passhash, ok);
    RankedLeaf(HashType, u.hashType, ok);
    RankedConcat(n, a, 0, 4, 5, ok);
    RankedConcat(n + a, b, 0, 5, 6, ok);
    RankedConcat(n + a + b, c, 0, 6, 7, ok);
  }

  lemma RankedKids(u: Account, ok: bool)
    requires u.flags.Some? && (ok ==> FieldsOk(u))
    ensures Ranked(Kids(u), 0, 8, ok)
  {
    hide Ranked, FieldOk, SevenFields;
    var last := FieldLeaf((KeyOf(Flags), u.flags));
    RankedFields(u, ok);
    RankedLeaf(Flags, u.flags, ok);
    RankedConcat(SevenFields(u), last, 0, 7, 8, ok);
  }

  lemma RankedFilled(f: seq<Tree>, lo: nat, hi: nat)
    requires Ranked(f, lo, hi, false)
    ensures Filled(f)
  {
    assert Filled([]);
  }

  // Saving leaves a blank block, which the writer cannot print, exactly for a user with some
  // field but without flags.
  lemma FilledIff(u: Account)
    ensures Filled(Kids(u)) <==> Empty(u) || u.flags.Some?
  {
    hide SevenFields;
    if u.flags.Some? {
      RankedKids(u, false);
      RankedFilled(Kids(u), 0, 8);
    } else if !Empty(u) {
      var k := Kids(u);
      assert k[|k| - 1].entry == Blank;
    }
  }

  // A user whose blocks can be printed is restored exactly, but for the real name, unless
  // console flags are all it has.
  lemma RestoredIff(u: Account)
    requires Filled(Kids(u))
    ensures Restored(UserTree(u)) == Some(u.(realname := None)) <==> !(Empty(u) && u.console.Some?)
  {
    hide Lookup, Kids;
    FilledIff(u);
    if u.flags.Some? {
      KidsLookup(u, Nick);
      KidsLookup(u, Ident);
      KidsLookup(u, Host);
      KidsLookup(u, Console);
      KidsLookup(u, Uhost);
      KidsLookup(u, Passhash);
      KidsLookup(u, HashType);
      KidsLookup(u, Flags);
      KidsLookup(u, Realname);
    } else {
      EmptyKids(u);
    }
  }

  lemma EmptyKids(u: Account)
    requires Empty(u)
    ensures Kids(u) == [] && forall key :: Lookup([], key) == None
  {
  }

  // --- the whole list through the file ---

  // What a user must be like to be stored: blocks and fields that can be printed.
  predicate Storable(u: Account) {
    (Empty(u) || u.flags.Some?) && RoundTrip.ValueOk(u.username) && FieldsOk(u)
  }

  // What comes back: no real name, and no console flags if they are all the user has.
  function Kept(u: Account): Account {
    u.(realname := None, console := if Empty(u) then None else u.console)
  }

  predicate DistinctNames(us: seq<Account>) {
    forall i, j :: 0 <= i < j < |us| ==> us[i].username != us[j].username
  }

  lemma KidsPrintable(u: Account)
    requires Storable(u)
    ensures RoundTrip.Printable(Kids(u))
  {
    hide Kids, RankOf, RoundTrip.EntryOk;
    if Empty(u) {
      EmptyKids(u);
      return;
    }
    RankedKids(u, true);
    var k := Kids(u);
    forall i, j | 0 <= i < j < |k| ensures k[i].entry != k[j].entry {
      SameRank(k[i], k[j]);
    }
    assert RoundTrip.Printable([]);
  }

  lemma SameRank(a: Tree, b: Tree)
    ensures a.entry == b.entry ==> RankOf(a) == RankOf(b)
  {
  }

  lemma ForestPrintable(us: seq<Account>)
    requires DistinctNames(us) && forall i :: 0 <= i < |us| ==> Storable(us[i])
    ensures RoundTrip.Printable(UserForest(us))
  {
    hide Kids, Storable, RoundTrip.EntryOk, RoundTrip.Printable;
    var f := UserForest(us);
    forall i | 0 <= i < |f| ensures RoundTrip.EntryOk(f[i].entry) && RoundTrip.Printable(f[i].kids) {
      KidsPrintable(us[i]);
      UserPrintable(us[i]);
    }
    PrintableIntro(f);
  }

  lemma PrintableIntro(f: seq<Tree>)
    requires RoundTrip.DistinctEntries(f)
    requires forall i :: 0 <= i < |f| ==> RoundTrip.EntryOk(f[i].entry) && RoundTrip.Printable(f[i].kids)
    ensures RoundTrip.Printable(f)
  {
  }

  lemma UserPrintable(u: Account)
    requires Storable(u)
    ensures RoundTrip.EntryOk(UserTree(u).entry)
  {
    hide RoundTrip.ValueOk, RoundTrip.QuotedOk;
    assert "user" == ['u', 's', 'e', 'r'];
  }

  function Stored(us: seq<Account>): (r: seq<Account>)
    ensures |r| == |us| && forall i :: 0 <= i < |us| ==> r[i] == Kept(us[i])
  {
    if us == [] then [] else Stored(us[..|us| - 1]) + [Kept(us[|us| - 1])]
  }

  // The users among the trees of a forest, in order.
  function Users(f: seq<Tree>): seq<Account> {
    if f == [] then []
    else Users(f[..|f| - 1]) + (if Restored(f[|f| - 1]).Some? then [Restored(f[|f| - 1]).value] else [])
  }

  lemma {:induction false} UsersRestored(us: seq<Account>)
    requires forall i :: 0 <= i < |us| ==> Storable(us[i])
    ensures Users(UserForest(us)) == Stored(us)
  {
    hide Restored, Storable, UserTree;
    if us != [] {
      var n := |us| - 1;
      UsersRestored(us[..n]);
      assert UserForest(us)[..n] == UserForest(us[..n]);
      StorableRestored(us[n]);
    }
  }

  lemma StorableRestored(u: Account)
    requires Storable(u)
    ensures Restored(UserTree(u)) == Some(Kept(u))
  {
    hide Restored, Kids;
    FilledIff(u);
    if Empty(u) {
      EmptyKids(u);
      FilledIff(u.(console := None));
      RestoredIff(u.(console := None));
      EmptyKids(u.(console := None));
    } else {
      RestoredIff(u);
    }
  }

  // The loop of user_init over the blocks that were read.
  method LoadUsers(head: Block?, ghost m: Memory, ghost shape: seq<Shape>) returns (users: seq<Account>)
    requires Current(m) && Linked(m, shape, null) && head == First(shape) && Filled(Forest(shape))
    ensures users == Users(Forest(shape))
  {
    hide Linked, Forest, Filled, Current, Restored;
    users := [];
    var tmp := head;
    ghost var i := 0;
    assert Forest(shape)[..0] == [];
    while tmp != null
      invariant i <= |shape| && tmp == (if i < |shape| then shape[i].block else null)
      invariant users == Users(Forest(shape)[..i])
      decreases |shape| - i
    {
      BlockRead(m, shape, i, null);
      BlockNow(m, tmp);
      assert Forest(shape)[..i + 1][..i] == Forest(shape)[..i];
      NotAUser(Forest(shape)[i]);
      if tmp.key.value == "user" {
        var user := NewUserFromBlock(tmp, m, shape, i, null);
        if user != null {
          users := users + [user.Now()];
        }
      }
      tmp, i := tmp.next, i + 1;
    }
    assert Forest(shape)[..i] == Forest(shape);
  }

  lemma NotAUser(t: Tree)
    ensures t.entry.Pair? && t.entry.key != "user" ==> Restored(t) == None
  {
  }

  // users_save, then user_init on what was written: the same users in order, without real
  // names, and without console flags for those that have nothing else.
  method SaveAndLoad(users: seq<Account>) returns (loaded: seq<Account>)
    requires users != [] && DistinctNames(users) && forall i :: 0 <= i < |users| ==> Storable(users[i])
    ensures loaded == Stored(users)
    ensures (forall i :: 0 <= i < |users| ==> !(Empty(users[i]) && users[i].console.Some?)) ==>
      forall i :: 0 <= i < |users| ==> loaded[i] == users[i].(realname := None)
  {
    hide Blocks, Apart, Linked, Parse, Print, Storable, DistinctNames, UserTree;
    hide RoundTrip.Printable, Filled;
    ForestPrintable(users);
    ghost var f := UserForest(users);
    RoundTrip.RoundTrip(f);
    var head; ghost var m, shape;
    head, m, shape := UsersToTconfig(users);
    var out := new TconfigWriter.Output();
    TconfigWriter.TconfigToFile(head, out, m, shape);
    assert "" + Print(f, 0) == Print(f, 0);
    var r;
    r, head, m, shape := TconfigReader.FileToTconfig(out.text);
    loaded := LoadUsers(head, m, shape);
    UsersRestored(users);
  }

  // An empty file reads as one blank block, which has no key for the loop to look at.
  lemma EmptyFileBlank()
    ensures Parse("", 0, START) == Done([Tree(Blank, [])]) && !Filled([Tree(Blank, [])])
  {
    assert [Tree(Blank, [])][0].entry == Blank;
  }
}
