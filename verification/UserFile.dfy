/**
 The user file (src/user.c on top of src/tconfig.c): saving a list of users as linked
 blocks, and making users of the blocks read back.
 */
module UserFile {
  import opened Shared
  import opened TconfigText
  import opened TconfigHeap
  import opened TconfigEdit
  import TconfigReader

  datatype Account = Account(username: string, nick: Option<string>, ident: Option<string>, host: Option<string>,
                             console: Option<string>, uhost: Option<string>, passhash: Option<string>,
                             hashType: Option<string>, flags: Option<string>, realname: Option<string>)

  // --- what is saved ---

  type Field = (string, Option<string>)

  // A field that is there is a leaf.
  function FieldLeaf(f: Field): seq<Tree> {
    if f.1.Some? then [Tree(Pair(f.0, f.1.value), [])] else []
  }

  function Names(u: Account): seq<Tree> {
    FieldLeaf(("nick", u.nick)) + FieldLeaf(("ident", u.ident)) + FieldLeaf(("host", u.host))
    + FieldLeaf(("console", u.console))
  }

  function SevenFields(u: Account): seq<Tree> {
    Names(u) + FieldLeaf(("uhost", u.uhost)) + FieldLeaf(("passhash", u.passhash))
    + FieldLeaf(("hash_type", u.hashType))
  }

  // The test for a user without fields does not look at `console`.
  predicate Empty(u: Account) {
    && u.nick.None? && u.ident.None? && u.host.None? && u.uhost.None? && u.passhash.None?
    && u.hashType.None? && u.flags.None?
  }

  // The last child is for the flags; without flags it stays blank.
  function Kids(u: Account): seq<Tree> {
    if Empty(u) then []
    else SevenFields(u) + [Tree(if u.flags.Some? then Pair("flags", u.flags.value) else Blank, [])]
  }

  function UserTree(u: Account): Tree { Tree(Pair("user", u.username), Kids(u)) }

  function UserForest(us: seq<Account>): (f: seq<Tree>)
    ensures |f| == |us| && forall i :: 0 <= i < |us| ==> f[i] == UserTree(us[i])
  {
    if us == [] then [] else UserForest(us[..|us| - 1]) + [UserTree(us[|us| - 1])]
  }

  function Leaf(key: string, value: string): Tree { Tree(Pair(key, value), []) }

  // The block of a user with all fields.
  lemma AllFields(u: Account, v: seq<string>)
    requires |v| == 8 && u.nick == Some(v[0]) && u.ident == Some(v[1]) && u.host == Some(v[2])
    requires u.console == Some(v[3]) && u.uhost == Some(v[4]) && u.passhash == Some(v[5])
    requires u.hashType == Some(v[6]) && u.flags == Some(v[7])
    ensures UserForest([u]) == [Tree(Pair("user", u.username), [
      Leaf("nick", v[0]), Leaf("ident", v[1]), Leaf("host", v[2]), Leaf("console", v[3]),
      Leaf("uhost", v[4]), Leaf("passhash", v[5]), Leaf("hash_type", v[6]), Leaf("flags", v[7])])]
  {
    assert UserForest([u]) == [UserTree(u)];
    assert Kids(u) == [
      Leaf("nick", v[0]), Leaf("ident", v[1]), Leaf("host", v[2]), Leaf("console", v[3]),
      Leaf("uhost", v[4]), Leaf("passhash", v[5]), Leaf("hash_type", v[6]), Leaf("flags", v[7])];
  }

  // --- saving ---

  // The cursor on a blank leaf behind `done`.
  function OnBlank(done: seq<Tree>, up: Context): Cursor {
    Cursor(done + [Tree(Blank, [])], |done|, up)
  }

  function OnLast(done: seq<Tree>, t: Tree, up: Context): Cursor {
    Cursor(done + [t], |done|, up)
  }

  lemma Moves(done: seq<Tree>, t: Tree, e: Entry, up: Context)
    ensures LastEntry(OnBlank(done, up), e) == OnLast(done, Tree(e, []), up)
    ensures OnBlank(done, up) == OnLast(done, Tree(Blank, []), up)
    ensures Longer(OnLast(done, t, up), Blank) == OnBlank(done + [t], up)
  {
  }

  // A field that is there goes into the blank last block, and a new blank block behind it.
  method PutField(tcfg: Block, f: Field, ghost m: Memory, ghost z: Spot,
                  ghost done: seq<Tree>, ghost up: Context)
    returns (b: Block, ghost m': Memory, ghost z': Spot)
    requires Current(m) && Valid(m, z) && tcfg == z.Here()
    requires CursorOf(z) == OnBlank(done, up)
    modifies m.Keys
    ensures Current(m') && Valid(m', z') && b == z'.Here() && z'.up == z.up
    ensures m.Keys <= m'.Keys && fresh(m'.Keys - m.Keys)
    ensures CursorOf(z') == OnBlank(done + FieldLeaf(f), up)
  {
    if f.1.None? {
      assert done + [] == done;
      return tcfg, m, z;
    }
    LastIs(z, done, up);
    b, m', z' := AddField(tcfg, f.0, f.1.value, m, z, done, up);
  }

  lemma LastIs(z: Spot, done: seq<Tree>, up: Context)
    requires ApartSpot(z) && CursorOf(z) == OnBlank(done, up)
    ensures z.at == |z.level| - 1 == |done| && z.level[z.at].entry == Blank && z.level[z.at].kids == []
  {
    assert (done + [Tree(Blank, [])])[|done|] == Tree(Blank, []);
  }

  method AddField(tcfg: Block, key: string, value: string, ghost m: Memory, ghost z: Spot,
                  ghost done: seq<Tree>, ghost up: Context)
    returns (b: Block, ghost m': Memory, ghost z': Spot)
    requires Current(m) && Valid(m, z) && tcfg == z.Here()
    requires z.at == |z.level| - 1 && z.level[z.at].entry == Blank
    requires CursorOf(z) == OnBlank(done, up)
    modifies m.Keys
    ensures Current(m') && Valid(m', z') && b == z'.Here() && z'.up == z.up
    ensures m.Keys <= m'.Keys && fresh(m'.Keys - m.Keys)
    ensures CursorOf(z') == OnBlank(done + [Tree(Pair(key, value), [])], up)
  {
    hide Blocks, Valid, ApartSpot, CursorOf, LastEntry, Longer, OnBlank, OnLast, ContextOf;
    Moves(done, Tree(Pair(key, value), []), Pair(key, value), up);
    m', z' := SetStrings(tcfg, key, value, m, z);
    b, m', z' := LinkBlank(tcfg, m', z');
  }

  // Gives the blank last block its strings.
  method SetStrings(tcfg: Block, key: string, value: string, ghost m: Memory, ghost z: Spot)
    returns (ghost m': Memory, ghost z': Spot)
    requires Current(m) && Valid(m, z) && tcfg == z.Here()
    requires z.at == |z.level| - 1 && z.level[z.at].entry == Blank
    modifies m.Keys
    ensures Current(m') && Valid(m', z') && tcfg == z'.Here() && z'.up == z.up && m'.Keys == m.Keys
    ensures z'.at == |z'.level| - 1 && z'.level[z'.at].entry == Pair(key, value)
    ensures z'.level[z'.at].kids == z.level[z.at].kids
    ensures CursorOf(z') == LastEntry(CursorOf(z), Pair(key, value))
  {
    hide Blocks, Valid, ApartSpot, CursorOf, TopBlock, Forest, LastEntry, ContextOf;
    FilledStep(m, z, key, value);
    tcfg.key := Some(key);
    tcfg.value := Some(value);
    m', z' := WithPair(m, tcfg, key, value), FilledSpot(z, key, value);
  }

  // A new blank block behind the last one.
  method LinkBlank(tcfg: Block, ghost m: Memory, ghost z: Spot)
    returns (b: Block, ghost m': Memory, ghost z': Spot)
    requires Current(m) && Valid(m, z) && tcfg == z.Here() && z.at == |z.level| - 1
    modifies m.Keys
    ensures Current(m') && Valid(m', z') && b == z'.Here() && z'.up == z.up
    ensures m.Keys <= m'.Keys && fresh(m'.Keys - m.Keys)
    ensures z'.at == |z'.level| - 1 && z'.level[z'.at].entry == Blank && z'.level[z'.at].kids == []
    ensures CursorOf(z') == Longer(CursorOf(z), Blank)
  {
    hide Blocks, Valid, ApartSpot, CursorOf, TopBlock, Forest, Longer, ContextOf;
    b := new Block();
    AppendStep(m, z, b, Blank);
    tcfg.next := b;
    b.prev := tcfg;
    m', z' := WithNext(m, tcfg, b, Blank), AppendSpot(z, b, Blank);
  }

  // The cursor's tree with these children.
  function WithKids(c: Cursor, kids: seq<Tree>): Cursor
    requires c.at < |c.level|
  {
    c.(level := c.level[c.at := c.level[c.at].(kids := kids)])
  }

  // A first child, blank, for a block without children.
  method FirstChild(tcfg: Block, ghost m: Memory, ghost z: Spot) returns (b: Block, ghost m': Memory, ghost z': Spot)
    requires Current(m) && Valid(m, z) && tcfg == z.Here() && z.level[z.at].kids == []
    modifies m.Keys
    ensures Current(m') && Valid(m', z') && b == z'.Here() && z' == ChildSpot(z, b)
    ensures m.Keys <= m'.Keys && fresh(m'.Keys - m.Keys)
    ensures CursorOf(z') == Open(CursorOf(z))
  {
    hide Blocks, Valid, ApartSpot, TopBlock, CursorOf, Open, ChildSpot, WithChild;
    HereCell(m, z);
    b := new Block();
    ChildStep(m, z, b);
    m', z' := WithChild(m, tcfg, b), ChildSpot(z, b);
    tcfg.child := b;
    b.parent := tcfg;
    ChildNow(m, tcfg, b);
    ChildHere(z, b);
  }

  lemma ChildHere(z: Spot, b: Block)
    ensures ChildSpot(z, b).at == 0 && ChildSpot(z, b).level == [Node(b, Blank, [])]
  {
  }

  lemma ChildNow(m: Memory, owner: Block, b: Block)
    requires owner in m && b !in m
    ensures WithChild(m, owner, b) == m[owner := m[owner].(child := b)][b := EMPTY.(parent := owner)]
  {
  }

  // Who the user is: the first four fields.
  method PutNames(first: Block, u: Account, ghost m: Memory, ghost z: Spot, ghost up: Context)
    returns (child: Block, ghost m': Memory, ghost z': Spot)
    requires Current(m) && Valid(m, z) && first == z.Here() && CursorOf(z) == OnBlank([], up)
    modifies m.Keys
    ensures Current(m') && Valid(m', z') && child == z'.Here() && z'.up == z.up
    ensures m.Keys <= m'.Keys && fresh(m'.Keys - m.Keys)
    ensures CursorOf(z') == OnBlank(Names(u), up)
  {
    hide Blocks, Valid, ApartSpot, CursorOf, OnBlank, FieldLeaf;
    child, m', z' := PutTwo(first, ("nick", u.nick), ("ident", u.ident), m, z, [], up);
    ghost var d := FieldLeaf(("nick", u.nick)) + FieldLeaf(("ident", u.ident));
    assert [] + FieldLeaf(("nick", u.nick)) + FieldLeaf(("ident", u.ident)) == d;
    child, m', z' := PutTwo(child, ("host", u.host), ("console", u.console), m', z', d, up);
  }

  method PutTwo(tcfg: Block, f: Field, g: Field, ghost m: Memory, ghost z: Spot, ghost done: seq<Tree>,
      ghost up: Context)
    returns (b: Block, ghost m': Memory, ghost z': Spot)
    requires Current(m) && Valid(m, z) && tcfg == z.Here()
    requires CursorOf(z) == OnBlank(done, up)
    modifies m.Keys
    ensures Current(m') && Valid(m', z') && b == z'.Here() && z'.up == z.up
    ensures m.Keys <= m'.Keys && fresh(m'.Keys - m.Keys)
    ensures CursorOf(z') == OnBlank(done + FieldLeaf(f) + FieldLeaf(g), up)
  {
    hide Blocks, Valid, ApartSpot, CursorOf, OnBlank, FieldLeaf;
    b, m', z' := PutField(tcfg, f, m, z, done, up);
    b, m', z' := PutField(b, g, m', z', done + FieldLeaf(f), up);
  }

  // And the next three.
  method PutLogin(first: Block, u: Account, ghost m: Memory, ghost z: Spot, ghost up: Context)
    returns (child: Block, ghost m': Memory, ghost z': Spot)
    requires Current(m) && Valid(m, z) && first == z.Here() && CursorOf(z) == OnBlank(Names(u), up)
    modifies m.Keys
    ensures Current(m') && Valid(m', z') && child == z'.Here() && z'.up == z.up
    ensures m.Keys <= m'.Keys && fresh(m'.Keys - m.Keys)
    ensures CursorOf(z') == OnBlank(SevenFields(u), up)
  {
    hide Blocks, Valid, ApartSpot, CursorOf, OnBlank, FieldLeaf, Names;
    ghost var d := Names(u);
    child, m', z' := PutField(first, ("uhost", u.uhost), m, z, d, up);
    d := d + FieldLeaf(("uhost", u.uhost));
    child, m', z' := PutField(child, ("passhash", u.passhash), m', z', d, up);
    d := d + FieldLeaf(("passhash", u.passhash));
    child, m', z' := PutField(child, ("hash_type", u.hashType), m', z', d, up);
  }

  // The child list of a saved user, and back to its owner.
  method PutKids(tcfg: Block, u: Account, ghost m: Memory, ghost z: Spot)
    returns (ghost m': Memory, ghost z': Spot)
    requires Current(m) && Valid(m, z) && tcfg == z.Here() && z.at == |z.level| - 1 && z.level[z.at].kids == []
    requires !Empty(u)
    modifies m.Keys
    ensures Current(m') && Valid(m', z') && tcfg == z'.Here() && z'.up == z.up && z'.at == |z'.level| - 1
    ensures m.Keys <= m'.Keys && fresh(m'.Keys - m.Keys)
    ensures CursorOf(z') == WithKids(CursorOf(z), Kids(u))
  {
    hide Blocks, Valid, ApartSpot, CursorOf, OnBlank, WithKids, LastEntry, OnLast, SevenFields;
    hide Names;
    var child;
    child, m', z' := FirstChild(tcfg, m, z);
    ghost var up := Open(CursorOf(z)).up;
    KidlessCursor(z);
    OpenBlank(CursorOf(z));
    child, m', z' := PutNames(child, u, m', z', up);
    child, m', z' := PutLogin(child, u, m', z', up);
    LastIs(z', SevenFields(u), up);
    if u.flags.Some? {
      Moves(SevenFields(u), Tree(Blank, []), Pair("flags", u.flags.value), up);
      m', z' := SetStrings(child, "flags", u.flags.value, m', z');
    } else {
      Moves(SevenFields(u), Tree(Blank, []), Blank, up);
    }
    KidsDone(u, m', z, z');
    z' := Up(z');
  }

  lemma OpenBlank(c: Cursor)
    requires c.Valid() && c.level[c.at].kids == []
    ensures Open(c) == OnBlank([], Open(c).up)
  {
    assert [] + [Tree(Blank, [])] == [Tree(Blank, [])];
  }

  lemma KidlessCursor(z: Spot)
    requires ApartSpot(z) && z.level[z.at].kids == []
    ensures CursorOf(z).level[CursorOf(z).at].kids == []
  {
  }

  // Back from the child list to the owner.
  lemma KidsDone(u: Account, m: Memory, z: Spot, z': Spot)
    requires ApartSpot(z) && Valid(m, z') && !Empty(u) && z.level[z.at].kids == []
    requires z'.up == Below(z.level, z.at, z.up)
    requires CursorOf(z') == OnLast(SevenFields(u),
        Tree(if u.flags.Some? then Pair("flags", u.flags.value) else Blank, []),
                                    Open(CursorOf(z)).up)
    ensures Inside(z') && Valid(m, Up(z')) && Up(z').Here() == z.Here() && Up(z').up == z.up && Up(z').at == z.at
    ensures |Up(z').level| == |z.level|
    ensures CursorOf(Up(z')) == WithKids(CursorOf(z), Kids(u))
  {
    hide Blocks, Apart, LinkedSpot, SevenFields;
    KidlessCursor(z);
    Turn(m, z');
  }

  // One user more: a block behind the others, with the name and the children.
  method NextUser(tcfg: Block?, u: Account, ghost m: Memory, ghost z: Spot, ghost f: seq<Tree>)
    returns (b: Block, ghost m': Memory, ghost z': Spot)
    requires tcfg == null ==> m == map[] && f == []
    requires tcfg != null ==> Current(m) && Valid(m, z) && tcfg == z.Here() && z.up.Outer? && z.at == |z.level| - 1
    requires tcfg != null ==> f != [] && CursorOf(z) == Cursor(f, |f| - 1, Top)
    modifies m.Keys
    ensures Current(m') && Valid(m', z') && b == z'.Here() && z'.up.Outer? && z'.at == |z'.level| - 1
    ensures m.Keys <= m'.Keys && fresh(m'.Keys - m.Keys)
    ensures CursorOf(z') == OnLast(f, UserTree(u), Top)
  {
    hide Blocks, Valid, ApartSpot, CursorOf, LastEntry, Longer, WithKids, UserTree, Kids, OnLast;
    hide OnBlank;
    if tcfg == null {
      b := new Block();
      m', z' := map[b := EMPTY], Spot([Node(b, Blank, [])], 0, Outer);
      TconfigReader.StartValid(b);
    } else {
      b, m', z' := LinkBlank(tcfg, m, z);
    }
    UserMoves(f, u);
    m', z' := SetStrings(b, "user", u.username, m', z');
    if !Empty(u) {
      m', z' := PutKids(b, u, m', z');
    }
  }

  lemma UserMoves(f: seq<Tree>, u: Account)
    ensures f == [] ==> START == OnBlank(f, Top)
    ensures f != [] ==> Longer(Cursor(f, |f| - 1, Top), Blank) == OnBlank(f, Top)
    ensures var named := LastEntry(OnBlank(f, Top), Pair("user", u.username));
      && named.at < |named.level|
      && (Empty(u) ==> named == OnLast(f, UserTree(u), Top))
      && (!Empty(u) ==> WithKids(named, Kids(u)) == OnLast(f, UserTree(u), Top))
  {
    hide SevenFields;
    Moves(f, Tree(Blank, []), Pair("user", u.username), Top);
    if f == [] {
      assert f + [Tree(Blank, [])] == [Tree(Blank, [])];
    }
  }

  // users_to_tconfig
  method UsersToTconfig(users: seq<Account>) returns (head: Block?, ghost m: Memory, ghost shape: seq<Shape>)
    ensures Current(m) && fresh(m.Keys) && Apart(shape) && Linked(m, shape, null) && head == First(shape)
    ensures Forest(shape) == UserForest(users)
  {
    hide Blocks, Apart, Valid, ApartSpot, CursorOf, UserTree, OnLast, Linked;
    var tcfg: Block? := null;
    ghost var z := Spot([], 0, Outer);
    m := map[];
    var i := 0;
    while i < |users|
      invariant i <= |users| && Current(m) && fresh(m.Keys) && (tcfg == null <==> i == 0) && (i == 0 ==> m == map[])
      invariant tcfg != null ==> Valid(m, z) && tcfg == z.Here() && z.up.Outer? && z.at == |z.level| - 1
      invariant tcfg != null ==> CursorOf(z) == Cursor(UserForest(users[..i]), i - 1, Top)
    {
      LastUser(users, i);
      tcfg, m, z := NextUser(tcfg, users[i], m, z, UserForest(users[..i]));
      i := i + 1;
    }
    assert users[..i] == users;
    if tcfg == null {
      NoBlocks(m);
      return null, m, [];
    }
    head := TconfigReader.Leftmost(tcfg, m, z);
    OuterLevel(m, z);
    return head, m, z.level;
  }

  lemma LastUser(users: seq<Account>, i: nat)
    requires i < |users|
    ensures OnLast(UserForest(users[..i]), UserTree(users[i]), Top) == Cursor(UserForest(users[..i + 1]), i, Top)
  {
    hide UserTree;
    assert users[..i + 1][..i] == users[..i];
  }

  lemma NoBlocks(m: Memory)
    ensures Apart([]) && Linked(m, [], null)
  {
  }

  lemma OuterLevel(m: Memory, z: Spot)
    requires Valid(m, z) && z.up.Outer?
    ensures Apart(z.level) && Linked(m, z.level, null) && CursorOf(z).level == Forest(z.level)
  {
  }

  // --- loading ---

  class User {
    var username: string
    var nick: Option<string>
    var ident: Option<string>
    var host: Option<string>
    var console: Option<string>
    var uhost: Option<string>
    var passhash: Option<string>
    var hashType: Option<string>
    var flags: Option<string>
    var realname: Option<string>

    // new_user with a name only
    constructor (username: string)
      ensures Now() == Account(username, None, None, None, None, None, None, None, None, None)
    {
      this.username := username;
      nick, ident, host, console, uhost := None, None, None, None, None;
      passhash, hashType, flags, realname := None, None, None, None;
    }

    function Now(): Account
      reads this
    {
      Account(username, nick, ident, host, console, uhost, passhash, hashType, flags, realname)
    }
  }

  // The value of the first child with the key.
  function Lookup(kids: seq<Tree>, key: string): Option<string> {
    if kids == [] then None
    else if kids[0].entry.Pair? && kids[0].entry.key == key then Some(kids[0].entry.value)
    else Lookup(kids[1..], key)
  }

  // The user that a block with these children stands for.
  function AccountOf(name: string, kids: seq<Tree>): Account {
    Account(name, Lookup(kids, "nick"), Lookup(kids, "ident"), Lookup(kids, "host"), Lookup(kids, "console"),
            Lookup(kids, "uhost"), Lookup(kids, "passhash"), Lookup(kids, "hash_type"), Lookup(kids, "flags"),
            Lookup(kids, "realname"))
  }

  function Restored(t: Tree): Option<Account> {
    if t.entry.Pair? && t.entry.key == "user" then Some(AccountOf(t.entry.value, t.kids)) else None
  }

  lemma {:induction false} LookupConcat(a: seq<Tree>, b: seq<Tree>, key: string)
    ensures Lookup(a + b, key) == if Lookup(a, key).Some? then Lookup(a, key) else Lookup(b, key)
  {
    if a == [] {
      assert a + b == b;
    } else {
      assert (a + b)[1..] == a[1..] + b;
      LookupConcat(a[1..], b, key);
    }
  }

  lemma LookupNext(kids: seq<Tree>, i: nat, key: string)
    requires i < |kids| && kids[i].entry.Pair?
    ensures Lookup(kids[..i + 1], key) ==
      if Lookup(kids[..i], key).Some? then Lookup(kids[..i], key)
      else if kids[i].entry.key == key then Some(kids[i].entry.value) else None
  {
    assert kids[..i + 1] == kids[..i] + [kids[i]];
    LookupConcat(kids[..i], [kids[i]], key);
    assert [kids[i]][1..] == [];
  }

  datatype Slot = Nick | Passhash | HashType | Ident | Console | Realname | Host | Uhost | Flags | Other

  // The tests of the loop over the children, in order.
  function SlotOf(k: string): Slot {
    if k == "nick" then Nick else if k == "passhash" then Passhash else if k == "hash_type" then HashType
    else if k == "ident" then Ident else if k == "console" then Console else if k == "realname" then Realname
    else if k == "host" then Host else if k == "uhost" then Uhost else if k == "flags" then Flags else Other
  }

  function KeyOf(slot: Slot): string
    requires slot != Other
  {
    match slot
    case Nick => "nick"
    case Passhash => "passhash"
    case HashType => "hash_type"
    case Ident => "ident"
    case Console => "console"
    case Realname => "realname"
    case Host => "host"
    case Uhost => "uhost"
    case Flags => "flags"
  }

  // The keys are different strings.
  lemma SlotKey(k: string, slot: Slot)
    requires slot != Other
    ensures SlotOf(k) == slot <==> k == KeyOf(slot)
  {
    assert "nick"[0] != "host"[0] && "ident"[0] != "uhost"[0] && "ident"[0] != "flags"[0];
    assert "uhost"[0] != "flags"[0] && "passhash"[0] != "realname"[0];
  }

  // The child's value where its field is still NULL.
  function Taken(was: Option<string>, here: bool, v: string): Option<string> {
    if was.None? && here then Some(v) else was
  }

  function WithChildOf(a: Account, slot: Slot, v: string): Account {
    Account(a.username, Taken(a.nick, slot == Nick, v), Taken(a.ident, slot == Ident, v),
        Taken(a.host, slot == Host, v),
            Taken(a.console, slot == Console, v), Taken(a.uhost, slot == Uhost, v),
                Taken(a.passhash, slot == Passhash, v),
            Taken(a.hashType, slot == HashType, v), Taken(a.flags, slot == Flags, v),
                Taken(a.realname, slot == Realname, v))
  }

  lemma TakenNext(kids: seq<Tree>, i: nat, slot: Slot)
    requires i < |kids| && kids[i].entry.Pair? && slot != Other
    ensures var e := kids[i].entry;
      Lookup(kids[..i + 1], KeyOf(slot)) == Taken(Lookup(kids[..i], KeyOf(slot)), SlotOf(e.key) == slot, e.value)
  {
    hide Lookup, SlotOf, KeyOf;
    LookupNext(kids, i, KeyOf(slot));
    SlotKey(kids[i].entry.key, slot);
  }

  lemma AccountNext(name: string, kids: seq<Tree>, i: nat)
    requires i < |kids| && kids[i].entry.Pair?
    ensures AccountOf(name, kids[..i + 1])
         == WithChildOf(AccountOf(name, kids[..i]), SlotOf(kids[i].entry.key), kids[i].entry.value)
  {
    hide Lookup, SlotOf, Taken;
    TakenNext(kids, i, Nick);
    TakenNext(kids, i, Ident);
    TakenNext(kids, i, Host);
    TakenNext(kids, i, Console);
    TakenNext(kids, i, Uhost);
    TakenNext(kids, i, Passhash);
    TakenNext(kids, i, HashType);
    TakenNext(kids, i, Flags);
    TakenNext(kids, i, Realname);
  }

  // The body of the loop over the children.
  method TakeChild(user: User, k: string, v: string)
    modifies user
    ensures user.Now() == WithChildOf(old(user.Now()), SlotOf(k), v)
  {
    if k == "nick" {
      if user.nick == None { user.nick := Some(v); }
    } else if k == "passhash" {
      if user.passhash == None { user.passhash := Some(v); }
    } else if k == "hash_type" {
      if user.hashType == None { user.hashType := Some(v); }
    } else if k == "ident" {
      if user.ident == None { user.ident := Some(v); }
    } else if k == "console" {
      if user.console == None { user.console := Some(v); }
    } else if k == "realname" {
      if user.realname == None { user.realname := Some(v); }
    } else if k == "host" {
      if user.host == None { user.host := Some(v); }
    } else if k == "uhost" {
      if user.uhost == None { user.uhost := Some(v); }
    } else if k == "flags" {
      if user.flags == None { user.flags := Some(v); }
    }
  }

  // new_user_from_tconfig_block on a block of a forest without blank blocks.
  method NewUserFromBlock(tcfg: Block?, ghost m: Memory, ghost s: seq<Shape>, ghost at: nat, ghost parent: Block?)
    returns (user: User?)
    requires tcfg != null ==> Current(m) && at < |s| && Linked(m, s, parent) && tcfg == s[at].block
    requires tcfg != null ==> Filled(Forest(s))
    ensures tcfg == null ==> user == null
    ensures tcfg != null ==> (user == null <==> Restored(Forest(s)[at]).None?)
    ensures user != null ==> fresh(user) && Some(user.Now()) == Restored(Forest(s)[at])
  {
    if tcfg == null { return null; }
    hide AccountOf, Linked, Forest, Filled, Current;
    BlockRead(m, s, at, parent);
    BlockNow(m, tcfg);
    if tcfg.key.value != "user" { return null; }
    user := new User(tcfg.value.value);
    NoFields(user.username);
    TakeChildren(user, tcfg.child, m, s[at].kids, tcfg, tcfg.value.value);
  }

  // The loop over the children.
  method TakeChildren(user: User, first: Block?, ghost m: Memory, ghost kids: seq<Shape>, ghost owner: Block,
      ghost name: string)
    requires Current(m) && Linked(m, kids, owner) && first == First(kids) && Filled(Forest(kids))
    requires user.Now() == AccountOf(name, [])
    modifies user
    ensures user.Now() == AccountOf(name, Forest(kids))
  {
    hide AccountOf, WithChildOf, Linked, Forest, Filled, SlotOf, Current;
    var child := first;
    ghost var i := 0;
    assert Forest(kids)[..0] == [];
    while child != null
      invariant i <= |kids| && child == (if i < |kids| then kids[i].block else null)
      invariant user.Now() == AccountOf(name, Forest(kids)[..i])
      decreases |kids| - i
    {
      BlockRead(m, kids, i, owner);
      BlockNow(m, child);
      AccountNext(name, Forest(kids), i);
      TakeChild(user, child.key.value, child.value.value);
      child, i := child.next, i + 1;
    }
    assert Forest(kids)[..i] == Forest(kids);
  }

  lemma BlockNow(m: Memory, b: Block)
    requires Current(m) && b in m
    ensures b.Now() == m[b]
  {
  }

  lemma NoFields(name: string)
    ensures AccountOf(name, []) == Account(name, None, None, None, None, None, None, None, None, None)
  {
  }

  // What a block of a linked list without blank blocks holds.
  lemma BlockRead(m: Memory, s: seq<Shape>, i: nat, parent: Block?)
    requires Linked(m, s, parent) && i < |s| && Filled(Forest(s))
    ensures s[i].block in m && Linked(m, s[i].kids, s[i].block) && Filled(Forest(s[i].kids))
    ensures var f, t := m[s[i].block], Forest(s)[i];
      && t.kids == Forest(s[i].kids) && f.key.Some? && f.value.Some? && t.entry == Pair(f.key.value, f.value.value)
      && f.child == First(s[i].kids) && f.next == (if i + 1 < |s| then s[i + 1].block else null)
  {
    assert Forest(s)[i].entry.Pair?;
  }
}
