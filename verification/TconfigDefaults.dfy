/**
 The use of tconfig_merge in src/config_engine.c: a configuration file and a file of
 defaults are read and merged.
 */
module TconfigDefaults {
  import opened TconfigText
  import opened TconfigHeap
  import opened TconfigMerge
  import opened TconfigMergeLaws
  import opened TconfigMergeCount
  import TconfigImage
  import TconfigMerger
  import TconfigReader

  // --- what the reader makes can be merged into ---

  lemma TidyOpen(c: Cursor)
    requires c.Valid() && Tidy(c.level) && TidyContext(c.up)
    ensures Tidy(Open(c).level) && TidyContext(Open(c).up)
  {
    hide Tidy;
    BlankTidy();
    TconfigMerger.EmptyTidy();
    KidIsTidy(c.level, c.at);
    KidsTidy(c.level, c.at, []);
    assert c.level[c.at].kids == [] ==> c.level[c.at := c.level[c.at].(kids := [])] == c.level;
  }

  lemma TidyClose(c: Cursor)
    requires c.Valid() && Tidy(c.level) && TidyContext(c.up) && c.up.Under?
    ensures Tidy(Close(c).level) && TidyContext(Close(c).up)
  {
    hide Tidy;
    KidsTidy(c.up.sibs, c.up.at, c.level);
  }

  lemma TidyEnter(c: Cursor, k: string, v: string)
    requires c.Valid() && Tidy(c.level)
    ensures Tidy(Enter(c, k, v).level) && Enter(c, k, v).up == c.up
  {
    hide Tidy, Find;
    AddedTidy(c.level, Pair(k, v));
  }

  lemma {:induction false} TidyRoot(c: Cursor)
    requires c.Valid() && Tidy(c.level) && TidyContext(c.up)
    ensures Tidy(Root(c))
    decreases c.up
  {
    if c.up.Under? {
      TidyClose(c);
      TidyRoot(Close(c));
    }
  }

  lemma {:induction false} ParseTidy(text: string, i: nat, c: Cursor)
    requires NUL !in text && c.Valid() && Tidy(c.level) && TidyContext(c.up)
    ensures Parse(text, i, c).Done? ==> Tidy(Parse(text, i, c).forest)
    decreases |text| - i
  {
    hide ReadToken, Root, Open, Close, Enter, BlockComment, LineComment, Tidy, TidyContext;
    if i >= |text| {
      TidyRoot(c);
    } else {
      var ch := text[i];
      if ch == '{' {
        TidyOpen(c);
        ParseTidy(text, i + 1, Open(c));
      } else if ch == '}' {
        if c.up.Under? {
          TidyClose(c);
          ParseTidy(text, i + 1, Close(c));
        }
      } else if ch == '/' {
        TidyRoot(c);
        var r := if Char(text, i + 1) == '*' then BlockComment(text, i + 2) else LineComment(text, i + 2);
        if r.At? && r.pos < |text| {
          ParseTidy(text, r.pos + 1, c);
        }
      } else if ch == '\r' {
        ParseTidy(text, if Char(text, i + 1) == '\n' then i + 2 else i + 1, c);
      } else if ch == '\n' || ch == '\t' || ch == ' ' {
        ParseTidy(text, i + 1, c);
      } else {
        var t := ReadToken(text, i);
        if t.Token? {
          TidyEnter(c, t.key, t.value);
          ParseTidy(text, t.end + 1, Enter(c, t.key, t.value));
        }
      }
    }
  }

  // What the reader returns has distinct siblings and blank blocks at the end of lists only.
  lemma ReaderMakes(text: string)
    requires NUL !in text && Parse(text, 0, START).Done?
    ensures Tidy(Parse(text, 0, START).forest) && DistinctAll(Parse(text, 0, START).forest)
  {
    hide Parse, Tidy;
    BlankTidy();
    ParseTidy(text, 0, START);
    TconfigImage.ParseInImage(text, Parse(text, 0, START).forest);
    GoodDistinct(Parse(text, 0, START).forest);
  }

  lemma {:induction false} GoodDistinct(f: seq<Tree>)
    requires TconfigImage.Good(f, TconfigImage.InImage)
    ensures DistinctAll(f)
  {
    forall i | 0 <= i < |f| ensures DistinctAll(f[i].kids) {
      GoodDistinct(f[i].kids);
    }
  }

  // Merging defaults read from a text comes to its end exactly when what it gets to see of
  // them fits: texts without blank blocks and marked keys, whose wildcards stand for no key
  // they add.
  lemma ReaderFits(config: string, defaults: string)
    requires NUL !in config && NUL !in defaults
    requires Parse(config, 0, START).Done? && Parse(defaults, 0, START).Done?
    ensures var f, g := Parse(defaults, 0, START).forest, Parse(config, 0, START).forest;
      Filled(f) && Settled(Reached(f)) && Marks(f) == 0 ==>
        (MergeList(f, g, false).Merged? <==> Fits(Reached(f), g, false))
  {
    hide Parse, MergeList, Settled, Fits;
    var f, g := Parse(defaults, 0, START).forest, Parse(config, 0, START).forest;
    ReaderMakes(defaults);
    if Filled(f) && Settled(Reached(f)) && Marks(f) == 0 {
      ReachedClear(f);
      FitsIff(f, g, false);
    }
  }

  // Then it leaves nothing twice in any list, and the configuration grows by the blocks that
  // it lacked.
  lemma ReaderAdds(config: string, defaults: string)
    requires NUL !in config && NUL !in defaults
    requires Parse(config, 0, START).Done? && Parse(defaults, 0, START).Done?
    ensures var f, g := Parse(defaults, 0, START).forest, Parse(config, 0, START).forest;
      var o, q := MergeList(f, g, false), Reached(f);
      Filled(f) && o.Merged? && Marks(f) == 0 ==>
        && DistinctAll(o.list) && Entries(o.list) == Entries(g) + News(q, |q|, g)
        && (Settled(q) ==> Pairs(o.list) == Pairs(g) + Gain(q, |q|, g))
  {
    hide Parse, MergeList, Settled, Entries, News, Gain, Pairs;
    var f, g := Parse(defaults, 0, START).forest, Parse(config, 0, START).forest;
    ReaderMakes(config);
    ReaderMakes(defaults);
    if Filled(f) && MergeList(f, g, false).Merged? && Marks(f) == 0 {
      MergeDistinct(f, g, false);
      MergeEntries(f, g, false);
      if Settled(Reached(f)) {
        ReachedClear(f);
        MergeGains(f, g, false);
      }
    }
  }

  // --- from file to file ---

  // Both files are read, and the defaults merged into the configuration, whose first block
  // stays what it was.
  method LoadWithDefaults(config: string, defaults: string)
    returns (r: TconfigMerger.Ended, head: Block?, ghost m: Memory, ghost shape: seq<Shape>)
    requires NUL !in config && NUL !in defaults
    requires Parse(config, 0, START).Done? && Parse(defaults, 0, START).Done?
    ensures var o := MergeList(Parse(defaults, 0, START).forest, Parse(config, 0, START).forest, false);
      && r == TconfigMerger.Ends(o)
      && (o.Merged? ==>
           && Current(m) && Apart(shape) && Linked(m, shape, null) && head == First(shape) && Forest(shape) == o.list)
    ensures var f, g := Parse(defaults, 0, START).forest, Parse(config, 0, START).forest;
      Filled(f) && Settled(Reached(f)) && Marks(f) == 0 ==>
        (r == TconfigMerger.Returned <==> Fits(Reached(f), g, false))
    ensures var f, g := Parse(defaults, 0, START).forest, Parse(config, 0, START).forest;
      Filled(f) && Settled(Reached(f)) && Marks(f) == 0 && r == TconfigMerger.Returned ==>
        DistinctAll(Forest(shape)) && Pairs(Forest(shape)) == Pairs(g) + Gain(Reached(f), |Reached(f)|, g)
  {
    ReaderFits(config, defaults);
    ReaderAdds(config, defaults);
    hide Parse, Blocks, Apart, Linked, Valid, MergeList, Tidy, CursorOf, Forest, ApartSpot;
    hide Filled, Settled, Reached, Marks, Fits, DistinctAll, Pairs, Gain, Entries, News;
    var tcfg, src; ghost var ms, c, d;
    var read;
    ReaderMakes(config);
    read, tcfg, m, c := TconfigReader.FileToTconfig(config);
    ghost var was := m.Keys;
    read, src, ms, d := TconfigReader.FileToTconfig(defaults);
    assert Current(m);
    OuterSpot(m, c);
    OuterSpot(ms, d);
    ghost var z;
    r, m, z := TconfigMerger.Merge(src, tcfg, ms, Spot(d, 0, Outer), m, Spot(c, 0, Outer));
    head, shape := tcfg, z.level;
    if r == TconfigMerger.Returned {
      OuterDone(m, z);
    }
  }

  lemma OuterSpot(m: Memory, s: seq<Shape>)
    requires s != [] && Apart(s) && Linked(m, s, null)
    ensures var z := Spot(s, 0, Outer);
      && Valid(m, z) && z.Here() == s[0].block && CursorOf(z) == Cursor(Forest(s), 0, Top)
          && Forest(s)[0..] == Forest(s)
  {
    hide Blocks, Apart, Linked;
    assert PathBlocks(Outer) == {};
  }

  lemma OuterDone(m: Memory, z: Spot)
    requires Valid(m, z) && z.up.Outer?
    ensures Apart(z.level) && Linked(m, z.level, null) && z.level != [] && First(z.level) == z.level[0].block
  {
  }
}
