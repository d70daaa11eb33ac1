/** What an insertion publishes is a run of the reader protocol: every page write is one of its steps. */
module BLinkRuns {
  import opened Options
  import opened KeyOrder
  import opened BLink
  import opened BLinkReaders
  import opened BLinkSplit
  import opened BLinkQuiet
  import opened BLinkSteps

  /** A tree with its root entered in the header and nobody reading. */
  ghost function Still(pages: Pages, sh: Shape, root: PageNo): World {
    World(pages, sh, root, None, map[])
  }

  /** Page writes of the protocol lead from one tree to the other. */
  ghost predicate Writes(pages: Pages, sh: Shape, root: PageNo, pages': Pages, sh': Shape, root': PageNo) {
    exists acts: seq<Action> :: Steps(Still(pages, sh, root), acts, Still(pages', sh', root'))
  }

  lemma {:induction false} Append(a: World, xs: seq<Action>, b: World, ys: seq<Action>, c: World)
    requires Steps(a, xs, b) && Steps(b, ys, c)
    ensures Steps(a, xs + ys, c)
    decreases |xs|
  {
    hide Enabled, Next;
    if xs == [] {
      assert xs + ys == ys;
    } else {
      Append(Next(a, xs[0]), xs[1..], b, ys, c);
      assert (xs + ys)[1..] == xs[1..] + ys;
    }
  }

  lemma NoWrites(pages: Pages, sh: Shape, root: PageNo)
    ensures Writes(pages, sh, root, pages, sh, root)
  {
    assert Steps(Still(pages, sh, root), [], Still(pages, sh, root));
  }

  lemma MoreWrites(a: Pages, sa: Shape, ra: PageNo, b: Pages, sb: Shape, rb: PageNo, c: Pages, sc: Shape, rc: PageNo)
    requires Writes(a, sa, ra, b, sb, rb) && Writes(b, sb, rb, c, sc, rc)
    ensures Writes(a, sa, ra, c, sc, rc)
  {
    hide Steps;
    var xs :| Steps(Still(a, sa, ra), xs, Still(b, sb, rb));
    var ys :| Steps(Still(b, sb, rb), ys, Still(c, sc, rc));
    Append(Still(a, sa, ra), xs, Still(b, sb, rb), ys, Still(c, sc, rc));
  }

  lemma One(w: World, a: Action)
    requires Enabled(w, a) && Mapped(w)
    ensures Steps(w, [a], Next(w, a))
  {
    hide Enabled, Next;
    assert [a][1..] == [];
  }

  lemma IsMapped(pages: Pages, sh: Shape, root: PageNo)
    requires Inv(pages, sh)
    ensures Mapped(Still(pages, sh, root))
  {
    Listed(pages, sh);
  }

  /** Whoever reads meanwhile, the same writes can be made. */
  lemma {:induction false} ReadersBeside(w: World, acts: seq<Action>, w': World, readers: map<nat, Reader>)
    requires Steps(w, acts, w') && forall i :: 0 <= i < |acts| ==> !acts[i].Start? && !acts[i].Advance?
    ensures Steps(w.(readers := readers), acts, w'.(readers := readers))
    decreases |acts|
  {
    if acts != [] {
      SameWrite(w, acts[0], readers);
      hide Enabled, Next;
      ReadersBeside(Next(w, acts[0]), acts[1..], w', readers);
    }
  }

  lemma SameWrite(w: World, a: Action, readers: map<nat, Reader>)
    requires Enabled(w, a) && Mapped(w) && !a.Start? && !a.Advance?
    ensures Mapped(w.(readers := readers)) && Enabled(w.(readers := readers), a)
    ensures Next(w.(readers := readers), a) == Next(w, a).(readers := readers)
  {
    hide Lt, Covers, PointerOk, After, NotOver;
  }

  // ------------------------------------------------------------------ the publications of an insertion

  lemma AddRun(pages: Pages, sh: Shape, root: PageNo, p: PageNo, i: nat, key: Key)
    requires Inv(pages, sh) && p in pages && pages[p].Leaf? && PlaceFor(pages[p].entries, i, key)
    requires p in sh.low && Covers(pages, sh, p, key)
    ensures Writes(pages, sh, root, InsertEntry(pages, p, i, key), sh, root)
  {
    hide Lt, Inv, Covers;
    var w := Still(pages, sh, root);
    IsMapped(pages, sh, root);
    One(w, AddEntry(p, i, key));
    assert Next(w, AddEntry(p, i, key)) == Still(InsertEntry(pages, p, i, key), sh, root);
  }

  /** Posting the separator of a page that has just been cut. */
  lemma PostRun(pages: Pages, sh: Shape, root: PageNo, pages1: Pages, p: PageNo, idx: nat, c: PageNo, n: PageNo,
                sep: Key, r: real)
    requires Inv(pages, sh) && Cut(pages, sh, pages1, p, idx, c, n, sep, r) && p in pages1 && pages1[p] == pages[p]
    requires Inv(pages1, AddPage(sh, n, sh.level[c], Some(sep), r))
    ensures var sh1 := AddPage(sh, n, sh.level[c], Some(sep), r);
            Writes(pages1, sh1, root, PostSep(pages1, p, idx, Sep(sep, n)), sh1, root)
  {
    hide Lt, Inv, HasChild;
    SepFitsIn(pages, sh, pages1, p, idx, c, n, sep, r);
    RankFitsIn(pages, sh, pages1, p, idx, c, n, sep, r);
    ChildFacts(pages, sh, p, idx);
    OldPages(pages, sh, p, n);
    var sh1 := AddPage(sh, n, sh.level[c], Some(sep), r);
    var w := Still(pages1, sh1, root);
    assert CanPost(w, p, idx, Sep(sep, n));
    IsMapped(pages1, sh1, root);
    hide CanPost;
    One(w, Post(p, idx, Sep(sep, n)));
    assert Next(w, Post(p, idx, Sep(sep, n))) == Still(PostSep(pages1, p, idx, Sep(sep, n)), sh1, root);
  }

  lemma LeafHalvesRun(pages: Pages, sh: Shape, root: PageNo, c: PageNo, n: PageNo, i: nat, key: Key, m: nat)
    requires Inv(pages, sh) && c in pages && pages[c].Leaf? && PlaceFor(pages[c].entries, i, key)
    requires n !in pages && n != 0 && c in sh.low && c in sh.level && Covers(pages, sh, c, key)
    requires 0 < m <= |pages[c].entries|
    ensures var all := InsertAt(pages[c].entries, i, key);
            Writes(pages, sh, root, SplitLeaf(InsertEntry(pages, c, i, key), c, n, m),
                   AddPage(sh, n, sh.level[c], Some(all[m]), RankAfter(pages, sh, c)), root)
  {
    hide Lt, Inv, Covers;
    var w := Still(pages, sh, root);
    IsMapped(pages, sh, root);
    One(w, CutLeafWith(c, n, m, i, key));
    var all := InsertAt(pages[c].entries, i, key);
    var w1 := Next(w, CutLeafWith(c, n, m, i, key));
    assert InsertEntry(pages, c, i, key)[c].entries == all;
    assert w1 == Still(w1.pages, w1.sh, root);
  }

  lemma LeafCutRun(pages: Pages, sh: Shape, root: PageNo, maxKey: nat, p: PageNo, idx: nat, c: PageNo, n: PageNo,
                   i: nat, key: Key, m: nat)
    requires Quiet(pages, sh, root, maxKey) && Site(pages, p, idx, c, n, maxKey) && pages[c].Leaf?
    requires PlaceFor(pages[c].entries, i, key)
    requires c in sh.low && Covers(pages, sh, c, key) && Sized(key, maxKey)
    requires var all := InsertAt(pages[c].entries, i, key);
             0 < m < |all| && Fitting(LeafSizes(all), LeafHeads(all), HeaderLen(pages[c].high), 0, m)
    ensures p != n && p != c && c in sh.level
    ensures var all := InsertAt(pages[c].entries, i, key);
            Writes(pages, sh, root, LeafCut(pages, p, idx, c, n, i, key, m),
                   AddPage(sh, n, sh.level[c], Some(all[m]), RankAfter(pages, sh, c)), root)
  {
    hide Lt, Inv, Parented, Sum, UsedBytes, Bounded, Fits, FitsBut, PageOk, TopOk, Fitting, Sorted, SplitShape, Writes;
    LeafCutHalves(pages, sh, root, maxKey, p, idx, c, n, i, key, m);
    var a := InsertEntry(pages, c, i, key);
    var all := InsertAt(pages[c].entries, i, key);
    var b, sh1 := SplitLeaf(a, c, n, m), AddPage(sh, n, sh.level[c], Some(all[m]), RankAfter(pages, sh, c));
    assert a[p] == pages[p];
    assert Cut(a, sh, b, p, idx, c, n, all[m], RankAfter(pages, sh, c));
    SepFitsIn(a, sh, b, p, idx, c, n, all[m], RankAfter(pages, sh, c));
    LeafHalvesRun(pages, sh, root, c, n, i, key, m);
    PostRun(a, sh, root, b, p, idx, c, n, all[m], RankAfter(pages, sh, c));
    MoreWrites(pages, sh, root, b, sh1, root, LeafCut(pages, p, idx, c, n, i, key, m), sh1, root);
  }

  lemma InternalHalvesRun(pages: Pages, sh: Shape, root: PageNo, c: PageNo, n: PageNo, m: nat)
    requires Inv(pages, sh) && c in pages && pages[c].Internal? && n !in pages && n != 0 && c in sh.level
    requires m < |pages[c].seps|
    ensures var sep := pages[c].seps[m];
            Writes(pages, sh, root, SplitInternal(pages, c, n, m),
                   AddPage(sh, n, sh.level[c], Some(sep.key), Rank(sh, sep.child)), root)
  {
    hide Lt, Inv;
    var w := Still(pages, sh, root);
    IsMapped(pages, sh, root);
    One(w, CutInternal(c, n, m));
    var w1 := Next(w, CutInternal(c, n, m));
    assert w1 == Still(w1.pages, w1.sh, root);
  }

  lemma InternalCutRun(pages: Pages, sh: Shape, root: PageNo, maxKey: nat, p: PageNo, idx: nat, c: PageNo, n: PageNo,
                       m: nat)
    requires Quiet(pages, sh, root, maxKey) && Site(pages, p, idx, c, n, maxKey) && pages[c].Internal?
    requires m < |pages[c].seps|
    requires Fitting(SepSizes(pages[c].seps), SepHeads(pages[c].seps), HeaderLen(pages[c].high), 1, m)
    ensures p != n && p != c && c in sh.level
    ensures var sep := pages[c].seps[m];
            Writes(pages, sh, root, InternalCut(pages, p, idx, c, n, m),
                   AddPage(sh, n, sh.level[c], Some(sep.key), Rank(sh, sep.child)), root)
  {
    hide Lt, Inv, Parented, Sum, UsedBytes, Bounded, PageOk, TopOk, HasChild, SplitShape, LeftBytes, RightBytes;
    hide Fitting, Fits, Writes;
    ChildFacts(pages, sh, p, idx);
    InternalCutHalves(pages, sh, maxKey, c, n, m);
    InternalCutAdopts(pages, c, n, m);
    var b, sep := SplitInternal(pages, c, n, m), pages[c].seps[m];
    var sh1 := AddPage(sh, n, sh.level[c], Some(sep.key), Rank(sh, sep.child));
    assert Cut(pages, sh, b, p, idx, c, n, sep.key, Rank(sh, sep.child));
    SepFitsIn(pages, sh, b, p, idx, c, n, sep.key, Rank(sh, sep.child));
    InternalHalvesRun(pages, sh, root, c, n, m);
    PostRun(pages, sh, root, b, p, idx, c, n, sep.key, Rank(sh, sep.child));
    MoreWrites(pages, sh, root, b, sh1, root, InternalCut(pages, p, idx, c, n, m), sh1, root);
  }

  lemma RootLeafRun(pages: Pages, sh: Shape, root: PageNo, n: PageNo, m: nat)
    requires Inv(pages, sh) && root in pages && pages[root].Leaf? && n !in pages && n != 0 && root in sh.level
    requires 0 < m < |pages[root].entries|
    ensures Writes(pages, sh, root, SplitLeaf(pages, root, n, m),
                   AddPage(sh, n, sh.level[root], Some(pages[root].entries[m]), RankAfter(pages, sh, root)), root)
  {
    hide Lt, Inv;
    var w := Still(pages, sh, root);
    IsMapped(pages, sh, root);
    One(w, CutLeaf(root, n, m));
    var w1 := Next(w, CutLeaf(root, n, m));
    assert w1 == Still(w1.pages, w1.sh, root);
  }

  /** A new root is written above both halves, then entered in the header. */
  lemma GrowRun(pages: Pages, sh: Shape, root: PageNo, r: PageNo, sep: Sep)
    requires Inv(pages, sh) && root in sh.level && r !in pages && r != 0
    requires sep.child in pages && sep.child in sh.level && sep.child in sh.low
    requires sh.level[sep.child] == sh.level[root] && sh.low[sep.child] == Some(sep.key)
    ensures Writes(pages, sh, root, NewRoot(pages, r, root, sep),
                   AddPage(sh, r, sh.level[root] + 1, None, Rank(sh, root)), r)
  {
    hide Lt, Inv;
    var w := Still(pages, sh, root);
    IsMapped(pages, sh, root);
    One(w, GrowRoot(r, sep));
    var w1 := Next(w, GrowRoot(r, sep));
    One(w1, SetRoot);
    var w2 := Next(w1, SetRoot);
    Append(w, [GrowRoot(r, sep)], w1, [SetRoot], w2);
    assert w2 == Still(w2.pages, w2.sh, r);
  }

  /** Cutting the root, then writing and entering a new one. */
  lemma RootRun(pages: Pages, sh: Shape, root: PageNo, maxKey: nat, halves: Pages, n: PageNo, sep: Key, rank: real,
                r: PageNo)
    requires Quiet(pages, sh, root, maxKey) && RootCut(pages, sh, root, maxKey, halves, n, sep, rank)
    requires Writes(pages, sh, root, halves, AddPage(sh, n, sh.level[root], Some(sep), rank), root)
    requires r !in halves && r != 0
    ensures var sh1 := AddPage(sh, n, sh.level[root], Some(sep), rank);
            Writes(pages, sh, root, NewRoot(halves, r, root, Sep(sep, n)),
                   AddPage(sh1, r, sh.level[root] + 1, None, Rank(sh, root)), r)
  {
    hide Lt, Inv, Parented, Fits, UsedBytes, Bounded, HasChild, Writes;
    var sh1 := AddPage(sh, n, sh.level[root], Some(sep), rank);
    GrowRun(halves, sh1, root, r, Sep(sep, n));
    MoreWrites(pages, sh, root, halves, sh1, root, NewRoot(halves, r, root, Sep(sep, n)),
               AddPage(sh1, r, sh.level[root] + 1, None, Rank(sh, root)), r);
  }

  // ------------------------------------------------------------------ whole insertions

  /** The tree of one empty leaf. */
  ghost function Seed(n: PageNo): World {
    Still(map[n := Leaf([], 0, None)], Shape(map[n := 0], map[n := None], map[n := 0.0]), n)
  }

  /** What an insertion published is a run: from the tree it found, or from a first leaf if it found none. */
  ghost predicate Published(pages: Pages, sh: Shape, root: PageNo, pages': Pages, sh': Shape, root': PageNo) {
    if root == 0 then exists n :: n != 0 && Writes(Seed(n).pages, Seed(n).sh, n, pages', sh', root')
    else Writes(pages, sh, root, pages', sh', root')
  }

  lemma SeedPublished(pages: Pages, sh: Shape, pages': Pages, sh': Shape, n: PageNo)
    requires n != 0 && Still(pages', sh', n) == Seed(n)
    ensures Published(pages, sh, 0, pages', sh', n)
  {
    hide Writes;
    NoWrites(pages', sh', n);
    assert Writes(Seed(n).pages, Seed(n).sh, n, pages', sh', n);
  }

  lemma PublishedThen(a: Pages, sa: Shape, ra: PageNo, b: Pages, sb: Shape, rb: PageNo, c: Pages, sc: Shape, rc: PageNo)
    requires Published(a, sa, ra, b, sb, rb) && rb != 0 && Published(b, sb, rb, c, sc, rc)
    ensures Published(a, sa, ra, c, sc, rc)
  {
    hide Writes;
    if ra == 0 {
      var n :| n != 0 && Writes(Seed(n).pages, Seed(n).sh, n, b, sb, rb);
      MoreWrites(Seed(n).pages, Seed(n).sh, n, b, sb, rb, c, sc, rc);
    } else {
      MoreWrites(a, sa, ra, b, sb, rb, c, sc, rc);
    }
  }
}
