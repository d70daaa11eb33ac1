/** Insertion into the index file: pre-emptive splits on the way down, nothing propagates up. */
module BLinkTree {
  import opened Options
  import opened KeyOrder
  import opened BLink
  import opened BLinkReaders
  import opened BLinkSplit
  import opened BLinkQuiet
  import opened BLinkSteps
  import opened BLinkRuns

  /** `Retry` restarts from the root; `TooLarge` is the error of a node that cannot be cut. */
  datatype Outcome = Done | Retry | TooLarge

  // ------------------------------------------------------------------ searching a node

  method LowerBound(entries: seq<Key>, key: Key) returns (i: nat)
    requires Sorted(entries)
    ensures i <= |entries| && (i < |entries| ==> !Lt(entries[i], key))
    ensures forall j :: 0 <= j < i ==> Lt(entries[j], key)
    ensures key !in entries ==> PlaceFor(entries, i, key)
  {
    Order();
    hide Lt;
    i := 0;
    while i < |entries| && Lt(entries[i], key)
      invariant i <= |entries|
      invariant forall j :: 0 <= j < i ==> Lt(entries[j], key)
    {
      i := i + 1;
    }
    if key !in entries {
      forall j | i <= j < |entries|
        ensures Lt(key, entries[j])
      {
        assert i < j ==> Lt(entries[i], entries[j]);
        assert entries[i] != key;
      }
    }
  }

  method FindChild(node: Node, key: Key) returns (child: PageNo)
    requires node.Internal?
    ensures child == ChildFor(node.first, node.seps, key)
  {
    hide Lt;
    child := node.first;
    var i := 0;
    while i < |node.seps|
      invariant i <= |node.seps|
      invariant ChildFor(child, node.seps[i..], key) == ChildFor(node.first, node.seps, key)
    {
      assert node.seps[i..][0] == node.seps[i] && node.seps[i..][1..] == node.seps[i + 1..];
      if Lt(key, node.seps[i].key) {
        break;
      }
      child := node.seps[i].child;
      i := i + 1;
    }
  }

  method PositionOf(node: Node, child: PageNo) returns (idx: nat)
    requires HasChild(node, child)
    ensures idx <= |node.seps| && ChildAt(node, idx) == child
  {
    if node.first == child {
      return 0;
    }
    ghost var at: nat :| at <= |node.seps| && ChildAt(node, at) == child;
    idx := 1;
    while node.seps[idx - 1].child != child
      invariant 1 <= idx <= at
      decreases at - idx
    {
      idx := idx + 1;
    }
  }

  // ------------------------------------------------------------------ where to cut

  method ChooseLeafSplit(all: seq<Key>, high: Option<Key>) returns (best: Option<nat>)
    ensures BestBelow(LeafSizes(all), LeafHeads(all), HeaderLen(high), 0, best, |all|)
  {
    best := BestSplit(LeafSizes(all), LeafHeads(all), HeaderLen(high), 0);
  }

  method ChooseInternalSplit(seps: seq<Sep>, high: Option<Key>) returns (best: Option<nat>)
    ensures BestBelow(SepSizes(seps), SepHeads(seps), HeaderLen(high), 1, best, |seps|)
  {
    best := BestSplit(SepSizes(seps), SepHeads(seps), HeaderLen(high), 1);
  }

  /** A full leaf that gains one more entry can be cut, as long as no key is longer than MAX_KEY. */
  lemma LeafCutFound(node: Node, i: nat, key: Key, maxKey: nat, best: Option<nat>)
    requires node.Leaf? && Bounded(node, maxKey) && Sized(key, maxKey) && maxKey <= MAX_KEY && i <= |node.entries|
    requires UsedBytes(node) <= PAGE_SIZE && Full(node, |key.bytes|, maxKey)
    requires var all := InsertAt(node.entries, i, key);
             BestBelow(LeafSizes(all), LeafHeads(all), HeaderLen(node.high), 0, best, |all|)
    ensures best.Some?
  {
    var all := InsertAt(node.entries, i, key);
    LeafInsertBytes(node.entries, i, key);
    assert forall j :: 0 <= j < |all| ==> Sized(all[j], maxKey);
    SumBound(LeafSizes(node.entries), LEAF_OVERHEAD + MAX_KEY);
    assert |all| >= 2;
    var m := LeafCutExists(LeafSizes(all), LeafHeads(all), HeaderLen(node.high));
  }

  lemma RootLeafCutFound(node: Node, len: nat, maxKey: nat, best: Option<nat>)
    requires node.Leaf? && Bounded(node, maxKey) && len <= maxKey <= MAX_KEY
    requires UsedBytes(node) <= PAGE_SIZE && Full(node, len, maxKey)
    requires BestBelow(LeafSizes(node.entries), LeafHeads(node.entries), HeaderLen(node.high), 0, best, |node.entries|)
    ensures best.Some?
  {
    var all := node.entries;
    SumBound(LeafSizes(all), LEAF_OVERHEAD + MAX_KEY);
    assert |all| >= 2;
    var m := LeafCutExists(LeafSizes(all), LeafHeads(all), HeaderLen(node.high));
  }

  /** A full internal node can be cut so that both halves take another separator. */
  lemma InternalCutFound(node: Node, maxKey: nat, best: Option<nat>)
    requires node.Internal? && Bounded(node, maxKey) && maxKey <= MAX_KEY
    requires UsedBytes(node) <= PAGE_SIZE && Full(node, 0, maxKey)
    requires BestBelow(SepSizes(node.seps), SepHeads(node.seps), HeaderLen(node.high), 1, best, |node.seps|)
    ensures best.Some? && 0 < best.value < |node.seps|
    ensures RoomyAt(SepSizes(node.seps), SepHeads(node.seps), HeaderLen(node.high), best.value)
  {
    assert FullInternal(SepSizes(node.seps), SepHeads(node.seps), HeaderLen(node.high));
    BestCutIsRoomy(SepSizes(node.seps), SepHeads(node.seps), HeaderLen(node.high), best);
  }

  ghost predicate LeftmostLeaf(pages: Pages, sh: Shape, p: PageNo) {
    p in pages && p in sh.level && p in sh.low && sh.level[p] == 0 && sh.low[p] == None
  }

  ghost predicate InRange(pages: Pages, pageCount: nat) {
    forall p :: p in pages ==> p < pageCount
  }

  /** One new page; the others keep their level and lower bound. */
  lemma OnePageMore(pages: Pages, sh: Shape, pages': Pages, n: PageNo, level: nat, low: Option<Key>, rank: real,
                    pageCount: nat, first: PageNo)
    requires pages'.Keys == pages.Keys + {n} && n !in pages && InRange(pages, pageCount) && n < pageCount
    requires LeftmostLeaf(pages, sh, first)
    ensures Grows(pages, sh, pages', AddPage(sh, n, level, low, rank)) && InRange(pages', pageCount)
    ensures LeftmostLeaf(pages', AddPage(sh, n, level, low, rank), first)
  {
  }

  lemma GrowsSelf(pages: Pages, sh: Shape)
    ensures Grows(pages, sh, pages, sh)
  {
  }

  lemma GrowsAgain(a: Pages, sa: Shape, b: Pages, sb: Shape, c: Pages, sc: Shape)
    requires Grows(a, sa, b, sb) && Grows(b, sb, c, sc)
    ensures Grows(a, sa, c, sc)
  {
  }

  lemma SameSelf(pages: Pages)
    ensures SameKeys(pages, pages)
  {
  }

  lemma StillAbsent(a: Pages, b: Pages, key: Key)
    requires SameKeys(a, b) && !Holds(a, key)
    ensures !Holds(b, key)
  {
  }

  lemma SameThen(a: Pages, b: Pages, c: Pages, key: Key)
    requires SameKeys(a, b)
    ensures SameKeys(b, c) ==> SameKeys(a, c)
    ensures Gains(b, c, key) ==> Gains(a, c, key)
  {
    hide Holds;
  }

  /** A longer bound admits the same nodes. */
  lemma FitsMono(pages: Pages, a: nat, b: nat)
    requires Fits(pages, a) && a <= b
    ensures Fits(pages, b)
  {
    hide UsedBytes;
    forall p | p in pages
      ensures Bounded(pages[p], b)
    {
      assert Bounded(pages[p], a);
    }
  }

  // ------------------------------------------------------------------ what an insertion leaves alone

  ghost predicate KeepsWidth(pages: Pages, pages': Pages, w: nat) {
    AllWidth(pages, w) ==> AllWidth(pages', w)
  }

  /** Pages above the level of `p` are untouched, and `p` gains at most one separator. */
  ghost predicate OnlyBelow(pages: Pages, sh: Shape, pages': Pages, p: PageNo) {
    && p in pages && p in sh.level && p in pages'
    && (forall q :: q in pages && q in sh.level && sh.level[q] > sh.level[p] ==> q in pages' && pages'[q] == pages[q])
    && (pages[p].Internal? ==> pages'[p].Internal? && |pages'[p].seps| <= |pages[p].seps| + 1)
  }

  /** Only `p`, its child `c` and a new page were written. */
  lemma CutBelow(pages: Pages, sh: Shape, pages': Pages, p: PageNo, c: PageNo)
    requires p in pages && p in sh.level && c in sh.level && sh.level[c] < sh.level[p]
    requires forall q :: q in pages && q != p && q != c ==> q in pages' && pages'[q] == pages[q]
    requires p in pages' && pages[p].Internal? && pages'[p].Internal? && |pages'[p].seps| <= |pages[p].seps| + 1
    ensures OnlyBelow(pages, sh, pages', p)
  {
  }

  lemma BelowSelf(pages: Pages, sh: Shape, p: PageNo)
    requires p in pages && p in sh.level
    ensures OnlyBelow(pages, sh, pages, p)
  {
  }

  /** What happens below a child happens below its parent. */
  lemma BelowChild(a: Pages, sa: Shape, b: Pages, sb: Shape, c: Pages, p: PageNo, child: PageNo)
    requires OnlyBelow(a, sa, b, p) && Grows(a, sa, b, sb) && Inv(a, sa)
    requires OnlyBelow(b, sb, c, child) && sb.level[child] < sa.level[p]
    ensures OnlyBelow(a, sa, c, p)
  {
    Listed(a, sa);
  }

  /**
   How an insertion changes the root: it is replaced only when full, by one a level higher with at most `most`
   separators.
   */
  ghost predicate Grown(pages: Pages, sh: Shape, root: PageNo, len: nat, maxKey: nat, pages': Pages, sh': Shape,
                        root': PageNo, most: nat) {
    && root' in pages' && root' in sh'.level
    && (root == 0 ==> sh'.level[root'] == 0)
    && (root != 0 ==>
          && root in pages && root in sh.level
          && if Full(pages[root], len, maxKey) then
               sh'.level[root'] == sh.level[root] + 1 && pages'[root'].Internal? && |pages'[root'].seps| <= most
             else
               && root' == root && sh'.level[root'] == sh.level[root]
               && (pages[root].Internal? ==> pages'[root'].Internal? && |pages'[root'].seps| <= |pages[root].seps| + 1))
  }

  lemma GrownMore(a: Pages, sa: Shape, ra: PageNo, b: Pages, sb: Shape, rb: PageNo, len: nat, maxKey: nat)
    requires Grown(a, sa, ra, len, maxKey, b, sb, rb, 1)
    ensures Grown(a, sa, ra, len, maxKey, b, sb, rb, 2)
  {
    hide Full;
  }

  lemma KeptTwice(a: Pages, b: Pages, c: Pages, w: nat)
    requires KeepsWidth(a, b, w) && KeepsWidth(b, c, w)
    ensures KeepsWidth(a, c, w)
  {
    hide AllWidth;
  }

  /** A root that was not full is still the root. */
  lemma GrownBelow(pages: Pages, sh: Shape, root: PageNo, len: nat, maxKey: nat, pages': Pages, sh': Shape)
    requires root != 0 && root in sh.low && OnlyBelow(pages, sh, pages', root) && Grows(pages, sh, pages', sh')
    requires !Full(pages[root], len, maxKey)
    ensures Grown(pages, sh, root, len, maxKey, pages', sh', root, 1)
  {
    hide Full;
  }

  lemma GrownRaised(pages: Pages, sh: Shape, root: PageNo, len: nat, maxKey: nat, pages': Pages, sh': Shape,
                    root': PageNo)
    requires root != 0 && root in pages && Full(pages[root], len, maxKey) && Raised(sh, root, pages', sh', root')
    ensures Grown(pages, sh, root, len, maxKey, pages', sh', root', 1)
  {
    hide Full;
  }

  lemma GrownThen(a: Pages, sa: Shape, ra: PageNo, b: Pages, sb: Shape, rb: PageNo, c: Pages, sc: Shape, rc: PageNo,
                  len: nat, maxKey: nat)
    requires Grown(a, sa, ra, len, maxKey, b, sb, rb, 1) && rb != 0 && !Full(b[rb], len, maxKey)
    requires Grown(b, sb, rb, len, maxKey, c, sc, rc, 1) && (ra == 0 || Full(a[ra], len, maxKey))
    ensures Grown(a, sa, ra, len, maxKey, c, sc, rc, 2)
  {
    hide Full;
  }

  /** A new root with one separator above the old one. */
  ghost predicate Raised(sh: Shape, root: PageNo, pages': Pages, sh': Shape, root': PageNo) {
    && root in sh.level && root' in pages' && root' in sh'.level && sh'.level[root'] == sh.level[root] + 1
    && pages'[root'].Internal? && |pages'[root'].seps| == 1
  }

  lemma NewRootWidth(pages: Pages, r: PageNo, left: PageNo, sep: Sep)
    ensures forall w :: AllWidth(pages, w) && |sep.key.bytes| == w ==> AllWidth(NewRoot(pages, r, left, sep), w)
  {
  }

  class BTree {
    /** Page 0 holds these fields and is not a node. */
    var root: PageNo
    var firstLeaf: PageNo
    var maxKey: nat

    var pages: Pages
    var pageCount: nat
    ghost var sh: Shape

    ghost predicate Valid()
      reads this
    {
      && 1 <= pageCount && InRange(pages, pageCount)
      && (root == 0 ==> pages == map[] && firstLeaf == 0)
      && (root != 0 ==> Quiet(pages, sh, root, maxKey) && LeftmostLeaf(pages, sh, firstLeaf))
    }

    constructor ()
      ensures Valid() && root == 0 && maxKey == 0 && Minima(pages, sh)
      ensures forall k :: !Holds(pages, k)
    {
      root, firstLeaf, maxKey := 0, 0, 0;
      pages, pageCount := map[], 1;
      sh := Shape(map[], map[], map[]);
    }

    method AllocPage() returns (n: PageNo)
      requires Valid()
      modifies `pageCount
      ensures Valid() && n !in pages && 0 < n < pageCount
    {
      n := pageCount;
      pageCount := pageCount + 1;
    }

    /** Splits a full leaf below `p` and places the key in one of the halves. */
    method SplitLeafChild(p: PageNo, c: PageNo, key: Key) returns (ok: bool)
      requires Valid() && root != 0 && p in pages && pages[p].Internal? && !Full(pages[p], 0, maxKey)
      requires HasChild(pages[p], c)
      requires c in pages && pages[c].Leaf? && c in sh.low && Covers(pages, sh, c, key)
      requires Full(pages[c], |key.bytes|, maxKey)
      requires Sized(key, maxKey) && !Holds(pages, key)
      modifies `pages, `sh, `pageCount
      ensures Valid() && Grows(old(pages), old(sh), pages, sh)
      ensures ok ==> Gains(old(pages), pages, key)
      ensures !ok ==> pages == old(pages) && sh == old(sh)
      ensures maxKey <= MAX_KEY ==> ok
      ensures old(Minima(pages, sh)) ==> Minima(pages, sh)
      ensures KeepsWidth(old(pages), pages, |key.bytes|) && OnlyBelow(old(pages), old(sh), pages, p)
      ensures Writes(old(pages), old(sh), old(root), pages, sh, root)
    {
      hide Lt, Inv, Parented, Fits, TopOk, Sum, UsedBytes, Bounded, Fitting, Imbalance, InRange, Grows, LeafSizes;
      hide Writes, LeafHeads, LeftmostLeaf;
      PageLevel(pages, sh, p);
      BelowSelf(pages, sh, p);
      NoWrites(pages, sh, root);
      var n := AllocPage();
      assert Sorted(pages[c].entries) && key !in pages[c].entries by { LeafSorted(pages, sh, c); }
      var i := LowerBound(pages[c].entries, key);
      var all := InsertAt(pages[c].entries, i, key);
      var best := ChooseLeafSplit(all, pages[c].high);
      if maxKey <= MAX_KEY {
        FitsAt(pages, maxKey, c);
        LeafCutFound(pages[c], i, key, maxKey, best);
      }
      if best.None? {
        GrowsSelf(pages, sh);
        return false;
      }
      var idx := PositionOf(pages[p], c);
      PublishLeafCut(p, idx, c, n, i, key, best.value);
      return true;
    }

    /** Writes both halves of the leaf, then the separator into the parent. */
    method PublishLeafCut(p: PageNo, idx: nat, c: PageNo, n: PageNo, i: nat, key: Key, m: nat)
      requires Valid() && root != 0 && Site(pages, p, idx, c, n, maxKey) && 0 < n < pageCount
      requires pages[c].Leaf? && PlaceFor(pages[c].entries, i, key) && c in sh.low && Covers(pages, sh, c, key)
      requires Sized(key, maxKey)
      requires var all := InsertAt(pages[c].entries, i, key);
               0 < m < |all| && Fitting(LeafSizes(all), LeafHeads(all), HeaderLen(pages[c].high), 0, m)
      modifies `pages, `sh
      ensures Valid() && Grows(old(pages), old(sh), pages, sh) && Gains(old(pages), pages, key)
      ensures old(Minima(pages, sh)) ==> Minima(pages, sh)
      ensures KeepsWidth(old(pages), pages, |key.bytes|) && OnlyBelow(old(pages), old(sh), pages, p)
      ensures Writes(old(pages), old(sh), old(root), pages, sh, root)
    {
      hide Lt, Inv, Parented, Fits, TopOk, Sum, UsedBytes, Bounded, Fitting, InRange, Grows, LeafSizes, LeafHeads;
      hide Writes, LeftmostLeaf, Holds, Minima, HasChild, Full, Gains, AllWidth, OnlyBelow;
      ChildFacts(pages, sh, p, idx);
      CutBelow(pages, sh, LeafCut(pages, p, idx, c, n, i, key, m), p, c);
      if AllWidth(pages, |key.bytes|) {
        LeafCutWidth(pages, p, idx, c, n, i, key, m, |key.bytes|);
      }
      ghost var was := pages;
      var all := InsertAt(pages[c].entries, i, key);
      LeafCutQuiet(pages, sh, root, maxKey, p, idx, c, n, i, key, m);
      LeafCutRun(pages, sh, root, maxKey, p, idx, c, n, i, key, m);
      LeafCutGains(pages, p, idx, c, n, i, key, m);
      OnePageMore(pages, sh, LeafCut(pages, p, idx, c, n, i, key, m), n, sh.level[c], Some(all[m]),
                  RankAfter(pages, sh, c),
                  pageCount, firstLeaf);
      if Minima(pages, sh) {
        LeafCutMinima(pages, sh, p, idx, c, n, i, key, m, sh.level[c], RankAfter(pages, sh, c));
      }
      sh := AddPage(sh, n, sh.level[c], Some(all[m]), RankAfter(pages, sh, c));
      pages := SplitLeaf(InsertEntry(pages, c, i, key), c, n, m);
      pages := PostSep(pages, p, idx, Sep(all[m], n));
      assert pages == LeafCut(was, p, idx, c, n, i, key, m);
    }

    /** Splits a full internal node below `p`; the key belongs to the half returned. */
    method SplitInternalChild(p: PageNo, c: PageNo, key: Key) returns (ok: bool, descend: PageNo)
      requires Valid() && root != 0 && p in pages && pages[p].Internal? && !Full(pages[p], 0, maxKey)
      requires HasChild(pages[p], c)
      requires c in pages && pages[c].Internal? && c in sh.low && c in sh.level && Covers(pages, sh, c, key)
      requires Full(pages[c], 0, maxKey)
      modifies `pages, `sh, `pageCount
      ensures Valid() && Grows(old(pages), old(sh), pages, sh) && SameKeys(old(pages), pages)
      ensures ok ==> descend in pages && descend in sh.level && descend in sh.low
      ensures ok ==> Covers(pages, sh, descend, key) && sh.level[descend] == old(sh.level[c])
      ensures ok ==> pages[descend].Internal?
      ensures maxKey <= MAX_KEY ==> ok && !Full(pages[descend], 0, maxKey)
      ensures old(Minima(pages, sh)) ==> Minima(pages, sh)
      ensures KeepsWidth(old(pages), pages, |key.bytes|) && OnlyBelow(old(pages), old(sh), pages, p)
      ensures Writes(old(pages), old(sh), old(root), pages, sh, root)
    {
      hide Lt, Inv, Parented, Fits, TopOk, Sum, UsedBytes, Bounded, Imbalance, InRange, Grows, SepSizes, SepHeads;
      hide Writes, LeftmostLeaf, OnlyBelow, AllWidth, Minima, Holds;
      PageLevel(pages, sh, p);
      BelowSelf(pages, sh, p);
      NoWrites(pages, sh, root);
      descend := c;
      var n := AllocPage();
      var node := pages[c];
      var best := ChooseInternalSplit(node.seps, node.high);
      FitsAt(pages, maxKey, c);
      if maxKey <= MAX_KEY {
        InternalCutFound(node, maxKey, best);
      }
      if best.None? {
        GrowsSelf(pages, sh);
        return false, c;
      }
      var m := best.value;
      var idx := PositionOf(pages[p], c);
      PublishInternalCut(p, idx, c, n, m);
      descend := if Lt(key, node.seps[m].key) then c else n;
      ok := true;
    }

    /** Writes both halves of the node, then the separator into the parent. */
    method PublishInternalCut(p: PageNo, idx: nat, c: PageNo, n: PageNo, m: nat)
      requires Valid() && root != 0 && Site(pages, p, idx, c, n, maxKey) && 0 < n < pageCount && pages[c].Internal?
      requires c in sh.level && c in sh.low
      requires m < |pages[c].seps|
      requires Fitting(SepSizes(pages[c].seps), SepHeads(pages[c].seps), HeaderLen(pages[c].high), 1, m)
      modifies `pages, `sh
      ensures Valid() && Grows(old(pages), old(sh), pages, sh) && SameKeys(old(pages), pages)
      ensures old(Minima(pages, sh)) ==> Minima(pages, sh)
      ensures c in pages && n in pages && pages[c].Internal? && pages[n].Internal?
      ensures var node := old(pages[c]); pages[c].high == Some(node.seps[m].key) && pages[n].high == node.high
      ensures var sep := old(pages[c]).seps[m];
              sh == AddPage(old(sh), n, old(sh.level[c]), Some(sep.key), Rank(old(sh), sep.child)) && n !in old(pages)
      ensures var node := old(pages[c]); UsedBytes(pages[c]) == LeftBytes(SepSizes(node.seps), SepHeads(node.seps), m)
      ensures var node := old(pages[c]);
              UsedBytes(pages[n]) == RightBytes(SepSizes(node.seps), HeaderLen(node.high), 1, m)
      ensures (forall w :: KeepsWidth(old(pages), pages, w)) && OnlyBelow(old(pages), old(sh), pages, p)
      ensures Writes(old(pages), old(sh), old(root), pages, sh, root)
    {
      hide Writes, Lt, Inv, Parented, Fits, TopOk, Sum, UsedBytes, Bounded, Fitting, InRange, Grows, SepSizes, SepHeads;
      hide LeftmostLeaf, Holds, Minima, HasChild, Full, LeftBytes, RightBytes, SameKeys, AllWidth, OnlyBelow;
      ChildFacts(pages, sh, p, idx);
      CutBelow(pages, sh, InternalCut(pages, p, idx, c, n, m), p, c);
      forall w | AllWidth(pages, w)
        ensures AllWidth(InternalCut(pages, p, idx, c, n, m), w)
      {
        InternalCutWidth(pages, p, idx, c, n, m, w);
      }
      ghost var was := pages;
      var sep := pages[c].seps[m].key;
      InternalCutQuiet(pages, sh, root, maxKey, p, idx, c, n, m);
      InternalCutRun(pages, sh, root, maxKey, p, idx, c, n, m);
      InternalCutHalves(pages, sh, maxKey, c, n, m);
      InternalCutKeeps(pages, p, idx, c, n, m);
      OnePageMore(pages, sh, InternalCut(pages, p, idx, c, n, m), n, sh.level[c], Some(sep),
                  Rank(sh, pages[c].seps[m].child),
                  pageCount, firstLeaf);
      if Minima(pages, sh) {
        InternalsMinima(pages, sh, InternalCut(pages, p, idx, c, n, m), n, sh.level[c], Some(sep),
                        Rank(sh, pages[c].seps[m].child));
      }
      sh := AddPage(sh, n, sh.level[c], Some(sep), Rank(sh, pages[c].seps[m].child));
      pages := SplitInternal(pages, c, n, m);
      pages := PostSep(pages, p, idx, Sep(sep, n));
      assert pages == InternalCut(was, p, idx, c, n, m);
    }

    /** Splits the full root into two halves under a new root. */
    method SplitRoot(ghost len: nat) returns (ok: bool)
      requires Valid() && root != 0 && len <= maxKey && Full(pages[root], len, maxKey)
      modifies `pages, `sh, `pageCount, `root
      ensures Valid() && root != 0 && SameKeys(old(pages), pages)
      ensures old(Minima(pages, sh)) ==> Minima(pages, sh)
      ensures maxKey <= MAX_KEY ==> ok && !Full(pages[root], len, maxKey)
      ensures KeepsWidth(old(pages), pages, len) && (ok ==> Raised(old(sh), old(root), pages, sh, root))
      ensures Writes(old(pages), old(sh), old(root), pages, sh, root)
    {
      assert root in pages;
      if pages[root].Leaf? {
        ok := SplitRootLeaf(len);
      } else {
        ok := SplitRootInternal();
      }
    }

    method SplitRootLeaf(ghost len: nat) returns (ok: bool)
      requires Valid() && root in pages && pages[root].Leaf? && len <= maxKey && Full(pages[root], len, maxKey)
      modifies `pages, `sh, `pageCount, `root
      ensures Valid() && root != 0 && SameKeys(old(pages), pages)
      ensures old(Minima(pages, sh)) ==> Minima(pages, sh)
      ensures maxKey <= MAX_KEY ==> ok && pages[root].Internal? && !Full(pages[root], 0, maxKey)
      ensures (forall w :: KeepsWidth(old(pages), pages, w)) && (ok ==> Raised(old(sh), old(root), pages, sh, root))
      ensures Writes(old(pages), old(sh), old(root), pages, sh, root)
    {
      hide Lt, Inv, Parented, Fits, TopOk, Sum, UsedBytes, Bounded, InRange, LeftmostLeaf, RootCut, Fitting, Imbalance;
      hide Writes, LeafSizes, LeafHeads, Holds;
      var n := AllocPage();
      NoWrites(pages, sh, root);
      var node := pages[root];
      var best := ChooseLeafSplit(node.entries, node.high);
      if maxKey <= MAX_KEY {
        FitsAt(pages, maxKey, root);
        RootLeafCutFound(node, len, maxKey, best);
      }
      if best.None? {
        return false;
      }
      var m := best.value;
      RootLeafCut(pages, sh, root, maxKey, n, m);
      PageLevel(pages, sh, root);
      RootLeafRun(pages, sh, root, n, m);
      SplitLeafKeeps(pages, root, n, m);
      if Minima(pages, sh) {
        RootLeafMinima(pages, sh, root, n, m, sh.level[root], RankAfter(pages, sh, root));
      }
      hide BestBelow, Minima;
      ghost var was := pages;
      AddRoot(SplitLeaf(pages, root, n, m), n, node.entries[m], RankAfter(pages, sh, root));
      forall w | AllWidth(was, w)
        ensures AllWidth(pages, w)
      {
        assert Width(was[old(root)], w);
        SplitLeafWidth(was, old(root), n, m, w);
      }
      ok := true;
    }

    method SplitRootInternal() returns (ok: bool)
      requires Valid() && root in pages && pages[root].Internal? && Full(pages[root], 0, maxKey)
      modifies `pages, `sh, `pageCount, `root
      ensures Valid() && root != 0 && SameKeys(old(pages), pages)
      ensures old(Minima(pages, sh)) ==> Minima(pages, sh)
      ensures maxKey <= MAX_KEY ==> ok && pages[root].Internal? && !Full(pages[root], 0, maxKey)
      ensures (forall w :: KeepsWidth(old(pages), pages, w)) && (ok ==> Raised(old(sh), old(root), pages, sh, root))
      ensures Writes(old(pages), old(sh), old(root), pages, sh, root)
    {
      hide Lt, Inv, Parented, Fits, TopOk, Sum, UsedBytes, Bounded, InRange, LeftmostLeaf, RootCut, Fitting, Imbalance;
      hide Writes, SepSizes, SepHeads, Holds, RoomyAt;
      var n := AllocPage();
      NoWrites(pages, sh, root);
      var node := pages[root];
      var best := ChooseInternalSplit(node.seps, node.high);
      if maxKey <= MAX_KEY {
        FitsAt(pages, maxKey, root);
        InternalCutFound(node, maxKey, best);
      }
      if best.None? {
        return false;
      }
      var m := best.value;
      RootInternalCut(pages, sh, root, maxKey, n, m);
      PageLevel(pages, sh, root);
      InternalHalvesRun(pages, sh, root, root, n, m);
      InternalsKeep(pages, SplitInternal(pages, root, n, m));
      if Minima(pages, sh) {
        InternalsMinima(pages, sh, SplitInternal(pages, root, n, m), n, sh.level[root], Some(node.seps[m].key),
                        Rank(sh, node.seps[m].child));
      }
      hide BestBelow, Minima;
      ghost var was := pages;
      AddRoot(SplitInternal(pages, root, n, m), n, node.seps[m].key, Rank(sh, node.seps[m].child));
      forall w | AllWidth(was, w)
        ensures AllWidth(pages, w)
      {
        assert Width(was[old(root)], w);
        SplitInternalWidth(was, old(root), n, m, w);
      }
      ok := true;
    }

    /** Publishes the two halves of the old root, then the new root above them. */
    method AddRoot(halves: Pages, n: PageNo, sep: Key, ghost rank: real)
      requires Valid() && root != 0 && n !in pages && 0 < n < pageCount
      requires RootCut(pages, sh, root, maxKey, halves, n, sep, rank)
      requires Writes(pages, sh, root, halves, AddPage(sh, n, sh.level[root], Some(sep), rank), root)
      modifies `pages, `sh, `pageCount, `root
      ensures Valid() && root != 0 && SameKeys(halves, pages)
      ensures Minima(halves, AddPage(old(sh), n, old(sh.level[root]), Some(sep), rank)) ==> Minima(pages, sh)
      ensures maxKey <= MAX_KEY ==> !Full(pages[root], 0, maxKey) && pages[root].Internal?
      ensures Raised(old(sh), old(root), pages, sh, root)
      ensures forall w :: AllWidth(halves, w) && |sep.bytes| == w ==> AllWidth(pages, w)
      ensures Writes(old(pages), old(sh), old(root), pages, sh, root)
    {
      hide Writes, Lt, Inv, Parented, Fits, Sum, UsedBytes, Bounded, Grows, HasChild, AllWidth, Holds, Minima;
      var r := pageCount;
      pageCount := pageCount + 1;
      NewRootQuiet(pages, sh, root, maxKey, halves, n, sep, rank, r);
      NewRootBytes(root, Sep(sep, n));
      InternalsKeep(halves, NewRoot(halves, r, root, Sep(sep, n)));
      NewRootWidth(halves, r, root, Sep(sep, n));
      ghost var sh1 := AddPage(sh, n, sh.level[root], Some(sep), rank);
      RootRun(pages, sh, root, maxKey, halves, n, sep, rank, r);
      OnePageMore(pages, sh, halves, n, sh.level[root], Some(sep), rank, pageCount, firstLeaf);
      OnePageMore(halves, sh1, NewRoot(halves, r, root, Sep(sep, n)), r, sh.level[root] + 1, None, Rank(sh, root),
                  pageCount, firstLeaf);
      if Minima(halves, sh1) {
        InternalsMinima(halves, sh1, NewRoot(halves, r, root, Sep(sep, n)), r, sh.level[root] + 1, None,
                        Rank(sh, root));
      }
      hide InRange, LeftmostLeaf, TopOk, Quiet, RootCut;
      pages := NewRoot(halves, r, root, Sep(sep, n));
      sh := AddPage(sh1, r, sh.level[root] + 1, None, Rank(sh, root));
      root := r;
    }

    method AddToLeaf(p: PageNo, key: Key)
      requires Valid() && root != 0 && p in pages && pages[p].Leaf? && p in sh.low && Covers(pages, sh, p, key)
      requires Sized(key, maxKey) && !Holds(pages, key) && !Full(pages[p], |key.bytes|, maxKey)
      modifies `pages
      ensures Valid() && Grows(old(pages), sh, pages, sh) && Gains(old(pages), pages, key)
      ensures old(Minima(pages, sh)) ==> Minima(pages, sh)
      ensures KeepsWidth(old(pages), pages, |key.bytes|) && OnlyBelow(old(pages), sh, pages, p)
      ensures Writes(old(pages), old(sh), old(root), pages, sh, root)
    {
      hide Writes, Lt, Inv, Parented, Fits, TopOk, Sum, UsedBytes, Bounded, InRange, FitsBut, AllWidth;
      PageAt(pages, sh, p);
      assert key !in pages[p].entries;
      LeafSorted(pages, sh, p);
      var i := LowerBound(pages[p].entries, key);
      AddEntryQuiet(pages, sh, root, maxKey, p, i, key);
      AddRun(pages, sh, root, p, i, key);
      InsertEntryGains(pages, p, i, key);
      if AllWidth(pages, |key.bytes|) {
        InsertEntryWidth(pages, p, i, key, |key.bytes|);
      }
      SamePages(pages, sh, InsertEntry(pages, p, i, key), pageCount, firstLeaf);
      if Minima(pages, sh) {
        AddEntryMinima(pages, sh, p, i, key);
      }
      hide Holds, Grows, LeftmostLeaf, Quiet, Minima;
      pages := InsertEntry(pages, p, i, key);
    }

    /** Descends from `p`, splitting every child that could not take another entry before entering it. */
    method InsertDescend(p: PageNo, key: Key) returns (out: Outcome)
      requires Valid() && root != 0 && OnTrack(pages, sh, p, key) && p in sh.level && Sized(key, maxKey)
      requires !Holds(pages, key)
      modifies `pages, `sh, `pageCount
      ensures Valid() && Grows(old(pages), old(sh), pages, sh)
      ensures old(Minima(pages, sh)) ==> Minima(pages, sh)
      ensures out.Done? ==> Gains(old(pages), pages, key)
      ensures !out.Done? ==> SameKeys(old(pages), pages)
      ensures maxKey <= MAX_KEY && old(Covers(pages, sh, p, key) && !Full(pages[p], |key.bytes|, maxKey)) ==> out.Done?
      ensures KeepsWidth(old(pages), pages, |key.bytes|) && OnlyBelow(old(pages), old(sh), pages, p)
      ensures Writes(old(pages), old(sh), old(root), pages, sh, root)
      decreases sh.level[p]
    {
      hide Writes, Lt, Inv, Parented, Fits, TopOk, Sum, UsedBytes, Bounded, InRange, Grows, LeftmostLeaf, Holds, Minima;
      hide AllWidth, OnlyBelow;
      GrowsSelf(pages, sh);
      BelowSelf(pages, sh, p);
      NoWrites(pages, sh, root);
      var node := pages[p];
      if PastHigh(node, key) {
        return Retry;
      }
      if Full(node, |key.bytes|, maxKey) {
        return Retry;
      }
      if node.Leaf? {
        AddToLeaf(p, key);
        return Done;
      }
      var child := FindChild(node, key);
      QuietChildCovers(pages, sh, root, p, key);
      RoutedChild(pages, sh, p, key);
      ghost var was, shWas := pages, sh;
      if Full(pages[child], |key.bytes|, maxKey) {
        if pages[child].Leaf? {
          var ok := SplitLeafChild(p, child, key);
          return if ok then Done else TooLarge;
        }
        var ok, descend := SplitInternalChild(p, child, key);
        if !ok {
          return TooLarge;
        }
        child := descend;
      }
      ghost var mid, shMid := pages, sh;
      GrowsSelf(mid, shMid);
      NoWrites(mid, shMid, root);
      out := InsertDescend(child, key);
      BelowChild(was, shWas, mid, shMid, pages, p, child);
      GrowsAgain(was, shWas, mid, shMid, pages, sh);
      MoreWrites(was, shWas, root, mid, shMid, root, pages, sh, root);
    }

    static lemma EmptyHasRoom(len: nat, maxKey: nat)
      requires len <= maxKey
      ensures maxKey <= MAX_KEY ==> !Full(Leaf([], 0, None), len, maxKey)
    {
    }

    /** One round of the insertion loop: a first leaf, a root split, or a descent. */
    method Attempt(key: Key) returns (out: Outcome)
      requires Valid() && Sized(key, maxKey) && !Holds(pages, key)
      modifies `pages, `sh, `pageCount, `root, `firstLeaf
      ensures Valid()
      ensures old(Minima(pages, sh)) ==> Minima(pages, sh)
      ensures out.Done? ==> Gains(old(pages), pages, key)
      ensures !out.Done? ==> SameKeys(old(pages), pages)
      ensures out.Retry? && maxKey <= MAX_KEY ==> root in pages && !Full(pages[root], |key.bytes|, maxKey)
      ensures maxKey <= MAX_KEY ==> !out.TooLarge?
      ensures maxKey <= MAX_KEY && old(root != 0 && !Full(pages[root], |key.bytes|, maxKey)) ==> out.Done?
      ensures KeepsWidth(old(pages), pages, |key.bytes|)
      ensures !out.TooLarge? ==> Grown(old(pages), old(sh), old(root), |key.bytes|, maxKey, pages, sh, root, 1)
      ensures Published(old(pages), old(sh), old(root), pages, sh, root)
    {
      hide Lt, Inv, Parented, Fits, Sum, UsedBytes, Bounded, InRange, Grows, LeftmostLeaf, Holds, AllWidth, OnlyBelow;
      hide Writes, Raised, Minima;
      if root == 0 {
        FirstLeaf();
        SeedPublished(old(pages), old(sh), pages, sh, root);
        EmptyHasRoom(|key.bytes|, maxKey);
        return Retry;
      }
      RootIsRightmost(pages, sh, root);
      hide Grown;
      ghost var was, shWas, rootWas := pages, sh, root;
      if !Full(pages[root], |key.bytes|, maxKey) {
        out := InsertDescend(root, key);
        GrownBelow(was, shWas, rootWas, |key.bytes|, maxKey, pages, sh);
      } else {
        var ok := SplitRoot(|key.bytes|);
        if ok {
          GrownRaised(was, shWas, rootWas, |key.bytes|, maxKey, pages, sh, root);
        }
        out := if ok then Retry else TooLarge;
      }
    }

    method NoteKeyLen(len: nat)
      requires Valid()
      modifies `maxKey
      ensures Valid() && maxKey == (if old(maxKey) < len then len else old(maxKey))
    {
      if len > maxKey {
        if root != 0 {
          FitsMono(pages, maxKey, len);
        }
        maxKey := len;
      }
    }

    /** Adds an entry no longer than MAX_KEY bytes; it never fails and keeps everything else. */
    method Insert(key: Key)
      requires Valid() && 0 < |key.bytes| <= MAX_KEY && maxKey <= MAX_KEY && !Holds(pages, key)
      modifies this
      ensures Valid() && maxKey == (if old(maxKey) < |key.bytes| then |key.bytes| else old(maxKey))
      ensures Gains(old(pages), pages, key)
      ensures old(Minima(pages, sh)) ==> Minima(pages, sh)
      ensures KeepsWidth(old(pages), pages, |key.bytes|)
      ensures Grown(old(pages), old(sh), old(root), |key.bytes|, maxKey, pages, sh, root, 2)
      ensures Published(old(pages), old(sh), old(root), pages, sh, root)
    {
      NoteKeyLen(|key.bytes|);
      SameSelf(pages);
      hide Valid, Holds, Full, SameKeys, Gains, Minima, Grown, AllWidth, Published;
      ghost var was, shWas, rootWas, len := pages, sh, root, |key.bytes|;
      var out := Retry;
      ghost var round := 2;
      while out.Retry?
        invariant Valid() && maxKey == (if old(maxKey) < |key.bytes| then |key.bytes| else old(maxKey))
        invariant out.Retry? ==> SameKeys(was, pages)
        invariant out.Done? ==> Gains(was, pages, key)
        invariant !out.TooLarge?
        invariant Minima(was, shWas) ==> Minima(pages, sh)
        invariant round < 2 ==> out.Done? || (root in pages && !Full(pages[root], len, maxKey))
        invariant round >= 1 || out.Done?
        invariant KeepsWidth(was, pages, len)
        invariant round < 2 ==> root != 0 && Published(was, shWas, rootWas, pages, sh, root)
        invariant round == 2 ==> pages == was && sh == shWas && root == rootWas
        invariant out.Done? ==> Grown(was, shWas, rootWas, len, maxKey, pages, sh, root, 2)
        invariant out.Retry? && round < 2 ==> Grown(was, shWas, rootWas, len, maxKey, pages, sh, root, 1)
        invariant out.Retry? && round < 2 ==> rootWas == 0 || (rootWas in was && Full(was[rootWas], len, maxKey))
        decreases round
      {
        RootListed();
        ghost var ready := root != 0 && !Full(pages[root], len, maxKey);
        ghost var now, shNow, rootNow := pages, sh, root;
        StillAbsent(was, now, key);
        out := Attempt(key);
        SameThen(was, now, pages, key);
        KeptTwice(was, now, pages, len);
        if round == 2 {
          GrownMore(was, shWas, rootWas, pages, sh, root, len, maxKey);
        } else {
          GrownThen(was, shWas, rootWas, now, shNow, rootNow, pages, sh, root, len, maxKey);
          PublishedThen(was, shWas, rootWas, now, shNow, rootNow, pages, sh, root);
        }
        RootListed();
        round := if ready then 0 else 1;
      }
    }

    lemma RootListed()
      requires Valid()
      ensures root != 0 ==> root in pages
      ensures root in pages ==> root != 0
    {
    }

    method FirstLeaf()
      requires Valid() && root == 0
      modifies `pages, `sh, `pageCount, `root, `firstLeaf
      ensures Valid() && root in pages && SameKeys(old(pages), pages)
      ensures pages[root] == Leaf([], 0, None) && root in sh.level && sh.level[root] == 0
      ensures root != 0 && Still(pages, sh, root) == Seed(root)
      ensures old(Minima(pages, sh)) ==> Minima(pages, sh)
      ensures forall w :: AllWidth(pages, w)
    {
      var n := AllocPage();
      root, firstLeaf := n, n;
      pages := map[n := Leaf([], 0, None)];
      sh := Shape(map[n := 0], map[n := None], map[n := 0.0]);
    }
  }

  /** The child a key is routed to is one of the node's children. */
  lemma RoutedChild(pages: Pages, sh: Shape, p: PageNo, key: Key)
    requires Inv(pages, sh) && p in pages && pages[p].Internal?
    ensures HasChild(pages[p], ChildFor(pages[p].first, pages[p].seps, key))
  {
    assert PageOk(pages, sh, p);
    var i := ChildForAt(pages[p].first, pages[p].seps, key);
    assert ChildAt(pages[p], i) == ChildFor(pages[p].first, pages[p].seps, key);
  }

  lemma SamePages(pages: Pages, sh: Shape, pages': Pages, pageCount: nat, first: PageNo)
    requires pages'.Keys == pages.Keys && InRange(pages, pageCount) && LeftmostLeaf(pages, sh, first)
    ensures Grows(pages, sh, pages', sh) && InRange(pages', pageCount) && LeftmostLeaf(pages', sh, first)
  {
  }

  lemma LeafSorted(pages: Pages, sh: Shape, p: PageNo)
    requires Inv(pages, sh) && p in pages && pages[p].Leaf?
    ensures Sorted(pages[p].entries)
  {
    assert PageOk(pages, sh, p);
  }

  lemma FitsAt(pages: Pages, maxKey: nat, p: PageNo)
    requires Fits(pages, maxKey) && p in pages
    ensures UsedBytes(pages[p]) <= PAGE_SIZE && Bounded(pages[p], maxKey)
  {
  }

  /** An index rebuilt from the rows of its table holds exactly their entries. */
  method Rebuild(keys: seq<Key>) returns (tree: BTree)
    requires forall i, j :: 0 <= i < j < |keys| ==> keys[i] != keys[j]
    requires forall i :: 0 <= i < |keys| ==> 0 < |keys[i].bytes| <= MAX_KEY
    ensures fresh(tree) && tree.Valid() && Minima(tree.pages, tree.sh)
    ensures forall k :: Holds(tree.pages, k) <==> k in keys
  {
    tree := new BTree();
    hide Holds, Minima, BTree.Valid;
    for n := 0 to |keys|
      invariant fresh(tree) && tree.Valid() && tree.maxKey <= MAX_KEY && Minima(tree.pages, tree.sh)
      invariant forall k :: Holds(tree.pages, k) <==> k in keys[..n]
    {
      assert keys[..n + 1] == keys[..n] + [keys[n]];
      tree.Insert(keys[n]);
    }
    assert keys[..|keys|] == keys;
  }
}
