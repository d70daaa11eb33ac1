/** Each step of an insertion leads from a quiet tree to a quiet tree. */
module BLinkSteps {
  import opened Options
  import opened KeyOrder
  import opened BLink
  import opened BLinkSplit
  import opened BLinkQuiet

  // ------------------------------------------------------------------ bytes

  function InsertAt<T>(s: seq<T>, i: nat, x: T): seq<T>
    requires i <= |s|
  {
    s[..i] + [x] + s[i..]
  }

  lemma SumInsert(a: seq<nat>, i: nat, x: nat)
    requires i <= |a|
    ensures Sum(InsertAt(a, i, x)) == Sum(a) + x
  {
    SumAppend(a[..i] + [x], a[i..]);
    SumAppend(a[..i], [x]);
    assert [x][..0] == [];
    SumCut(a, i);
  }

  lemma LeafInsertBytes(entries: seq<Key>, i: nat, k: Key)
    requires i <= |entries|
    ensures Sum(LeafSizes(InsertAt(entries, i, k))) == Sum(LeafSizes(entries)) + LEAF_OVERHEAD + |k.bytes|
  {
    assert LeafSizes(InsertAt(entries, i, k)) == InsertAt(LeafSizes(entries), i, LEAF_OVERHEAD + |k.bytes|);
    SumInsert(LeafSizes(entries), i, LEAF_OVERHEAD + |k.bytes|);
  }

  lemma SepInsertBytes(seps: seq<Sep>, i: nat, s: Sep)
    requires i <= |seps|
    ensures Sum(SepSizes(InsertAt(seps, i, s))) == Sum(SepSizes(seps)) + INTERNAL_OVERHEAD + |s.key.bytes|
  {
    assert SepSizes(InsertAt(seps, i, s)) == InsertAt(SepSizes(seps), i, INTERNAL_OVERHEAD + |s.key.bytes|);
    SumInsert(SepSizes(seps), i, INTERNAL_OVERHEAD + |s.key.bytes|);
  }

  /** Header sizes of the left half for every possible cut. */
  function LeafHeads(entries: seq<Key>): (r: seq<nat>)
    ensures |r| == |entries| && forall i :: 0 <= i < |r| ==> r[i] == HeaderLen(Some(entries[i]))
  {
    seq(|entries|, i requires 0 <= i < |entries| => HeaderLen(Some(entries[i])))
  }

  function SepHeads(seps: seq<Sep>): (r: seq<nat>)
    ensures |r| == |seps| && forall i :: 0 <= i < |r| ==> r[i] == HeaderLen(Some(seps[i].key))
  {
    seq(|seps|, i requires 0 <= i < |seps| => HeaderLen(Some(seps[i].key)))
  }

  lemma LeafCutBytes(entries: seq<Key>, high: Option<Key>, next: PageNo, n: PageNo, m: nat)
    requires m < |entries|
    ensures UsedBytes(Leaf(entries[..m], n, Some(entries[m]))) == LeftBytes(LeafSizes(entries), LeafHeads(entries), m)
    ensures UsedBytes(Leaf(entries[m..], next, high)) == RightBytes(LeafSizes(entries), HeaderLen(high), 0, m)
  {
    assert LeafSizes(entries[..m]) == LeafSizes(entries)[..m];
    assert LeafSizes(entries[m..]) == LeafSizes(entries)[m..];
    SumCut(LeafSizes(entries), m);
  }

  lemma SepCutBytes(first: PageNo, seps: seq<Sep>, high: Option<Key>, next: PageNo, n: PageNo, m: nat)
    requires m < |seps|
    ensures UsedBytes(Internal(first, seps[..m], n, Some(seps[m].key))) == LeftBytes(SepSizes(seps), SepHeads(seps), m)
    ensures UsedBytes(Internal(seps[m].child, seps[m + 1..], next, high)) ==
            RightBytes(SepSizes(seps), HeaderLen(high), 1, m)
  {
    assert SepSizes(seps[..m]) == SepSizes(seps)[..m];
    assert SepSizes(seps[m + 1..]) == SepSizes(seps)[m + 1..];
    SumCut(SepSizes(seps), m + 1);
  }

  // ------------------------------------------------------------------ keys held

  ghost predicate SameKeys(pages: Pages, pages': Pages) {
    forall k :: Holds(pages', k) <==> Holds(pages, k)
  }

  ghost predicate Gains(pages: Pages, pages': Pages, key: Key) {
    forall k :: Holds(pages', k) <==> Holds(pages, k) || k == key
  }

  lemma InsertEntryGains(pages: Pages, p: PageNo, i: nat, key: Key)
    requires p in pages && pages[p].Leaf? && i <= |pages[p].entries|
    ensures Gains(pages, InsertEntry(pages, p, i, key), key)
  {
    var pages' := InsertEntry(pages, p, i, key);
    var was, now := pages[p].entries, pages'[p].entries;
    assert now[i] == key;
    forall k
      ensures Holds(pages', k) <==> Holds(pages, k) || k == key
    {
      assert k in was ==> k in now by {
        if k in was {
          var j :| 0 <= j < |was| && was[j] == k;
          assert now[if j < i then j else j + 1] == k;
        }
      }
      if Holds(pages, k) {
        var q :| q in pages && pages[q].Leaf? && k in pages[q].entries;
        assert q in pages' && pages'[q].Leaf? && k in pages'[q].entries;
      }
      if Holds(pages', k) {
        var q :| q in pages' && pages'[q].Leaf? && k in pages'[q].entries;
        assert q in pages && (q != p ==> pages[q] == pages'[q]);
      }
    }
  }

  lemma SplitLeafKeeps(pages: Pages, p: PageNo, n: PageNo, m: nat)
    requires p in pages && pages[p].Leaf? && m < |pages[p].entries| && n !in pages
    ensures SameKeys(pages, SplitLeaf(pages, p, n, m))
  {
    var pages' := SplitLeaf(pages, p, n, m);
    var all := pages[p].entries;
    assert all == all[..m] + all[m..];
    forall k
      ensures Holds(pages', k) <==> Holds(pages, k)
    {
      if Holds(pages, k) {
        var q :| q in pages && pages[q].Leaf? && k in pages[q].entries;
        var r := if q == p && k !in all[..m] then n else q;
        assert r in pages' && pages'[r].Leaf? && k in pages'[r].entries;
      }
      if Holds(pages', k) {
        var q :| q in pages' && pages'[q].Leaf? && k in pages'[q].entries;
        var r := if q == n then p else q;
        assert r in pages && pages[r].Leaf? && k in pages[r].entries;
      }
    }
  }

  /** Rewriting and adding internal nodes leaves the keys alone. */
  lemma InternalsKeep(pages: Pages, pages': Pages)
    requires pages.Keys <= pages'.Keys
    requires forall q :: q in pages && pages[q].Leaf? ==> pages'[q] == pages[q]
    requires forall q :: q in pages' && pages'[q].Leaf? ==> q in pages && pages[q] == pages'[q]
    ensures SameKeys(pages, pages')
  {
    forall k
      ensures Holds(pages', k) <==> Holds(pages, k)
    {
      if Holds(pages, k) {
        var q :| q in pages && pages[q].Leaf? && k in pages[q].entries;
        assert q in pages' && pages'[q].Leaf? && k in pages'[q].entries;
      }
      if Holds(pages', k) {
        var q :| q in pages' && pages'[q].Leaf? && k in pages'[q].entries;
        assert q in pages && pages[q].Leaf? && k in pages[q].entries;
      }
    }
  }

  // ------------------------------------------------------------------ parents

  lemma PostKeepsChild(node: Node, i: nat, sep: Sep, d: PageNo)
    requires node.Internal? && i <= |node.seps| && (HasChild(node, d) || d == sep.child)
    ensures HasChild(node.(seps := node.seps[..i] + [sep] + node.seps[i..]), d)
  {
    var node' := node.(seps := node.seps[..i] + [sep] + node.seps[i..]);
    if d == sep.child {
      assert ChildAt(node', i + 1) == d;
    } else {
      var j :| 0 <= j <= |node.seps| && ChildAt(node, j) == d;
      assert ChildAt(node', if j <= i then j else j + 1) == d;
    }
  }

  lemma CutKeepsChild(node: Node, m: nat, next: PageNo, high: Option<Key>, n: PageNo, d: PageNo)
    requires node.Internal? && m < |node.seps| && HasChild(node, d)
    ensures || HasChild(Internal(node.first, node.seps[..m], n, Some(node.seps[m].key)), d)
            || HasChild(Internal(node.seps[m].child, node.seps[m + 1..], next, high), d)
  {
    var left := Internal(node.first, node.seps[..m], n, Some(node.seps[m].key));
    var right := Internal(node.seps[m].child, node.seps[m + 1..], next, high);
    var j :| 0 <= j <= |node.seps| && ChildAt(node, j) == d;
    if j <= m {
      assert ChildAt(left, j) == d;
    } else {
      assert ChildAt(right, j - m - 1) == d;
    }
  }

  /** Page `d` still has a parent if its old parent's children are all accounted for. */
  ghost predicate Adopts(pages: Pages, pages': Pages, q: PageNo) {
    q in pages && forall d :: HasChild(pages[q], d) ==> exists r :: r in pages' && HasChild(pages'[r], d)
  }

  lemma ParentedAfter(pages: Pages, pages': Pages, root: PageNo)
    requires Parented(pages, root)
    requires forall q :: q in pages ==> Adopts(pages, pages', q)
    requires forall d :: d in pages' && d !in pages && d != root ==> exists r :: r in pages' && HasChild(pages'[r], d)
    ensures Parented(pages', root)
  {
    hide HasChild;
    forall d | d in pages' && d != root
      ensures exists r :: r in pages' && HasChild(pages'[r], d)
    {
      if d in pages {
        var q :| q in pages && HasChild(pages[q], d);
        assert Adopts(pages, pages', q);
      }
    }
  }

  // ------------------------------------------------------------------ the steps

  lemma AddEntryFits(pages: Pages, maxKey: nat, p: PageNo, i: nat, k: Key)
    requires Fits(pages, maxKey) && p in pages && pages[p].Leaf? && i <= |pages[p].entries| && Sized(k, maxKey)
    ensures var pages' := InsertEntry(pages, p, i, k);
            && FitsBut(pages', p, maxKey) && Bounded(pages'[p], maxKey)
            && UsedBytes(pages'[p]) == UsedBytes(pages[p]) + LEAF_OVERHEAD + |k.bytes|
            && (!Full(pages[p], |k.bytes|, maxKey) ==> Fits(pages', maxKey))
  {
    hide Sum;
    var pages' := InsertEntry(pages, p, i, k);
    LeafInsertBytes(pages[p].entries, i, k);
    assert pages'[p].entries == InsertAt(pages[p].entries, i, k);
    assert Bounded(pages[p], maxKey);
    hide UsedBytes;
    forall q | q in pages' && q != p
      ensures UsedBytes(pages'[q]) <= PAGE_SIZE && Bounded(pages'[q], maxKey)
    {
      assert pages'[q] == pages[q];
    }
  }

  lemma AddEntryQuiet(pages: Pages, sh: Shape, root: PageNo, maxKey: nat, p: PageNo, i: nat, k: Key)
    requires Quiet(pages, sh, root, maxKey) && p in pages && pages[p].Leaf? && i <= |pages[p].entries|
    requires p in sh.low && Covers(pages, sh, p, k) && Sized(k, maxKey)
    requires forall j :: 0 <= j < i ==> Lt(pages[p].entries[j], k)
    requires forall j :: i <= j < |pages[p].entries| ==> Lt(k, pages[p].entries[j])
    ensures var pages' := InsertEntry(pages, p, i, k);
            && Inv(pages', sh) && TopOk(pages', sh, root) && Parented(pages', root) && FitsBut(pages', p, maxKey)
            && UsedBytes(pages'[p]) == UsedBytes(pages[p]) + LEAF_OVERHEAD + |k.bytes| && Bounded(pages'[p], maxKey)
            && (!Full(pages[p], |k.bytes|, maxKey) ==> Quiet(pages', sh, root, maxKey))
  {
    InsertEntryOk(pages, sh, p, i, k);
    AddEntryFits(pages, maxKey, p, i, k);
    hide Lt, Inv, Parented, UsedBytes, Bounded, FitsBut, Fits, Sum;
    var pages' := InsertEntry(pages, p, i, k);
    forall q | q in pages
      ensures Adopts(pages, pages', q)
    {
      LeafRewriteAdopts(pages, pages', p, q);
    }
    ParentedAfter(pages, pages', root);
  }

  lemma LeafRewriteAdopts(pages: Pages, pages': Pages, p: PageNo, q: PageNo)
    requires p in pages && q in pages && pages[p].Leaf? && pages.Keys <= pages'.Keys
    requires q != p ==> pages'[q] == pages[q]
    ensures Adopts(pages, pages', q)
  {
  }

  /** Every page but `p` fits. */
  ghost predicate FitsBut(pages: Pages, p: PageNo, maxKey: nat) {
    forall q :: q in pages && q != p ==> UsedBytes(pages[q]) <= PAGE_SIZE && Bounded(pages[q], maxKey)
  }

  /** `pages1` results from cutting `c`, the child of `p` at position `idx`, at `sep`. */
  ghost predicate Cut(pages: Pages, sh: Shape, pages1: Pages, p: PageNo, idx: nat, c: PageNo, n: PageNo, sep: Key,
                      r: real) {
    && p in pages && pages[p].Internal? && idx <= |pages[p].seps| && c == ChildAt(pages[p], idx)
    && SplitShape(pages, sh, pages1, c, n, sep, r)
    && forall d :: HasChild(pages[c], d) ==> HasChild(pages1[c], d) || HasChild(pages1[n], d)
  }

  /** The new separator falls between its neighbours in the parent. */
  lemma SepFitsIn(pages: Pages, sh: Shape, pages1: Pages, p: PageNo, idx: nat, c: PageNo, n: PageNo, sep: Key, r: real)
    requires Inv(pages, sh) && Cut(pages, sh, pages1, p, idx, c, n, sep, r)
    ensures p != c && p != n && p in pages1 && pages1[p] == pages[p] && p in sh.low
    ensures NotOver(sh.low[p], Some(sep)) && NotOver(Some(sep), pages[p].high)
    ensures forall j :: 0 <= j < idx ==> !Lt(sep, pages[p].seps[j].key)
    ensures forall j :: idx <= j < |pages[p].seps| ==> !Lt(pages[p].seps[j].key, sep)
  {
    Order();
    hide Lt, Inv, HasChild;
    ChildFacts(pages, sh, p, idx);
    ChildEnds(pages, sh, p, idx);
    PageAt(pages, sh, p);
    var node := pages[p];
    forall j | 0 <= j < idx
      ensures !Lt(sep, node.seps[j].key)
    {
      assert j < idx - 1 ==> !Lt(node.seps[idx - 1].key, node.seps[j].key);
    }
    if idx < |node.seps| {
      assert !Lt(node.seps[idx].key, sep);
      assert NotOver(Some(node.seps[idx].key), node.high);
    }
    forall j | idx <= j < |node.seps|
      ensures !Lt(node.seps[j].key, sep)
    {
      assert idx < j ==> !Lt(node.seps[j].key, node.seps[idx].key);
    }
  }

  /** The new page ranks between its neighbours in the parent. */
  lemma RankFitsIn(pages: Pages, sh: Shape, pages1: Pages, p: PageNo, idx: nat, c: PageNo, n: PageNo, sep: Key, r: real)
    requires Inv(pages, sh) && Cut(pages, sh, pages1, p, idx, c, n, sep, r)
    ensures Rank(sh, p) < r && (pages[p].high.Some? ==> r < Rank(sh, pages[p].next))
    ensures forall j :: 0 <= j < idx ==> Rank(sh, pages[p].seps[j].child) < r
    ensures forall j :: idx <= j < |pages[p].seps| ==> r < Rank(sh, pages[p].seps[j].child)
  {
    hide Lt, Inv, HasChild;
    ChildOrder(pages, sh, p, idx, idx);
    ChildFacts(pages, sh, p, idx);
    var node := pages[p];
    forall j | 0 <= j <= |node.seps|
      ensures if j <= idx then Rank(sh, ChildAt(node, j)) < r else r < Rank(sh, ChildAt(node, j))
    {
      ChildOrder(pages, sh, p, idx, j);
      ChildOrder(pages, sh, p, j, idx);
      if j > idx {
        ChildFacts(pages, sh, p, j);
        ApartAt(pages, sh, c, ChildAt(node, j));
      }
    }
    assert forall j :: 0 <= j < |node.seps| ==> ChildAt(node, j + 1) == node.seps[j].child;
    if node.high.Some? {
      PageAt(pages, sh, p);
      PageAt(pages, sh, node.next);
      ChildFacts(pages, sh, node.next, 0);
      ChildOrder(pages, sh, node.next, 0, 0);
      ApartAt(pages, sh, c, pages[node.next].first);
    }
  }

  lemma PostInv(pages: Pages, sh: Shape, pages1: Pages, p: PageNo, idx: nat, c: PageNo, n: PageNo, sep: Key, r: real)
    requires Inv(pages, sh) && Cut(pages, sh, pages1, p, idx, c, n, sep, r)
    requires Inv(pages1, AddPage(sh, n, sh.level[c], Some(sep), r))
    ensures p in pages1 && pages1[p] == pages[p]
    ensures Inv(PostSep(pages1, p, idx, Sep(sep, n)), AddPage(sh, n, sh.level[c], Some(sep), r))
  {
    hide Lt, Inv, HasChild;
    SepFitsIn(pages, sh, pages1, p, idx, c, n, sep, r);
    RankFitsIn(pages, sh, pages1, p, idx, c, n, sep, r);
    ChildFacts(pages, sh, p, idx);
    OldPages(pages, sh, p, n);
    PostSepOk(pages1, AddPage(sh, n, sh.level[c], Some(sep), r), p, idx, Sep(sep, n));
  }

  /** Nothing stored refers to a page that is not there. */
  lemma OldPages(pages: Pages, sh: Shape, p: PageNo, n: PageNo)
    requires Inv(pages, sh) && p in pages && pages[p].Internal? && n !in pages
    ensures pages[p].high.Some? ==> pages[p].next != n
    ensures forall j :: 0 <= j < |pages[p].seps| ==> pages[p].seps[j].child != n
  {
    assert PageOk(pages, sh, p);
  }

  lemma PostParented(pages: Pages, sh: Shape, root: PageNo, pages1: Pages, p: PageNo, idx: nat, c: PageNo, n: PageNo,
                     sep: Key, r: real)
    requires Parented(pages, root) && Cut(pages, sh, pages1, p, idx, c, n, sep, r) && p != c && p != n
    requires pages1[p] == pages[p]
    ensures Parented(PostSep(pages1, p, idx, Sep(sep, n)), root)
  {
    hide HasChild, Parented;
    var pages2 := PostSep(pages1, p, idx, Sep(sep, n));
    forall q | q in pages
      ensures Adopts(pages, pages2, q)
    {
      forall d | HasChild(pages[q], d)
        ensures exists r :: r in pages2 && HasChild(pages2[r], d)
      {
        if q == p {
          PostKeepsChild(pages[p], idx, Sep(sep, n), d);
          assert HasChild(pages2[p], d);
        } else if q == c {
          assert HasChild(pages2[c], d) || HasChild(pages2[n], d);
        } else {
          assert q in pages2 && HasChild(pages2[q], d);
        }
      }
    }
    PostKeepsChild(pages[p], idx, Sep(sep, n), n);
    assert HasChild(pages2[p], n);
    ParentedAfter(pages, pages2, root);
  }

  lemma PostFits(pages: Pages, maxKey: nat, pages1: Pages, p: PageNo, idx: nat, c: PageNo, n: PageNo, sep: Key)
    requires FitsBut(pages, c, maxKey) && p in pages && p != c && p != n && pages[p].Internal? && idx <= |pages[p].seps|
    requires pages1.Keys == pages.Keys + {n} && n in pages1 && c in pages1
    requires forall q :: q in pages && q != c ==> pages1[q] == pages[q]
    requires !Full(pages[p], 0, maxKey) && Sized(sep, maxKey)
    requires UsedBytes(pages1[c]) <= PAGE_SIZE && Bounded(pages1[c], maxKey) && UsedBytes(pages1[n]) <= PAGE_SIZE
    requires Bounded(pages1[n], maxKey)
    ensures Fits(PostSep(pages1, p, idx, Sep(sep, n)), maxKey)
  {
    hide Sum;
    var pages2 := PostSep(pages1, p, idx, Sep(sep, n));
    SepInsertBytes(pages[p].seps, idx, Sep(sep, n));
    assert pages2[p].seps == InsertAt(pages[p].seps, idx, Sep(sep, n));
    assert Bounded(pages[p], maxKey);
    assert UsedBytes(pages2[p]) <= PAGE_SIZE && Bounded(pages2[p], maxKey);
    hide UsedBytes, Bounded;
    forall q | q in pages2
      ensures UsedBytes(pages2[q]) <= PAGE_SIZE && Bounded(pages2[q], maxKey)
    {
      assert q == p || q == c || q == n || pages2[q] == pages[q];
    }
  }

  /** Cutting a child and posting the separator leads back to a quiet tree. */
  lemma PostQuiet(pages: Pages, sh: Shape, root: PageNo, maxKey: nat, pages1: Pages, p: PageNo, idx: nat, c: PageNo,
                  n: PageNo, sep: Key, r: real)
    requires Inv(pages, sh) && TopOk(pages, sh, root) && Parented(pages, root) && FitsBut(pages, c, maxKey)
    requires Cut(pages, sh, pages1, p, idx, c, n, sep, r) && Inv(pages1, AddPage(sh, n, sh.level[c], Some(sep), r))
    requires !Full(pages[p], 0, maxKey) && Sized(sep, maxKey)
    requires UsedBytes(pages1[c]) <= PAGE_SIZE && Bounded(pages1[c], maxKey) && UsedBytes(pages1[n]) <= PAGE_SIZE
    requires Bounded(pages1[n], maxKey)
    ensures p in pages1 && pages1[p] == pages[p]
    ensures Quiet(PostSep(pages1, p, idx, Sep(sep, n)), AddPage(sh, n, sh.level[c], Some(sep), r), root, maxKey)
  {
    hide Lt, Inv, Parented, HasChild, UsedBytes, Bounded, Fits, FitsBut, Sum, PageOk, NotOver;
    SepFitsIn(pages, sh, pages1, p, idx, c, n, sep, r);
    PostInv(pages, sh, pages1, p, idx, c, n, sep, r);
    PostParented(pages, sh, root, pages1, p, idx, c, n, sep, r);
    PostFits(pages, maxKey, pages1, p, idx, c, n, sep);
    PageLevel(pages, sh, c);
  }

  // ------------------------------------------------------------------ whole splits below a parent

  /** A key's place among sorted entries. */
  ghost predicate PlaceFor(entries: seq<Key>, i: nat, k: Key) {
    && i <= |entries|
    && (forall j :: 0 <= j < i ==> Lt(entries[j], k))
    && (forall j :: i <= j < |entries| ==> Lt(k, entries[j]))
  }

  /** Parent, position and child of a split; the parent has room, `n` is a new page. */
  ghost predicate Site(pages: Pages, p: PageNo, idx: nat, c: PageNo, n: PageNo, maxKey: nat) {
    && p in pages && pages[p].Internal? && idx <= |pages[p].seps| && c == ChildAt(pages[p], idx) && c in pages
    && n !in pages && n != 0 && !Full(pages[p], 0, maxKey)
  }

  function LeafCut(pages: Pages, p: PageNo, idx: nat, c: PageNo, n: PageNo, i: nat, key: Key, m: nat): Pages
    requires p in pages && c in pages && p != c && p != n && pages[p].Internal? && idx <= |pages[p].seps|
    requires pages[c].Leaf? && i <= |pages[c].entries| && m <= |pages[c].entries|
  {
    var all := InsertAt(pages[c].entries, i, key);
    PostSep(SplitLeaf(InsertEntry(pages, c, i, key), c, n, m), p, idx, Sep(all[m], n))
  }

  /** The leaf takes the key and is cut: both halves fit. */
  lemma LeafCutHalves(pages: Pages, sh: Shape, root: PageNo, maxKey: nat, p: PageNo, idx: nat, c: PageNo, n: PageNo,
                      i: nat, key: Key, m: nat)
    requires Quiet(pages, sh, root, maxKey) && Site(pages, p, idx, c, n, maxKey) && pages[c].Leaf?
    requires PlaceFor(pages[c].entries, i, key)
    requires c in sh.low && Covers(pages, sh, c, key) && Sized(key, maxKey)
    requires var all := InsertAt(pages[c].entries, i, key);
             0 < m < |all| && Fitting(LeafSizes(all), LeafHeads(all), HeaderLen(pages[c].high), 0, m)
    ensures c in sh.level
    ensures var a := InsertEntry(pages, c, i, key); var all := InsertAt(pages[c].entries, i, key);
            && Inv(a, sh) && TopOk(a, sh, root) && Parented(a, root) && FitsBut(a, c, maxKey) && a[c].entries == all
            && var b := SplitLeaf(a, c, n, m);
            && SplitShape(a, sh, b, c, n, all[m], RankAfter(pages, sh, c))
            && Inv(b, AddPage(sh, n, sh.level[c], Some(all[m]), RankAfter(pages, sh, c))) && Sized(all[m], maxKey)
            && UsedBytes(b[c]) <= PAGE_SIZE && Bounded(b[c], maxKey) && UsedBytes(b[n]) <= PAGE_SIZE
            && Bounded(b[n], maxKey)
  {
    hide Lt, Inv, Parented, Sum, UsedBytes, Bounded, Fits, FitsBut, PageOk, TopOk, LeafSizes, LeafHeads, SplitShape;
    AddEntryQuiet(pages, sh, root, maxKey, c, i, key);
    var a := InsertEntry(pages, c, i, key);
    var all := InsertAt(pages[c].entries, i, key);
    assert a[c].entries == all && a[c].high == pages[c].high;
    SplitLeafOk(a, sh, c, n, m);
    LeafCutBytes(all, pages[c].high, pages[c].next, n, m);
    LeafHalvesBounded(a[c], n, m, maxKey);
    ApartAt(a, sh, c, p);
  }

  lemma LeafCutQuiet(pages: Pages, sh: Shape, root: PageNo, maxKey: nat, p: PageNo, idx: nat, c: PageNo, n: PageNo,
                     i: nat, key: Key, m: nat)
    requires Quiet(pages, sh, root, maxKey) && Site(pages, p, idx, c, n, maxKey) && pages[c].Leaf?
    requires PlaceFor(pages[c].entries, i, key)
    requires c in sh.low && Covers(pages, sh, c, key) && Sized(key, maxKey)
    requires var all := InsertAt(pages[c].entries, i, key);
             0 < m < |all| && Fitting(LeafSizes(all), LeafHeads(all), HeaderLen(pages[c].high), 0, m)
    ensures p != n && c in sh.level
    ensures var all := InsertAt(pages[c].entries, i, key);
            Quiet(LeafCut(pages, p, idx, c, n, i, key, m),
                  AddPage(sh, n, sh.level[c], Some(all[m]), RankAfter(pages, sh, c)), root, maxKey)
  {
    hide Lt, Inv, Parented, Sum, UsedBytes, Bounded, Fits, FitsBut, PageOk, TopOk, Fitting, Sorted, SplitShape;
    LeafCutHalves(pages, sh, root, maxKey, p, idx, c, n, i, key, m);
    var a := InsertEntry(pages, c, i, key);
    var all := InsertAt(pages[c].entries, i, key);
    var b := SplitLeaf(a, c, n, m);
    assert a[p] == pages[p];
    assert Cut(a, sh, b, p, idx, c, n, all[m], RankAfter(pages, sh, c));
    PostQuiet(a, sh, root, maxKey, b, p, idx, c, n, all[m], RankAfter(pages, sh, c));
  }

  lemma LeafCutGains(pages: Pages, p: PageNo, idx: nat, c: PageNo, n: PageNo, i: nat, key: Key, m: nat)
    requires p in pages && c in pages && p != c && p != n && pages[p].Internal? && idx <= |pages[p].seps|
    requires pages[c].Leaf? && i <= |pages[c].entries| && m <= |pages[c].entries| && n !in pages
    ensures Gains(pages, LeafCut(pages, p, idx, c, n, i, key, m), key)
  {
    hide Holds;
    var a := InsertEntry(pages, c, i, key);
    InsertEntryGains(pages, c, i, key);
    SplitLeafKeeps(a, c, n, m);
    var b := SplitLeaf(a, c, n, m);
    InternalsKeep(b, LeafCut(pages, p, idx, c, n, i, key, m));
  }

  lemma LeafHalvesBounded(node: Node, n: PageNo, m: nat, maxKey: nat)
    requires node.Leaf? && m < |node.entries| && Bounded(node, maxKey)
    ensures Bounded(Leaf(node.entries[..m], n, Some(node.entries[m])), maxKey)
    ensures Bounded(Leaf(node.entries[m..], node.next, node.high), maxKey)
    ensures Sized(node.entries[m], maxKey)
  {
  }

  lemma InternalHalvesBounded(node: Node, n: PageNo, m: nat, maxKey: nat)
    requires node.Internal? && m < |node.seps| && Bounded(node, maxKey)
    ensures Bounded(Internal(node.first, node.seps[..m], n, Some(node.seps[m].key)), maxKey)
    ensures Bounded(Internal(node.seps[m].child, node.seps[m + 1..], node.next, node.high), maxKey)
    ensures Sized(node.seps[m].key, maxKey)
  {
  }

  function InternalCut(pages: Pages, p: PageNo, idx: nat, c: PageNo, n: PageNo, m: nat): Pages
    requires p in pages && c in pages && p != c && p != n && pages[p].Internal? && idx <= |pages[p].seps|
    requires pages[c].Internal? && m < |pages[c].seps|
  {
    PostSep(SplitInternal(pages, c, n, m), p, idx, Sep(pages[c].seps[m].key, n))
  }

  lemma InternalCutAdopts(pages: Pages, c: PageNo, n: PageNo, m: nat)
    requires c in pages && c != n && pages[c].Internal? && m < |pages[c].seps|
    ensures var b := SplitInternal(pages, c, n, m);
            forall d :: HasChild(pages[c], d) ==> HasChild(b[c], d) || HasChild(b[n], d)
  {
    hide HasChild;
    forall d | HasChild(pages[c], d)
      ensures var b := SplitInternal(pages, c, n, m); HasChild(b[c], d) || HasChild(b[n], d)
    {
      CutKeepsChild(pages[c], m, pages[c].next, pages[c].high, n, d);
    }
  }

  lemma InternalCutHalves(pages: Pages, sh: Shape, maxKey: nat, c: PageNo, n: PageNo, m: nat)
    requires Inv(pages, sh) && Fits(pages, maxKey) && c in pages && n !in pages && n != 0 && pages[c].Internal?
    requires m < |pages[c].seps|
    requires Fitting(SepSizes(pages[c].seps), SepHeads(pages[c].seps), HeaderLen(pages[c].high), 1, m)
    ensures c in sh.level
    ensures var b, sep, r := SplitInternal(pages, c, n, m), pages[c].seps[m].key, Rank(sh, pages[c].seps[m].child);
            && SplitShape(pages, sh, b, c, n, sep, r) && Inv(b, AddPage(sh, n, sh.level[c], Some(sep), r))
            && Sized(sep, maxKey)
            && UsedBytes(b[c]) <= PAGE_SIZE && Bounded(b[c], maxKey) && UsedBytes(b[n]) <= PAGE_SIZE
            && Bounded(b[n], maxKey)
            && UsedBytes(b[c]) == LeftBytes(SepSizes(pages[c].seps), SepHeads(pages[c].seps), m)
            && UsedBytes(b[n]) == RightBytes(SepSizes(pages[c].seps), HeaderLen(pages[c].high), 1, m)
  {
    hide Lt, Inv, Sum, UsedBytes, Bounded, PageOk, SplitShape, SepSizes, SepHeads;
    var node := pages[c];
    SplitInternalOk(pages, sh, c, n, m);
    SepCutBytes(node.first, node.seps, node.high, node.next, n, m);
    InternalHalvesBounded(node, n, m, maxKey);
    assert c in sh.level by { PageLevel(pages, sh, c); }
  }

  lemma PageLevel(pages: Pages, sh: Shape, p: PageNo)
    requires Inv(pages, sh) && p in pages
    ensures p in sh.level && p in sh.low && p != 0
  {
    assert PageOk(pages, sh, p);
  }

  lemma InternalCutQuiet(pages: Pages, sh: Shape, root: PageNo, maxKey: nat, p: PageNo, idx: nat, c: PageNo, n: PageNo,
                         m: nat)
    requires Quiet(pages, sh, root, maxKey) && Site(pages, p, idx, c, n, maxKey) && pages[c].Internal?
    requires m < |pages[c].seps|
    requires Fitting(SepSizes(pages[c].seps), SepHeads(pages[c].seps), HeaderLen(pages[c].high), 1, m)
    ensures p != n && p != c && c in sh.level
    ensures var sep := pages[c].seps[m];
            Quiet(InternalCut(pages, p, idx, c, n, m), AddPage(sh, n, sh.level[c], Some(sep.key), Rank(sh, sep.child)),
                  root, maxKey)
  {
    hide Lt, Inv, Parented, Sum, UsedBytes, Bounded, PageOk, TopOk, HasChild, SplitShape, LeftBytes, RightBytes;
    hide Fitting;
    assert FitsBut(pages, c, maxKey);
    hide Fits, FitsBut;
    ChildFacts(pages, sh, p, idx);
    InternalCutHalves(pages, sh, maxKey, c, n, m);
    InternalCutAdopts(pages, c, n, m);
    var b, sep := SplitInternal(pages, c, n, m), pages[c].seps[m];
    assert Cut(pages, sh, b, p, idx, c, n, sep.key, Rank(sh, sep.child));
    PostQuiet(pages, sh, root, maxKey, b, p, idx, c, n, sep.key, Rank(sh, sep.child));
  }

  lemma InternalCutKeeps(pages: Pages, p: PageNo, idx: nat, c: PageNo, n: PageNo, m: nat)
    requires p in pages && c in pages && p != c && p != n && pages[p].Internal? && idx <= |pages[p].seps|
    requires pages[c].Internal? && m < |pages[c].seps| && n !in pages
    ensures SameKeys(pages, InternalCut(pages, p, idx, c, n, m))
  {
    InternalsKeep(pages, InternalCut(pages, p, idx, c, n, m));
  }

  // ------------------------------------------------------------------ splitting the root

  lemma NewRootFits(pages: Pages, root: PageNo, maxKey: nat, pages1: Pages, n: PageNo, sep: Key, r: PageNo)
    requires Fits(pages, maxKey) && root in pages && r !in pages1 && n in pages1 && root in pages1
    requires pages1.Keys == pages.Keys + {n} && forall q :: q in pages && q != root ==> pages1[q] == pages[q]
    requires Sized(sep, maxKey) && BASE + INTERNAL_OVERHEAD + |sep.bytes| <= PAGE_SIZE
    requires UsedBytes(pages1[root]) <= PAGE_SIZE && Bounded(pages1[root], maxKey) && UsedBytes(pages1[n]) <= PAGE_SIZE
    requires Bounded(pages1[n], maxKey)
    ensures Fits(NewRoot(pages1, r, root, Sep(sep, n)), maxKey)
  {
    var pages2 := NewRoot(pages1, r, root, Sep(sep, n));
    NewRootBytes(root, Sep(sep, n));
    hide UsedBytes, Bounded;
    assert Bounded(pages2[r], maxKey) by { OneSepBounded(root, Sep(sep, n), maxKey); }
    forall q | q in pages2
      ensures UsedBytes(pages2[q]) <= PAGE_SIZE && Bounded(pages2[q], maxKey)
    {
      assert q == r || q == root || q == n || pages2[q] == pages[q];
    }
  }

  lemma OneSepBounded(left: PageNo, sep: Sep, maxKey: nat)
    requires Sized(sep.key, maxKey)
    ensures Bounded(Internal(left, [sep], 0, None), maxKey)
  {
  }

  lemma NewRootBytes(left: PageNo, sep: Sep)
    ensures UsedBytes(Internal(left, [sep], 0, None)) == BASE + INTERNAL_OVERHEAD + |sep.key.bytes|
  {
    var sizes := SepSizes([sep]);
    assert sizes[..0] == [];
    assert Sum(sizes) == Sum(sizes[..0]) + sizes[0];
  }

  lemma NewRootParented(pages: Pages, root: PageNo, pages1: Pages, n: PageNo, sep: Key, r: PageNo)
    requires Parented(pages, root) && root in pages && r !in pages1 && n in pages1 && root in pages1
    requires pages1.Keys == pages.Keys + {n} && forall q :: q in pages && q != root ==> pages1[q] == pages[q]
    requires forall d :: HasChild(pages[root], d) ==> HasChild(pages1[root], d) || HasChild(pages1[n], d)
    ensures Parented(NewRoot(pages1, r, root, Sep(sep, n)), r)
  {
    var pages2 := NewRoot(pages1, r, root, Sep(sep, n));
    assert ChildAt(pages2[r], 0) == root && ChildAt(pages2[r], 1) == n;
    assert HasChild(pages2[r], root) && HasChild(pages2[r], n);
    hide HasChild;
    forall d | d in pages2 && d != r
      ensures exists q :: q in pages2 && HasChild(pages2[q], d)
    {
      if d != n && d != root {
        var q :| q in pages && HasChild(pages[q], d);
        if q == root {
          assert HasChild(pages2[root], d) || HasChild(pages2[n], d);
        } else {
          assert q in pages2 && HasChild(pages2[q], d);
        }
      }
    }
  }

  /** Cutting the root and putting a new root above both halves leads back to a quiet tree. */
  lemma NewRootQuiet(pages: Pages, sh: Shape, root: PageNo, maxKey: nat, pages1: Pages, n: PageNo, sep: Key, rank: real,
                     r: PageNo)
    requires Quiet(pages, sh, root, maxKey) && RootCut(pages, sh, root, maxKey, pages1, n, sep, rank) && r !in pages1
    requires r != 0
    ensures var sh1 := AddPage(sh, n, sh.level[root], Some(sep), rank);
            Quiet(NewRoot(pages1, r, root, Sep(sep, n)), AddPage(sh1, r, sh.level[root] + 1, None, Rank(sh, root)), r,
                  maxKey)
  {
    hide Lt, Inv, Parented, Fits, UsedBytes, Bounded, Sum, HasChild, PageOk;
    NewRootFits(pages, root, maxKey, pages1, n, sep, r);
    NewRootParented(pages, root, pages1, n, sep, r);
    var sh1 := AddPage(sh, n, sh.level[root], Some(sep), rank);
    forall q | q in pages1
      ensures q in sh1.level && sh1.level[q] <= sh1.level[root]
    {
      PageLevel(pages1, sh1, q);
    }
    NewRootOk(pages1, sh1, r, root, Sep(sep, n));
  }

  /** What the root looks like once it has been cut, before the new root is written. */
  ghost predicate RootCut(pages: Pages, sh: Shape, root: PageNo, maxKey: nat, pages1: Pages, n: PageNo, sep: Key,
                          rank: real) {
    && SplitShape(pages, sh, pages1, root, n, sep, rank) && Inv(pages1, AddPage(sh, n, sh.level[root], Some(sep), rank))
    && Sized(sep, maxKey) && BASE + INTERNAL_OVERHEAD + |sep.bytes| <= PAGE_SIZE
    && UsedBytes(pages1[root]) <= PAGE_SIZE && Bounded(pages1[root], maxKey) && UsedBytes(pages1[n]) <= PAGE_SIZE
    && Bounded(pages1[n], maxKey)
    && (forall d :: HasChild(pages[root], d) ==> HasChild(pages1[root], d) || HasChild(pages1[n], d))
  }

  lemma LeftHasRoom(sizes: seq<nat>, heads: seq<nat>, m: nat, len: nat)
    requires 0 < m < |sizes| == |heads| && heads[m] >= BASE + RID_LEN + len && LeftBytes(sizes, heads, m) <= PAGE_SIZE
    requires forall i :: 0 <= i < |sizes| ==> sizes[i] >= LEAF_OVERHEAD
    ensures BASE + INTERNAL_OVERHEAD + len <= PAGE_SIZE
  {
    SumTake(sizes, 0);
    SumCut(sizes[..m], 1);
    assert sizes[..m][..1] == sizes[..1];
  }

  lemma RootLeafCut(pages: Pages, sh: Shape, root: PageNo, maxKey: nat, n: PageNo, m: nat)
    requires Quiet(pages, sh, root, maxKey) && pages[root].Leaf? && n !in pages && n != 0
    requires 0 < m < |pages[root].entries|
    requires Fitting(LeafSizes(pages[root].entries), LeafHeads(pages[root].entries), HeaderLen(pages[root].high), 0, m)
    ensures RootCut(pages, sh, root, maxKey, SplitLeaf(pages, root, n, m), n, pages[root].entries[m],
                    RankAfter(pages, sh, root))
  {
    hide Lt, Inv, Parented, Sum, UsedBytes, Bounded, PageOk, SplitShape, LeafSizes, LeafHeads, LeftBytes, RightBytes;
    var node := pages[root];
    SplitLeafOk(pages, sh, root, n, m);
    LeafCutBytes(node.entries, node.high, node.next, n, m);
    LeafHalvesBounded(node, n, m, maxKey);
    LeftHasRoom(LeafSizes(node.entries), LeafHeads(node.entries), m, |node.entries[m].bytes|);
  }

  lemma RootInternalCut(pages: Pages, sh: Shape, root: PageNo, maxKey: nat, n: PageNo, m: nat)
    requires Quiet(pages, sh, root, maxKey) && pages[root].Internal? && n !in pages && n != 0
    requires 0 < m < |pages[root].seps|
    requires Fitting(SepSizes(pages[root].seps), SepHeads(pages[root].seps), HeaderLen(pages[root].high), 1, m)
    ensures RootCut(pages, sh, root, maxKey, SplitInternal(pages, root, n, m), n, pages[root].seps[m].key,
                    Rank(sh, pages[root].seps[m].child))
  {
    hide Lt, Inv, Parented, Sum, UsedBytes, Bounded, PageOk, SplitShape, SepSizes, SepHeads, LeftBytes, RightBytes;
    hide HasChild;
    var node := pages[root];
    InternalCutHalves(pages, sh, maxKey, root, n, m);
    InternalCutAdopts(pages, root, n, m);
    LeftHasRoom(SepSizes(node.seps), SepHeads(node.seps), m, |node.seps[m].key.bytes|);
  }

  // ------------------------------------------------------------------ bounds are minima

  /** As long as nothing is deleted, a leaf's lower bound is its first entry. */
  ghost predicate Minima(pages: Pages, sh: Shape) {
    forall p :: p in pages && pages[p].Leaf? && p in sh.low && sh.low[p].Some? ==>
      pages[p].entries != [] && pages[p].entries[0] == sh.low[p].value
  }

  lemma AddEntryMinima(pages: Pages, sh: Shape, p: PageNo, i: nat, k: Key)
    requires Minima(pages, sh) && p in pages && pages[p].Leaf? && p in sh.low && PlaceFor(pages[p].entries, i, k)
    requires AtLeast(k, sh.low[p])
    ensures Minima(InsertEntry(pages, p, i, k), sh)
  {
    hide Lt;
    Order();
    assert sh.low[p].Some? ==> i > 0;
  }

  lemma LeafCutMinima(pages: Pages, sh: Shape, p: PageNo, idx: nat, c: PageNo, n: PageNo, i: nat, key: Key, m: nat,
                      level: nat, r: real)
    requires p in pages && c in pages && p != c && p != n && pages[p].Internal? && idx <= |pages[p].seps|
    requires pages[c].Leaf? && PlaceFor(pages[c].entries, i, key) && 0 < m <= |pages[c].entries| && n !in pages
    requires Minima(pages, sh) && c in sh.low && AtLeast(key, sh.low[c])
    ensures Minima(LeafCut(pages, p, idx, c, n, i, key, m),
                   AddPage(sh, n, level, Some(InsertAt(pages[c].entries, i, key)[m]), r))
  {
    AddEntryMinima(pages, sh, c, i, key);
    hide Lt, PlaceFor;
    var a := InsertEntry(pages, c, i, key);
    var all := InsertAt(pages[c].entries, i, key);
    assert a[c].entries == all && all[m..][0] == all[m] && all[..m][0] == all[0];
  }

  lemma RootLeafMinima(pages: Pages, sh: Shape, root: PageNo, n: PageNo, m: nat, level: nat, r: real)
    requires Minima(pages, sh) && root in pages && pages[root].Leaf? && 0 < m < |pages[root].entries| && n !in pages
    ensures Minima(SplitLeaf(pages, root, n, m), AddPage(sh, n, level, Some(pages[root].entries[m]), r))
  {
  }

  /** Steps that leave the leaves alone. */
  lemma InternalsMinima(pages: Pages, sh: Shape, pages': Pages, n: PageNo, level: nat, low: Option<Key>, r: real)
    requires Minima(pages, sh)
    requires forall q :: q in pages' && pages'[q].Leaf? ==> q != n && q in pages && pages[q] == pages'[q]
    ensures Minima(pages', AddPage(sh, n, level, low, r))
  {
  }

  /** Every lower bound, hence every separator and high key, is the least key of what lies at and after it. */
  lemma {:induction false} BoundIsLeastKey(pages: Pages, sh: Shape, p: PageNo)
    requires Inv(pages, sh) && Minima(pages, sh) && p in pages && p in sh.low && p in sh.level && sh.low[p].Some?
    ensures Holds(pages, sh.low[p].value) && Under(sh.low[p].value, pages[p].high)
    decreases sh.level[p]
  {
    Order();
    hide Lt, Inv;
    PageAt(pages, sh, p);
    if pages[p].Internal? {
      ChildFacts(pages, sh, p, 0);
      ChildEnds(pages, sh, p, 0);
      BoundIsLeastKey(pages, sh, pages[p].first);
    }
  }

  /** Separators are the minima of their subtrees and high keys the minima of the right siblings. */
  lemma SeparatorsAreMinima(pages: Pages, sh: Shape, p: PageNo, i: nat)
    requires Inv(pages, sh) && Minima(pages, sh) && p in pages && pages[p].Internal? && i < |pages[p].seps|
    ensures pages[p].seps[i].child in pages && pages[p].seps[i].child in sh.low && Holds(pages, pages[p].seps[i].key)
    ensures Covers(pages, sh, pages[p].seps[i].child, pages[p].seps[i].key)
    ensures forall k :: Covers(pages, sh, pages[p].seps[i].child, k) ==> !Lt(k, pages[p].seps[i].key)
  {
    Order();
    hide Lt;
    ChildFacts(pages, sh, p, i + 1);
    BoundIsLeastKey(pages, sh, pages[p].seps[i].child);
  }

  lemma HighKeysAreMinima(pages: Pages, sh: Shape, p: PageNo)
    requires Inv(pages, sh) && Minima(pages, sh) && p in pages && pages[p].high.Some?
    ensures pages[p].next in pages && pages[p].next in sh.low && Holds(pages, pages[p].high.value)
    ensures Covers(pages, sh, pages[p].next, pages[p].high.value)
    ensures forall k :: Covers(pages, sh, pages[p].next, k) ==> !Lt(k, pages[p].high.value)
  {
    Order();
    hide Lt;
    PageAt(pages, sh, p);
    PageAt(pages, sh, pages[p].next);
    BoundIsLeastKey(pages, sh, pages[p].next);
  }

  // ------------------------------------------------------------------ keys of one width

  ghost predicate Width(node: Node, w: nat) {
    && (node.high.Some? ==> |node.high.value.bytes| == w)
    && (node.Leaf? ==> forall i :: 0 <= i < |node.entries| ==> |node.entries[i].bytes| == w)
    && (node.Internal? ==> forall i :: 0 <= i < |node.seps| ==> |node.seps[i].key.bytes| == w)
  }

  ghost predicate AllWidth(pages: Pages, w: nat) {
    forall p :: p in pages ==> Width(pages[p], w)
  }

  lemma InsertEntryWidth(pages: Pages, p: PageNo, i: nat, key: Key, w: nat)
    requires AllWidth(pages, w) && p in pages && pages[p].Leaf? && i <= |pages[p].entries| && |key.bytes| == w
    ensures AllWidth(InsertEntry(pages, p, i, key), w)
  {
    assert Width(pages[p], w);
  }

  lemma SplitLeafWidth(pages: Pages, p: PageNo, n: PageNo, m: nat, w: nat)
    requires AllWidth(pages, w) && p in pages && pages[p].Leaf? && m < |pages[p].entries|
    ensures AllWidth(SplitLeaf(pages, p, n, m), w)
  {
    assert Width(pages[p], w);
  }

  lemma SplitInternalWidth(pages: Pages, p: PageNo, n: PageNo, m: nat, w: nat)
    requires AllWidth(pages, w) && p in pages && pages[p].Internal? && m < |pages[p].seps|
    ensures AllWidth(SplitInternal(pages, p, n, m), w)
  {
    assert Width(pages[p], w);
  }

  lemma PostSepWidth(pages: Pages, p: PageNo, i: nat, sep: Sep, w: nat)
    requires AllWidth(pages, w) && p in pages && pages[p].Internal? && i <= |pages[p].seps| && |sep.key.bytes| == w
    ensures AllWidth(PostSep(pages, p, i, sep), w)
  {
    assert Width(pages[p], w);
  }

  lemma LeafCutWidth(pages: Pages, p: PageNo, idx: nat, c: PageNo, n: PageNo, i: nat, key: Key, m: nat, w: nat)
    requires p in pages && c in pages && p != c && p != n && pages[p].Internal? && idx <= |pages[p].seps|
    requires pages[c].Leaf? && i <= |pages[c].entries| && m <= |pages[c].entries| && AllWidth(pages, w)
    requires |key.bytes| == w
    ensures AllWidth(LeafCut(pages, p, idx, c, n, i, key, m), w)
  {
    InsertEntryWidth(pages, c, i, key, w);
    var a := InsertEntry(pages, c, i, key);
    var all := InsertAt(pages[c].entries, i, key);
    assert a[c].entries == all && Width(a[c], w);
    SplitLeafWidth(a, c, n, m, w);
    PostSepWidth(SplitLeaf(a, c, n, m), p, idx, Sep(all[m], n), w);
  }

  lemma InternalCutWidth(pages: Pages, p: PageNo, idx: nat, c: PageNo, n: PageNo, m: nat, w: nat)
    requires p in pages && c in pages && p != c && p != n && pages[p].Internal? && idx <= |pages[p].seps|
    requires pages[c].Internal? && m < |pages[c].seps| && AllWidth(pages, w)
    ensures AllWidth(InternalCut(pages, p, idx, c, n, m), w)
  {
    assert Width(pages[c], w);
    SplitInternalWidth(pages, c, n, m, w);
    PostSepWidth(SplitInternal(pages, c, n, m), p, idx, Sep(pages[c].seps[m].key, n), w);
  }
}
