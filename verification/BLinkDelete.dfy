/**
 Deletion from trees of at most two levels with keys of one width: borrowing from
 a neighbour or merging with it keeps the tree quiet and every other key findable.
 */
module BLinkDelete {
  import opened Options
  import opened KeyOrder
  import opened BLink
  import opened BLinkSplit
  import opened BLinkQuiet
  import opened BLinkSteps

  const MIN_OCCUPANCY := PAGE_SIZE / 4

  /** A neighbour lends entries while it holds more than this. */
  const SPARE := MIN_OCCUPANCY + 64

  /** Widest keys for which a neighbour that lends an entry still has another one. */
  const MAX_WIDTH := 1042

  // ------------------------------------------------------------------ two neighbours under the root

  /** A root over leaves. */
  ghost predicate TwoLevels(pages: Pages, sh: Shape, root: PageNo) {
    && Inv(pages, sh) && TopOk(pages, sh, root) && Parented(pages, root) && pages[root].Internal? && sh.level[root] == 1
  }

  /** The root is the only page above the leaves. */
  lemma OnlyRoot(pages: Pages, sh: Shape, root: PageNo, q: PageNo)
    requires TwoLevels(pages, sh, root) && q in pages && q != root
    ensures q in sh.level && q in sh.low && sh.level[q] == 0 && pages[q].Leaf?
  {
    assert PageOk(pages, sh, q);
    var r :| r in pages && HasChild(pages[r], q);
    var i :| 0 <= i <= |pages[r].seps| && ChildAt(pages[r], i) == q;
    ChildFacts(pages, sh, r, i);
  }

  /** Its pages are itself and its children. */
  lemma ChildOfRoot(pages: Pages, sh: Shape, root: PageNo, q: PageNo) returns (i: nat)
    requires TwoLevels(pages, sh, root) && q in pages && q != root
    ensures i <= |pages[root].seps| && ChildAt(pages[root], i) == q
  {
    var r :| r in pages && HasChild(pages[r], q);
    i :| 0 <= i <= |pages[r].seps| && ChildAt(pages[r], i) == q;
    if r != root {
      OnlyRoot(pages, sh, root, r);
    }
  }

  /** Neighbouring children are linked, and the separator between them is the left one's high key. */
  lemma Neighbours(pages: Pages, sh: Shape, root: PageNo, i: nat)
    requires TwoLevels(pages, sh, root) && i < |pages[root].seps|
    ensures var l, r := ChildAt(pages[root], i), ChildAt(pages[root], i + 1);
            && l in pages && r in pages && l != r && l != root && r != root && pages[l].Leaf? && pages[r].Leaf?
            && l in sh.low && r in sh.low && sh.low[r] == Some(pages[root].seps[i].key) && pages[l].high == sh.low[r]
            && pages[l].next == r
  {
    Order();
    hide Lt, Inv, Parented;
    var l, r := ChildAt(pages[root], i), ChildAt(pages[root], i + 1);
    ChildFacts(pages, sh, root, i);
    ChildFacts(pages, sh, root, i + 1);
    ChildrenDistinct(pages, sh, root, i, i + 1);
    OnlyRoot(pages, sh, root, l);
    OnlyRoot(pages, sh, root, r);
    ChildEnds(pages, sh, root, i);
    PageAt(pages, sh, l);
    PageAt(pages, sh, root);
    var n := pages[l].next;
    OnlyRootNot(pages, sh, root, n);
    var j := ChildOfRoot(pages, sh, root, n);
    ChildOrder(pages, sh, root, i, j);
    ChildOrder(pages, sh, root, i, i + 1);
    ChildOrder(pages, sh, root, i + 1, j);
    ApartAt(pages, sh, l, r);
  }

  lemma OnlyRootNot(pages: Pages, sh: Shape, root: PageNo, n: PageNo)
    requires TwoLevels(pages, sh, root) && n in pages && n in sh.level && sh.level[n] == 0
    ensures n != root
  {
  }

  /** The last child has no right neighbour. */
  lemma LastChild(pages: Pages, sh: Shape, root: PageNo)
    requires TwoLevels(pages, sh, root)
    ensures var c := ChildAt(pages[root], |pages[root].seps|);
            c in pages && c != root && pages[c].high == None && pages[c].next == 0
  {
    Order();
    hide Lt, Inv, Parented;
    var last := |pages[root].seps|;
    var c := ChildAt(pages[root], last);
    ChildFacts(pages, sh, root, last);
    PageAt(pages, sh, c);
    if pages[c].high.Some? {
      var n := pages[c].next;
      OnlyRootNot(pages, sh, root, n);
      var j := ChildOfRoot(pages, sh, root, n);
      ChildOrder(pages, sh, root, last, j);
      assert false;
    }
  }

  // ------------------------------------------------------------------ moving the border between two neighbours

  /** The children at positions `i` and `i + 1` share their entries anew; the border moves to `k`. */
  function Rebalance(pages: Pages, root: PageNo, i: nat, le: seq<Key>, re: seq<Key>, k: Key): Pages
    requires root in pages && pages[root].Internal? && i < |pages[root].seps|
    requires ChildAt(pages[root], i) in pages && ChildAt(pages[root], i + 1) in pages
    requires pages[ChildAt(pages[root], i)].Leaf? && pages[ChildAt(pages[root], i + 1)].Leaf?
  {
    var l, r := ChildAt(pages[root], i), ChildAt(pages[root], i + 1);
    pages[l := pages[l].(entries := le, high := Some(k))]
         [r := pages[r].(entries := re)]
         [root := pages[root].(seps := pages[root].seps[i := Sep(k, r)])]
  }

  ghost function NewLow(sh: Shape, r: PageNo, k: Key): Shape {
    sh.(low := sh.low[r := Some(k)])
  }

  /** `le` and `re` are the neighbours' entries cut anew, with `k` between them. */
  ghost predicate Border(pages: Pages, sh: Shape, root: PageNo, i: nat, le: seq<Key>, re: seq<Key>, k: Key) {
    && root in pages && pages[root].Internal? && i < |pages[root].seps|
    && var l, r := ChildAt(pages[root], i), ChildAt(pages[root], i + 1);
    && l in pages && r in pages && pages[l].Leaf? && pages[r].Leaf? && l in sh.low && r in sh.low
    && le + re == pages[l].entries + pages[r].entries
    && (forall j :: 0 <= j < |le| ==> Lt(le[j], k)) && (forall j :: 0 <= j < |re| ==> !Lt(re[j], k))
    && NotOver(sh.low[l], Some(k)) && NotOver(Some(k), pages[r].high)
  }

  /** The entries of two neighbours form one sorted run within the outer bounds. */
  lemma Joined(pages: Pages, sh: Shape, root: PageNo, i: nat)
    requires TwoLevels(pages, sh, root) && i < |pages[root].seps|
    ensures var l, r := ChildAt(pages[root], i), ChildAt(pages[root], i + 1);
            && l in pages && r in pages && l in sh.low && pages[l].Leaf? && pages[r].Leaf?
            && LeafOk(Leaf(pages[l].entries + pages[r].entries, pages[r].next, pages[r].high), sh.low[l])
  {
    Order();
    hide Lt, Inv, Parented;
    Neighbours(pages, sh, root, i);
    var l, r := ChildAt(pages[root], i), ChildAt(pages[root], i + 1);
    PageAt(pages, sh, l);
    PageAt(pages, sh, r);
    var sep := pages[root].seps[i].key;
    var all := pages[l].entries + pages[r].entries;
    forall a | 0 <= a < |all|
      ensures AtLeast(all[a], sh.low[l]) && Under(all[a], pages[r].high)
    {
    }
    forall a, b | 0 <= a < b < |all|
      ensures Lt(all[a], all[b])
    {
      assert a < |pages[l].entries| <= b ==> Lt(all[a], sep) && !Lt(all[b], sep);
    }
  }

  lemma RebalanceLeaves(pages: Pages, sh: Shape, root: PageNo, i: nat, le: seq<Key>, re: seq<Key>, k: Key)
    requires TwoLevels(pages, sh, root) && Border(pages, sh, root, i, le, re, k)
    ensures var l, r := ChildAt(pages[root], i), ChildAt(pages[root], i + 1);
            var pages' := Rebalance(pages, root, i, le, re, k);
            && l != r && l != root && r != root && l in sh.low
            && LeafOk(pages'[l], sh.low[l]) && LeafOk(pages'[r], Some(k))
  {
    hide Lt, Inv, Parented, TopOk, PageOk;
    Order();
    Neighbours(pages, sh, root, i);
    Joined(pages, sh, root, i);
    var l, r := ChildAt(pages[root], i), ChildAt(pages[root], i + 1);
    var all := pages[l].entries + pages[r].entries;
    assert forall j :: 0 <= j < |le| ==> le[j] == all[j];
    assert forall j :: 0 <= j < |re| ==> re[j] == all[|le| + j];
  }

  /** The new border falls between the neighbouring separators. */
  lemma BorderFits(pages: Pages, sh: Shape, root: PageNo, i: nat, le: seq<Key>, re: seq<Key>, k: Key, j: nat)
    requires TwoLevels(pages, sh, root) && Border(pages, sh, root, i, le, re, k) && j < |pages[root].seps|
    ensures j < i ==> !Lt(k, pages[root].seps[j].key)
    ensures j > i ==> !Lt(pages[root].seps[j].key, k)
  {
    hide Lt, Inv, Parented, TopOk, PageOk, Sorted;
    Order();
    ChildFacts(pages, sh, root, i);
    ChildEnds(pages, sh, root, i + 1);
    SortedSeps(pages, sh, root);
    var seps := pages[root].seps;
    if j < i {
      assert j < i - 1 ==> !Lt(seps[i - 1].key, seps[j].key);
    } else if j > i {
      assert i + 1 < j ==> !Lt(seps[j].key, seps[i + 1].key);
    }
  }

  lemma SortedSeps(pages: Pages, sh: Shape, p: PageNo)
    requires Inv(pages, sh) && p in pages && pages[p].Internal?
    ensures SepsSorted(pages[p].seps)
  {
    assert PageOk(pages, sh, p);
  }

  lemma BorderPointers(pages: Pages, sh: Shape, root: PageNo, i: nat, le: seq<Key>, re: seq<Key>, k: Key, j: nat)
    requires TwoLevels(pages, sh, root) && Border(pages, sh, root, i, le, re, k) && j <= |pages[root].seps|
    ensures var pages', sh' := Rebalance(pages, root, i, le, re, k), NewLow(sh, ChildAt(pages[root], i + 1), k);
            root in sh'.level &&
            PointerOk(pages', sh', root, ChildAt(pages[root], j),
                      if j == i + 1 then Some(k) else LowAt(pages[root], sh.low[root], j))
  {
    hide Lt, Inv, Parented, Sorted;
    ChildFacts(pages, sh, root, j);
    ChildFacts(pages, sh, root, i + 1);
    if j < i + 1 {
      ChildrenDistinct(pages, sh, root, j, i + 1);
    } else if i + 1 < j {
      ChildrenDistinct(pages, sh, root, i + 1, j);
    }
  }

  /** The children stay where they are. */
  lemma RanksKept(sh: Shape, sh': Shape, p: PageNo, node: Node, i: nat, k: Key)
    requires node.Internal? && i < |node.seps| && sh'.rank == sh.rank && RanksRise(sh, node.seps)
    requires forall j :: 0 <= j < |node.seps| ==> Inside(sh, p, node, node.seps[j].child)
    ensures var node' := node.(seps := node.seps[i := Sep(k, node.seps[i].child)]);
            && RanksRise(sh', node'.seps)
            && forall j :: 0 <= j < |node.seps| ==> Inside(sh', p, node', node'.seps[j].child)
  {
    forall j | 0 <= j < |node.seps|
      ensures node.seps[i := Sep(k, node.seps[i].child)][j].child == node.seps[j].child
      ensures Inside(sh, p, node, node.seps[j].child)
    {
    }
  }

  lemma BorderSorted(pages: Pages, sh: Shape, root: PageNo, i: nat, le: seq<Key>, re: seq<Key>, k: Key, c: PageNo)
    requires TwoLevels(pages, sh, root) && Border(pages, sh, root, i, le, re, k)
    ensures i < |pages[root].seps| && SepsSorted(pages[root].seps[i := Sep(k, c)])
  {
    SortedSeps(pages, sh, root);
    hide Lt, TwoLevels, Border;
    var seps, seps' := pages[root].seps, pages[root].seps[i := Sep(k, c)];
    forall a, b | 0 <= a < b < |seps|
      ensures !Lt(seps'[b].key, seps'[a].key)
    {
      BorderFits(pages, sh, root, i, le, re, k, a);
      BorderFits(pages, sh, root, i, le, re, k, b);
    }
  }

  lemma RebalanceRoot(pages: Pages, sh: Shape, root: PageNo, i: nat, le: seq<Key>, re: seq<Key>, k: Key)
    requires TwoLevels(pages, sh, root) && Border(pages, sh, root, i, le, re, k)
    ensures PageOk(Rebalance(pages, root, i, le, re, k), NewLow(sh, ChildAt(pages[root], i + 1), k), root)
  {
    hide Lt, Inv, Parented, Sorted, LeafOk, PointerOk, RanksRise, Inside, SepsSorted, Rank;
    Neighbours(pages, sh, root, i);
    PageAt(pages, sh, root);
    RootIsRightmost(pages, sh, root);
    var r := ChildAt(pages[root], i + 1);
    BorderSorted(pages, sh, root, i, le, re, k, r);
    var pages', sh' := Rebalance(pages, root, i, le, re, k), NewLow(sh, r, k);
    RanksKept(sh, sh', root, pages[root], i, k);
    RebalancePointers(pages, sh, root, i, le, re, k);
    assert Rank(sh', pages[root].first) == Rank(sh', root) by { SameRanks(sh, sh', root, pages[root].first); }
    assert pages'[root].high == None && sh'.low[root] == None;
  }

  lemma RebalancePointers(pages: Pages, sh: Shape, root: PageNo, i: nat, le: seq<Key>, re: seq<Key>, k: Key)
    requires TwoLevels(pages, sh, root) && Border(pages, sh, root, i, le, re, k)
    ensures var pages', sh' := Rebalance(pages, root, i, le, re, k), NewLow(sh, ChildAt(pages[root], i + 1), k);
            && root in sh'.level && root in pages' && PointerOk(pages', sh', root, pages[root].first, sh.low[root])
            && forall j :: 0 <= j < |pages[root].seps| ==>
                 PointerOk(pages', sh', root, pages'[root].seps[j].child, Some(pages'[root].seps[j].key))
  {
    hide Lt, Inv, Parented, Sorted, PointerOk;
    var pages', sh' := Rebalance(pages, root, i, le, re, k), NewLow(sh, ChildAt(pages[root], i + 1), k);
    forall j | 0 <= j < |pages[root].seps|
      ensures PointerOk(pages', sh', root, pages'[root].seps[j].child, Some(pages'[root].seps[j].key))
    {
      BorderPointers(pages, sh, root, i, le, re, k, j + 1);
    }
    BorderPointers(pages, sh, root, i, le, re, k, 0);
  }

  lemma SameRanks(sh: Shape, sh': Shape, p: PageNo, q: PageNo)
    requires sh'.rank == sh.rank
    ensures Rank(sh', p) == Rank(sh, p) && Rank(sh', q) == Rank(sh, q)
  {
  }

  /** Any other leaf lies wholly left of both neighbours or wholly right of them. */
  ghost predicate Outside(pages: Pages, sh: Shape, l: PageNo, r: PageNo, q: PageNo)
    requires l in pages && r in pages && q in pages && l in sh.low && r in sh.low && q in sh.low
  {
    Precedes(pages, sh, q, l) || Precedes(pages, sh, r, q)
  }

  lemma OtherLeaf(pages: Pages, sh: Shape, root: PageNo, i: nat, q: PageNo)
    requires TwoLevels(pages, sh, root) && i < |pages[root].seps|
    requires q in pages && q != root && q != ChildAt(pages[root], i) && q != ChildAt(pages[root], i + 1)
    ensures q in sh.low && pages[q].next != ChildAt(pages[root], i + 1)
    ensures var l, r := ChildAt(pages[root], i), ChildAt(pages[root], i + 1);
            && l in pages && l in sh.low && r in pages && r in sh.low && Outside(pages, sh, l, r, q)
  {
    var l, r := ChildAt(pages[root], i), ChildAt(pages[root], i + 1);
    hide Lt, Inv, Parented, TopOk, ChildAt, PageOk;
    Order();
    Neighbours(pages, sh, root, i);
    OnlyRoot(pages, sh, root, q);
    OnlyRoot(pages, sh, root, l);
    OnlyRoot(pages, sh, root, r);
    LinkOkAt(pages, sh, q);
    LinkOkAt(pages, sh, l);
    LinkOkAt(pages, sh, r);
    ApartAt(pages, sh, l, q);
    ApartAt(pages, sh, r, q);
  }

  lemma RebalanceOther(pages: Pages, sh: Shape, root: PageNo, i: nat, le: seq<Key>, re: seq<Key>, k: Key, q: PageNo)
    requires TwoLevels(pages, sh, root) && Border(pages, sh, root, i, le, re, k)
    requires q in pages && q != root && q != ChildAt(pages[root], i) && q != ChildAt(pages[root], i + 1)
    ensures PageOk(Rebalance(pages, root, i, le, re, k), NewLow(sh, ChildAt(pages[root], i + 1), k), q)
  {
    hide Lt, Inv, Parented, TopOk, LeafOk, Outside, Sorted;
    Neighbours(pages, sh, root, i);
    OtherLeaf(pages, sh, root, i, q);
    OnlyRoot(pages, sh, root, q);
    PageAt(pages, sh, q);
  }

  lemma RebalanceApart(pages: Pages, sh: Shape, root: PageNo, i: nat, le: seq<Key>, re: seq<Key>, k: Key, q: PageNo,
                       x: PageNo)
    requires TwoLevels(pages, sh, root) && Border(pages, sh, root, i, le, re, k)
    requires q in pages && x in pages && q != x && q in sh.level && x in sh.level && sh.level[q] == sh.level[x]
    requires q in sh.low && x in sh.low
    ensures Apart(Rebalance(pages, root, i, le, re, k), NewLow(sh, ChildAt(pages[root], i + 1), k), q, x)
  {
    hide Lt, Inv, Parented, TopOk, ChildAt, PageOk, Sorted;
    Order();
    var l, r := ChildAt(pages[root], i), ChildAt(pages[root], i + 1);
    Neighbours(pages, sh, root, i);
    ApartAt(pages, sh, q, x);
    LinkOkAt(pages, sh, l);
    LinkOkAt(pages, sh, r);
    OnlyRoot(pages, sh, root, if q == root then x else q);
    OnlyRoot(pages, sh, root, if x == root then q else x);
    if q != l && q != r {
      OtherLeaf(pages, sh, root, i, q);
    }
    if x != l && x != r {
      OtherLeaf(pages, sh, root, i, x);
    }
  }

  lemma RebalanceInv(pages: Pages, sh: Shape, root: PageNo, i: nat, le: seq<Key>, re: seq<Key>, k: Key)
    requires TwoLevels(pages, sh, root) && Border(pages, sh, root, i, le, re, k)
    ensures Inv(Rebalance(pages, root, i, le, re, k), NewLow(sh, ChildAt(pages[root], i + 1), k))
  {
    hide Lt, Parented;
    Neighbours(pages, sh, root, i);
    var l, r := ChildAt(pages[root], i), ChildAt(pages[root], i + 1);
    var pages', sh' := Rebalance(pages, root, i, le, re, k), NewLow(sh, r, k);
    RebalanceLeaves(pages, sh, root, i, le, re, k);
    RebalanceRoot(pages, sh, root, i, le, re, k);
    PageAt(pages, sh, l);
    PageAt(pages, sh, r);
    assert PageOk(pages', sh', l);
    assert PageOk(pages', sh', r);
    forall q | q in pages' && q != l && q != r && q != root
      ensures PageOk(pages', sh', q)
    {
      RebalanceOther(pages, sh, root, i, le, re, k, q);
    }
    forall q, x | q in pages' && x in pages' && q != x && sh'.level[q] == sh'.level[x]
      ensures Apart(pages', sh', q, x)
    {
      PageLevel(pages, sh, q);
      PageLevel(pages, sh, x);
      RebalanceApart(pages, sh, root, i, le, re, k, q, x);
    }
  }

  /** The rest of a quiet tree: structure, sizes, and the keys held. */
  ghost predicate Flat(pages: Pages, sh: Shape, root: PageNo, maxKey: nat, w: nat) {
    TwoLevels(pages, sh, root) && Fits(pages, maxKey) && AllWidth(pages, w)
  }

  lemma RebalanceParented(pages: Pages, sh: Shape, root: PageNo, i: nat, le: seq<Key>, re: seq<Key>, k: Key)
    requires TwoLevels(pages, sh, root) && Border(pages, sh, root, i, le, re, k)
    ensures Parented(Rebalance(pages, root, i, le, re, k), root)
  {
    hide Lt, Inv, Parented, Sorted, PageOk;
    Neighbours(pages, sh, root, i);
    var pages' := Rebalance(pages, root, i, le, re, k);
    forall d | d in pages' && d != root
      ensures HasChild(pages'[root], d)
    {
      var j := ChildOfRoot(pages, sh, root, d);
      assert ChildAt(pages'[root], j) == d;
    }
    RootIsParent(pages', root);
  }

  lemma RootIsParent(pages: Pages, root: PageNo)
    requires root in pages && forall d :: d in pages && d != root ==> HasChild(pages[root], d)
    ensures Parented(pages, root)
  {
  }

  lemma SepUpdateBytes(seps: seq<Sep>, i: nat, s: Sep)
    requires i < |seps| && |s.key.bytes| == |seps[i].key.bytes|
    ensures Sum(SepSizes(seps[i := s])) == Sum(SepSizes(seps))
  {
    assert SepSizes(seps[i := s]) == SepSizes(seps);
  }

  lemma RebalanceFits(pages: Pages, sh: Shape, root: PageNo, maxKey: nat, w: nat, i: nat, le: seq<Key>, re: seq<Key>,
                      k: Key)
    requires Flat(pages, sh, root, maxKey, w) && Border(pages, sh, root, i, le, re, k) && |k.bytes| == w
    requires var l, r := ChildAt(pages[root], i), ChildAt(pages[root], i + 1);
             UsedBytes(Leaf(le, r, Some(k))) <= PAGE_SIZE && UsedBytes(Leaf(re, 0, pages[r].high)) <= PAGE_SIZE
    ensures Fits(Rebalance(pages, root, i, le, re, k), maxKey) && AllWidth(Rebalance(pages, root, i, le, re, k), w)
  {
    hide Lt, Inv, Parented, Sorted, PageOk, Sum, TopOk;
    var l, r := ChildAt(pages[root], i), ChildAt(pages[root], i + 1);
    Neighbours(pages, sh, root, i);
    assert Width(pages[l], w) && Width(pages[r], w) && Width(pages[root], w);
    assert Bounded(pages[l], maxKey) && Bounded(pages[r], maxKey) && Bounded(pages[root], maxKey);
    SepUpdateBytes(pages[root].seps, i, Sep(k, r));
    var all := pages[l].entries + pages[r].entries;
    assert forall j :: 0 <= j < |le| ==> le[j] == (le + re)[j] == all[j];
    assert forall j :: 0 <= j < |re| ==> re[j] == (le + re)[|le| + j] == all[|le| + j];
    assert Sized(pages[root].seps[i].key, maxKey);
    var pages' := Rebalance(pages, root, i, le, re, k);
    assert UsedBytes(pages'[l]) <= PAGE_SIZE && UsedBytes(pages'[r]) <= PAGE_SIZE &&
           UsedBytes(pages'[root]) <= PAGE_SIZE;
    assert Bounded(pages'[l], maxKey) && Bounded(pages'[r], maxKey) && Bounded(pages'[root], maxKey);
    assert Width(pages'[l], w) && Width(pages'[r], w) && Width(pages'[root], w);
    hide UsedBytes, Bounded, Width;
    forall q | q in pages'
      ensures UsedBytes(pages'[q]) <= PAGE_SIZE && Bounded(pages'[q], maxKey) && Width(pages'[q], w)
    {
      assert q == l || q == r || q == root || pages'[q] == pages[q];
    }
  }

  lemma RebalanceKeeps(pages: Pages, sh: Shape, root: PageNo, i: nat, le: seq<Key>, re: seq<Key>, k: Key)
    requires TwoLevels(pages, sh, root) && Border(pages, sh, root, i, le, re, k)
    ensures SameKeys(pages, Rebalance(pages, root, i, le, re, k))
  {
    hide Lt, Inv, Parented, Sorted, PageOk, TopOk;
    Neighbours(pages, sh, root, i);
    var l, r := ChildAt(pages[root], i), ChildAt(pages[root], i + 1);
    var pages' := Rebalance(pages, root, i, le, re, k);
    forall x
      ensures Holds(pages', x) <==> Holds(pages, x)
    {
      InEither(le, re, x);
      InEither(pages[l].entries, pages[r].entries, x);
      if Holds(pages, x) {
        var q :| q in pages && pages[q].Leaf? && x in pages[q].entries;
        var q' := if q == l || q == r then (if x in le then l else r) else q;
        assert q' in pages' && pages'[q'].Leaf? && x in pages'[q'].entries;
      }
      if Holds(pages', x) {
        var q :| q in pages' && pages'[q].Leaf? && x in pages'[q].entries;
        var q' := if q == l || q == r then (if x in pages[l].entries then l else r) else q;
        assert q' in pages && pages[q'].Leaf? && x in pages[q'].entries;
      }
    }
  }

  lemma InEither(a: seq<Key>, b: seq<Key>, x: Key)
    ensures x in a + b <==> x in a || x in b
  {
  }

  /** Moving the border keeps the tree flat and its keys. */
  lemma RebalanceFlat(pages: Pages, sh: Shape, root: PageNo, maxKey: nat, w: nat, i: nat, le: seq<Key>, re: seq<Key>,
                      k: Key)
    requires Flat(pages, sh, root, maxKey, w) && Border(pages, sh, root, i, le, re, k) && |k.bytes| == w
    requires var l, r := ChildAt(pages[root], i), ChildAt(pages[root], i + 1);
             UsedBytes(Leaf(le, r, Some(k))) <= PAGE_SIZE && UsedBytes(Leaf(re, 0, pages[r].high)) <= PAGE_SIZE
    ensures Flat(Rebalance(pages, root, i, le, re, k), NewLow(sh, ChildAt(pages[root], i + 1), k), root, maxKey, w)
    ensures SameKeys(pages, Rebalance(pages, root, i, le, re, k))
  {
    hide Lt, Inv, Parented, Sorted, PageOk, UsedBytes, Fits, AllWidth, Holds;
    Neighbours(pages, sh, root, i);
    RebalanceInv(pages, sh, root, i, le, re, k);
    RebalanceParented(pages, sh, root, i, le, re, k);
    RebalanceFits(pages, sh, root, maxKey, w, i, le, re, k);
    RebalanceKeeps(pages, sh, root, i, le, re, k);
  }

  // ------------------------------------------------------------------ merging two neighbours

  function Without<T>(s: seq<T>, i: nat): seq<T>
    requires i < |s|
  {
    s[..i] + s[i + 1..]
  }

  /** The left neighbour takes everything; the right page is no longer linked and leaves the map. */
  function Merge(pages: Pages, root: PageNo, i: nat): Pages
    requires root in pages && pages[root].Internal? && i < |pages[root].seps|
    requires ChildAt(pages[root], i) in pages && ChildAt(pages[root], i + 1) in pages
    requires pages[ChildAt(pages[root], i)].Leaf? && pages[ChildAt(pages[root], i + 1)].Leaf?
  {
    var l, r := ChildAt(pages[root], i), ChildAt(pages[root], i + 1);
    (pages - {r})[l := Leaf(pages[l].entries + pages[r].entries, pages[r].next, pages[r].high)]
                 [root := pages[root].(seps := Without(pages[root].seps, i))]
  }

  lemma MergeRoot(pages: Pages, sh: Shape, root: PageNo, i: nat)
    requires TwoLevels(pages, sh, root) && i < |pages[root].seps|
    requires pages[root].seps[i].child in pages && ChildAt(pages[root], i) in pages
    requires pages[ChildAt(pages[root], i)].Leaf? && pages[ChildAt(pages[root], i + 1)].Leaf?
    ensures root in Merge(pages, root, i) && PageOk(Merge(pages, root, i), sh, root)
  {
    hide Lt, Inv, Parented, Sorted, LeafOk;
    PageAt(pages, sh, root);
    RootIsRightmost(pages, sh, root);
    Neighbours(pages, sh, root, i);
    var pages' := Merge(pages, root, i);
    var seps, seps' := pages[root].seps, pages'[root].seps;
    forall j | 0 <= j <= |seps| && j != i + 1
      ensures PointerOk(pages', sh, root, ChildAt(pages[root], j), LowAt(pages[root], sh.low[root], j))
    {
      ChildFacts(pages, sh, root, j);
      if j < i + 1 {
        ChildrenDistinct(pages, sh, root, j, i + 1);
      } else {
        ChildrenDistinct(pages, sh, root, i + 1, j);
      }
    }
    assert ChildAt(pages[root], 0) == pages'[root].first;
    forall j | 0 <= j < |seps'|
      ensures PointerOk(pages', sh, root, seps'[j].child, Some(seps'[j].key))
    {
      var o := if j < i then j else j + 1;
      assert seps'[j] == seps[o] && ChildAt(pages[root], o + 1) == seps[o].child;
    }
  }

  lemma MergeInv(pages: Pages, sh: Shape, root: PageNo, i: nat)
    requires TwoLevels(pages, sh, root) && i < |pages[root].seps|
    requires pages[root].seps[i].child in pages && ChildAt(pages[root], i) in pages
    requires pages[ChildAt(pages[root], i)].Leaf? && pages[ChildAt(pages[root], i + 1)].Leaf?
    ensures Inv(Merge(pages, root, i), sh)
  {
    hide Lt, Inv, Parented, Sorted, PageOk;
    Neighbours(pages, sh, root, i);
    var l, r := ChildAt(pages[root], i), ChildAt(pages[root], i + 1);
    var pages' := Merge(pages, root, i);
    MergeRoot(pages, sh, root, i);
    MergedLeaf(pages, sh, root, i);
    forall q | q in pages'
      ensures PageOk(pages', sh, q) && q in sh.level && q in sh.low
    {
      if q != l && q != root {
        MergeOther(pages, sh, root, i, q);
      }
      PageLevel(pages, sh, q);
    }
    forall q, x | q in pages' && x in pages' && q != x && sh.level[q] == sh.level[x]
      ensures Apart(pages', sh, q, x)
    {
      MergeApart(pages, sh, root, i, q, x);
    }
    InvIntro(pages', sh);
  }

  lemma InvIntro(pages: Pages, sh: Shape)
    requires forall p :: p in pages ==> PageOk(pages, sh, p) && p in sh.level && p in sh.low
    requires forall p, q :: p in pages && q in pages && p != q && sh.level[p] == sh.level[q] ==> Apart(pages, sh, p, q)
    ensures Inv(pages, sh)
  {
  }

  lemma MergeOther(pages: Pages, sh: Shape, root: PageNo, i: nat, q: PageNo)
    requires TwoLevels(pages, sh, root) && i < |pages[root].seps|
    requires pages[root].seps[i].child in pages && ChildAt(pages[root], i) in pages
    requires pages[ChildAt(pages[root], i)].Leaf? && pages[ChildAt(pages[root], i + 1)].Leaf?
    requires q in Merge(pages, root, i) && q != root && q != ChildAt(pages[root], i)
    ensures PageOk(Merge(pages, root, i), sh, q)
  {
    hide Lt, Inv, Parented, Sorted, LeafOk, InternalOk, Outside;
    Neighbours(pages, sh, root, i);
    OtherLeaf(pages, sh, root, i, q);
    OnlyRoot(pages, sh, root, q);
    PageAt(pages, sh, q);
  }

  lemma NotOverThrough(a: Option<Key>, b: Option<Key>, c: Option<Key>)
    requires NotOver(a, b) && b.Some? && NotOver(b, c)
    ensures NotOver(a, c)
  {
    Order();
    hide Lt;
  }

  lemma MergedLink(pages: Pages, sh: Shape, root: PageNo, i: nat)
    requires TwoLevels(pages, sh, root) && i < |pages[root].seps|
    requires pages[root].seps[i].child in pages && ChildAt(pages[root], i) in pages
    requires pages[ChildAt(pages[root], i)].Leaf? && pages[ChildAt(pages[root], i + 1)].Leaf?
    ensures var l := ChildAt(pages[root], i);
            l in Merge(pages, root, i) && l in sh.level && l in sh.low && LinkOk(Merge(pages, root, i), sh, l)
  {
    var l, r := ChildAt(pages[root], i), ChildAt(pages[root], i + 1);
    hide Lt, Inv, Parented, Sorted, TopOk, LeafOk, PageOk, NotOver;
    Neighbours(pages, sh, root, i);
    LinkOkAt(pages, sh, l);
    LinkOkAt(pages, sh, r);
    NotOverThrough(sh.low[l], sh.low[r], pages[r].high);
    PageLevel(pages, sh, l);
  }

  lemma MergedLeaf(pages: Pages, sh: Shape, root: PageNo, i: nat)
    requires TwoLevels(pages, sh, root) && i < |pages[root].seps|
    requires pages[root].seps[i].child in pages && ChildAt(pages[root], i) in pages
    requires pages[ChildAt(pages[root], i)].Leaf? && pages[ChildAt(pages[root], i + 1)].Leaf?
    ensures ChildAt(pages[root], i) in Merge(pages, root, i)
    ensures PageOk(Merge(pages, root, i), sh, ChildAt(pages[root], i))
  {
    var l, r := ChildAt(pages[root], i), ChildAt(pages[root], i + 1);
    hide Lt, Inv, Parented, Sorted, TopOk, LeafOk, InternalOk, LinkOk;
    Neighbours(pages, sh, root, i);
    Joined(pages, sh, root, i);
    MergedLink(pages, sh, root, i);
    OnlyRoot(pages, sh, root, l);
    PageLevel(pages, sh, l);
  }

  lemma MergedApart(pages: Pages, sh: Shape, root: PageNo, i: nat, x: PageNo)
    requires TwoLevels(pages, sh, root) && i < |pages[root].seps|
    requires pages[root].seps[i].child in pages && ChildAt(pages[root], i) in pages
    requires pages[ChildAt(pages[root], i)].Leaf? && pages[ChildAt(pages[root], i + 1)].Leaf?
    requires x in pages && x != root && x != ChildAt(pages[root], i) && x != ChildAt(pages[root], i + 1)
    ensures ChildAt(pages[root], i) in Merge(pages, root, i) && x in Merge(pages, root, i)
    ensures ChildAt(pages[root], i) in sh.low && x in sh.low
    ensures Apart(Merge(pages, root, i), sh, ChildAt(pages[root], i), x)
  {
    hide Lt, Inv, Parented, Sorted, PageOk;
    var l, r := ChildAt(pages[root], i), ChildAt(pages[root], i + 1);
    Neighbours(pages, sh, root, i);
    OtherLeaf(pages, sh, root, i, x);
    LinkOkAt(pages, sh, l);
  }

  lemma MergeApart(pages: Pages, sh: Shape, root: PageNo, i: nat, q: PageNo, x: PageNo)
    requires TwoLevels(pages, sh, root) && i < |pages[root].seps|
    requires pages[root].seps[i].child in pages && ChildAt(pages[root], i) in pages
    requires pages[ChildAt(pages[root], i)].Leaf? && pages[ChildAt(pages[root], i + 1)].Leaf?
    requires q in Merge(pages, root, i) && x in Merge(pages, root, i) && q != x
    requires q in sh.level && x in sh.level && sh.level[q] == sh.level[x]
    ensures q in sh.low && x in sh.low && Apart(Merge(pages, root, i), sh, q, x)
  {
    var l, r := ChildAt(pages[root], i), ChildAt(pages[root], i + 1);
    hide Lt, Inv, Parented, Sorted, TopOk, PageOk, ChildAt;
    Neighbours(pages, sh, root, i);
    OnlyRoot(pages, sh, root, if q == root then x else q);
    OnlyRoot(pages, sh, root, if x == root then q else x);
    if q == l {
      MergedApart(pages, sh, root, i, x);
    } else if x == l {
      MergedApart(pages, sh, root, i, q);
    } else {
      ApartAt(pages, sh, q, x);
    }
  }

  lemma MergeParented(pages: Pages, sh: Shape, root: PageNo, i: nat)
    requires TwoLevels(pages, sh, root) && i < |pages[root].seps|
    requires pages[root].seps[i].child in pages && ChildAt(pages[root], i) in pages
    requires pages[ChildAt(pages[root], i)].Leaf? && pages[ChildAt(pages[root], i + 1)].Leaf?
    ensures Parented(Merge(pages, root, i), root)
  {
    hide Lt, Inv, Parented, Sorted, PageOk;
    Neighbours(pages, sh, root, i);
    var pages' := Merge(pages, root, i);
    forall d | d in pages' && d != root
      ensures HasChild(pages'[root], d)
    {
      var j := ChildOfRoot(pages, sh, root, d);
      assert ChildAt(pages'[root], if j <= i then j else j - 1) == d;
    }
    RootIsParent(pages', root);
  }

  lemma WithoutBytes(seps: seq<Sep>, i: nat)
    requires i < |seps|
    ensures Sum(SepSizes(Without(seps, i))) <= Sum(SepSizes(seps))
  {
    assert seps == InsertAt(Without(seps, i), i, seps[i]);
    SepInsertBytes(Without(seps, i), i, seps[i]);
  }

  lemma MergedBytes(a: Node, b: Node)
    requires a.Leaf? && b.Leaf?
    ensures UsedBytes(Leaf(a.entries + b.entries, b.next, b.high)) <= UsedBytes(a) + UsedBytes(b)
  {
    assert LeafSizes(a.entries + b.entries) == LeafSizes(a.entries) + LeafSizes(b.entries);
    SumAppend(LeafSizes(a.entries), LeafSizes(b.entries));
  }

  lemma MergedNodes(a: Node, b: Node, top: Node, i: nat, maxKey: nat, w: nat)
    requires a.Leaf? && b.Leaf? && top.Internal? && i < |top.seps|
    requires Width(a, w) && Width(b, w) && Width(top, w) && Bounded(a, maxKey) && Bounded(b, maxKey)
    requires Bounded(top, maxKey)
    requires UsedBytes(a) + UsedBytes(b) <= PAGE_SIZE && UsedBytes(top) <= PAGE_SIZE
    ensures var m := Leaf(a.entries + b.entries, b.next, b.high);
            UsedBytes(m) <= PAGE_SIZE && Bounded(m, maxKey) && Width(m, w)
    ensures var t := top.(seps := Without(top.seps, i)); UsedBytes(t) <= PAGE_SIZE && Bounded(t, maxKey) && Width(t, w)
  {
    hide Sum;
    WithoutBytes(top.seps, i);
    MergedBytes(a, b);
  }

  lemma MergeFits(pages: Pages, sh: Shape, root: PageNo, maxKey: nat, w: nat, i: nat)
    requires Flat(pages, sh, root, maxKey, w) && i < |pages[root].seps|
    requires pages[root].seps[i].child in pages && ChildAt(pages[root], i) in pages
    requires pages[ChildAt(pages[root], i)].Leaf? && pages[ChildAt(pages[root], i + 1)].Leaf?
    requires UsedBytes(pages[ChildAt(pages[root], i)]) + UsedBytes(pages[ChildAt(pages[root], i + 1)]) <= PAGE_SIZE
    ensures Fits(Merge(pages, root, i), maxKey) && AllWidth(Merge(pages, root, i), w)
  {
    hide Lt, Inv, Parented, Sorted, PageOk, UsedBytes, Bounded, Width;
    var l, r := ChildAt(pages[root], i), ChildAt(pages[root], i + 1);
    MergedNodes(pages[l], pages[r], pages[root], i, maxKey, w);
    var pages' := Merge(pages, root, i);
    Neighbours(pages, sh, root, i);
    forall q | q in pages'
      ensures UsedBytes(pages'[q]) <= PAGE_SIZE && Bounded(pages'[q], maxKey) && Width(pages'[q], w)
    {
      assert q == l || q == root || pages'[q] == pages[q];
    }
  }

  lemma MergeKeeps(pages: Pages, sh: Shape, root: PageNo, i: nat)
    requires TwoLevels(pages, sh, root) && i < |pages[root].seps|
    requires pages[root].seps[i].child in pages && ChildAt(pages[root], i) in pages
    requires pages[ChildAt(pages[root], i)].Leaf? && pages[ChildAt(pages[root], i + 1)].Leaf?
    ensures SameKeys(pages, Merge(pages, root, i))
  {
    hide Lt, Inv, Parented, Sorted, PageOk;
    Neighbours(pages, sh, root, i);
    var l, r := ChildAt(pages[root], i), ChildAt(pages[root], i + 1);
    var pages' := Merge(pages, root, i);
    forall x
      ensures Holds(pages', x) <==> Holds(pages, x)
    {
      InEither(pages[l].entries, pages[r].entries, x);
      if Holds(pages, x) {
        var q :| q in pages && pages[q].Leaf? && x in pages[q].entries;
        var q' := if q == r then l else q;
        assert q' in pages' && pages'[q'].Leaf? && x in pages'[q'].entries;
      }
      if Holds(pages', x) {
        var q :| q in pages' && pages'[q].Leaf? && x in pages'[q].entries;
        var q' := if q == l && x !in pages[l].entries then r else q;
        assert q' in pages && pages[q'].Leaf? && x in pages[q'].entries;
      }
    }
  }

  lemma MergeFlat(pages: Pages, sh: Shape, root: PageNo, maxKey: nat, w: nat, i: nat)
    requires Flat(pages, sh, root, maxKey, w) && i < |pages[root].seps|
    requires pages[root].seps[i].child in pages && ChildAt(pages[root], i) in pages
    requires pages[ChildAt(pages[root], i)].Leaf? && pages[ChildAt(pages[root], i + 1)].Leaf?
    requires UsedBytes(pages[ChildAt(pages[root], i)]) + UsedBytes(pages[ChildAt(pages[root], i + 1)]) <= PAGE_SIZE
    ensures Flat(Merge(pages, root, i), sh, root, maxKey, w) && SameKeys(pages, Merge(pages, root, i))
  {
    hide Lt, Inv, Parented, Sorted, PageOk, UsedBytes, Fits, AllWidth, Holds;
    Neighbours(pages, sh, root, i);
    MergeInv(pages, sh, root, i);
    MergeParented(pages, sh, root, i);
    MergeFits(pages, sh, root, maxKey, w, i);
    MergeKeeps(pages, sh, root, i);
  }
}
