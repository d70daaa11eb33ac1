/**
 The tree between operations: every split has been posted, every node fits its
 page, and a descent never has to move right. One insertion step after another
 keeps it so.
 */
module BLinkQuiet {
  import opened Options
  import opened KeyOrder
  import opened BLink
  import opened BLinkReaders
  import opened BLinkSplit

  // ------------------------------------------------------------------ what holds between operations

  predicate Sized(k: Key, maxKey: nat) {
    0 < |k.bytes| <= maxKey
  }

  ghost predicate Bounded(node: Node, maxKey: nat) {
    && (node.high.Some? ==> Sized(node.high.value, maxKey))
    && (node.Leaf? ==> forall i :: 0 <= i < |node.entries| ==> Sized(node.entries[i], maxKey))
    && (node.Internal? ==> forall i :: 0 <= i < |node.seps| ==> Sized(node.seps[i].key, maxKey))
  }

  /** No room for the new leaf entry, or for a separator as long as the longest key seen. */
  predicate Full(node: Node, len: nat, maxKey: nat) {
    if node.Leaf? then UsedBytes(node) + LEAF_OVERHEAD + len > PAGE_SIZE
    else UsedBytes(node) + INTERNAL_OVERHEAD + maxKey > PAGE_SIZE
  }

  function ChildAt(node: Node, i: nat): PageNo
    requires node.Internal? && i <= |node.seps|
  {
    if i == 0 then node.first else node.seps[i - 1].child
  }

  ghost predicate HasChild(node: Node, d: PageNo) {
    node.Internal? && exists i :: 0 <= i <= |node.seps| && ChildAt(node, i) == d
  }

  ghost predicate Parented(pages: Pages, root: PageNo) {
    forall d :: d in pages && d != root ==> exists q :: q in pages && HasChild(pages[q], d)
  }

  ghost predicate Fits(pages: Pages, maxKey: nat) {
    forall p :: p in pages ==> UsedBytes(pages[p]) <= PAGE_SIZE && Bounded(pages[p], maxKey)
  }

  ghost predicate TopOk(pages: Pages, sh: Shape, root: PageNo) {
    && root in pages && root in sh.level && root in sh.low && sh.low[root] == None
    && forall p :: p in pages && p in sh.level ==> sh.level[p] <= sh.level[root]
  }

  ghost predicate Quiet(pages: Pages, sh: Shape, root: PageNo, maxKey: nat) {
    Inv(pages, sh) && TopOk(pages, sh, root) && Parented(pages, root) && Fits(pages, maxKey)
  }

  // ------------------------------------------------------------------ where children lie

  /** Position of the child a key is routed to. */
  lemma {:induction false} ChildForAt(first: PageNo, seps: seq<Sep>, k: Key) returns (i: nat)
    requires SepsSorted(seps)
    ensures i <= |seps| && ChildFor(first, seps, k) == if i == 0 then first else seps[i - 1].child
    ensures i > 0 ==> !Lt(k, seps[i - 1].key)
    ensures forall j :: i <= j < |seps| ==> Lt(k, seps[j].key)
    decreases |seps|
  {
    Order();
    hide Lt;
    if seps == [] || Lt(k, seps[0].key) {
      i := 0;
    } else {
      var i' := ChildForAt(seps[0].child, seps[1..], k);
      i := i' + 1;
      forall j | i <= j < |seps|
        ensures Lt(k, seps[j].key)
      {
        assert seps[j] == seps[1..][j - 1];
      }
    }
  }

  /** The lower bound of the child at position `i`. */
  ghost function LowAt(node: Node, low: Option<Key>, i: nat): Option<Key>
    requires node.Internal? && i <= |node.seps|
  {
    if i == 0 then low else Some(node.seps[i - 1].key)
  }

  lemma ChildFacts(pages: Pages, sh: Shape, p: PageNo, i: nat)
    requires Inv(pages, sh) && p in pages && pages[p].Internal? && i <= |pages[p].seps|
    ensures var c := ChildAt(pages[p], i);
            && c in pages && c in sh.level && c in sh.low && p in sh.level && p in sh.low
            && sh.level[c] + 1 == sh.level[p]
            && sh.low[c] == LowAt(pages[p], sh.low[p], i)
            && (sh.low[p].Some? ==> sh.low[c].Some? && !Lt(sh.low[c].value, sh.low[p].value))
            && NotOver(sh.low[c], pages[c].high)
  {
    Order();
    hide Lt;
    assert PageOk(pages, sh, p);
    var c := ChildAt(pages[p], i);
    assert PageOk(pages, sh, c);
  }

  /** Children rank from left to right, all of them before the right sibling of their parent. */
  lemma ChildOrder(pages: Pages, sh: Shape, p: PageNo, i: nat, j: nat)
    requires Inv(pages, sh) && p in pages && pages[p].Internal? && i <= |pages[p].seps| && j <= |pages[p].seps|
    ensures i < j <==> Rank(sh, ChildAt(pages[p], i)) < Rank(sh, ChildAt(pages[p], j))
    ensures Rank(sh, p) <= Rank(sh, ChildAt(pages[p], i))
    ensures pages[p].high.Some? ==> Rank(sh, ChildAt(pages[p], i)) < Rank(sh, pages[p].next)
  {
    hide Lt;
    assert PageOk(pages, sh, p);
  }

  lemma ChildrenDistinct(pages: Pages, sh: Shape, p: PageNo, i: nat, j: nat)
    requires Inv(pages, sh) && p in pages && pages[p].Internal? && i < j <= |pages[p].seps|
    ensures ChildAt(pages[p], i) != ChildAt(pages[p], j)
  {
    hide Inv;
    ChildOrder(pages, sh, p, i, j);
  }

  /** A child ends no later than the next separator, or than its parent. */
  ghost predicate EndsBy(high: Option<Key>, bound: Key) {
    high.Some? && !Lt(bound, high.value)
  }

  lemma ChildEnds(pages: Pages, sh: Shape, p: PageNo, i: nat)
    requires Inv(pages, sh) && p in pages && pages[p].Internal? && i <= |pages[p].seps|
    ensures ChildAt(pages[p], i) in pages
    ensures i < |pages[p].seps| ==> EndsBy(pages[ChildAt(pages[p], i)].high, pages[p].seps[i].key)
    ensures i == |pages[p].seps| && pages[p].high.Some? ==>
            EndsBy(pages[ChildAt(pages[p], i)].high, pages[p].high.value)
  {
    Order();
    hide Lt, Inv;
    var node := pages[p];
    assert PageOk(pages, sh, p) by { PageAt(pages, sh, p); }
    ChildFacts(pages, sh, p, i);
    var c := ChildAt(node, i);
    if i < |node.seps| {
      ChildFacts(pages, sh, p, i + 1);
      ChildOrder(pages, sh, p, i, i + 1);
      ApartAt(pages, sh, c, ChildAt(node, i + 1));
    } else if node.high.Some? {
      var n := node.next;
      PageAt(pages, sh, n);
      ChildFacts(pages, sh, n, 0);
      var d := ChildAt(pages[n], 0);
      assert sh.low[d] == node.high;
      ChildOrder(pages, sh, p, i, i);
      ChildOrder(pages, sh, n, 0, 0);
      ApartAt(pages, sh, c, d);
    }
  }

  lemma PageAt(pages: Pages, sh: Shape, p: PageNo)
    requires Inv(pages, sh) && p in pages
    ensures PageOk(pages, sh, p)
  {
  }

  lemma LinkOkAt(pages: Pages, sh: Shape, p: PageNo)
    requires Inv(pages, sh) && p in pages
    ensures p in sh.level && p in sh.low && LinkOk(pages, sh, p)
  {
    assert PageOk(pages, sh, p);
  }

  lemma ApartAt(pages: Pages, sh: Shape, p: PageNo, q: PageNo)
    requires Inv(pages, sh) && p in pages && q in pages && p != q
    ensures p in sh.level && q in sh.level && p in sh.low && q in sh.low
    ensures sh.level[p] == sh.level[q] ==> Apart(pages, sh, p, q)
  {
    assert PageOk(pages, sh, p) && PageOk(pages, sh, q);
  }

  /** Nothing lies to the right of the root. */
  lemma RootIsRightmost(pages: Pages, sh: Shape, root: PageNo)
    requires Inv(pages, sh) && TopOk(pages, sh, root) && Parented(pages, root)
    ensures pages[root].high == None
  {
    assert PageOk(pages, sh, root);
    if pages[root].high.Some? {
      var n := pages[root].next;
      var q :| q in pages && HasChild(pages[q], n);
      var i :| 0 <= i <= |pages[q].seps| && ChildAt(pages[q], i) == n;
      ChildFacts(pages, sh, q, i);
      assert false;
    }
  }

  /** Once every split is posted, the child a key is routed to covers it: no move to the right. */
  lemma QuietChildCovers(pages: Pages, sh: Shape, root: PageNo, p: PageNo, k: Key)
    requires Inv(pages, sh) && TopOk(pages, sh, root) && Parented(pages, root)
    requires p in pages && pages[p].Internal? && p in sh.low && Covers(pages, sh, p, k)
    ensures var c := ChildFor(pages[p].first, pages[p].seps, k);
            c in pages && c in sh.low && c in sh.level && Covers(pages, sh, c, k) && sh.level[c] + 1 == sh.level[p]
  {
    Order();
    hide Lt, Inv, Parented, TopOk;
    PageAt(pages, sh, p);
    var i := ChildForAt(pages[p].first, pages[p].seps, k);
    var c := ChildAt(pages[p], i);
    ChildFacts(pages, sh, p, i);
    if !Under(k, pages[c].high) {
      PageAt(pages, sh, c);
      var n := pages[c].next;
      var q, j := ParentOf(pages, sh, root, p, c);
      ChildFacts(pages, sh, q, j);
      ChildOrder(pages, sh, q, j, j);
      ChildOrder(pages, sh, p, i, i);
      if q == p {
        ChildOrder(pages, sh, p, i, j);
      } else {
        ApartAt(pages, sh, p, q);
      }
      assert false;
    }
  }

  lemma ParentOf(pages: Pages, sh: Shape, root: PageNo, p: PageNo, c: PageNo) returns (q: PageNo, j: nat)
    requires Inv(pages, sh) && TopOk(pages, sh, root) && Parented(pages, root)
    requires p in pages && c in pages && p in sh.level && c in sh.level && sh.level[c] < sh.level[p]
    requires pages[c].high.Some?
    ensures q in pages && pages[q].Internal? && j <= |pages[q].seps| && ChildAt(pages[q], j) == pages[c].next
  {
    hide Lt;
    var n := pages[c].next;
    assert PageOk(pages, sh, c);
    assert sh.level[p] <= sh.level[root];
    assert n != root;
    q :| q in pages && HasChild(pages[q], n);
    j :| 0 <= j <= |pages[q].seps| && ChildAt(pages[q], j) == n;
  }
}
