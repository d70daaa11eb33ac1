/**
 The B-link index as a map from page numbers to nodes. Each node knows its right
 sibling and an exclusive upper bound (its high key), so a reader that arrives
 at a node after a split can always recover by moving right.
 */
module BLink {
  import opened Options
  import opened KeyOrder

  type PageNo = nat

  /** A separator: the smallest key of the subtree under `child`. */
  datatype Sep = Sep(key: Key, child: PageNo)

  /** `next` is 0, and `high` absent, exactly on the rightmost node of a level. */
  datatype Node =
    | Leaf(entries: seq<Key>, next: PageNo, high: Option<Key>)
    | Internal(first: PageNo, seps: seq<Sep>, next: PageNo, high: Option<Key>)

  type Pages = map<PageNo, Node>

  /**
   For every page, its level above the leaves, the inclusive lower bound of its key range, and a rank that orders
   the pages of a level from left to right. The rank also orders pages whose ranges are empty and start at the same key.
   */
  datatype Shape = Shape(level: map<PageNo, nat>, low: map<PageNo, Option<Key>>, rank: map<PageNo, real>)

  ghost function Rank(sh: Shape, p: PageNo): real {
    if p in sh.rank then sh.rank[p] else 0.0
  }

  predicate AtLeast(k: Key, low: Option<Key>) {
    low.Some? ==> !Lt(k, low.value)
  }

  predicate Under(k: Key, high: Option<Key>) {
    high.Some? ==> Lt(k, high.value)
  }

  ghost predicate SepsSorted(seps: seq<Sep>) {
    forall i, j :: 0 <= i < j < |seps| ==> !Lt(seps[j].key, seps[i].key)
  }

  ghost predicate RanksRise(sh: Shape, seps: seq<Sep>) {
    forall i, j :: 0 <= i < j < |seps| ==> Rank(sh, seps[i].child) < Rank(sh, seps[j].child)
  }

  // ------------------------------------------------------------------ invariant, page by page

  /** The right link leads to the page that starts where this one ends. */
  ghost predicate LinkOk(pages: Pages, sh: Shape, p: PageNo)
    requires p in pages && p in sh.level && p in sh.low
  {
    var node := pages[p];
    && (node.high.None? <==> node.next == 0)
    && (node.high.Some? ==>
          && node.next in pages && node.next in sh.level && node.next in sh.low
          && sh.level[node.next] == sh.level[p] && sh.low[node.next] == node.high
          && NotOver(sh.low[p], node.high) && Rank(sh, p) < Rank(sh, node.next))
  }

  /** A range may be empty, but it does not end before it starts. */
  predicate NotOver(low: Option<Key>, high: Option<Key>) {
    low.Some? && high.Some? ==> !Lt(high.value, low.value)
  }

  /** A pointer leads one level down, to the page whose range starts at the pointer's key. */
  ghost predicate PointerOk(pages: Pages, sh: Shape, p: PageNo, child: PageNo, low: Option<Key>)
    requires p in sh.level
  {
    child in pages && child in sh.level && child in sh.low && sh.level[child] + 1 == sh.level[p] && sh.low[child] == low
  }

  ghost predicate LeafOk(node: Node, low: Option<Key>)
    requires node.Leaf?
  {
    && Sorted(node.entries)
    && (forall i :: 0 <= i < |node.entries| ==> AtLeast(node.entries[i], low) && Under(node.entries[i], node.high))
  }

  ghost predicate InternalOk(pages: Pages, sh: Shape, p: PageNo)
    requires p in pages && pages[p].Internal? && p in sh.level && p in sh.low
  {
    var node := pages[p];
    && SepsSorted(node.seps) && RanksRise(sh, node.seps)
    && PointerOk(pages, sh, p, node.first, sh.low[p]) && Rank(sh, node.first) == Rank(sh, p)
    && (forall i :: 0 <= i < |node.seps| ==>
          && PointerOk(pages, sh, p, node.seps[i].child, Some(node.seps[i].key))
          && NotOver(sh.low[p], Some(node.seps[i].key)) && NotOver(Some(node.seps[i].key), node.high)
          && Inside(sh, p, node, node.seps[i].child))
  }

  /** A later child of `p` lies between `p` and its right sibling. */
  ghost predicate Inside(sh: Shape, p: PageNo, node: Node, child: PageNo) {
    Rank(sh, p) < Rank(sh, child) && (node.high.Some? ==> Rank(sh, child) < Rank(sh, node.next))
  }

  ghost predicate PageOk(pages: Pages, sh: Shape, p: PageNo)
    requires p in pages
  {
    && p != 0 && p in sh.level && p in sh.low
    && LinkOk(pages, sh, p)
    && (pages[p].Leaf? <==> sh.level[p] == 0)
    && (pages[p].Leaf? ==> LeafOk(pages[p], sh.low[p]))
    && (pages[p].Internal? ==> InternalOk(pages, sh, p))
  }

  /** `p` ends no later than `q` starts, and so does the right sibling of `p` or it is `q`. */
  ghost predicate Precedes(pages: Pages, sh: Shape, p: PageNo, q: PageNo)
    requires p in pages && q in pages && p in sh.low && q in sh.low
  {
    && pages[p].high.Some? && sh.low[q].Some? && !Lt(sh.low[q].value, pages[p].high.value)
    && Rank(sh, p) < Rank(sh, pages[p].next) <= Rank(sh, q)
  }

  /** The ranges of two pages of a level do not meet. */
  ghost predicate Apart(pages: Pages, sh: Shape, p: PageNo, q: PageNo)
    requires p in pages && q in pages && p in sh.low && q in sh.low
  {
    Precedes(pages, sh, p, q) || Precedes(pages, sh, q, p)
  }

  ghost predicate Inv(pages: Pages, sh: Shape) {
    && (forall p :: p in pages ==> PageOk(pages, sh, p))
    && (forall p, q :: p in pages && q in pages && p != q && sh.level[p] == sh.level[q] ==> Apart(pages, sh, p, q))
  }

  /** Every key stored in some leaf. */
  ghost predicate Holds(pages: Pages, k: Key) {
    exists p :: p in pages && pages[p].Leaf? && k in pages[p].entries
  }

  ghost predicate Covers(pages: Pages, sh: Shape, p: PageNo, k: Key)
    requires p in pages && p in sh.low
  {
    AtLeast(k, sh.low[p]) && Under(k, pages[p].high)
  }

  // ------------------------------------------------------------------ writers, one published page at a time

  /** A leaf gives its upper part to a new right sibling. */
  function SplitLeaf(pages: Pages, p: PageNo, n: PageNo, m: nat): Pages
    requires p in pages && pages[p].Leaf? && m < |pages[p].entries|
  {
    var node := pages[p];
    var sep := node.entries[m];
    pages[n := Leaf(node.entries[m..], node.next, node.high)][p := Leaf(node.entries[..m], n, Some(sep))]
  }

  /** An internal node gives its upper part away; the middle separator moves up. */
  function SplitInternal(pages: Pages, p: PageNo, n: PageNo, m: nat): Pages
    requires p in pages && pages[p].Internal? && m < |pages[p].seps|
  {
    var node := pages[p];
    var sep := node.seps[m];
    pages[n := Internal(sep.child, node.seps[m + 1..], node.next, node.high)]
         [p := Internal(node.first, node.seps[..m], n, Some(sep.key))]
  }

  function InsertEntry(pages: Pages, p: PageNo, i: nat, k: Key): Pages
    requires p in pages && pages[p].Leaf? && i <= |pages[p].entries|
  {
    pages[p := pages[p].(entries := pages[p].entries[..i] + [k] + pages[p].entries[i..])]
  }

  /** The parent learns of a split below it. */
  function PostSep(pages: Pages, p: PageNo, i: nat, sep: Sep): Pages
    requires p in pages && pages[p].Internal? && i <= |pages[p].seps|
  {
    pages[p := pages[p].(seps := pages[p].seps[..i] + [sep] + pages[p].seps[i..])]
  }

  function NewRoot(pages: Pages, r: PageNo, left: PageNo, sep: Sep): Pages {
    pages[r := Internal(left, [sep], 0, None)]
  }

  ghost function AddPage(sh: Shape, p: PageNo, level: nat, low: Option<Key>, rank: real): Shape {
    Shape(sh.level[p := level], sh.low[p := low], sh.rank[p := rank])
  }

  /** A place between `p` and its right sibling. */
  ghost function RankAfter(pages: Pages, sh: Shape, p: PageNo): real
    requires p in pages
  {
    if pages[p].high.Some? then (Rank(sh, p) + Rank(sh, pages[p].next)) / 2.0 else Rank(sh, p) + 1.0
  }

  // ------------------------------------------------------------------ every published write keeps the invariant

  /** Pages keep their level and lower bound for good; only new ones are added. */
  ghost predicate Grows(pages: Pages, sh: Shape, pages': Pages, sh': Shape) {
    forall p :: p in pages && p in sh.level && p in sh.low ==>
      && p in pages' && p in sh'.level && p in sh'.low
      && sh'.level[p] == sh.level[p] && sh'.low[p] == sh.low[p] && Rank(sh', p) == Rank(sh, p)
  }

  /** A page nobody rewrote is as good as before. */
  lemma UntouchedPage(pages: Pages, sh: Shape, pages': Pages, sh': Shape, q: PageNo)
    requires Inv(pages, sh) && Grows(pages, sh, pages', sh') && q in pages && pages'[q] == pages[q]
    ensures PageOk(pages', sh', q)
  {
    hide Lt;
    assert PageOk(pages, sh, q);
  }

  lemma InsertEntryOk(pages: Pages, sh: Shape, p: PageNo, i: nat, k: Key)
    requires Inv(pages, sh) && p in pages && pages[p].Leaf? && i <= |pages[p].entries| && Covers(pages, sh, p, k)
    requires forall j :: 0 <= j < i ==> Lt(pages[p].entries[j], k)
    requires forall j :: i <= j < |pages[p].entries| ==> Lt(k, pages[p].entries[j])
    ensures Inv(InsertEntry(pages, p, i, k), sh)
  {
    Order();
    hide Lt;
    var pages' := InsertEntry(pages, p, i, k);
    forall q | q in pages'
      ensures PageOk(pages', sh, q)
    {
      if q != p {
        UntouchedPage(pages, sh, pages', sh, q);
      } else {
        assert PageOk(pages, sh, p);
      }
    }
    forall q, r | q in pages' && r in pages' && q != r && sh.level[q] == sh.level[r]
      ensures Apart(pages', sh, q, r)
    {
      assert Apart(pages, sh, q, r);
    }
  }

  /** What a split does to the ranges: `p` is cut at `sep`, `n` takes the rest and ranks right after `p`. */
  ghost predicate SplitShape(pages: Pages, sh: Shape, pages': Pages, p: PageNo, n: PageNo, sep: Key, r: real) {
    && p in pages && n !in pages && n != 0 && p in sh.low && p in sh.level
    && pages'.Keys == pages.Keys + {n}
    && (forall q :: q in pages && q != p ==> pages'[q] == pages[q])
    && pages'[p].high == Some(sep) && pages'[p].next == n
    && pages'[n].high == pages[p].high && pages'[n].next == pages[p].next
    && NotOver(sh.low[p], Some(sep)) && NotOver(Some(sep), pages[p].high)
    && Rank(sh, p) < r && (pages[p].high.Some? ==> r < Rank(sh, pages[p].next))
  }

  lemma SplitApart(pages: Pages, sh: Shape, pages': Pages, p: PageNo, n: PageNo, sep: Key, r: real, q: PageNo,
                   x: PageNo)
    requires Inv(pages, sh) && SplitShape(pages, sh, pages', p, n, sep, r)
    requires var sh' := AddPage(sh, n, sh.level[p], Some(sep), r);
             q in pages' && x in pages' && q != x && q in sh'.level && x in sh'.level && sh'.level[q] == sh'.level[x]
    requires forall y :: y in pages ==> y in sh.low && y in sh.level && pages[y].next != n
    ensures Apart(pages', AddPage(sh, n, sh.level[p], Some(sep), r), q, x)
  {
    Order();
    hide Lt, PageOk;
    if q != n && x != n {
      assert Apart(pages, sh, q, x);
    } else {
      var other := if q == n then x else q;
      if other != p {
        assert Apart(pages, sh, p, other);
      }
    }
  }

  lemma SplitLinks(pages: Pages, sh: Shape, pages': Pages, p: PageNo, n: PageNo, sep: Key, r: real)
    requires Inv(pages, sh) && SplitShape(pages, sh, pages', p, n, sep, r)
    ensures var sh' := AddPage(sh, n, sh.level[p], Some(sep), r);
            && Grows(pages, sh, pages', sh') && LinkOk(pages', sh', p) && LinkOk(pages', sh', n)
  {
    hide Lt;
    assert PageOk(pages, sh, p);
  }

  lemma SplitOk(pages: Pages, sh: Shape, pages': Pages, p: PageNo, n: PageNo, sep: Key, r: real)
    requires Inv(pages, sh) && SplitShape(pages, sh, pages', p, n, sep, r)
    requires var sh' := AddPage(sh, n, sh.level[p], Some(sep), r); PageOk(pages', sh', p) && PageOk(pages', sh', n)
    ensures Inv(pages', AddPage(sh, n, sh.level[p], Some(sep), r))
  {
    hide Lt;
    var sh' := AddPage(sh, n, sh.level[p], Some(sep), r);
    SplitLinks(pages, sh, pages', p, n, sep, r);
    forall q | q in pages'
      ensures PageOk(pages', sh', q)
    {
      if q != p && q != n {
        UntouchedPage(pages, sh, pages', sh', q);
      }
    }
    forall q, x | q in pages' && x in pages' && q != x && sh'.level[q] == sh'.level[x]
      ensures Apart(pages', sh', q, x)
    {
      assert forall y :: y in pages ==> PageOk(pages, sh, y);
      SplitApart(pages, sh, pages', p, n, sep, r, q, x);
    }
  }

  lemma SplitLeafOk(pages: Pages, sh: Shape, p: PageNo, n: PageNo, m: nat)
    requires Inv(pages, sh) && p in pages && pages[p].Leaf? && 0 < m < |pages[p].entries| && n !in pages && n != 0
    ensures SplitShape(pages, sh, SplitLeaf(pages, p, n, m), p, n, pages[p].entries[m], RankAfter(pages, sh, p))
    ensures Inv(SplitLeaf(pages, p, n, m),
                AddPage(sh, n, sh.level[p], Some(pages[p].entries[m]), RankAfter(pages, sh, p)))
  {
    Order();
    hide Lt;
    var pages', sep, r := SplitLeaf(pages, p, n, m), pages[p].entries[m], RankAfter(pages, sh, p);
    assert PageOk(pages, sh, p);
    assert Lt(pages[p].entries[0], sep) && AtLeast(pages[p].entries[0], sh.low[p]);
    assert SplitShape(pages, sh, pages', p, n, sep, r);
    SplitLinks(pages, sh, pages', p, n, sep, r);
    SplitOk(pages, sh, pages', p, n, sep, r);
  }

  /** Every child of a node that is cut is still there. */
  lemma ChildrenKept(pages: Pages, sh: Shape, p: PageNo, n: PageNo, m: nat)
    requires Inv(pages, sh) && p in pages && pages[p].Internal? && m < |pages[p].seps| && n !in pages && n != 0
    requires p in sh.level && p in sh.low
    ensures var sep := pages[p].seps[m];
            var pages', sh' := SplitInternal(pages, p, n, m),
                               AddPage(sh, n, sh.level[p], Some(sep.key), Rank(sh, sep.child));
            && p in sh'.level && n in sh'.level && PointerOk(pages', sh', p, pages[p].first, sh.low[p])
            && Rank(sh', pages[p].first) == Rank(sh, p) && Rank(sh', p) == Rank(sh, p)
            && (forall i :: 0 <= i < |pages[p].seps| ==>
                  && PointerOk(pages', sh', p, pages[p].seps[i].child, Some(pages[p].seps[i].key))
                  && PointerOk(pages', sh', n, pages[p].seps[i].child, Some(pages[p].seps[i].key))
                  && Rank(sh', pages[p].seps[i].child) == Rank(sh, pages[p].seps[i].child))
            && (pages[p].high.Some? ==> Rank(sh', pages[p].next) == Rank(sh, pages[p].next))
  {
    hide Lt;
    assert PageOk(pages, sh, p);
  }

  lemma LeftHalfOk(pages: Pages, sh: Shape, p: PageNo, n: PageNo, m: nat)
    requires Inv(pages, sh) && p in pages && pages[p].Internal? && m < |pages[p].seps| && n !in pages && n != 0
    requires p in sh.level && p in sh.low
    ensures var sep := pages[p].seps[m];
            var pages', sh' := SplitInternal(pages, p, n, m),
                               AddPage(sh, n, sh.level[p], Some(sep.key), Rank(sh, sep.child));
            InternalOk(pages', sh', p)
  {
    ChildrenKept(pages, sh, p, n, m);
    assert PageOk(pages, sh, p);
    hide Lt, Inv, LinkOk, PointerOk;
  }

  lemma RightHalfOk(pages: Pages, sh: Shape, p: PageNo, n: PageNo, m: nat)
    requires Inv(pages, sh) && p in pages && pages[p].Internal? && m < |pages[p].seps| && n !in pages && n != 0
    requires p in sh.level && p in sh.low
    ensures var sep := pages[p].seps[m];
            var pages', sh' := SplitInternal(pages, p, n, m),
                               AddPage(sh, n, sh.level[p], Some(sep.key), Rank(sh, sep.child));
            InternalOk(pages', sh', n)
  {
    ChildrenKept(pages, sh, p, n, m);
    assert PageOk(pages, sh, p);
    hide Lt, Inv, LinkOk, PointerOk;
  }

  lemma SplitInternalOk(pages: Pages, sh: Shape, p: PageNo, n: PageNo, m: nat)
    requires Inv(pages, sh) && p in pages && pages[p].Internal? && m < |pages[p].seps| && n !in pages && n != 0
    ensures var sep := pages[p].seps[m];
            && SplitShape(pages, sh, SplitInternal(pages, p, n, m), p, n, sep.key, Rank(sh, sep.child))
            && Inv(SplitInternal(pages, p, n, m), AddPage(sh, n, sh.level[p], Some(sep.key), Rank(sh, sep.child)))
  {
    var pages', sep, r := SplitInternal(pages, p, n, m), pages[p].seps[m].key, Rank(sh, pages[p].seps[m].child);
    assert PageOk(pages, sh, p);
    assert SplitShape(pages, sh, pages', p, n, sep, r);
    hide Lt, Inv, SplitShape, InternalOk, LinkOk;
    LeftHalfOk(pages, sh, p, n, m);
    RightHalfOk(pages, sh, p, n, m);
    SplitLinks(pages, sh, pages', p, n, sep, r);
    SplitOk(pages, sh, pages', p, n, sep, r);
  }

  /** Separator `b` may follow `a` in a node. */
  ghost predicate After(sh: Shape, a: Sep, b: Sep) {
    !Lt(b.key, a.key) && Rank(sh, a.child) < Rank(sh, b.child)
  }

  lemma Listed(pages: Pages, sh: Shape)
    requires Inv(pages, sh)
    ensures forall q :: q in pages ==> q in sh.level && q in sh.low
  {
    forall q | q in pages
      ensures q in sh.level && q in sh.low
    {
      assert PageOk(pages, sh, q);
    }
  }

  /** Separators stay in order, by key and along the level. */
  lemma SepsPosted(sh: Shape, seps: seq<Sep>, i: nat, sep: Sep)
    requires SepsSorted(seps) && RanksRise(sh, seps) && i <= |seps|
    requires forall j :: 0 <= j < i ==> After(sh, seps[j], sep)
    requires forall j :: i <= j < |seps| ==> After(sh, sep, seps[j])
    ensures SepsSorted(seps[..i] + [sep] + seps[i..]) && RanksRise(sh, seps[..i] + [sep] + seps[i..])
  {
    hide Lt;
  }

  lemma PostedOk(pages: Pages, sh: Shape, p: PageNo, i: nat, sep: Sep)
    requires Inv(pages, sh) && p in pages && pages[p].Internal? && i <= |pages[p].seps|
    requires PointerOk(pages, sh, p, sep.child, Some(sep.key))
    requires NotOver(sh.low[p], Some(sep.key)) && NotOver(Some(sep.key), pages[p].high)
    requires Inside(sh, p, pages[p], sep.child)
    requires forall j :: 0 <= j < i ==> After(sh, pages[p].seps[j], sep)
    requires forall j :: i <= j < |pages[p].seps| ==> After(sh, sep, pages[p].seps[j])
    ensures PageOk(PostSep(pages, p, i, sep), sh, p)
  {
    hide Lt, SepsSorted, RanksRise;
    assert PageOk(pages, sh, p);
    hide Inv;
    SepsPosted(sh, pages[p].seps, i, sep);
  }

  lemma PostSepOk(pages: Pages, sh: Shape, p: PageNo, i: nat, sep: Sep)
    requires Inv(pages, sh) && p in pages && pages[p].Internal? && i <= |pages[p].seps|
    requires PointerOk(pages, sh, p, sep.child, Some(sep.key))
    requires NotOver(sh.low[p], Some(sep.key)) && NotOver(Some(sep.key), pages[p].high)
    requires Inside(sh, p, pages[p], sep.child)
    requires forall j :: 0 <= j < i ==> After(sh, pages[p].seps[j], sep)
    requires forall j :: i <= j < |pages[p].seps| ==> After(sh, sep, pages[p].seps[j])
    ensures Inv(PostSep(pages, p, i, sep), sh)
  {
    hide Lt, PageOk;
    Listed(pages, sh);
    var pages' := PostSep(pages, p, i, sep);
    PostedOk(pages, sh, p, i, sep);
    forall q | q in pages' && q != p
      ensures PageOk(pages', sh, q)
    {
      UntouchedPage(pages, sh, pages', sh, q);
    }
    forall q, r | q in pages' && r in pages' && q != r && sh.level[q] == sh.level[r]
      ensures Apart(pages', sh, q, r)
    {
      assert Apart(pages, sh, q, r);
    }
  }

  /** The new root over its two children. */
  lemma RootPageOk(pages: Pages, sh: Shape, r: PageNo, left: PageNo, sep: Sep)
    requires Inv(pages, sh) && r !in pages && r != 0 && left in pages && left in sh.low && left in sh.level
    requires sh.low[left] == None
    requires sep.child in pages && sep.child in sh.level && sep.child in sh.low
    requires sh.level[sep.child] == sh.level[left] && sh.low[sep.child] == Some(sep.key)
    ensures PageOk(NewRoot(pages, r, left, sep), AddPage(sh, r, sh.level[left] + 1, None, Rank(sh, left)), r)
  {
    hide Lt;
    assert PageOk(pages, sh, left) && PageOk(pages, sh, sep.child);
    assert Apart(pages, sh, left, sep.child);
  }

  /** A new page leaves the others apart. */
  lemma ApartKept(pages: Pages, sh: Shape, r: PageNo, node: Node, level: nat, rank: real, q: PageNo, x: PageNo)
    requires Inv(pages, sh) && r !in pages && q in pages && x in pages && q != x
    requires q in sh.level && x in sh.level && q in sh.low && x in sh.low && sh.level[q] == sh.level[x]
    ensures Apart(pages[r := node], AddPage(sh, r, level, None, rank), q, x)
  {
    assert Apart(pages, sh, q, x);
    assert PageOk(pages, sh, q) && PageOk(pages, sh, x);
  }

  lemma NewRootOk(pages: Pages, sh: Shape, r: PageNo, left: PageNo, sep: Sep)
    requires Inv(pages, sh) && r !in pages && r != 0 && left in pages && sh.low[left] == None
    requires sep.child in pages && sh.level[sep.child] == sh.level[left] && sh.low[sep.child] == Some(sep.key)
    requires forall q :: q in pages ==> sh.level[q] <= sh.level[left]
    ensures Inv(NewRoot(pages, r, left, sep), AddPage(sh, r, sh.level[left] + 1, None, Rank(sh, left)))
  {
    hide Lt, PageOk, Apart;
    Listed(pages, sh);
    var pages', sh' := NewRoot(pages, r, left, sep), AddPage(sh, r, sh.level[left] + 1, None, Rank(sh, left));
    RootPageOk(pages, sh, r, left, sep);
    forall q | q in pages
      ensures PageOk(pages', sh', q)
    {
      UntouchedPage(pages, sh, pages', sh', q);
    }
    forall q, x | q in pages' && x in pages' && q != x && sh'.level[q] == sh'.level[x]
      ensures Apart(pages', sh', q, x)
    {
      ApartKept(pages, sh, r, pages'[r], sh.level[left] + 1, Rank(sh, left), q, x);
    }
  }
}
