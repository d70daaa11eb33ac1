/**
 How a leaf that has become too small gets entries from its neighbours or is merged with one of them, as
 functions from page maps to page maps, for keys of any one width.
 */
module BLinkLoans {
  import opened Options
  import opened KeyOrder
  import opened BLink
  import opened BLinkReaders
  import opened BLinkSplit
  import opened BLinkQuiet
  import opened BLinkSteps
  import opened BLinkDelete

  // ------------------------------------------------------------------ taking one entry out of its leaf

  function RemoveEntry(pages: Pages, p: PageNo, i: nat): Pages
    requires p in pages && pages[p].Leaf? && i < |pages[p].entries|
  {
    pages[p := pages[p].(entries := Without(pages[p].entries, i))]
  }

  ghost predicate Loses(pages: Pages, pages': Pages, key: Key) {
    forall k :: Holds(pages', k) <==> Holds(pages, k) && k != key
  }

  lemma RemoveInv(pages: Pages, sh: Shape, p: PageNo, i: nat)
    requires Inv(pages, sh) && p in pages && pages[p].Leaf? && i < |pages[p].entries|
    ensures Inv(RemoveEntry(pages, p, i), sh)
  {
    hide Lt;
    var pages' := RemoveEntry(pages, p, i);
    forall q | q in pages'
      ensures PageOk(pages', sh, q)
    {
      if q != p {
        UntouchedPage(pages, sh, pages', sh, q);
      } else {
        assert PageOk(pages, sh, p);
      }
    }
    forall q, x | q in pages' && x in pages' && q != x && sh.level[q] == sh.level[x]
      ensures Apart(pages', sh, q, x)
    {
      assert Apart(pages, sh, q, x);
    }
  }

  lemma RemoveBytes(entries: seq<Key>, i: nat)
    requires i < |entries|
    ensures Sum(LeafSizes(Without(entries, i))) <= Sum(LeafSizes(entries))
  {
    assert entries == InsertAt(Without(entries, i), i, entries[i]);
    LeafInsertBytes(Without(entries, i), i, entries[i]);
  }

  lemma RemoveFits(pages: Pages, p: PageNo, i: nat, maxKey: nat, w: nat)
    requires Fits(pages, maxKey) && AllWidth(pages, w) && p in pages && pages[p].Leaf? && i < |pages[p].entries|
    ensures Fits(RemoveEntry(pages, p, i), maxKey) && AllWidth(RemoveEntry(pages, p, i), w)
  {
    hide Sum;
    var pages' := RemoveEntry(pages, p, i);
    RemoveBytes(pages[p].entries, i);
    assert Bounded(pages[p], maxKey) && Width(pages[p], w);
    assert UsedBytes(pages'[p]) <= PAGE_SIZE && Bounded(pages'[p], maxKey) && Width(pages'[p], w);
    hide UsedBytes, Bounded, Width;
    forall q | q in pages'
      ensures UsedBytes(pages'[q]) <= PAGE_SIZE && Bounded(pages'[q], maxKey) && Width(pages'[q], w)
    {
      assert q == p || pages'[q] == pages[q];
    }
  }

  lemma RemoveQuiet(pages: Pages, sh: Shape, root: PageNo, maxKey: nat, w: nat, p: PageNo, i: nat)
    requires Quiet(pages, sh, root, maxKey) && AllWidth(pages, w) && p in pages && pages[p].Leaf?
    requires i < |pages[p].entries|
    ensures Quiet(RemoveEntry(pages, p, i), sh, root, maxKey) && AllWidth(RemoveEntry(pages, p, i), w)
  {
    hide Lt, Inv, Parented, UsedBytes, Bounded, Fits, AllWidth;
    RemoveInv(pages, sh, p, i);
    RemoveFits(pages, p, i, maxKey, w);
    var pages' := RemoveEntry(pages, p, i);
    forall q | q in pages
      ensures Adopts(pages, pages', q)
    {
      LeafRewriteAdopts(pages, pages', p, q);
    }
    ParentedAfter(pages, pages', root);
  }

  /** An entry is in one place only, so taking it out removes exactly that key. */
  lemma RemoveLoses(pages: Pages, sh: Shape, p: PageNo, i: nat)
    requires Inv(pages, sh) && p in pages && pages[p].Leaf? && i < |pages[p].entries|
    ensures Loses(pages, RemoveEntry(pages, p, i), pages[p].entries[i])
  {
    var key := pages[p].entries[i];
    var pages' := RemoveEntry(pages, p, i);
    var was, now := pages[p].entries, pages'[p].entries;
    OnePlace(pages, sh, p, i);
    hide Lt, Inv;
    forall k
      ensures Holds(pages', k) <==> Holds(pages, k) && k != key
    {
      assert k in now <==> k in was && k != key by { InRest(was, i, k); }
      if Holds(pages, k) && k != key {
        var q :| q in pages && pages[q].Leaf? && k in pages[q].entries;
        assert q in pages' && pages'[q].Leaf? && k in pages'[q].entries;
      }
      if Holds(pages', k) {
        var q :| q in pages' && pages'[q].Leaf? && k in pages'[q].entries;
        assert q in pages && pages[q].Leaf? && k in pages[q].entries && k != key;
      }
    }
  }

  lemma OnePlace(pages: Pages, sh: Shape, p: PageNo, i: nat)
    requires Inv(pages, sh) && p in pages && pages[p].Leaf? && i < |pages[p].entries|
    ensures forall q :: q in pages && pages[q].Leaf? && q != p ==> pages[p].entries[i] !in pages[q].entries
    ensures forall j :: 0 <= j < |pages[p].entries| && j != i ==> pages[p].entries[j] != pages[p].entries[i]
  {
    Order();
    hide Lt;
    assert PageOk(pages, sh, p);
    var key := pages[p].entries[i];
    forall q | q in pages && pages[q].Leaf? && q != p
      ensures key !in pages[q].entries
    {
      assert PageOk(pages, sh, q);
      assert Apart(pages, sh, p, q);
    }
    forall j | 0 <= j < |pages[p].entries| && j != i
      ensures pages[p].entries[j] != key
    {
      assert j < i ==> Lt(pages[p].entries[j], key);
      assert j > i ==> Lt(key, pages[p].entries[j]);
    }
  }

  lemma InRest(s: seq<Key>, i: nat, k: Key)
    requires i < |s| && forall j :: 0 <= j < |s| && j != i ==> s[j] != s[i]
    ensures k in Without(s, i) <==> k in s && k != s[i]
  {
    if k in s && k != s[i] {
      var j :| 0 <= j < |s| && s[j] == k;
      assert Without(s, i)[if j < i then j else j - 1] == k;
    }
  }

  // ------------------------------------------------------------------ one entry across a border

  function BorrowLeft(pages: Pages, root: PageNo, i: nat): Pages
    requires root in pages && pages[root].Internal? && i < |pages[root].seps|
    requires ChildAt(pages[root], i) in pages && ChildAt(pages[root], i + 1) in pages
    requires pages[ChildAt(pages[root], i)].Leaf? && pages[ChildAt(pages[root], i + 1)].Leaf?
    requires pages[ChildAt(pages[root], i)].entries != []
  {
    var l, r := pages[ChildAt(pages[root], i)].entries, pages[ChildAt(pages[root], i + 1)].entries;
    var k := l[|l| - 1];
    Rebalance(pages, root, i, l[..|l| - 1], [k] + r, k)
  }

  /** Taking the only entry leaves its bytes behind, and the new minimum is then read from them. */
  function BorrowRight(pages: Pages, root: PageNo, i: nat): Pages
    requires root in pages && pages[root].Internal? && i < |pages[root].seps|
    requires ChildAt(pages[root], i) in pages && ChildAt(pages[root], i + 1) in pages
    requires pages[ChildAt(pages[root], i)].Leaf? && pages[ChildAt(pages[root], i + 1)].Leaf?
    requires pages[ChildAt(pages[root], i + 1)].entries != []
  {
    var l, r := pages[ChildAt(pages[root], i)].entries, pages[ChildAt(pages[root], i + 1)].entries;
    var first := if |r| > 1 then r[1] else r[0];
    Rebalance(pages, root, i, l + [r[0]], r[1..], first)
  }

  lemma BorrowLeftBorder(pages: Pages, sh: Shape, root: PageNo, i: nat)
    requires TwoLevels(pages, sh, root) && i < |pages[root].seps|
    ensures var l, r := ChildAt(pages[root], i), ChildAt(pages[root], i + 1);
            && l in pages && r in pages && pages[l].Leaf? && pages[r].Leaf?
            && var le := pages[l].entries;
            (le != [] ==> Border(pages, sh, root, i, le[..|le| - 1], [le[|le| - 1]] + pages[r].entries, le[|le| - 1]))
  {
    hide Lt, Inv, Parented, PageOk;
    Order();
    Neighbours(pages, sh, root, i);
    Joined(pages, sh, root, i);
    var l, r := ChildAt(pages[root], i), ChildAt(pages[root], i + 1);
    var le, all := pages[l].entries, pages[l].entries + pages[r].entries;
    if le != [] {
      var k, front := le[|le| - 1], le[..|le| - 1];
      var back := [k] + pages[r].entries;
      assert front + back == all;
      assert forall j :: 0 <= j < |front| ==> front[j] == all[j];
      assert forall j :: 0 <= j < |back| ==> back[j] == all[|front| + j];
      assert k == all[|front|];
      assert Border(pages, sh, root, i, front, back, k);
    }
  }

  lemma BorrowRightBorder(pages: Pages, sh: Shape, root: PageNo, i: nat)
    requires TwoLevels(pages, sh, root) && i < |pages[root].seps|
    ensures var l, r := ChildAt(pages[root], i), ChildAt(pages[root], i + 1);
            && l in pages && r in pages && pages[l].Leaf? && pages[r].Leaf?
            && var re := pages[r].entries;
            (|re| >= 2 ==> Border(pages, sh, root, i, pages[l].entries + [re[0]], re[1..], re[1]))
  {
    hide Lt, Inv, Parented, PageOk;
    Order();
    Neighbours(pages, sh, root, i);
    Joined(pages, sh, root, i);
    var l, r := ChildAt(pages[root], i), ChildAt(pages[root], i + 1);
    var le, re, all := pages[l].entries, pages[r].entries, pages[l].entries + pages[r].entries;
    if |re| >= 2 {
      var k, front, back := re[1], le + [re[0]], re[1..];
      assert front + back == all;
      assert forall j :: 0 <= j < |front| ==> front[j] == all[j];
      assert forall j :: 0 <= j < |back| ==> back[j] == all[|front| + j];
      assert k == all[|front|];
      assert Border(pages, sh, root, i, front, back, k);
    }
  }

  /** A descent from the root finds the key. */
  ghost predicate Findable(pages: Pages, root: PageNo, k: Key) {
    && root in pages && pages[root].Internal?
    && var c := ChildFor(pages[root].first, pages[root].seps, k);
    && c in pages && pages[c].Leaf? && k in pages[c].entries
  }

  lemma FlatFindable(pages: Pages, sh: Shape, root: PageNo, k: Key)
    requires TwoLevels(pages, sh, root) && Holds(pages, k)
    ensures Findable(pages, root, k)
  {
    hide Lt, Inv, Parented, PageOk, Holds;
    RootIsRightmost(pages, sh, root);
    QuietChildCovers(pages, sh, root, root, k);
    var c := ChildFor(pages[root].first, pages[root].seps, k);
    OnlyRoot(pages, sh, root, c);
    ArrivalDecides(pages, sh, c, k);
  }

  /** Borrowing from the right keeps every key findable exactly when the lender has a second entry. */
  lemma BorrowRightKeepsFindable(pages: Pages, sh: Shape, root: PageNo, i: nat)
    requires TwoLevels(pages, sh, root) && i < |pages[root].seps|
    requires ChildAt(pages[root], i) in pages && ChildAt(pages[root], i + 1) in pages
    requires pages[ChildAt(pages[root], i)].Leaf? && pages[ChildAt(pages[root], i + 1)].Leaf?
    requires pages[ChildAt(pages[root], i + 1)].entries != []
    ensures (forall k :: Holds(pages, k) ==> Findable(BorrowRight(pages, root, i), root, k))
              <==> |pages[ChildAt(pages[root], i + 1)].entries| >= 2
  {
    hide Lt, Inv, Parented, PageOk, Findable;
    var r := ChildAt(pages[root], i + 1);
    var re := pages[r].entries;
    if |re| >= 2 {
      BorrowRightBorder(pages, sh, root, i);
      var le := pages[ChildAt(pages[root], i)].entries + [re[0]];
      RebalanceInv(pages, sh, root, i, le, re[1..], re[1]);
      RebalanceParented(pages, sh, root, i, le, re[1..], re[1]);
      RebalanceKeeps(pages, sh, root, i, le, re[1..], re[1]);
      Neighbours(pages, sh, root, i);
      forall k | Holds(pages, k)
        ensures Findable(BorrowRight(pages, root, i), root, k)
      {
        FlatFindable(BorrowRight(pages, root, i), NewLow(sh, r, re[1]), root, k);
      }
    } else {
      BorrowedIsLost(pages, sh, root, i);
      assert Holds(pages, re[0]);
    }
  }

  lemma BorrowedIsLost(pages: Pages, sh: Shape, root: PageNo, i: nat)
    requires TwoLevels(pages, sh, root) && i < |pages[root].seps|
    requires ChildAt(pages[root], i) in pages && ChildAt(pages[root], i + 1) in pages
    requires pages[ChildAt(pages[root], i)].Leaf? && pages[ChildAt(pages[root], i + 1)].Leaf?
    requires |pages[ChildAt(pages[root], i + 1)].entries| == 1
    ensures !Findable(BorrowRight(pages, root, i), root, pages[ChildAt(pages[root], i + 1)].entries[0])
  {
    Order();
    hide Lt, Inv, Parented, PageOk;
    Neighbours(pages, sh, root, i);
    var r := ChildAt(pages[root], i + 1);
    var k := pages[r].entries[0];
    var pages' := BorrowRight(pages, root, i);
    var seps, seps' := pages[root].seps, pages'[root].seps;
    assert seps' == seps[i := Sep(k, r)];
    SortedSeps(pages, sh, root);
    ChildEnds(pages, sh, root, i + 1);
    LeafBounds(pages, sh, r, 0);
    forall a, b | 0 <= a < b < |seps'|
      ensures !Lt(seps'[b].key, seps'[a].key)
    {
      assert a < i ==> !Lt(seps[i].key, seps[a].key);
      assert i < b ==> !Lt(seps[b].key, seps[i].key);
      assert i + 1 < b ==> !Lt(seps[b].key, seps[i + 1].key);
    }
    forall b | i < b < |seps'|
      ensures Lt(k, seps'[b].key)
    {
      assert i + 1 < b ==> !Lt(seps[b].key, seps[i + 1].key);
    }
    assert seps'[i].key == k;
    var j := ChildForAt(pages'[root].first, seps', k);
    assert j == i + 1;
    assert pages'[r].entries == [];
  }

  lemma LeafBounds(pages: Pages, sh: Shape, p: PageNo, i: nat)
    requires Inv(pages, sh) && p in pages && pages[p].Leaf? && i < |pages[p].entries|
    ensures p in sh.low && AtLeast(pages[p].entries[i], sh.low[p]) && Under(pages[p].entries[i], pages[p].high)
  {
    assert PageOk(pages, sh, p);
  }

  // ------------------------------------------------------------------ sizes

  lemma {:induction false} EqualSizes(s: seq<nat>, each: nat)
    requires forall i :: 0 <= i < |s| ==> s[i] == each
    ensures Sum(s) == |s| * each
  {
    if s != [] {
      EqualSizes(s[..|s| - 1], each);
      assert |s| * each == (|s| - 1) * each + each;
    }
  }

  /** Keys of one width make the size of a leaf a matter of counting. */
  lemma LeafBytes(node: Node, w: nat)
    requires node.Leaf? && Width(node, w) && w > 0
    ensures UsedBytes(node) == BASE + (if node.high.Some? then RID_LEN + w else 0) +
            |node.entries| * (LEAF_OVERHEAD + w)
  {
    EqualSizes(LeafSizes(node.entries), LEAF_OVERHEAD + w);
  }

  // ------------------------------------------------------------------ borrowing until there is enough

  /** A root over distinct leaves, all but the last bounded, with keys of one width. */
  ghost predicate Bare(pages: Pages, root: PageNo, w: nat) {
    && root in pages && pages[root].Internal? && AllWidth(pages, w)
    && (forall j :: 0 <= j <= |pages[root].seps| ==> LeafChild(pages, root, j))
    && (forall i, j :: 0 <= i < j <= |pages[root].seps| ==> ChildAt(pages[root], i) != ChildAt(pages[root], j))
  }

  ghost predicate LeafChild(pages: Pages, root: PageNo, j: nat)
    requires root in pages && pages[root].Internal? && j <= |pages[root].seps|
  {
    var c := ChildAt(pages[root], j);
    c in pages && pages[c].Leaf? && c != root && (j < |pages[root].seps| ==> pages[c].high.Some?)
  }

  lemma FlatIsBare(pages: Pages, sh: Shape, root: PageNo, maxKey: nat, w: nat)
    requires Flat(pages, sh, root, maxKey, w)
    ensures Bare(pages, root, w)
  {
    hide Lt, Inv, Parented, PageOk, Fits;
    forall j | 0 <= j <= |pages[root].seps|
      ensures LeafChild(pages, root, j)
    {
      if j < |pages[root].seps| {
        Neighbours(pages, sh, root, j);
      } else {
        LastChild(pages, sh, root);
        OnlyRoot(pages, sh, root, ChildAt(pages[root], j));
      }
    }
    forall i, j | 0 <= i < j <= |pages[root].seps|
      ensures ChildAt(pages[root], i) != ChildAt(pages[root], j)
    {
      ChildrenDistinct(pages, sh, root, i, j);
    }
  }

  ghost function NodeOf(pages: Pages, root: PageNo, j: nat, w: nat): (node: Node)
    requires Bare(pages, root, w) && j <= |pages[root].seps|
    ensures node.Leaf? && Width(node, w)
  {
    assert LeafChild(pages, root, j);
    pages[ChildAt(pages[root], j)]
  }

  /** One round of borrowing. `stale` marks a loan after which the border was read from a removed entry. */
  datatype Loan = Loan(pages: Pages, stale: bool) | NoLoan | BadRead

  ghost predicate LeftSpares(pages: Pages, root: PageNo, idx: nat, w: nat)
    requires Bare(pages, root, w) && idx <= |pages[root].seps|
  {
    idx >= 1 && UsedBytes(NodeOf(pages, root, idx - 1, w)) > SPARE
  }

  ghost predicate RightSpares(pages: Pages, root: PageNo, idx: nat, w: nat)
    requires Bare(pages, root, w) && idx <= |pages[root].seps|
  {
    idx < |pages[root].seps| && UsedBytes(NodeOf(pages, root, idx + 1, w)) > SPARE
  }

  ghost predicate HasRoom(pages: Pages, root: PageNo, idx: nat, w: nat)
    requires Bare(pages, root, w) && idx <= |pages[root].seps|
  {
    UsedBytes(NodeOf(pages, root, idx, w)) + LEAF_OVERHEAD + w <= PAGE_SIZE
  }

  ghost function FromLeft(pages: Pages, root: PageNo, idx: nat, w: nat): Pages
    requires Bare(pages, root, w) && 1 <= idx <= |pages[root].seps| && NodeOf(pages, root, idx - 1, w).entries != []
  {
    assert LeafChild(pages, root, idx - 1) && LeafChild(pages, root, idx);
    BorrowLeft(pages, root, idx - 1)
  }

  ghost function FromRight(pages: Pages, root: PageNo, idx: nat, w: nat): Pages
    requires Bare(pages, root, w) && idx < |pages[root].seps| && NodeOf(pages, root, idx + 1, w).entries != []
  {
    assert LeafChild(pages, root, idx) && LeafChild(pages, root, idx + 1);
    BorrowRight(pages, root, idx)
  }

  /**
   The left neighbour's last entry if it can spare one and the child has room for it, otherwise the right
   one's first.
   */
  ghost function Round(pages: Pages, root: PageNo, idx: nat, w: nat): Loan
    requires Bare(pages, root, w) && idx <= |pages[root].seps|
  {
    if LeftSpares(pages, root, idx, w) && NodeOf(pages, root, idx - 1, w).entries == [] then BadRead
    else if LeftSpares(pages, root, idx, w) && HasRoom(pages, root, idx, w) then
      Loan(FromLeft(pages, root, idx, w), false)
    else if RightSpares(pages, root, idx, w) && NodeOf(pages, root, idx + 1, w).entries == [] then BadRead
    else if RightSpares(pages, root, idx, w) && HasRoom(pages, root, idx, w) then
      Loan(FromRight(pages, root, idx, w), |NodeOf(pages, root, idx + 1, w).entries| == 1)
    else NoLoan
  }

  lemma RebalanceBare(pages: Pages, root: PageNo, w: nat, i: nat, le: seq<Key>, re: seq<Key>, k: Key)
    requires Bare(pages, root, w) && i < |pages[root].seps| && |k.bytes| == w
    requires forall j :: 0 <= j < |le| ==> |le[j].bytes| == w
    requires forall j :: 0 <= j < |re| ==> |re[j].bytes| == w
    ensures LeafChild(pages, root, i) && LeafChild(pages, root, i + 1)
    ensures var pages' := Rebalance(pages, root, i, le, re, k); Bare(pages', root, w) && SameFrame(pages, pages', root)
  {
    assert LeafChild(pages, root, i) && LeafChild(pages, root, i + 1);
    var l, r := ChildAt(pages[root], i), ChildAt(pages[root], i + 1);
    var pages' := Rebalance(pages, root, i, le, re, k);
    assert l != r;
    forall q | q in pages'
      ensures Width(pages'[q], w)
    {
      assert Width(pages[q], w) && (q != l && q != r && q != root ==> pages'[q] == pages[q]);
    }
    forall j | 0 <= j <= |pages[root].seps|
      ensures ChildAt(pages'[root], j) == ChildAt(pages[root], j) && LeafChild(pages', root, j)
    {
      assert LeafChild(pages, root, j);
    }
  }

  /** Same pages, same root, same children in the same order. */
  ghost predicate SameFrame(pages: Pages, pages': Pages, root: PageNo) {
    && pages'.Keys == pages.Keys && root in pages && pages[root].Internal? && pages'[root].Internal?
    && |pages'[root].seps| == |pages[root].seps|
    && forall j :: 0 <= j <= |pages[root].seps| ==> ChildAt(pages'[root], j) == ChildAt(pages[root], j)
  }

  lemma AppendBytes(node: Node, k: Key)
    requires node.Leaf?
    ensures Sum(LeafSizes(node.entries + [k])) == Sum(LeafSizes(node.entries)) + LEAF_OVERHEAD + |k.bytes|
    ensures Sum(LeafSizes([k] + node.entries)) == Sum(LeafSizes(node.entries)) + LEAF_OVERHEAD + |k.bytes|
  {
    LeafInsertBytes(node.entries, |node.entries|, k);
    assert InsertAt(node.entries, |node.entries|, k) == node.entries + [k];
    LeafInsertBytes(node.entries, 0, k);
    assert InsertAt(node.entries, 0, k) == [k] + node.entries;
  }

  /** A loan leaves the frame as it is and the child larger by one entry. */
  ghost predicate Larger(pages: Pages, pages': Pages, root: PageNo, idx: nat, w: nat)
    requires Bare(pages, root, w) && idx <= |pages[root].seps|
  {
    && Bare(pages', root, w) && SameFrame(pages, pages', root)
    && UsedBytes(NodeOf(pages', root, idx, w)) == UsedBytes(NodeOf(pages, root, idx, w)) + LEAF_OVERHEAD + w
  }

  lemma LeftLarger(pages: Pages, root: PageNo, idx: nat, w: nat)
    requires Bare(pages, root, w) && 1 <= idx <= |pages[root].seps| && NodeOf(pages, root, idx - 1, w).entries != []
    ensures Larger(pages, FromLeft(pages, root, idx, w), root, idx, w)
  {
    var child, l := NodeOf(pages, root, idx, w), NodeOf(pages, root, idx - 1, w).entries;
    var k := l[|l| - 1];
    AppendBytes(child, k);
    assert Width(NodeOf(pages, root, idx - 1, w), w) && Width(child, w);
    RebalanceBare(pages, root, w, idx - 1, l[..|l| - 1], [k] + child.entries, k);
    hide Bare, Sum, LeafSizes;
  }

  lemma RightLarger(pages: Pages, root: PageNo, idx: nat, w: nat)
    requires Bare(pages, root, w) && idx < |pages[root].seps| && NodeOf(pages, root, idx + 1, w).entries != []
    ensures Larger(pages, FromRight(pages, root, idx, w), root, idx, w)
  {
    var child, r := NodeOf(pages, root, idx, w), NodeOf(pages, root, idx + 1, w).entries;
    var first := if |r| > 1 then r[1] else r[0];
    AppendBytes(child, r[0]);
    assert Width(NodeOf(pages, root, idx + 1, w), w) && Width(child, w) && LeafChild(pages, root, idx);
    RebalanceBare(pages, root, w, idx, child.entries + [r[0]], r[1..], first);
    hide Bare, Sum, LeafSizes;
  }

  lemma RoundLarger(pages: Pages, root: PageNo, idx: nat, w: nat)
    requires Bare(pages, root, w) && idx <= |pages[root].seps| && Round(pages, root, idx, w).Loan?
    ensures Larger(pages, Round(pages, root, idx, w).pages, root, idx, w)
  {
    hide Bare, Larger, UsedBytes, FromLeft, FromRight;
    if LeftSpares(pages, root, idx, w) && HasRoom(pages, root, idx, w) {
      LeftLarger(pages, root, idx, w);
    } else {
      RightLarger(pages, root, idx, w);
    }
  }

  // ------------------------------------------------------------------ merging

  /** What is left of the tree, or the error of a merge that does not fit, or a read before the start of a leaf. */
  datatype Repaired = Repaired(pages: Pages, stale: bool) | Overflow | Broken

  ghost predicate CanMerge(pages: Pages, root: PageNo, i: nat, w: nat)
    requires Bare(pages, root, w) && i < |pages[root].seps|
  {
    UsedBytes(NodeOf(pages, root, i, w)) + UsedBytes(NodeOf(pages, root, i + 1, w)) < PAGE_SIZE - 32
  }

  ghost function Merged(pages: Pages, root: PageNo, i: nat, w: nat): Pages
    requires Bare(pages, root, w) && i < |pages[root].seps|
  {
    assert LeafChild(pages, root, i) && LeafChild(pages, root, i + 1);
    Merge(pages, root, i)
  }

  /** With the left neighbour if both fit one page, otherwise with the right one; an only child stays as it is. */
  ghost function MergeChild(pages: Pages, root: PageNo, idx: nat, w: nat): Repaired
    requires Bare(pages, root, w) && idx <= |pages[root].seps|
  {
    if idx >= 1 && CanMerge(pages, root, idx - 1, w) then Repaired(Merged(pages, root, idx - 1, w), false)
    else if idx < |pages[root].seps| then
      if CanMerge(pages, root, idx, w) then Repaired(Merged(pages, root, idx, w), false) else Overflow
    else Repaired(pages, false)
  }

  /** Borrows for the child at `idx` until it is large enough, or merges it once nobody lends. */
  ghost function Refill(pages: Pages, root: PageNo, idx: nat, w: nat): Repaired
    requires Bare(pages, root, w) && idx <= |pages[root].seps|
    decreases MIN_OCCUPANCY - UsedBytes(NodeOf(pages, root, idx, w))
  {
    if UsedBytes(NodeOf(pages, root, idx, w)) >= MIN_OCCUPANCY then Repaired(pages, false)
    else
      match Round(pages, root, idx, w)
      case BadRead => Broken
      case NoLoan => MergeChild(pages, root, idx, w)
      case Loan(pages', stale) =>
        RoundLarger(pages, root, idx, w);
        match Refill(pages', root, idx, w)
        case Repaired(pages'', stale') => Repaired(pages'', stale || stale')
        case other => other
  }

  // ------------------------------------------------------------------ loans that keep the tree

  ghost predicate Underfull(pages: Pages, root: PageNo, idx: nat, w: nat)
    requires Bare(pages, root, w) && idx <= |pages[root].seps|
  {
    UsedBytes(NodeOf(pages, root, idx, w)) < MIN_OCCUPANCY
  }

  lemma ShortenedBytes(entries: seq<Key>, h: Option<Key>, h': Option<Key>, n: PageNo)
    requires entries != [] && HeaderLen(h) == HeaderLen(h')
    ensures UsedBytes(Leaf(entries[..|entries| - 1], n, h')) <= UsedBytes(Leaf(entries, n, h))
    ensures UsedBytes(Leaf(entries[1..], n, h')) <= UsedBytes(Leaf(entries, n, h))
  {
    hide Sum;
    RemoveBytes(entries, |entries| - 1);
    assert Without(entries, |entries| - 1) == entries[..|entries| - 1];
    RemoveBytes(entries, 0);
    assert Without(entries, 0) == entries[1..];
  }

  lemma LeftLoanFits(l: Node, r: Node, w: nat, n: PageNo)
    requires l.Leaf? && r.Leaf? && Width(l, w) && Width(r, w) && l.high.Some? && l.entries != []
    requires UsedBytes(l) <= PAGE_SIZE && UsedBytes(r) + LEAF_OVERHEAD + w <= PAGE_SIZE
    ensures var k := l.entries[|l.entries| - 1];
            && |k.bytes| == w && UsedBytes(Leaf(l.entries[..|l.entries| - 1], n, Some(k))) <= PAGE_SIZE
            && UsedBytes(Leaf([k] + r.entries, 0, r.high)) <= PAGE_SIZE
  {
    hide Sum;
    var k := l.entries[|l.entries| - 1];
    ShortenedBytes(l.entries, l.high, Some(k), n);
    AppendBytes(r, k);
  }

  lemma RightLoanFits(l: Node, r: Node, w: nat, n: PageNo)
    requires l.Leaf? && r.Leaf? && Width(l, w) && Width(r, w) && l.high.Some? && |r.entries| >= 2
    requires UsedBytes(r) <= PAGE_SIZE && UsedBytes(l) + LEAF_OVERHEAD + w <= PAGE_SIZE
    ensures var k := r.entries[1];
            && |k.bytes| == w && UsedBytes(Leaf(r.entries[1..], 0, r.high)) <= PAGE_SIZE
            && UsedBytes(Leaf(l.entries + [r.entries[0]], n, Some(k))) <= PAGE_SIZE
  {
    hide Sum;
    ShortenedBytes(r.entries, r.high, r.high, 0);
    AppendBytes(l, r.entries[0]);
  }

  lemma NodeFits(pages: Pages, sh: Shape, root: PageNo, maxKey: nat, w: nat, j: nat)
    requires Flat(pages, sh, root, maxKey, w) && Bare(pages, root, w) && j <= |pages[root].seps|
    ensures UsedBytes(NodeOf(pages, root, j, w)) <= PAGE_SIZE
  {
    assert LeafChild(pages, root, j);
  }

  /** A loan from the left keeps every key, also when the lender gives its only entry away. */
  lemma FromLeftFlat(pages: Pages, sh: Shape, root: PageNo, maxKey: nat, w: nat, idx: nat) returns (sh': Shape)
    requires Flat(pages, sh, root, maxKey, w) && Bare(pages, root, w) && 1 <= idx <= |pages[root].seps|
    requires NodeOf(pages, root, idx - 1, w).entries != [] && HasRoom(pages, root, idx, w)
    ensures Flat(FromLeft(pages, root, idx, w), sh', root, maxKey, w) && SameKeys(pages, FromLeft(pages, root, idx, w))
  {
    hide Lt, Inv, Parented, PageOk, UsedBytes, Fits, AllWidth, Holds, Width, TopOk, Border, SameKeys;
    NodeFits(pages, sh, root, maxKey, w, idx - 1);
    var l, r := NodeOf(pages, root, idx - 1, w), NodeOf(pages, root, idx, w);
    var k, c := l.entries[|l.entries| - 1], ChildAt(pages[root], idx);
    assert LeafChild(pages, root, idx - 1);
    LeftLoanFits(l, r, w, c);
    BorrowLeftBorder(pages, sh, root, idx - 1);
    RebalanceFlat(pages, sh, root, maxKey, w, idx - 1, l.entries[..|l.entries| - 1], [k] + r.entries, k);
    sh' := NewLow(sh, c, k);
  }

  /** A loan from the right keeps every key as long as the lender has another entry. */
  lemma FromRightFlat(pages: Pages, sh: Shape, root: PageNo, maxKey: nat, w: nat, idx: nat) returns (sh': Shape)
    requires Flat(pages, sh, root, maxKey, w) && Bare(pages, root, w) && idx < |pages[root].seps|
    requires |NodeOf(pages, root, idx + 1, w).entries| >= 2 && HasRoom(pages, root, idx, w)
    ensures Flat(FromRight(pages, root, idx, w), sh', root, maxKey, w)
    ensures SameKeys(pages, FromRight(pages, root, idx, w))
  {
    hide Lt, Inv, Parented, PageOk, UsedBytes, Fits, AllWidth, Holds, Width, TopOk, Border, SameKeys;
    NodeFits(pages, sh, root, maxKey, w, idx + 1);
    var l, r := NodeOf(pages, root, idx, w), NodeOf(pages, root, idx + 1, w);
    var k, c := r.entries[1], ChildAt(pages[root], idx + 1);
    assert LeafChild(pages, root, idx);
    RightLoanFits(l, r, w, c);
    BorrowRightBorder(pages, sh, root, idx);
    RebalanceFlat(pages, sh, root, maxKey, w, idx, l.entries + [r.entries[0]], r.entries[1..], k);
    sh' := NewLow(sh, c, k);
  }

  lemma RoundFlat(pages: Pages, sh: Shape, root: PageNo, maxKey: nat, w: nat, idx: nat) returns (sh': Shape)
    requires Flat(pages, sh, root, maxKey, w) && Bare(pages, root, w) && idx <= |pages[root].seps|
    requires Round(pages, root, idx, w).Loan? && !Round(pages, root, idx, w).stale
    ensures Flat(Round(pages, root, idx, w).pages, sh', root, maxKey, w)
    ensures SameKeys(pages, Round(pages, root, idx, w).pages)
  {
    hide Flat, Bare, UsedBytes, FromLeft, FromRight, SameKeys, HasRoom;
    if LeftSpares(pages, root, idx, w) && HasRoom(pages, root, idx, w) {
      sh' := FromLeftFlat(pages, sh, root, maxKey, w, idx);
    } else {
      sh' := FromRightFlat(pages, sh, root, maxKey, w, idx);
    }
  }

  lemma MergedFlat(pages: Pages, sh: Shape, root: PageNo, maxKey: nat, w: nat, i: nat)
    requires Flat(pages, sh, root, maxKey, w) && Bare(pages, root, w) && i < |pages[root].seps|
    requires CanMerge(pages, root, i, w)
    ensures Flat(Merged(pages, root, i, w), sh, root, maxKey, w) && SameKeys(pages, Merged(pages, root, i, w))
    ensures |Merged(pages, root, i, w)[root].seps| == |pages[root].seps| - 1
  {
    assert LeafChild(pages, root, i) && LeafChild(pages, root, i + 1);
    hide Lt, Inv, Parented, PageOk, UsedBytes, Fits, AllWidth, Holds, Bare;
    MergeFlat(pages, sh, root, maxKey, w, i);
    Neighbours(pages, sh, root, i);
  }

  /** The child at `idx` is no longer underfull, or one child less is left; an only child stays as it is. */
  ghost predicate Refilled(was: Pages, now: Pages, root: PageNo, idx: nat, w: nat)
    requires Bare(was, root, w) && idx <= |was[root].seps|
  {
    && Bare(now, root, w)
    && var n := |was[root].seps|;
       n == 0 || |now[root].seps| == n - 1 || (|now[root].seps| == n && !Underfull(now, root, idx, w))
  }

  /** Without a stale read, repairing a child keeps the tree and its keys. */
  lemma {:induction false} RefillSound(pages: Pages, sh: Shape, root: PageNo, maxKey: nat, w: nat, idx: nat)
    returns (sh': Shape)
    requires Flat(pages, sh, root, maxKey, w) && Bare(pages, root, w) && idx <= |pages[root].seps|
    requires Refill(pages, root, idx, w).Repaired? && !Refill(pages, root, idx, w).stale && w <= MAX_KEY
    ensures Flat(Refill(pages, root, idx, w).pages, sh', root, maxKey, w)
    ensures SameKeys(pages, Refill(pages, root, idx, w).pages)
    ensures Refilled(pages, Refill(pages, root, idx, w).pages, root, idx, w)
    decreases MIN_OCCUPANCY - UsedBytes(NodeOf(pages, root, idx, w))
  {
    hide Flat, Bare, Round, SameKeys, NodeOf, UsedBytes, MergeChild;
    var out := Refill(pages, root, idx, w);
    if !Underfull(pages, root, idx, w) {
      sh' := sh;
      SameSelf(pages);
    } else {
      match Round(pages, root, idx, w)
      case NoLoan => sh' := MergeChildSound(pages, sh, root, maxKey, w, idx);
      case Loan(pages', stale) =>
        RoundLarger(pages, root, idx, w);
        var sh1 := RoundFlat(pages, sh, root, maxKey, w, idx);
        sh' := RefillSound(pages', sh1, root, maxKey, w, idx);
        SameTwice(pages, pages', out.pages);
    }
  }

  /** A child that gets no loan fits one page with its neighbour, so the merge never fails. */
  lemma NoLoanMerges(pages: Pages, root: PageNo, idx: nat, w: nat)
    requires Bare(pages, root, w) && idx <= |pages[root].seps| && w <= MAX_KEY
    requires Underfull(pages, root, idx, w) && Round(pages, root, idx, w).NoLoan?
    ensures idx >= 1 ==> CanMerge(pages, root, idx - 1, w)
    ensures idx == 0 && |pages[root].seps| > 0 ==> CanMerge(pages, root, 0, w)
    ensures MergeChild(pages, root, idx, w).Repaired?
  {
    hide AllWidth, LeafChild, UsedBytes, Merged;
  }

  lemma MergeChildSound(pages: Pages, sh: Shape, root: PageNo, maxKey: nat, w: nat, idx: nat) returns (sh': Shape)
    requires Flat(pages, sh, root, maxKey, w) && Bare(pages, root, w) && idx <= |pages[root].seps|
    requires Underfull(pages, root, idx, w) && Round(pages, root, idx, w).NoLoan? && w <= MAX_KEY
    ensures MergeChild(pages, root, idx, w).Repaired?
    ensures var out := MergeChild(pages, root, idx, w);
            && !out.stale && Flat(out.pages, sh', root, maxKey, w) && SameKeys(pages, out.pages)
            && Refilled(pages, out.pages, root, idx, w)
  {
    hide Flat, AllWidth, LeafChild, SameKeys, NodeOf, UsedBytes, Merged, CanMerge, Round, Underfull;
    NoLoanMerges(pages, root, idx, w);
    sh' := sh;
    SameSelf(pages);
    if idx >= 1 && CanMerge(pages, root, idx - 1, w) {
      MergedFlat(pages, sh, root, maxKey, w, idx - 1);
    } else if idx < |pages[root].seps| {
      MergedFlat(pages, sh, root, maxKey, w, idx);
    }
    FlatIsBare(MergeChild(pages, root, idx, w).pages, sh, root, maxKey, w);
  }

  lemma SameSelf(pages: Pages)
    ensures SameKeys(pages, pages)
  {
  }

  lemma SameTwice(a: Pages, b: Pages, c: Pages)
    requires SameKeys(a, b) && SameKeys(b, c)
    ensures SameKeys(a, c)
  {
    hide Holds;
  }
}
