/** Deleting one entry from an index of at most two levels with keys of one width, from page map to page map. */
module BLinkErase {
  import opened Options
  import opened KeyOrder
  import opened BLink
  import opened BLinkReaders
  import opened BLinkSplit
  import opened BLinkQuiet
  import opened BLinkSteps
  import opened BLinkDelete
  import opened BLinkLoans

  // ------------------------------------------------------------------ when a repair goes wrong

  /** No entry, one entry, or more, in bytes. */
  lemma FewEntries(node: Node, w: nat)
    requires node.Leaf? && Width(node, w) && w > 0
    ensures var h := BASE + if node.high.Some? then RID_LEN + w else 0;
            && (node.entries == [] ==> UsedBytes(node) == h)
            && (|node.entries| == 1 ==> UsedBytes(node) == h + LEAF_OVERHEAD + w)
            && (|node.entries| >= 1 ==> UsedBytes(node) >= h + LEAF_OVERHEAD + w)
  {
    LeafBytes(node, w);
    if |node.entries| >= 1 {
      assert |node.entries| * (LEAF_OVERHEAD + w) == (|node.entries| - 1) * (LEAF_OVERHEAD + w) + LEAF_OVERHEAD + w;
    }
  }

  /**
   The child is too small, and the neighbour that is asked first either is counted as able to lend although it is
   empty, or would give its only entry to the left.
   */
  ghost predicate BadLoan(pages: Pages, root: PageNo, idx: nat, w: nat)
    requires Bare(pages, root, w) && idx <= |pages[root].seps|
  {
    && Underfull(pages, root, idx, w)
    && (if LeftSpares(pages, root, idx, w) then NodeOf(pages, root, idx - 1, w).entries == []
        else RightSpares(pages, root, idx, w) && |NodeOf(pages, root, idx + 1, w).entries| <= 1)
  }

  lemma SizesAt(pages: Pages, sh: Shape, root: PageNo, maxKey: nat, w: nat, j: nat)
    requires Flat(pages, sh, root, maxKey, w) && Bare(pages, root, w) && j <= |pages[root].seps| && w > 0
    ensures var node := NodeOf(pages, root, j, w);
            var h := BASE + if j < |pages[root].seps| then RID_LEN + w else 0;
            && (node.entries == [] ==> UsedBytes(node) == h)
            && (|node.entries| == 1 ==> UsedBytes(node) == h + LEAF_OVERHEAD + w)
            && (|node.entries| >= 1 ==> UsedBytes(node) >= h + LEAF_OVERHEAD + w)
  {
    hide Lt, Inv, Parented, PageOk, UsedBytes, Fits, Width;
    assert LeafChild(pages, root, j);
    LastChild(pages, sh, root);
    FewEntries(NodeOf(pages, root, j, w), w);
  }

  /** After a loan the next round cannot go wrong either. */
  lemma NoBadLoanLater(pages: Pages, sh: Shape, root: PageNo, maxKey: nat, w: nat, idx: nat)
    requires Flat(pages, sh, root, maxKey, w) && Bare(pages, root, w) && idx <= |pages[root].seps| && w > 0
    requires NodeOf(pages, root, idx, w).entries != []
    ensures !BadLoan(pages, root, idx, w)
  {
    hide Flat, AllWidth, LeafChild, UsedBytes;
    SizesAt(pages, sh, root, maxKey, w, idx);
    if idx >= 1 {
      SizesAt(pages, sh, root, maxKey, w, idx - 1);
    }
    if idx < |pages[root].seps| {
      SizesAt(pages, sh, root, maxKey, w, idx + 1);
    }
  }

  lemma LargerIsNotEmpty(pages: Pages, pages': Pages, root: PageNo, idx: nat, w: nat)
    requires Bare(pages, root, w) && idx <= |pages[root].seps| && Larger(pages, pages', root, idx, w) && w > 0
    requires idx < |pages[root].seps| <==> NodeOf(pages, root, idx, w).high.Some?
    requires idx < |pages[root].seps| <==> NodeOf(pages', root, idx, w).high.Some?
    ensures NodeOf(pages', root, idx, w).entries != []
  {
    FewEntries(NodeOf(pages', root, idx, w), w);
    FewEntries(NodeOf(pages, root, idx, w), w);
  }

  lemma LastIsOpen(pages: Pages, sh: Shape, root: PageNo, maxKey: nat, w: nat, j: nat)
    requires Flat(pages, sh, root, maxKey, w) && Bare(pages, root, w) && j <= |pages[root].seps|
    ensures j < |pages[root].seps| <==> NodeOf(pages, root, j, w).high.Some?
  {
    hide Lt, Inv, Parented, PageOk, UsedBytes, Fits, Width;
    assert LeafChild(pages, root, j);
    LastChild(pages, sh, root);
  }

  /** Without a bad loan at the start, the repair succeeds and reads nothing stale. */
  lemma {:induction false} RefillClean(pages: Pages, sh: Shape, root: PageNo, maxKey: nat, w: nat, idx: nat)
    requires Flat(pages, sh, root, maxKey, w) && Bare(pages, root, w) && idx <= |pages[root].seps| && 0 < w <= MAX_KEY
    requires !BadLoan(pages, root, idx, w)
    ensures Refill(pages, root, idx, w).Repaired? && !Refill(pages, root, idx, w).stale
    decreases MIN_OCCUPANCY - UsedBytes(NodeOf(pages, root, idx, w))
  {
    if !Underfull(pages, root, idx, w) {
      return;
    }
    RoundIsClean(pages, root, idx, w);
    hide Flat, Bare, Round, NodeOf, UsedBytes, MergeChild, BadLoan;
    match Round(pages, root, idx, w)
    case NoLoan => NoLoanMerges(pages, root, idx, w);
    case Loan(pages', stale) =>
      RoundLarger(pages, root, idx, w);
      var sh1 := RoundFlat(pages, sh, root, maxKey, w, idx);
      LastIsOpen(pages, sh, root, maxKey, w, idx);
      LastIsOpen(pages', sh1, root, maxKey, w, idx);
      LargerIsNotEmpty(pages, pages', root, idx, w);
      NoBadLoanLater(pages', sh1, root, maxKey, w, idx);
      RefillClean(pages', sh1, root, maxKey, w, idx);
  }

  lemma RoundIsClean(pages: Pages, root: PageNo, idx: nat, w: nat)
    requires Bare(pages, root, w) && idx <= |pages[root].seps| && w <= MAX_KEY
    requires Underfull(pages, root, idx, w) && !BadLoan(pages, root, idx, w)
    ensures !Round(pages, root, idx, w).BadRead?
    ensures (Round(pages, root, idx, w).Loan? ==> !Round(pages, root, idx, w).stale)
  {
    hide AllWidth, LeafChild, UsedBytes, FromLeft, FromRight;
  }

  ghost predicate AllFindable(was: Pages, now: Pages, root: PageNo) {
    forall k :: Holds(was, k) ==> Findable(now, root, k)
  }

  /** The repair of a child succeeds and keeps every key findable exactly when it does not start with a bad loan. */
  lemma RefillExact(pages: Pages, sh: Shape, root: PageNo, maxKey: nat, w: nat, idx: nat)
    requires Flat(pages, sh, root, maxKey, w) && Bare(pages, root, w) && idx <= |pages[root].seps| && 0 < w <= MAX_KEY
    ensures var out := Refill(pages, root, idx, w);
            out.Repaired? && AllFindable(pages, out.pages, root) <==> !BadLoan(pages, root, idx, w)
  {
    hide Bare, Refill, NodeOf, UsedBytes, BadLoan, Holds, Findable, Inv, Parented, Fits, AllWidth;
    if BadLoan(pages, root, idx, w) {
      BadLoanFails(pages, sh, root, maxKey, w, idx);
    } else {
      RefillClean(pages, sh, root, maxKey, w, idx);
      var sh' := RefillSound(pages, sh, root, maxKey, w, idx);
      var now := Refill(pages, root, idx, w).pages;
      forall k | Holds(pages, k)
        ensures Findable(now, root, k)
      {
        FlatFindable(now, sh', root, k);
      }
    }
  }

  lemma BadLoanFails(pages: Pages, sh: Shape, root: PageNo, maxKey: nat, w: nat, idx: nat)
    requires Flat(pages, sh, root, maxKey, w) && Bare(pages, root, w) && idx <= |pages[root].seps| && 0 < w <= MAX_KEY
    requires BadLoan(pages, root, idx, w)
    ensures var out := Refill(pages, root, idx, w);
            out.Broken? || (out.Repaired? && !AllFindable(pages, out.pages, root))
  {
    hide Flat, AllWidth, LeafChild, UsedBytes, Findable, FromLeft, FromRight;
    if !LeftSpares(pages, root, idx, w) && NodeOf(pages, root, idx + 1, w).entries != [] {
      OnlyEntryIsLost(pages, sh, root, maxKey, w, idx);
    }
  }

  /** The only entry of the right neighbour goes to the child, and the descent still looks for it in the neighbour. */
  lemma OnlyEntryIsLost(pages: Pages, sh: Shape, root: PageNo, maxKey: nat, w: nat, idx: nat)
    requires Flat(pages, sh, root, maxKey, w) && Bare(pages, root, w) && idx < |pages[root].seps| && 0 < w <= MAX_KEY
    requires Underfull(pages, root, idx, w) && !LeftSpares(pages, root, idx, w) && RightSpares(pages, root, idx, w)
    requires |NodeOf(pages, root, idx + 1, w).entries| == 1
    ensures var k := NodeOf(pages, root, idx + 1, w).entries[0]; var now := FromRight(pages, root, idx, w);
            && Refill(pages, root, idx, w) == Repaired(now, true) && Holds(pages, k) && !Findable(now, root, k)
    ensures !AllFindable(pages, FromRight(pages, root, idx, w), root)
  {
    var k, now := NodeOf(pages, root, idx + 1, w).entries[0], FromRight(pages, root, idx, w);
    assert Holds(pages, k) && !Findable(now, root, k) by {
      assert LeafChild(pages, root, idx) && LeafChild(pages, root, idx + 1);
      BorrowedIsLost(pages, sh, root, idx);
    }
    hide Flat, AllWidth, LeafChild, UsedBytes, Findable, FromLeft, FromRight, Holds;
    SizesAt(pages, sh, root, maxKey, w, idx);
    SizesAt(pages, sh, root, maxKey, w, idx + 1);
    RightLarger(pages, root, idx, w);
    assert Round(pages, root, idx, w) == Loan(now, true);
    assert Refill(now, root, idx, w) == Repaired(now, false);
  }

  // ------------------------------------------------------------------ widths

  /** Up to 1042 bytes a lender keeps an entry; from 2029 to 2093 only the last leaf is ever too small. */
  predicate GoodWidth(w: nat) {
    w <= MAX_WIDTH || 2029 <= w <= 2093
  }

  lemma GoodWidthHasNoBadLoan(pages: Pages, sh: Shape, root: PageNo, maxKey: nat, w: nat, idx: nat)
    requires Flat(pages, sh, root, maxKey, w) && Bare(pages, root, w) && idx <= |pages[root].seps| && 0 < w
    requires GoodWidth(w)
    ensures !BadLoan(pages, root, idx, w)
  {
    hide Flat, AllWidth, LeafChild, UsedBytes;
    SizesAt(pages, sh, root, maxKey, w, idx);
    if idx >= 1 {
      SizesAt(pages, sh, root, maxKey, w, idx - 1);
    }
    if idx < |pages[root].seps| {
      SizesAt(pages, sh, root, maxKey, w, idx + 1);
    }
  }

  /** Where the right neighbour counts as able to lend it has an entry; the read of an empty one never happens. */
  lemma RightLenderIsNotEmpty(pages: Pages, sh: Shape, root: PageNo, maxKey: nat, w: nat, idx: nat)
    requires Flat(pages, sh, root, maxKey, w) && Bare(pages, root, w) && idx < |pages[root].seps| && w > 0
    requires Underfull(pages, root, idx, w) && RightSpares(pages, root, idx, w)
    ensures NodeOf(pages, root, idx + 1, w).entries != []
  {
    hide Flat, AllWidth, LeafChild, UsedBytes;
    SizesAt(pages, sh, root, maxKey, w, idx);
    SizesAt(pages, sh, root, maxKey, w, idx + 1);
  }

  // ------------------------------------------------------------------ the separator before a child

  /** The separator before child `idx`, and the bound of the leaf before it, follow the child's least entry. */
  ghost function Refresh(pages: Pages, root: PageNo, idx: nat, w: nat): Pages
    requires Bare(pages, root, w) && idx <= |pages[root].seps|
  {
    if idx == 0 || NodeOf(pages, root, idx, w).entries == [] then pages
    else
      assert LeafChild(pages, root, idx - 1) && LeafChild(pages, root, idx);
      var l, r := NodeOf(pages, root, idx - 1, w).entries, NodeOf(pages, root, idx, w).entries;
      Rebalance(pages, root, idx - 1, l, r, r[0])
  }

  lemma RefreshBorder(pages: Pages, sh: Shape, root: PageNo, i: nat, l: PageNo, r: PageNo)
    requires TwoLevels(pages, sh, root) && i < |pages[root].seps| && l == ChildAt(pages[root], i)
    requires r == ChildAt(pages[root], i + 1)
    requires l in pages && r in pages && pages[l].Leaf? && pages[r].Leaf? && pages[r].entries != []
    ensures Border(pages, sh, root, i, pages[l].entries, pages[r].entries, pages[r].entries[0])
  {
    hide Lt, Inv, Parented, PageOk, ChildAt;
    Order();
    Neighbours(pages, sh, root, i);
    LeafBounds(pages, sh, r, 0);
    LinkOkAt(pages, sh, l);
    PageSorted(pages, sh, r);
    var le, re := pages[l].entries, pages[r].entries;
    forall j | 0 <= j < |le|
      ensures Lt(le[j], re[0])
    {
      LeafBounds(pages, sh, l, j);
    }
  }

  lemma PageSorted(pages: Pages, sh: Shape, p: PageNo)
    requires Inv(pages, sh) && p in pages && pages[p].Leaf?
    ensures Sorted(pages[p].entries)
  {
    assert PageOk(pages, sh, p);
  }

  lemma RefreshBytes(l: Node, r: Node, n: PageNo, w: nat)
    requires l.Leaf? && r.Leaf? && Width(l, w) && Width(r, w) && r.entries != [] && l.high.Some?
    ensures |r.entries[0].bytes| == w && UsedBytes(Leaf(l.entries, n, Some(r.entries[0]))) == UsedBytes(l)
    ensures UsedBytes(Leaf(r.entries, 0, r.high)) == UsedBytes(r)
  {
    hide Sum;
  }

  /** Refreshing keeps the tree and its keys; the separator is then the child's least entry. */
  lemma RefreshSound(pages: Pages, sh: Shape, root: PageNo, maxKey: nat, w: nat, idx: nat) returns (sh': Shape)
    requires Flat(pages, sh, root, maxKey, w) && Bare(pages, root, w) && idx <= |pages[root].seps|
    ensures var now := Refresh(pages, root, idx, w);
            && Flat(now, sh', root, maxKey, w) && SameKeys(pages, now) && SameFrame(pages, now, root)
            && (idx >= 1 && NodeOf(pages, root, idx, w).entries != [] ==>
                  now[root].seps[idx - 1].key == NodeOf(pages, root, idx, w).entries[0])
  {
    hide Lt, Inv, Parented, PageOk, UsedBytes, Fits, AllWidth, Holds, Width, TopOk, Border, SameKeys;
    sh' := sh;
    SameSelf(pages);
    if idx >= 1 && NodeOf(pages, root, idx, w).entries != [] {
      assert LeafChild(pages, root, idx - 1) && LeafChild(pages, root, idx);
      var l, r := NodeOf(pages, root, idx - 1, w), NodeOf(pages, root, idx, w);
      var k, c := r.entries[0], ChildAt(pages[root], idx);
      NodeFits(pages, sh, root, maxKey, w, idx - 1);
      NodeFits(pages, sh, root, maxKey, w, idx);
      RefreshBytes(l, r, c, w);
      RefreshBorder(pages, sh, root, idx - 1, ChildAt(pages[root], idx - 1), c);
      RebalanceFlat(pages, sh, root, maxKey, w, idx - 1, l.entries, r.entries, k);
      sh' := NewLow(sh, c, k);
      Neighbours(pages, sh, root, idx - 1);
    }
  }

  // ------------------------------------------------------------------ the whole operation

  /** After a removal: refill or merge an underfull child, or bring its separator up to date. */
  ghost function Repair(pages: Pages, root: PageNo, idx: nat, w: nat): Repaired
    requires Bare(pages, root, w) && idx <= |pages[root].seps|
  {
    if Underfull(pages, root, idx, w) then Refill(pages, root, idx, w)
    else Repaired(Refresh(pages, root, idx, w), false)
  }

  lemma {:induction false} RefillKeepsRoot(pages: Pages, root: PageNo, idx: nat, w: nat)
    requires Bare(pages, root, w) && idx <= |pages[root].seps|
    ensures Refill(pages, root, idx, w).Repaired? ==> root in Refill(pages, root, idx, w).pages
    decreases MIN_OCCUPANCY - UsedBytes(NodeOf(pages, root, idx, w))
  {
    if Underfull(pages, root, idx, w) && Round(pages, root, idx, w).Loan? {
      hide Round, NodeOf, UsedBytes, MergeChild;
      RoundLarger(pages, root, idx, w);
      RefillKeepsRoot(Round(pages, root, idx, w).pages, root, idx, w);
    }
  }

  lemma RepairKeepsRoot(pages: Pages, root: PageNo, idx: nat, w: nat)
    requires Bare(pages, root, w) && idx <= |pages[root].seps|
    ensures Repair(pages, root, idx, w).Repaired? ==> root in Repair(pages, root, idx, w).pages
  {
    RefillKeepsRoot(pages, root, idx, w);
  }

  /** `Absent` is the error of a missing entry; otherwise root and pages afterwards, or how the repair failed. */
  datatype Erased = Absent | Erased(root: PageNo, pages: Pages, stale: bool) | MergeOverflow | Crashed

  /** A root leaf that is empty clears the index; a root without separators gives way to its only child. */
  ghost function Collapse(root: PageNo, pages: Pages, stale: bool): Erased
    requires root in pages
  {
    var node := pages[root];
    if node.Leaf? && node.entries == [] then Erased(0, map[], stale)
    else if node.Internal? && node.seps == [] && node.first in pages && pages[node.first].Leaf? then
      Erased(node.first, map[node.first := Leaf(pages[node.first].entries, 0, None)], stale)
    else Erased(root, pages, stale)
  }

  /** How many separators are not above the key: the position of the child it is routed to. */
  function RoutedAt(seps: seq<Sep>, k: Key): (i: nat)
    ensures i <= |seps|
    decreases |seps|
  {
    if seps == [] || Lt(k, seps[0].key) then 0 else 1 + RoutedAt(seps[1..], k)
  }

  lemma {:induction false} RoutedIsChild(first: PageNo, seps: seq<Sep>, k: Key)
    ensures ChildFor(first, seps, k) == ChildAt(Internal(first, seps, 0, None), RoutedAt(seps, k))
    decreases |seps|
  {
    hide Lt;
    if seps != [] && !Lt(k, seps[0].key) {
      RoutedIsChild(seps[0].child, seps[1..], k);
    }
  }

  ghost predicate Erasable(pages: Pages, root: PageNo, w: nat) {
    root != 0 ==> root in pages && (pages[root].Internal? ==> Bare(pages, root, w))
  }

  ghost function RemoveKey(pages: Pages, p: PageNo, key: Key): Pages
    requires p in pages && pages[p].Leaf? && key in pages[p].entries
  {
    var i: nat :| i < |pages[p].entries| && pages[p].entries[i] == key;
    RemoveEntry(pages, p, i)
  }

  lemma RemoveBare(pages: Pages, root: PageNo, w: nat, idx: nat, key: Key)
    requires Bare(pages, root, w) && idx <= |pages[root].seps| && key in NodeOf(pages, root, idx, w).entries
    ensures LeafChild(pages, root, idx)
    ensures var now := RemoveKey(pages, ChildAt(pages[root], idx), key); Bare(now, root, w) && now[root] == pages[root]
  {
    assert LeafChild(pages, root, idx);
    var c := ChildAt(pages[root], idx);
    var now := RemoveKey(pages, c, key);
    forall q | q in now
      ensures Width(now[q], w)
    {
      assert Width(pages[q], w);
    }
    forall j | 0 <= j <= |pages[root].seps|
      ensures LeafChild(now, root, j)
    {
      assert LeafChild(pages, root, j);
    }
  }

  ghost function EraseBelow(pages: Pages, root: PageNo, key: Key, w: nat): Erased
    requires Bare(pages, root, w)
  {
    var idx := RoutedAt(pages[root].seps, key);
    if key !in NodeOf(pages, root, idx, w).entries then Absent
    else
      RemoveBare(pages, root, w, idx, key);
      RepairKeepsRoot(RemoveKey(pages, ChildAt(pages[root], idx), key), root, idx, w);
      match Repair(RemoveKey(pages, ChildAt(pages[root], idx), key), root, idx, w)
      case Overflow => MergeOverflow
      case Broken => Crashed
      case Repaired(pages', stale) => Collapse(root, pages', stale)
  }

  ghost function Erase(pages: Pages, root: PageNo, key: Key, w: nat): Erased
    requires Erasable(pages, root, w)
  {
    if root == 0 then Absent
    else if pages[root].Internal? then EraseBelow(pages, root, key, w)
    else if key in pages[root].entries then Collapse(root, RemoveKey(pages, root, key), false)
    else Absent
  }

  // ------------------------------------------------------------------ what it does to the keys

  /** At most two levels, keys of one width. */
  ghost predicate Shallow(pages: Pages, sh: Shape, root: PageNo, maxKey: nat, w: nat) {
    && (root == 0 ==> pages == map[])
    && (root != 0 ==> Quiet(pages, sh, root, maxKey) && AllWidth(pages, w) && sh.level[root] <= 1)
  }

  lemma ShallowIsFlat(pages: Pages, sh: Shape, root: PageNo, maxKey: nat, w: nat)
    requires Shallow(pages, sh, root, maxKey, w) && root != 0 && pages[root].Internal?
    ensures Flat(pages, sh, root, maxKey, w)
  {
    assert PageOk(pages, sh, root);
  }

  lemma ShallowIsErasable(pages: Pages, sh: Shape, root: PageNo, maxKey: nat, w: nat)
    requires Shallow(pages, sh, root, maxKey, w)
    ensures Erasable(pages, root, w)
  {
    hide Inv, Parented, Fits, AllWidth, Bare;
    if root != 0 && pages[root].Internal? {
      ShallowIsFlat(pages, sh, root, maxKey, w);
      FlatIsBare(pages, sh, root, maxKey, w);
    }
  }

  /** A root leaf is the only page. */
  lemma OnlyPage(pages: Pages, sh: Shape, root: PageNo, maxKey: nat)
    requires Quiet(pages, sh, root, maxKey) && pages[root].Leaf?
    ensures pages.Keys == {root}
  {
    hide Lt, Fits;
    RootIsRightmost(pages, sh, root);
    assert PageOk(pages, sh, root);
    forall q | q in pages
      ensures q == root
    {
      assert PageOk(pages, sh, q);
    }
  }

  /** What a search from the root finds. */
  ghost predicate Found(root: PageNo, pages: Pages, k: Key) {
    && root != 0 && root in pages
    && if pages[root].Leaf? then k in pages[root].entries else Findable(pages, root, k)
  }

  lemma FoundIsHeld(pages: Pages, sh: Shape, root: PageNo, maxKey: nat, w: nat, k: Key)
    requires Shallow(pages, sh, root, maxKey, w)
    ensures Found(root, pages, k) <==> Holds(pages, k)
  {
    hide Lt, Inv, Parented, Fits, AllWidth;
    if root != 0 {
      if pages[root].Leaf? {
        OnlyPage(pages, sh, root, maxKey);
      } else if Holds(pages, k) {
        ShallowIsFlat(pages, sh, root, maxKey, w);
        FlatFindable(pages, sh, root, k);
      }
    }
  }

  /** The leaf the key is routed to decides whether it is there. */
  lemma RoutedDecides(pages: Pages, sh: Shape, root: PageNo, maxKey: nat, w: nat, key: Key)
    requires Flat(pages, sh, root, maxKey, w) && Bare(pages, root, w)
    ensures var idx := RoutedAt(pages[root].seps, key);
            key in NodeOf(pages, root, idx, w).entries <==> Holds(pages, key)
  {
    hide Lt, Inv, Parented, PageOk, Fits, AllWidth;
    var node := pages[root];
    RoutedIsChild(node.first, node.seps, key);
    var idx := RoutedAt(node.seps, key);
    assert ChildAt(node, idx) == ChildFor(node.first, node.seps, key);
    assert LeafChild(pages, root, idx);
    if Holds(pages, key) {
      FlatFindable(pages, sh, root, key);
    }
  }

  lemma RemoveKeyFlat(pages: Pages, sh: Shape, root: PageNo, maxKey: nat, w: nat, p: PageNo, key: Key)
    requires Quiet(pages, sh, root, maxKey) && AllWidth(pages, w) && p in pages && pages[p].Leaf?
    requires key in pages[p].entries
    ensures var now := RemoveKey(pages, p, key);
            && Quiet(now, sh, root, maxKey) && AllWidth(now, w) && Loses(pages, now, key) && now.Keys == pages.Keys
            && forall q :: q in pages && q != p ==> now[q] == pages[q]
  {
    hide Quiet, AllWidth, Loses;
    var i: nat :| i < |pages[p].entries| && pages[p].entries[i] == key &&
                  RemoveKey(pages, p, key) == RemoveEntry(pages, p, i);
    RemoveQuiet(pages, sh, root, maxKey, w, p, i);
    assert Inv(pages, sh) by { QuietInv(pages, sh, root, maxKey); }
    RemoveLoses(pages, sh, p, i);
  }

  lemma QuietInv(pages: Pages, sh: Shape, root: PageNo, maxKey: nat)
    requires Quiet(pages, sh, root, maxKey)
    ensures Inv(pages, sh)
  {
  }

  /** A root without separators has one child, and nothing else exists. */
  lemma OnlyChild(pages: Pages, sh: Shape, root: PageNo, maxKey: nat, w: nat)
    requires Flat(pages, sh, root, maxKey, w) && pages[root].seps == []
    ensures var c := pages[root].first;
            && c in pages && c in sh.low && sh.low[c] == None && c in sh.level && sh.level[c] == 0
            && pages.Keys == {root, c}
            && pages[c].Leaf? && pages[c].high == None && pages[c].next == 0 && c != root && c != 0
            && Quiet(map[c := pages[c]], sh, c, maxKey) && AllWidth(map[c := pages[c]], w)
            && SameKeys(pages, map[c := pages[c]])
  {
    hide Lt, Parented, UsedBytes, Bounded, Width;
    var c := pages[root].first;
    assert ChildAt(pages[root], 0) == c;
    ChildFacts(pages, sh, root, 0);
    LastChild(pages, sh, root);
    OnlyRoot(pages, sh, root, c);
    forall q | q in pages
      ensures q == root || q == c
    {
      if q != root {
        var i := ChildOfRoot(pages, sh, root, q);
      }
    }
    assert PageOk(pages, sh, c);
    var pages' := map[c := pages[c]];
    assert PageOk(pages', sh, c);
    assert Parented(pages', c) by { LoneRoot(pages', c); }
    forall k
      ensures Holds(pages', k) <==> Holds(pages, k)
    {
      if Holds(pages, k) {
        var q :| q in pages && pages[q].Leaf? && k in pages[q].entries;
        assert q in pages' && pages'[q].Leaf?;
      }
      if Holds(pages', k) {
        assert c in pages && k in pages[c].entries;
      }
    }
  }

  lemma LoneRoot(pages: Pages, c: PageNo)
    requires pages.Keys == {c}
    ensures Parented(pages, c)
  {
  }

  lemma CollapseKeepsMark(root: PageNo, pages: Pages, stale: bool)
    requires root in pages
    ensures Collapse(root, pages, stale).Erased? && Collapse(root, pages, stale).stale == stale
  {
  }

  lemma CollapseSound(pages: Pages, sh: Shape, root: PageNo, maxKey: nat, w: nat, stale: bool)
    requires Shallow(pages, sh, root, maxKey, w) && root != 0
    ensures var out := Collapse(root, pages, stale);
            Shallow(out.pages, sh, out.root, maxKey, w) && SameKeys(pages, out.pages)
  {
    hide Lt, Inv, Parented, Fits, AllWidth;
    SameSelf(pages);
    if pages[root].Leaf? {
      OnlyPage(pages, sh, root, maxKey);
    } else if pages[root].seps == [] {
      ShallowIsFlat(pages, sh, root, maxKey, w);
      OnlyChild(pages, sh, root, maxKey, w);
    }
  }

  lemma RepairSound(pages: Pages, sh: Shape, root: PageNo, maxKey: nat, w: nat, idx: nat) returns (sh': Shape)
    requires Flat(pages, sh, root, maxKey, w) && Bare(pages, root, w) && idx <= |pages[root].seps| && w <= MAX_KEY
    requires Repair(pages, root, idx, w).Repaired? && !Repair(pages, root, idx, w).stale
    ensures Flat(Repair(pages, root, idx, w).pages, sh', root, maxKey, w)
    ensures SameKeys(pages, Repair(pages, root, idx, w).pages)
  {
    hide Flat, Bare, Refill, Refresh, SameKeys;
    if Underfull(pages, root, idx, w) {
      sh' := RefillSound(pages, sh, root, maxKey, w, idx);
    } else {
      sh' := RefreshSound(pages, sh, root, maxKey, w, idx);
    }
  }

  lemma FlatIsShallow(pages: Pages, sh: Shape, root: PageNo, maxKey: nat, w: nat)
    requires Flat(pages, sh, root, maxKey, w)
    ensures Shallow(pages, sh, root, maxKey, w) && root != 0
  {
    assert PageOk(pages, sh, root);
  }

  lemma LosesThen(a: Pages, b: Pages, c: Pages, key: Key)
    requires Loses(a, b, key) && SameKeys(b, c)
    ensures Loses(a, c, key)
  {
    hide Holds;
  }

  lemma ChildIsLeaf(pages: Pages, root: PageNo, j: nat)
    requires root in pages && pages[root].Internal? && j <= |pages[root].seps| && LeafChild(pages, root, j)
    ensures ChildAt(pages[root], j) in pages && pages[ChildAt(pages[root], j)].Leaf? && ChildAt(pages[root], j) != root
  {
  }

  lemma EraseBelowSound(pages: Pages, sh: Shape, root: PageNo, maxKey: nat, w: nat, key: Key) returns (sh': Shape)
    requires Flat(pages, sh, root, maxKey, w) && Bare(pages, root, w) && w <= MAX_KEY
    requires EraseBelow(pages, root, key, w).Erased? && !EraseBelow(pages, root, key, w).stale
    ensures var out := EraseBelow(pages, root, key, w);
            Shallow(out.pages, sh', out.root, maxKey, w) && Loses(pages, out.pages, key)
  {
    hide Lt, Inv, Parented, Fits, AllWidth, Loses, SameKeys, Repair, Collapse, Shallow, LeafChild;
    var idx := RoutedAt(pages[root].seps, key);
    var c := ChildAt(pages[root], idx);
    RemoveBare(pages, root, w, idx, key);
    ChildIsLeaf(pages, root, idx);
    RemoveKeyFlat(pages, sh, root, maxKey, w, c, key);
    var gone := RemoveKey(pages, c, key);
    RepairKeepsRoot(gone, root, idx, w);
    CollapseKeepsMark(root, Repair(gone, root, idx, w).pages, Repair(gone, root, idx, w).stale);
    sh' := RepairSound(gone, sh, root, maxKey, w, idx);
    var now := Repair(gone, root, idx, w).pages;
    LosesThen(pages, gone, now, key);
    FlatIsShallow(now, sh', root, maxKey, w);
    CollapseSound(now, sh', root, maxKey, w, false);
    LosesThen(pages, now, Collapse(root, now, false).pages, key);
  }

  /** A delete that reads nothing stale removes exactly the key and leaves an index of the same kind. */
  lemma EraseSound(pages: Pages, sh: Shape, root: PageNo, maxKey: nat, w: nat, key: Key) returns (sh': Shape)
    requires Shallow(pages, sh, root, maxKey, w) && Erasable(pages, root, w) && w <= MAX_KEY
    requires Erase(pages, root, key, w).Erased? && !Erase(pages, root, key, w).stale
    ensures var out := Erase(pages, root, key, w);
            Shallow(out.pages, sh', out.root, maxKey, w) && Loses(pages, out.pages, key)
  {
    hide Lt, Inv, Parented, Fits, AllWidth, TopOk, Loses, SameKeys, EraseBelow, Collapse, Bare;
    if pages[root].Internal? {
      ShallowIsFlat(pages, sh, root, maxKey, w);
      sh' := EraseBelowSound(pages, sh, root, maxKey, w, key);
    } else {
      sh' := sh;
      RemoveKeyFlat(pages, sh, root, maxKey, w, root, key);
      var gone := RemoveKey(pages, root, key);
      hide Quiet;
      CollapseSound(gone, sh, root, maxKey, w, false);
      LosesThen(pages, gone, Collapse(root, gone, false).pages, key);
    }
  }

  /** The delete succeeds, and afterwards a search finds exactly the other keys. */
  ghost predicate ErasesOnly(pages: Pages, root: PageNo, key: Key, w: nat) {
    && Erasable(pages, root, w)
    && var out := Erase(pages, root, key, w);
    out.Erased? && forall k :: Found(out.root, out.pages, k) <==> Holds(pages, k) && k != key
  }

  /** The child the key is taken from then needs a bad loan. */
  ghost predicate BadErase(pages: Pages, root: PageNo, key: Key, w: nat)
    requires Erasable(pages, root, w)
  {
    && root != 0 && pages[root].Internal?
    && var idx := RoutedAt(pages[root].seps, key);
    && key in NodeOf(pages, root, idx, w).entries
    && (RemoveBare(pages, root, w, idx, key); BadLoan(RemoveKey(pages, ChildAt(pages[root], idx), key), root, idx, w))
  }

  lemma AbsentIff(pages: Pages, sh: Shape, root: PageNo, maxKey: nat, w: nat, key: Key)
    requires Shallow(pages, sh, root, maxKey, w) && Erasable(pages, root, w)
    ensures Erase(pages, root, key, w).Absent? <==> !Holds(pages, key)
  {
    hide Lt, Inv, Parented, Fits, AllWidth, Repair;
    if root != 0 {
      if pages[root].Leaf? {
        OnlyPage(pages, sh, root, maxKey);
      } else {
        ShallowIsFlat(pages, sh, root, maxKey, w);
        RoutedDecides(pages, sh, root, maxKey, w, key);
      }
    }
  }

  /** At a good width no delete needs a bad loan. */
  lemma GoodWidthIsClean(pages: Pages, sh: Shape, root: PageNo, maxKey: nat, w: nat, key: Key)
    requires Shallow(pages, sh, root, maxKey, w) && Erasable(pages, root, w) && 0 < w && GoodWidth(w)
    ensures !BadErase(pages, root, key, w)
  {
    hide Lt, Inv, Parented, Fits, AllWidth, BadLoan, LeafChild, Holds;
    if BadErase(pages, root, key, w) {
      ShallowIsFlat(pages, sh, root, maxKey, w);
      var idx := RoutedAt(pages[root].seps, key);
      RemoveBare(pages, root, w, idx, key);
      ChildIsLeaf(pages, root, idx);
      RemoveKeyFlat(pages, sh, root, maxKey, w, ChildAt(pages[root], idx), key);
      GoodWidthHasNoBadLoan(RemoveKey(pages, ChildAt(pages[root], idx), key), sh, root, maxKey, w, idx);
    }
  }

  lemma CleanErase(pages: Pages, sh: Shape, root: PageNo, maxKey: nat, w: nat, key: Key)
    requires Shallow(pages, sh, root, maxKey, w) && Erasable(pages, root, w) && 0 < w <= MAX_KEY
    requires Holds(pages, key) && !BadErase(pages, root, key, w)
    ensures Erase(pages, root, key, w).Erased? && !Erase(pages, root, key, w).stale
  {
    hide Lt, Inv, Parented, Fits, AllWidth, TopOk, Bare, Refill, BadLoan, Refresh;
    AbsentIff(pages, sh, root, maxKey, w, key);
    if root != 0 && pages[root].Internal? {
      ShallowIsFlat(pages, sh, root, maxKey, w);
      RoutedDecides(pages, sh, root, maxKey, w, key);
      var idx := RoutedAt(pages[root].seps, key);
      RemoveBare(pages, root, w, idx, key);
      RemoveKeyFlat(pages, sh, root, maxKey, w, ChildAt(pages[root], idx), key);
      RefillClean(RemoveKey(pages, ChildAt(pages[root], idx), key), sh, root, maxKey, w, idx);
    }
  }

  /** A bad loan ends the delete, or leaves a key that no search finds. */
  lemma BadEraseFails(pages: Pages, sh: Shape, root: PageNo, maxKey: nat, w: nat, key: Key)
    requires Shallow(pages, sh, root, maxKey, w) && Erasable(pages, root, w) && 0 < w <= MAX_KEY
    requires BadErase(pages, root, key, w)
    ensures !ErasesOnly(pages, root, key, w)
  {
    hide Lt, Inv, Parented, Fits, AllWidth, Refill, BadLoan, Loses, Findable, Holds, LeafChild;
    ShallowIsFlat(pages, sh, root, maxKey, w);
    var idx := RoutedAt(pages[root].seps, key);
    var c := ChildAt(pages[root], idx);
    RemoveBare(pages, root, w, idx, key);
    ChildIsLeaf(pages, root, idx);
    RemoveKeyFlat(pages, sh, root, maxKey, w, c, key);
    var gone := RemoveKey(pages, c, key);
    BadLoanFails(gone, sh, root, maxKey, w, idx);
    BadLoanNeedsHelp(gone, root, idx, w);
    var out := Refill(gone, root, idx, w);
    if out.Repaired? {
      BadLoanKeepsRoot(gone, sh, root, maxKey, w, idx);
      var k :| Holds(gone, k) && !Findable(out.pages, root, k);
      assert Holds(pages, k) && k != key by { LosesAt(pages, gone, key, k); }
      assert !Found(root, out.pages, k);
      assert Collapse(root, out.pages, out.stale) == Erased(root, out.pages, out.stale);
      assert Erase(pages, root, key, w) == Erased(root, out.pages, out.stale);
    }
  }

  lemma LosesAt(pages: Pages, pages': Pages, key: Key, k: Key)
    requires Loses(pages, pages', key)
    ensures Holds(pages', k) <==> Holds(pages, k) && k != key
  {
    hide Holds;
  }

  lemma BadLoanNeedsHelp(pages: Pages, root: PageNo, idx: nat, w: nat)
    requires Bare(pages, root, w) && idx <= |pages[root].seps| && BadLoan(pages, root, idx, w)
    ensures Underfull(pages, root, idx, w)
  {
  }

  lemma BadLoanKeepsRoot(pages: Pages, sh: Shape, root: PageNo, maxKey: nat, w: nat, idx: nat)
    requires Flat(pages, sh, root, maxKey, w) && Bare(pages, root, w) && idx <= |pages[root].seps| && 0 < w <= MAX_KEY
    requires BadLoan(pages, root, idx, w) && Refill(pages, root, idx, w).Repaired?
    ensures var now := Refill(pages, root, idx, w).pages; root in now && now[root].Internal? && now[root].seps != []
  {
    hide Flat, AllWidth, LeafChild, UsedBytes, Findable, FromLeft, Holds, AllFindable;
    assert !LeftSpares(pages, root, idx, w) && NodeOf(pages, root, idx + 1, w).entries != [];
    OnlyEntryIsLost(pages, sh, root, maxKey, w, idx);
    RightLarger(pages, root, idx, w);
  }

  /**
   Deleting a key that is there succeeds and leaves exactly the other keys findable if and only if the child
   it is taken from does not then need a bad loan.
   */
  lemma EraseExact(pages: Pages, sh: Shape, root: PageNo, maxKey: nat, w: nat, key: Key)
    requires Shallow(pages, sh, root, maxKey, w) && Erasable(pages, root, w) && 0 < w <= MAX_KEY && Holds(pages, key)
    ensures ErasesOnly(pages, root, key, w) <==> !BadErase(pages, root, key, w)
  {
    hide Lt, Shallow, Erasable, BadErase, Erase, Found, Holds, Loses;
    if BadErase(pages, root, key, w) {
      BadEraseFails(pages, sh, root, maxKey, w, key);
    } else {
      CleanErase(pages, sh, root, maxKey, w, key);
      var sh' := EraseSound(pages, sh, root, maxKey, w, key);
      var out := Erase(pages, root, key, w);
      forall k
        ensures Found(out.root, out.pages, k) <==> Holds(pages, k) && k != key
      {
        FoundIsHeld(out.pages, sh', out.root, maxKey, w, k);
        LosesAt(pages, out.pages, key, k);
      }
    }
  }

  // ------------------------------------------------------------------ what stays in place

  /** No new pages, and the first child of the root is the same. */
  ghost predicate SameEdge(pages: Pages, pages': Pages, root: PageNo) {
    && root in pages && pages[root].Internal? && root in pages' && pages'[root].Internal?
    && pages'.Keys <= pages.Keys && pages'[root].first == pages[root].first
  }

  lemma {:induction false} RefillEdge(pages: Pages, root: PageNo, idx: nat, w: nat)
    requires Bare(pages, root, w) && idx <= |pages[root].seps|
    ensures Refill(pages, root, idx, w).Repaired? ==> SameEdge(pages, Refill(pages, root, idx, w).pages, root)
    decreases MIN_OCCUPANCY - UsedBytes(NodeOf(pages, root, idx, w))
  {
    if Underfull(pages, root, idx, w) && Round(pages, root, idx, w).Loan? {
      hide Round, NodeOf, UsedBytes, MergeChild;
      RoundLarger(pages, root, idx, w);
      var pages' := Round(pages, root, idx, w).pages;
      assert SameEdge(pages, pages', root) by { FrameEdge(pages, pages', root); }
      RefillEdge(pages', root, idx, w);
    } else {
      MergeEdge(pages, root, idx, w);
    }
  }

  lemma FrameEdge(pages: Pages, pages': Pages, root: PageNo)
    requires SameFrame(pages, pages', root)
    ensures SameEdge(pages, pages', root)
  {
    assert ChildAt(pages'[root], 0) == ChildAt(pages[root], 0);
  }

  lemma MergeEdge(pages: Pages, root: PageNo, idx: nat, w: nat)
    requires Bare(pages, root, w) && idx <= |pages[root].seps|
    ensures SameEdge(pages, pages, root)
    ensures MergeChild(pages, root, idx, w).Repaired? ==> SameEdge(pages, MergeChild(pages, root, idx, w).pages, root)
  {
    forall i | 0 <= i < |pages[root].seps|
      ensures SameEdge(pages, Merged(pages, root, i, w), root)
    {
      assert LeafChild(pages, root, i) && LeafChild(pages, root, i + 1);
    }
  }

  lemma RepairEdge(pages: Pages, root: PageNo, idx: nat, w: nat)
    requires Bare(pages, root, w) && idx <= |pages[root].seps|
    ensures Repair(pages, root, idx, w).Repaired? ==> SameEdge(pages, Repair(pages, root, idx, w).pages, root)
  {
    hide Refill;
    RefillEdge(pages, root, idx, w);
    if idx >= 1 {
      assert LeafChild(pages, root, idx - 1) && LeafChild(pages, root, idx);
    }
  }

  ghost function FirstLeafOf(root: PageNo, pages: Pages): PageNo
    requires root in pages
  {
    if pages[root].Leaf? then root else pages[root].first
  }

  /** A delete allocates nothing, and the leftmost leaf stays the leftmost leaf unless the index becomes empty. */
  lemma EraseEdge(pages: Pages, root: PageNo, key: Key, w: nat)
    requires Erasable(pages, root, w) && Erase(pages, root, key, w).Erased? && 0 !in pages
    ensures var out := Erase(pages, root, key, w);
            && root in pages && out.pages.Keys <= pages.Keys
            && (out.root == 0 ==> out.pages == map[])
            && (out.root != 0 ==> out.root in out.pages && FirstLeafOf(out.root, out.pages) == FirstLeafOf(root, pages))
  {
    hide Repair, NodeOf;
    if pages[root].Internal? {
      var idx := RoutedAt(pages[root].seps, key);
      RemoveBare(pages, root, w, idx, key);
      var gone := RemoveKey(pages, ChildAt(pages[root], idx), key);
      RepairKeepsRoot(gone, root, idx, w);
      RepairEdge(gone, root, idx, w);
    }
  }
}
