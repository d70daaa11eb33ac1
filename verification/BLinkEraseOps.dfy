/** The delete operation on the index file, page write by page write. */
module BLinkEraseOps {
  import opened Options
  import opened KeyOrder
  import opened BLink
  import opened BLinkReaders
  import opened BLinkSplit
  import opened BLinkQuiet
  import opened BLinkSteps
  import opened BLinkTree
  import opened BLinkDelete
  import opened BLinkLoans
  import opened BLinkErase

  datatype Tried = Lent | Nobody | NoSuchEntry

  lemma BareAt(pages: Pages, root: PageNo, w: nat, j: nat)
    requires Bare(pages, root, w) && j <= |pages[root].seps|
    ensures ChildAt(pages[root], j) in pages && ChildAt(pages[root], j) != root
    ensures Width(pages[ChildAt(pages[root], j)], w)
    ensures pages[ChildAt(pages[root], j)] == NodeOf(pages, root, j, w)
  {
    assert LeafChild(pages, root, j);
  }

  /** Moves the last entry of the left neighbour to the front of the child and the border to that entry. */
  method MoveFromLeft(tree: BTree, idx: nat, ghost w: nat)
    requires Bare(tree.pages, tree.root, w) && 1 <= idx <= |tree.pages[tree.root].seps|
    requires NodeOf(tree.pages, tree.root, idx - 1, w).entries != []
    modifies tree`pages
    ensures tree.pages == FromLeft(old(tree.pages), tree.root, idx, w)
  {
    BareAt(tree.pages, tree.root, w, idx - 1);
    BareAt(tree.pages, tree.root, w, idx);
    var root := tree.root;
    var l, child := ChildAt(tree.pages[root], idx - 1), ChildAt(tree.pages[root], idx);
    assert l != child;
    hide Bare, Width, UsedBytes;
    var le := tree.pages[l].entries;
    var k := le[|le| - 1];
    tree.pages := tree.pages[l := tree.pages[l].(entries := le[..|le| - 1])];
    tree.pages := tree.pages[child := tree.pages[child].(entries := [k] + tree.pages[child].entries)];
    tree.pages := tree.pages[l := Leaf(tree.pages[l].entries, tree.pages[l].next, Some(k))];
    tree.pages := tree.pages[root := tree.pages[root].(seps := tree.pages[root].seps[idx - 1 := Sep(k, child)])];
  }

  /** Moves the first entry of the right neighbour to the end of the child, then reads the new border there. */
  method MoveFromRight(tree: BTree, idx: nat, ghost w: nat)
    requires Bare(tree.pages, tree.root, w) && idx < |tree.pages[tree.root].seps|
    requires NodeOf(tree.pages, tree.root, idx + 1, w).entries != []
    modifies tree`pages
    ensures tree.pages == FromRight(old(tree.pages), tree.root, idx, w)
  {
    BareAt(tree.pages, tree.root, w, idx);
    BareAt(tree.pages, tree.root, w, idx + 1);
    var root := tree.root;
    var child, r := ChildAt(tree.pages[root], idx), ChildAt(tree.pages[root], idx + 1);
    assert r != child;
    hide Bare, Width, UsedBytes;
    var re := tree.pages[r].entries;
    tree.pages := tree.pages[r := tree.pages[r].(entries := re[1..])];
    tree.pages := tree.pages[child := tree.pages[child].(entries := tree.pages[child].entries + [re[0]])];
    // an emptied page still shows the entry that was removed last
    var first := if |re| > 1 then re[1] else re[0];
    tree.pages := tree.pages[child := Leaf(tree.pages[child].entries, tree.pages[child].next, Some(first))];
    tree.pages := tree.pages[root := tree.pages[root].(seps := tree.pages[root].seps[idx := Sep(first, r)])];
  }

  /** One round: an entry from the left neighbour if it can spare one, otherwise from the right one. */
  method BorrowOnce(tree: BTree, idx: nat, ghost w: nat) returns (out: Tried)
    requires Bare(tree.pages, tree.root, w) && idx <= |tree.pages[tree.root].seps|
    modifies tree`pages
    ensures match Round(old(tree.pages), tree.root, idx, w)
            case Loan(pages, _) => out.Lent? && tree.pages == pages
            case NoLoan => out.Nobody? && tree.pages == old(tree.pages)
            case BadRead => out.NoSuchEntry? && tree.pages == old(tree.pages)
  {
    hide AllWidth, LeafChild, UsedBytes, FromLeft, FromRight, NodeOf;
    var root := tree.root;
    BareAt(tree.pages, root, w, idx);
    var used := UsedBytes(tree.pages[ChildAt(tree.pages[root], idx)]);
    if idx >= 1 {
      BareAt(tree.pages, root, w, idx - 1);
      var left := tree.pages[ChildAt(tree.pages[root], idx - 1)];
      if UsedBytes(left) > SPARE {
        if left.entries == [] {
          return NoSuchEntry;
        }
        if used + LEAF_OVERHEAD + |left.entries[|left.entries| - 1].bytes| <= PAGE_SIZE {
          MoveFromLeft(tree, idx, w);
          return Lent;
        }
      }
    }
    if idx < |tree.pages[root].seps| {
      BareAt(tree.pages, root, w, idx + 1);
      var right := tree.pages[ChildAt(tree.pages[root], idx + 1)];
      if UsedBytes(right) > SPARE {
        if right.entries == [] {
          return NoSuchEntry;
        }
        if used + LEAF_OVERHEAD + |right.entries[0].bytes| <= PAGE_SIZE {
          MoveFromRight(tree, idx, w);
          return Lent;
        }
      }
    }
    return Nobody;
  }

  /** How repairing a child ends. */
  datatype Fixed = Fine | NoRoom | Crash

  /** The left page takes the entries, link and bound of the right one; the root forgets the right one. */
  method MergeAt(tree: BTree, i: nat, ghost w: nat)
    requires Bare(tree.pages, tree.root, w) && i < |tree.pages[tree.root].seps|
    modifies tree`pages
    ensures tree.pages == Merged(old(tree.pages), tree.root, i, w)
  {
    BareAt(tree.pages, tree.root, w, i);
    BareAt(tree.pages, tree.root, w, i + 1);
    var root := tree.root;
    var l, r := ChildAt(tree.pages[root], i), ChildAt(tree.pages[root], i + 1);
    assert l != r;
    hide Bare, Width, UsedBytes;
    var right := tree.pages[r];
    tree.pages := tree.pages[l := tree.pages[l].(entries := tree.pages[l].entries + right.entries)];
    tree.pages := tree.pages[l := Leaf(tree.pages[l].entries, right.next, tree.pages[l].high)];
    tree.pages := tree.pages[l := Leaf(tree.pages[l].entries, tree.pages[l].next, right.high)];
    tree.pages := tree.pages[root := tree.pages[root].(seps := Without(tree.pages[root].seps, i))];
    tree.pages := tree.pages - {r};
  }

  method MergeWithSibling(tree: BTree, idx: nat, ghost w: nat) returns (out: Fixed)
    requires Bare(tree.pages, tree.root, w) && idx <= |tree.pages[tree.root].seps|
    modifies tree`pages
    ensures match MergeChild(old(tree.pages), tree.root, idx, w)
            case Repaired(pages, _) => out.Fine? && tree.pages == pages
            case Overflow => out.NoRoom? && tree.pages == old(tree.pages)
            case Broken => out.Crash?
  {
    hide AllWidth, LeafChild, UsedBytes, Merged, NodeOf;
    var root := tree.root;
    BareAt(tree.pages, root, w, idx);
    var used := UsedBytes(tree.pages[ChildAt(tree.pages[root], idx)]);
    if idx >= 1 {
      BareAt(tree.pages, root, w, idx - 1);
      if UsedBytes(tree.pages[ChildAt(tree.pages[root], idx - 1)]) + used < PAGE_SIZE - 32 {
        MergeAt(tree, idx - 1, w);
        return Fine;
      }
    }
    if idx < |tree.pages[root].seps| {
      BareAt(tree.pages, root, w, idx + 1);
      if used + UsedBytes(tree.pages[ChildAt(tree.pages[root], idx + 1)]) >= PAGE_SIZE - 32 {
        return NoRoom;
      }
      MergeAt(tree, idx, w);
    }
    return Fine;
  }

  /** The outcome of a repair, given what later rounds yield and whether an earlier one read something stale. */
  ghost function Marked(out: Repaired, stale: bool): Repaired {
    if out.Repaired? then Repaired(out.pages, stale || out.stale) else out
  }

  /** Borrows for the child at `idx` until it is no longer underfull, or merges it once nobody lends. */
  method FixLeafChild(tree: BTree, idx: nat, ghost w: nat) returns (out: Fixed)
    requires Bare(tree.pages, tree.root, w) && idx <= |tree.pages[tree.root].seps|
    modifies tree`pages
    ensures match Refill(old(tree.pages), tree.root, idx, w)
            case Repaired(pages, _) => out.Fine? && tree.pages == pages
            case Overflow => out.NoRoom?
            case Broken => out.Crash?
  {
    hide Bare, UsedBytes, Round, MergeChild, NodeOf;
    ghost var was := tree.pages;
    ghost var stale := false;
    var root := tree.root;
    BareChild(tree.pages, root, w, idx);
    var child := ChildAt(tree.pages[root], idx);
    while UsedBytes(tree.pages[child]) < MIN_OCCUPANCY
      invariant Bare(tree.pages, root, w) && root in tree.pages && tree.pages[root].Internal?
      invariant idx <= |tree.pages[root].seps|
      invariant child == ChildAt(tree.pages[root], idx) && child in tree.pages
      invariant tree.pages[child] == NodeOf(tree.pages, root, idx, w)
      invariant Refill(was, root, idx, w) == Marked(Refill(tree.pages, root, idx, w), stale)
      decreases MIN_OCCUPANCY - UsedBytes(tree.pages[child])
    {
      ghost var now := tree.pages;
      var tried := BorrowOnce(tree, idx, w);
      if tried.NoSuchEntry? {
        return Crash;
      }
      if tried.Nobody? {
        out := MergeWithSibling(tree, idx, w);
        return;
      }
      RoundLarger(now, root, idx, w);
      stale := stale || Round(now, root, idx, w).stale;
      BareChild(tree.pages, root, w, idx);
    }
    return Fine;
  }

  lemma BareChild(pages: Pages, root: PageNo, w: nat, j: nat)
    requires Bare(pages, root, w) && j <= |pages[root].seps|
    ensures root in pages && pages[root].Internal? && ChildAt(pages[root], j) in pages
    ensures pages[ChildAt(pages[root], j)] == NodeOf(pages, root, j, w)
  {
    BareAt(pages, root, w, j);
  }

  /** The separator before child `idx`, and the bound of the leaf before it, follow the child's least entry. */
  method RefreshSeparator(tree: BTree, idx: nat, ghost w: nat)
    requires Bare(tree.pages, tree.root, w) && idx <= |tree.pages[tree.root].seps|
    modifies tree`pages
    ensures tree.pages == Refresh(old(tree.pages), tree.root, idx, w)
  {
    if idx == 0 {
      return;
    }
    BareAt(tree.pages, tree.root, w, idx - 1);
    BareAt(tree.pages, tree.root, w, idx);
    var root := tree.root;
    var l, child := ChildAt(tree.pages[root], idx - 1), ChildAt(tree.pages[root], idx);
    assert l != child;
    hide Bare, Width, UsedBytes;
    if tree.pages[child].entries != [] {
      ghost var was := tree.pages;
      var least := tree.pages[child].entries[0];
      tree.pages := tree.pages[root := tree.pages[root].(seps := tree.pages[root].seps[idx - 1 := Sep(least, child)])];
      tree.pages := tree.pages[l := Leaf(tree.pages[l].entries, tree.pages[l].next, Some(least))];
      assert tree.pages == Rebalance(was, root, idx - 1, was[l].entries, was[child].entries, least);
    }
  }

  /** A root leaf that emptied clears the index; a root without separators is replaced by its only child. */
  method CollapseRoot(tree: BTree, ghost stale: bool)
    requires tree.root in tree.pages && tree.root != 0
    requires var node := tree.pages[tree.root];
             node.Internal? && node.seps == [] ==>
               node.first in tree.pages && tree.pages[node.first].Leaf? && node.first != 0
    modifies tree`root, tree`firstLeaf, tree`pages
    ensures Erased(tree.root, tree.pages, stale) == Collapse(old(tree.root), old(tree.pages), stale)
    ensures tree.firstLeaf == if tree.root == 0 then 0 else old(tree.firstLeaf)
  {
    var node := tree.pages[tree.root];
    if node.Leaf? {
      if node.entries == [] {
        tree.root, tree.firstLeaf, tree.pages := 0, 0, map[];
      }
    } else if node.seps == [] {
      tree.root := node.first;
      tree.pages := map[node.first := Leaf(tree.pages[node.first].entries, 0, None)];
    }
  }

  /** Takes the key out of leaf `p`, if it is there. */
  method RemoveFrom(tree: BTree, p: PageNo, key: Key) returns (found: bool)
    requires p in tree.pages && tree.pages[p].Leaf? && Sorted(tree.pages[p].entries)
    modifies tree`pages
    ensures found == (key in old(tree.pages[p]).entries)
    ensures tree.pages == if found then RemoveKey(old(tree.pages), p, key) else old(tree.pages)
  {
    var entries := tree.pages[p].entries;
    var i := LowerBound(entries, key);
    found := i < |entries| && entries[i] == key;
    if found {
      OnlyPlace(entries, i);
      tree.pages := RemoveEntry(tree.pages, p, i);
    } else {
      NotThere(entries, i, key);
    }
  }

  lemma OnlyPlace(entries: seq<Key>, i: nat)
    requires Sorted(entries) && i < |entries|
    ensures forall j :: 0 <= j < |entries| && entries[j] == entries[i] ==> j == i
  {
    Order();
    hide Lt;
    forall j | 0 <= j < |entries| && j != i
      ensures entries[j] != entries[i]
    {
      assert j < i ==> Lt(entries[j], entries[i]);
      assert j > i ==> Lt(entries[i], entries[j]);
    }
  }

  lemma NotThere(entries: seq<Key>, i: nat, key: Key)
    requires Sorted(entries) && i <= |entries| && (i < |entries| ==> !Lt(entries[i], key) && entries[i] != key)
    requires forall j :: 0 <= j < i ==> Lt(entries[j], key)
    ensures key !in entries
  {
    Order();
    hide Lt;
    forall j | 0 <= j < |entries|
      ensures entries[j] != key
    {
      assert i < j ==> Lt(entries[i], entries[j]);
    }
  }

  // ------------------------------------------------------------------ delete

  /** `MergeError` is the error of a merge that does not fit, `Panic` a read before the start of a leaf. */
  datatype Deletion = Deleted | NotFound | MergeError | Panic

  /** An index of at most two levels with keys of one width. */
  ghost predicate Small(tree: BTree, w: nat)
    reads tree
  {
    tree.Valid() && Shallow(tree.pages, tree.sh, tree.root, tree.maxKey, w)
  }

  /** What the repair leaves can be collapsed. */
  lemma RepairCollapses(pages: Pages, sh: Shape, root: PageNo, maxKey: nat, w: nat, idx: nat)
    requires Flat(pages, sh, root, maxKey, w) && Bare(pages, root, w) && idx <= |pages[root].seps| && 0 < w <= MAX_KEY
    requires Repair(pages, root, idx, w).Repaired?
    ensures var now := Repair(pages, root, idx, w).pages;
            && root in now && now[root].Internal?
            && (now[root].seps == [] ==> now[root].first in now && now[root].first != 0 && now[now[root].first].Leaf?)
  {
    hide Lt, Inv, Parented, Fits, AllWidth, TopOk, Bare, Refill, Refresh, BadLoan, UsedBytes;
    if BadLoan(pages, root, idx, w) {
      BadLoanNeedsHelp(pages, root, idx, w);
      BadLoanKeepsRoot(pages, sh, root, maxKey, w, idx);
    } else {
      RefillClean(pages, sh, root, maxKey, w, idx);
      var sh' := RepairSound(pages, sh, root, maxKey, w, idx);
      FirstChild(Repair(pages, root, idx, w).pages, sh', root);
    }
  }

  lemma FirstChild(pages: Pages, sh: Shape, root: PageNo)
    requires TwoLevels(pages, sh, root)
    ensures root in pages && pages[root].Internal? && pages[root].first in pages && pages[root].first != 0
    ensures pages[pages[root].first].Leaf?
    ensures LeftmostLeaf(pages, sh, pages[root].first)
  {
    hide Lt, Parented;
    ChildFacts(pages, sh, root, 0);
    assert ChildAt(pages[root], 0) == pages[root].first;
    assert PageOk(pages, sh, pages[root].first);
    OnlyRoot(pages, sh, root, pages[root].first);
  }

  lemma RoutedPosition(pages: Pages, root: PageNo, w: nat, key: Key, idx: nat)
    requires Bare(pages, root, w) && idx <= |pages[root].seps|
    requires ChildAt(pages[root], idx) == ChildFor(pages[root].first, pages[root].seps, key)
    ensures idx == RoutedAt(pages[root].seps, key)
  {
    hide Lt, AllWidth;
    RoutedIsChild(pages[root].first, pages[root].seps, key);
    var at := RoutedAt(pages[root].seps, key);
    assert ChildAt(pages[root], at) == ChildAt(pages[root], idx);
  }

  /** Repairs the child at `idx` after a removal and collapses the root. */
  method RepairChild(tree: BTree, idx: nat, ghost w: nat) returns (out: Fixed)
    requires Flat(tree.pages, tree.sh, tree.root, tree.maxKey, w) && Bare(tree.pages, tree.root, w) && tree.root != 0
    requires idx <= |tree.pages[tree.root].seps| && 0 < w <= MAX_KEY
    modifies tree`pages, tree`root, tree`firstLeaf
    ensures match Repair(old(tree.pages), old(tree.root), idx, w)
            case Repaired(pages, stale) =>
              && out.Fine? && old(tree.root) in pages
              && Erased(tree.root, tree.pages, stale) == Collapse(old(tree.root), pages, stale)
              && tree.firstLeaf == if tree.root == 0 then 0 else old(tree.firstLeaf)
            case Overflow => out.NoRoom?
            case Broken => out.Crash?
  {
    hide Flat, Bare, UsedBytes, Refill, Refresh, Collapse;
    ghost var was, root := tree.pages, tree.root;
    BareChild(tree.pages, tree.root, w, idx);
    if UsedBytes(tree.pages[ChildAt(tree.pages[tree.root], idx)]) < MIN_OCCUPANCY {
      out := FixLeafChild(tree, idx, w);
      if !out.Fine? {
        return;
      }
    } else {
      RefreshSeparator(tree, idx, w);
      out := Fine;
    }
    RepairCollapses(was, tree.sh, root, tree.maxKey, w, idx);
    CollapseRoot(tree, Repair(was, root, idx, w).stale);
  }

  /** Takes the key out of the child it is routed to and repairs that child. */
  method DeleteBelow(tree: BTree, key: Key, ghost w: nat) returns (out: Deletion)
    requires Flat(tree.pages, tree.sh, tree.root, tree.maxKey, w) && Bare(tree.pages, tree.root, w) && tree.root != 0
    requires 0 < w <= MAX_KEY
    modifies tree`pages, tree`root, tree`firstLeaf
    ensures match EraseBelow(old(tree.pages), old(tree.root), key, w)
            case Absent =>
              && out.NotFound? && tree.pages == old(tree.pages) && tree.root == old(tree.root)
              && tree.firstLeaf == old(tree.firstLeaf)
            case Erased(root, pages, _) =>
              && out.Deleted? && tree.root == root && tree.pages == pages
              && tree.firstLeaf == if root == 0 then 0 else old(tree.firstLeaf)
            case MergeOverflow => out.MergeError?
            case Crashed => out.Panic?
  {
    hide Lt, Inv, Parented, Fits, AllWidth, LeafChild, UsedBytes, Repair, Collapse, ChildFor, Loses;
    ghost var was, root := tree.pages, tree.root;
    var child := FindChild(tree.pages[tree.root], key);
    RoutedChild(tree.pages, tree.sh, tree.root, key);
    var idx := PositionOf(tree.pages[tree.root], child);
    RoutedPosition(tree.pages, tree.root, w, key, idx);
    BareAt(tree.pages, tree.root, w, idx);
    PageSorted(tree.pages, tree.sh, child);
    var found := RemoveFrom(tree, child, key);
    if !found {
      return NotFound;
    }
    RemoveBare(was, root, w, idx, key);
    RemoveKeyFlat(was, tree.sh, root, tree.maxKey, w, child, key);
    RepairKeepsRoot(tree.pages, root, idx, w);
    ghost var gone := tree.pages;
    var fixed := RepairChild(tree, idx, w);
    MarkIsKept(root, Repair(gone, root, idx, w));
    match fixed
    case Fine => return Deleted;
    case NoRoom => return MergeError;
    case Crash => return Panic;
  }

  lemma MarkIsKept(root: PageNo, out: Repaired)
    requires out.Repaired? ==> root in out.pages
    ensures out.Repaired? ==> Collapse(root, out.pages, out.stale).Erased?
    ensures out.Repaired? ==> Collapse(root, out.pages, out.stale).stale == out.stale
  {
  }

  /** The leftmost leaf is the root itself or its first child. */
  lemma LeftmostIsFirst(pages: Pages, sh: Shape, root: PageNo, maxKey: nat, w: nat, p: PageNo)
    requires Shallow(pages, sh, root, maxKey, w) && root != 0
    ensures LeftmostLeaf(pages, sh, p) <==> p == FirstLeafOf(root, pages)
  {
    hide Lt, Parented, Fits, AllWidth;
    if pages[root].Leaf? {
      OnlyPage(pages, sh, root, maxKey);
      assert PageOk(pages, sh, root);
    } else {
      ShallowIsFlat(pages, sh, root, maxKey, w);
      FirstChild(pages, sh, root);
      if LeftmostLeaf(pages, sh, p) && p != pages[root].first {
        ApartAt(pages, sh, p, pages[root].first);
      }
    }
  }

  lemma NoPageZero(pages: Pages, sh: Shape, root: PageNo, maxKey: nat, w: nat)
    requires Shallow(pages, sh, root, maxKey, w)
    ensures 0 !in pages
  {
    assert 0 in pages ==> PageOk(pages, sh, 0);
  }

  lemma NeverOverflows(pages: Pages, sh: Shape, root: PageNo, maxKey: nat, w: nat, key: Key)
    requires Shallow(pages, sh, root, maxKey, w) && Erasable(pages, root, w) && 0 < w <= MAX_KEY
    ensures !Erase(pages, root, key, w).MergeOverflow?
  {
    hide Lt, Inv, Parented, Fits, AllWidth, LeafChild, Refill, BadLoan, UsedBytes;
    if root != 0 && pages[root].Internal? {
      ShallowIsFlat(pages, sh, root, maxKey, w);
      var idx := RoutedAt(pages[root].seps, key);
      if key in NodeOf(pages, root, idx, w).entries {
        RemoveBare(pages, root, w, idx, key);
        ChildIsLeaf(pages, root, idx);
        RemoveKeyFlat(pages, sh, root, maxKey, w, ChildAt(pages[root], idx), key);
        var gone := RemoveKey(pages, ChildAt(pages[root], idx), key);
        if BadLoan(gone, root, idx, w) {
          BadLoanFails(gone, sh, root, maxKey, w, idx);
        } else {
          RefillClean(gone, sh, root, maxKey, w, idx);
        }
      }
    }
  }

  /** What a valid tree needs beside its pages. */
  lemma EdgesKept(was: Pages, shWas: Shape, root: PageNo, pages: Pages, sh: Shape, key: Key, maxKey: nat, w: nat,
                  pageCount: nat, first: PageNo)
    requires Shallow(was, shWas, root, maxKey, w) && root != 0 && Erasable(was, root, w) && InRange(was, pageCount)
    requires LeftmostLeaf(was, shWas, first)
    requires var out := Erase(was, root, key, w);
             out.Erased? && pages == out.pages && Shallow(pages, sh, out.root, maxKey, w)
    ensures var out := Erase(was, root, key, w);
            InRange(pages, pageCount) && (out.root != 0 ==> LeftmostLeaf(pages, sh, first))
  {
    hide Shallow, Erasable, Erase, LeftmostLeaf;
    NoPageZero(was, shWas, root, maxKey, w);
    EraseEdge(was, root, key, w);
    LeftmostIsFirst(was, shWas, root, maxKey, w, first);
    var out := Erase(was, root, key, w);
    if out.root != 0 {
      LeftmostIsFirst(pages, sh, out.root, maxKey, w, first);
    }
  }

  /** The writes of a delete, without the ghost shape. */
  method DeleteFrom(tree: BTree, key: Key, ghost w: nat) returns (out: Deletion)
    requires Small(tree, w) && 0 < w <= MAX_KEY && Erasable(tree.pages, tree.root, w)
    modifies tree`pages, tree`root, tree`firstLeaf
    ensures match Erase(old(tree.pages), old(tree.root), key, w)
            case Absent =>
              && out.NotFound? && tree.pages == old(tree.pages) && tree.root == old(tree.root)
              && tree.firstLeaf == old(tree.firstLeaf)
            case Erased(root, pages, _) =>
              && out.Deleted? && tree.root == root && tree.pages == pages
              && tree.firstLeaf == if root == 0 then 0 else old(tree.firstLeaf)
            case MergeOverflow => out.MergeError?
            case Crashed => out.Panic?
  {
    hide Lt, Inv, Parented, Fits, AllWidth, EraseBelow, Bare;
    if tree.root == 0 {
      return NotFound;
    }
    if tree.pages[tree.root].Internal? {
      ShallowIsFlat(tree.pages, tree.sh, tree.root, tree.maxKey, w);
      out := DeleteBelow(tree, key, w);
    } else {
      PageSorted(tree.pages, tree.sh, tree.root);
      var found := RemoveFrom(tree, tree.root, key);
      if !found {
        return NotFound;
      }
      CollapseRoot(tree, false);
      return Deleted;
    }
  }

  /**
   Removes one entry. What the pages are afterwards is `Erase`; unless the delete needs a bad loan, and never at a
   good width, the index stays whole and loses exactly the key.
   */
  method Delete(tree: BTree, key: Key, ghost w: nat) returns (out: Deletion)
    requires Small(tree, w) && 0 < w <= MAX_KEY
    modifies tree
    ensures old(Erasable(tree.pages, tree.root, w)) && tree.maxKey == old(tree.maxKey)
    ensures match Erase(old(tree.pages), old(tree.root), key, w)
            case Absent => out.NotFound? && tree.pages == old(tree.pages) && tree.root == old(tree.root)
            case Erased(root, pages, _) => out.Deleted? && tree.root == root && tree.pages == pages
            case MergeOverflow => out.MergeError?
            case Crashed => out.Panic?
    ensures !out.MergeError? && (out.NotFound? <==> !old(Holds(tree.pages, key)))
    ensures GoodWidth(w) ==> !old(BadErase(tree.pages, tree.root, key, w))
    ensures !old(BadErase(tree.pages, tree.root, key, w)) ==> !out.Panic? && Small(tree, w)
    ensures !old(BadErase(tree.pages, tree.root, key, w)) ==> (out.Deleted? ==> Loses(old(tree.pages), tree.pages, key))
    ensures out.Deleted? && tree.root != 0 ==> tree.firstLeaf == old(tree.firstLeaf)
  {
    hide Shallow, Erasable, Erase, BadErase, Loses, Holds, InRange, LeftmostLeaf, Quiet;
    ghost var was, root, sh := tree.pages, tree.root, tree.sh;
    ShallowIsErasable(was, sh, root, tree.maxKey, w);
    AbsentIff(was, sh, root, tree.maxKey, w, key);
    NeverOverflows(was, sh, root, tree.maxKey, w, key);
    if GoodWidth(w) {
      GoodWidthIsClean(was, sh, root, tree.maxKey, w, key);
    }
    out := DeleteFrom(tree, key, w);
    if !BadErase(was, root, key, w) && Holds(was, key) {
      CleanErase(was, sh, root, tree.maxKey, w, key);
      ghost var sh' := EraseSound(was, sh, root, tree.maxKey, w, key);
      tree.sh := sh';
      NoKeysBelowZero(was, root, key, w);
      EdgesKept(was, sh, root, tree.pages, tree.sh, key, tree.maxKey, w, tree.pageCount, old(tree.firstLeaf));
      ShallowIsQuiet(tree.pages, tree.sh, tree.root, tree.maxKey, w);
    }
  }

  lemma NoKeysBelowZero(pages: Pages, root: PageNo, key: Key, w: nat)
    requires Erasable(pages, root, w) && Erase(pages, root, key, w).Erased?
    ensures root != 0
  {
  }

  lemma ShallowIsQuiet(pages: Pages, sh: Shape, root: PageNo, maxKey: nat, w: nat)
    requires Shallow(pages, sh, root, maxKey, w)
    ensures root == 0 ==> pages == map[]
    ensures root != 0 ==> Quiet(pages, sh, root, maxKey)
  {
  }
}
