/**
 Runs of insertions and deletions, from an empty index, at the widths at which deleting is wrong: one that loses a
 key nobody deleted, and one that ends in a read before the start of a leaf.
 */
module BLinkWideRuns {
  import opened Options
  import opened KeyOrder
  import opened BLink
  import opened BLinkSplit
  import opened BLinkQuiet
  import opened BLinkSteps
  import opened BLinkTree
  import opened BLinkDelete
  import opened BLinkLoans
  import opened BLinkErase
  import opened BLinkEraseOps
  import opened BLinkWidths

  // ------------------------------------------------------------------ how many keys a few leaves hold

  lemma {:induction false} Pigeonhole(few: seq<Key>, many: seq<Key>)
    requires forall i, j :: 0 <= i < j < |few| ==> few[i] != few[j]
    requires forall i :: 0 <= i < |few| ==> few[i] in many
    ensures |few| <= |many|
  {
    if few != [] {
      var at: nat :| at < |many| && many[at] == few[0];
      var rest := Without(many, at);
      forall i | 0 <= i < |few[1..]|
        ensures few[1..][i] in rest
      {
        var j :| 0 <= j < |many| && many[j] == few[i + 1];
        assert rest[if j < at then j else j - 1] == few[i + 1];
      }
      Pigeonhole(few[1..], rest);
    }
  }

  /** The entries of the children before position `j`. */
  ghost function Gather(pages: Pages, root: PageNo, w: nat, j: nat): seq<Key>
    requires Bare(pages, root, w) && j <= |pages[root].seps| + 1
  {
    if j == 0 then [] else Gather(pages, root, w, j - 1) + NodeOf(pages, root, j - 1, w).entries
  }

  lemma {:induction false} Gathered(pages: Pages, root: PageNo, w: nat, j: nat)
    requires Bare(pages, root, w) && j <= |pages[root].seps| + 1
    requires forall i :: 0 <= i < j ==> |NodeOf(pages, root, i, w).entries| <= 7
    ensures |Gather(pages, root, w, j)| <= 7 * j
    ensures forall i, k :: 0 <= i < j && k in NodeOf(pages, root, i, w).entries ==> k in Gather(pages, root, w, j)
  {
    hide Bare, NodeOf;
    if j > 0 {
      Gathered(pages, root, w, j - 1);
    }
  }

  lemma SmallLeaf(node: Node, w: nat)
    requires node.Leaf? && Width(node, w) && w > MAX_WIDTH && UsedBytes(node) <= PAGE_SIZE
    ensures |node.entries| <= 7
  {
    LeafBytes(node, w);
    if |node.entries| >= 8 {
      MoreTimes(8, |node.entries|, LEAF_OVERHEAD + w);
    }
  }

  lemma {:induction false} MoreTimes(a: nat, b: nat, each: nat)
    requires 0 < a <= b
    ensures a * each == (a - 1) * each + each && a * each <= b * each
  {
    assert a * each == (a - 1) * each + each;
    if a < b {
      MoreTimes(a, b - 1, each);
      assert b * each == (b - 1) * each + each;
    }
  }

  /** The number of leaves. */
  function Leaves(node: Node): nat {
    if node.Leaf? then 1 else |node.seps| + 1
  }

  lemma FewKeys(pages: Pages, sh: Shape, root: PageNo, maxKey: nat, w: nat, keys: seq<Key>)
    requires Shallow(pages, sh, root, maxKey, w) && root != 0 && w > MAX_WIDTH
    requires forall i, j :: 0 <= i < j < |keys| ==> keys[i] != keys[j]
    requires forall i :: 0 <= i < |keys| ==> Holds(pages, keys[i])
    ensures |keys| <= 7 * Leaves(pages[root])
  {
    hide Lt, Inv, Parented, UsedBytes, Width;
    if pages[root].Leaf? {
      OnlyPage(pages, sh, root, maxKey);
      SmallLeaf(pages[root], w);
      Pigeonhole(keys, pages[root].entries);
    } else {
      ShallowIsFlat(pages, sh, root, maxKey, w);
      FlatIsBare(pages, sh, root, maxKey, w);
      var n := |pages[root].seps|;
      forall i | 0 <= i <= n
        ensures |NodeOf(pages, root, i, w).entries| <= 7
      {
        NodeFits(pages, sh, root, maxKey, w, i);
        SmallLeaf(NodeOf(pages, root, i, w), w);
      }
      Gathered(pages, root, w, n + 1);
      forall i | 0 <= i < |keys|
        ensures keys[i] in Gather(pages, root, w, n + 1)
      {
        RoutedDecides(pages, sh, root, maxKey, w, keys[i]);
      }
      Pigeonhole(keys, Gather(pages, root, w, n + 1));
    }
  }

  // ------------------------------------------------------------------ an index with enough leaves

  /** Keys of `w` bytes, the first `n` of them. */
  function Firsts(w: nat, n: nat): seq<Key>
    requires n <= 256
  {
    seq(n, i requires 0 <= i < n => Wide(w, i))
  }

  lemma FirstsDiffer(w: nat, n: nat)
    requires 0 < w && n <= 256
    ensures forall i, j :: 0 <= i < j < n ==> Firsts(w, n)[i] != Firsts(w, n)[j]
    ensures forall i :: 0 <= i < n && n < 256 ==> Firsts(w, n)[i] != Wide(w, n)
  {
    forall i, j | 0 <= i < j < 256
      ensures Wide(w, i) != Wide(w, j)
    {
      assert Wide(w, i).bytes[0] == i && Wide(w, j).bytes[0] == j;
    }
  }

  /** A root with fewer than `want` separators has room for one more. */
  lemma RootHasRoom(node: Node, w: nat, want: nat, maxKey: nat)
    requires node.Internal? && node.high == None && Width(node, w) && |node.seps| < want && maxKey <= w
    requires BASE + want * (INTERNAL_OVERHEAD + w) <= PAGE_SIZE
    ensures !Full(node, w, maxKey)
  {
    hide Sum, SepSizes;
    EqualSizes(SepSizes(node.seps), INTERNAL_OVERHEAD + w);
    MoreTimes(|node.seps| + 1, want, INTERNAL_OVERHEAD + w);
  }

  /** An insertion into an index that is not yet large enough leaves it with at most two levels. */
  lemma StillShallow(pages: Pages, sh: Shape, root: PageNo, w: nat, want: nat, maxKey: nat, pages': Pages, sh': Shape,
                     root': PageNo)
    requires root != 0 ==> Quiet(pages, sh, root, maxKey) && AllWidth(pages, w) && sh.level[root] <= 1
    requires root == 0 ==> pages == map[]
    requires root != 0 && pages[root].Internal? ==> |pages[root].seps| < want
    requires BASE + want * (INTERNAL_OVERHEAD + w) <= PAGE_SIZE && maxKey <= w
    requires Grown(pages, sh, root, w, maxKey, pages', sh', root', 2) && KeepsWidth(pages, pages', w)
    requires root' != 0 && Quiet(pages', sh', root', maxKey)
    ensures Shallow(pages', sh', root', maxKey, w)
  {
    hide Lt, Parented, Fits, UsedBytes, Full;
    if root != 0 {
      assert PageOk(pages, sh, root);
      if pages[root].Internal? {
        RootIsRightmost(pages, sh, root);
        RootHasRoom(pages[root], w, want, maxKey);
      }
    }
  }

  /** The index has a root with at least `want` separators. */
  predicate Enough(root: PageNo, pages: Pages, want: nat) {
    root != 0 && root in pages && pages[root].Internal? && |pages[root].seps| >= want
  }

  lemma NotYet(tree: BTree, w: nat, want: nat, keys: seq<Key>)
    requires Small(tree, w) && w > MAX_WIDTH && !Enough(tree.root, tree.pages, want) && want >= 1
    requires forall i, j :: 0 <= i < j < |keys| ==> keys[i] != keys[j]
    requires forall k :: Holds(tree.pages, k) <==> k in keys
    ensures |keys| <= 7 * want
  {
    hide Holds, Quiet, AllWidth;
    if tree.root == 0 {
      assert keys != [] ==> Holds(tree.pages, keys[0]);
      NothingHeld(tree.pages);
    } else {
      assert tree.root in tree.pages by { QuietRoot(tree.pages, tree.sh, tree.root, tree.maxKey); }
      FewKeys(tree.pages, tree.sh, tree.root, tree.maxKey, w, keys);
    }
  }

  lemma NothingHeld(pages: Pages)
    ensures pages == map[] ==> forall k :: !Holds(pages, k)
  {
  }

  lemma QuietRoot(pages: Pages, sh: Shape, root: PageNo, maxKey: nat)
    requires Quiet(pages, sh, root, maxKey)
    ensures root in pages
  {
  }

  lemma AddedKey(was: Pages, now: Pages, keys: seq<Key>, key: Key)
    requires (forall k :: Holds(was, k) <==> k in keys) && Gains(was, now, key)
    ensures forall k :: Holds(now, k) <==> k in keys + [key]
  {
    hide Holds;
  }

  /** Insertions only, until the root has enough separators. */
  method Build(w: nat, want: nat) returns (tree: BTree, keys: seq<Key>)
    requires MAX_WIDTH < w <= MAX_KEY && 1 <= want <= 3 && BASE + want * (INTERNAL_OVERHEAD + w) <= PAGE_SIZE
    ensures fresh(tree) && Small(tree, w) && Enough(tree.root, tree.pages, want) && Minima(tree.pages, tree.sh)
    ensures forall k :: Holds(tree.pages, k) <==> k in keys
  {
    tree := new BTree();
    keys := [];
    assert Firsts(w, 0) == [];
    hide Holds, Minima, Shallow, Gains, Firsts, Grown, KeepsWidth, Quiet;
    assert Shallow(tree.pages, tree.sh, tree.root, tree.maxKey, w) by { EmptyIsShallow(tree, w); }
    while !Enough(tree.root, tree.pages, want)
      invariant fresh(tree) && Small(tree, w) && tree.maxKey <= w && Minima(tree.pages, tree.sh)
      invariant |keys| <= 7 * want + 1 && keys == Firsts(w, |keys|)
      invariant forall k :: Holds(tree.pages, k) <==> k in keys
      decreases 7 * want + 1 - |keys|
    {
      FirstsDiffer(w, |keys|);
      NotYet(tree, w, want, keys);
      WideLength(w, |keys|);
      ghost var was, sh, root, maxKey := tree.pages, tree.sh, tree.root, tree.maxKey;
      var key := Wide(w, |keys|);
      tree.Insert(key);
      AddedKey(was, tree.pages, keys, key);
      ShallowAfter(was, sh, root, maxKey, w, want, tree);
      FirstsNext(w, |keys|);
      keys := keys + [key];
    }
  }

  lemma EmptyIsShallow(tree: BTree, w: nat)
    requires tree.Valid() && tree.root == 0
    ensures Shallow(tree.pages, tree.sh, tree.root, tree.maxKey, w)
  {
  }

  lemma FirstsNext(w: nat, n: nat)
    requires n < 256
    ensures Firsts(w, n + 1) == Firsts(w, n) + [Wide(w, n)]
  {
  }

  lemma ShallowAfter(pages: Pages, sh: Shape, root: PageNo, maxKey: nat, w: nat, want: nat, tree: BTree)
    requires Shallow(pages, sh, root, maxKey, w) && !Enough(root, pages, want) && maxKey <= w && tree.Valid()
    requires tree.maxKey == w
    requires BASE + want * (INTERNAL_OVERHEAD + w) <= PAGE_SIZE
    requires Grown(pages, sh, root, w, w, tree.pages, tree.sh, tree.root, 2) && KeepsWidth(pages, tree.pages, w)
    ensures Shallow(tree.pages, tree.sh, tree.root, tree.maxKey, w)
  {
    hide Inv, Parented, AllWidth, Grown, KeepsWidth, TopOk;
    if root != 0 {
      FitsMono(pages, maxKey, w);
      QuietRoot(pages, sh, root, maxKey);
    }
    assert tree.root != 0 by { GrownRoot(pages, sh, root, w, w, tree); }
    StillShallow(pages, sh, root, w, want, w, tree.pages, tree.sh, tree.root);
  }

  lemma GrownRoot(pages: Pages, sh: Shape, root: PageNo, len: nat, maxKey: nat, tree: BTree)
    requires Grown(pages, sh, root, len, maxKey, tree.pages, tree.sh, tree.root, 2) && tree.Valid()
    ensures tree.root != 0
  {
  }

  // ------------------------------------------------------------------ one delete at the front of a leaf

  /** The first entry of child `f` is routed to that child. */
  lemma RoutedHere(pages: Pages, sh: Shape, root: PageNo, maxKey: nat, w: nat, f: nat)
    requires Flat(pages, sh, root, maxKey, w) && Bare(pages, root, w) && f <= |pages[root].seps|
    requires NodeOf(pages, root, f, w).entries != []
    ensures var key := NodeOf(pages, root, f, w).entries[0]; Holds(pages, key) && RoutedAt(pages[root].seps, key) == f
  {
    hide Lt, Inv, Parented, PageOk, Fits, AllWidth;
    assert LeafChild(pages, root, f);
    var c := ChildAt(pages[root], f);
    var key := pages[c].entries[0];
    assert Holds(pages, key);
    RoutedDecides(pages, sh, root, maxKey, w, key);
    var at := RoutedAt(pages[root].seps, key);
    assert LeafChild(pages, root, at);
    OnePlace(pages, sh, c, 0);
    assert ChildAt(pages[root], at) == c;
    assert at == f;
  }

  /** The pages without the first entry of child `f`. */
  ghost function FrontGone(pages: Pages, root: PageNo, w: nat, f: nat): Pages
    requires Bare(pages, root, w) && f <= |pages[root].seps| && NodeOf(pages, root, f, w).entries != []
  {
    assert LeafChild(pages, root, f);
    RemoveKey(pages, ChildAt(pages[root], f), NodeOf(pages, root, f, w).entries[0])
  }

  lemma FrontGoneNodes(pages: Pages, sh: Shape, root: PageNo, maxKey: nat, w: nat, f: nat)
    requires Flat(pages, sh, root, maxKey, w) && Bare(pages, root, w) && f <= |pages[root].seps|
    requires NodeOf(pages, root, f, w).entries != []
    ensures var gone := FrontGone(pages, root, w, f);
            && Flat(gone, sh, root, maxKey, w) && Bare(gone, root, w) && gone[root] == pages[root]
            && NodeOf(gone, root, f, w).entries == NodeOf(pages, root, f, w).entries[1..]
            && forall j :: 0 <= j <= |pages[root].seps| && j != f ==>
               NodeOf(gone, root, j, w) == NodeOf(pages, root, j, w)
  {
    hide Lt, Inv, Parented, PageOk, Fits, AllWidth, TopOk, Holds;
    assert LeafChild(pages, root, f);
    var c := ChildAt(pages[root], f);
    var entries := pages[c].entries;
    var key := entries[0];
    RemoveBare(pages, root, w, f, key);
    RemoveKeyFlat(pages, sh, root, maxKey, w, c, key);
    PageSorted(pages, sh, c);
    OnlyPlace(entries, 0);
    assert Without(entries, 0) == entries[1..];
    var gone := FrontGone(pages, root, w, f);
    forall j | 0 <= j <= |pages[root].seps| && j != f
      ensures NodeOf(gone, root, j, w) == NodeOf(pages, root, j, w)
    {
      assert ChildAt(pages[root], j) != c;
    }
  }

  /** What the delete does once the entry is gone. */
  lemma EraseFront(pages: Pages, sh: Shape, root: PageNo, maxKey: nat, w: nat, f: nat)
    requires Flat(pages, sh, root, maxKey, w) && Bare(pages, root, w) && f <= |pages[root].seps|
    requires NodeOf(pages, root, f, w).entries != []
    requires root != 0 && Bare(FrontGone(pages, root, w, f), root, w)
    requires FrontGone(pages, root, w, f)[root] == pages[root]
    ensures Erasable(pages, root, w)
    ensures var key, gone := NodeOf(pages, root, f, w).entries[0], FrontGone(pages, root, w, f);
            var out := Erase(pages, root, key, w); var done := Repair(gone, root, f, w);
            && (done.Broken? ==> out.Crashed?)
            && (done.Repaired? && root in done.pages && done.pages[root].Internal? && done.pages[root].seps != [] ==>
                  out == Erased(root, done.pages, done.stale))
            && (BadErase(pages, root, key, w) <==> BadLoan(gone, root, f, w))
  {
    hide Flat, AllWidth, LeafChild, Repair, BadLoan;
    RoutedHere(pages, sh, root, maxKey, w, f);
  }

  lemma RebalanceNodes(pages: Pages, root: PageNo, w: nat, i: nat, le: seq<Key>, re: seq<Key>, k: Key)
    requires Bare(pages, root, w) && i < |pages[root].seps| && LeafChild(pages, root, i)
    requires LeafChild(pages, root, i + 1)
    requires var now := Rebalance(pages, root, i, le, re, k); Bare(now, root, w) && SameFrame(pages, now, root)
    ensures var now := Rebalance(pages, root, i, le, re, k);
            && NodeOf(now, root, i, w).entries == le && NodeOf(now, root, i + 1, w).entries == re
            && forall j :: 0 <= j <= |pages[root].seps| && j != i && j != i + 1 ==>
               NodeOf(now, root, j, w) == NodeOf(pages, root, j, w)
  {
    hide AllWidth, LeafChild;
    ChildIsLeaf(pages, root, i);
    ChildIsLeaf(pages, root, i + 1);
    var now := Rebalance(pages, root, i, le, re, k);
    forall j | 0 <= j <= |pages[root].seps| && j != i && j != i + 1
      ensures NodeOf(now, root, j, w) == NodeOf(pages, root, j, w)
    {
      assert ChildAt(now[root], j) == ChildAt(pages[root], j);
      ChildIsLeaf(pages, root, j);
    }
    assert ChildAt(now[root], i) == ChildAt(pages[root], i) && ChildAt(now[root], i + 1) == ChildAt(pages[root], i + 1);
  }

  /** Bringing a separator up to date moves no entry. */
  lemma RefreshNodes(pages: Pages, root: PageNo, w: nat, f: nat)
    requires Bare(pages, root, w) && f <= |pages[root].seps|
    ensures var now := Refresh(pages, root, f, w);
            && Bare(now, root, w) && |now[root].seps| == |pages[root].seps|
            && forall j :: 0 <= j <= |pages[root].seps| ==>
               NodeOf(now, root, j, w).entries == NodeOf(pages, root, j, w).entries
  {
    hide AllWidth, LeafChild;
    if f >= 1 && NodeOf(pages, root, f, w).entries != [] {
      var l, r := NodeOf(pages, root, f - 1, w), NodeOf(pages, root, f, w);
      assert Width(l, w) && Width(r, w);
      RebalanceBare(pages, root, w, f - 1, l.entries, r.entries, r.entries[0]);
      RebalanceNodes(pages, root, w, f - 1, l.entries, r.entries, r.entries[0]);
    }
  }

  /** A leaf before another one, neither of them empty; the leaf before both is missing or empty. */
  ghost predicate Ready(pages: Pages, root: PageNo, w: nat, f: nat) {
    && Bare(pages, root, w) && f + 1 < |pages[root].seps|
    && NodeOf(pages, root, f, w).entries != [] && NodeOf(pages, root, f + 1, w).entries != []
    && (f >= 1 ==> NodeOf(pages, root, f - 1, w).entries == [])
  }

  ghost function Entries(pages: Pages, root: PageNo, w: nat, f: nat): nat
    requires Bare(pages, root, w) && f <= |pages[root].seps|
  {
    |NodeOf(pages, root, f, w).entries|
  }

  /** With another entry left in its leaf, an entry goes without a repair. */
  lemma FrontGoes(pages: Pages, sh: Shape, root: PageNo, maxKey: nat, w: nat, f: nat)
    requires Flat(pages, sh, root, maxKey, w) && Ready(pages, root, w, f) && root != 0 && MAX_WIDTH < w <= MAX_KEY
    requires Entries(pages, root, w, f) >= 2
    ensures Erasable(pages, root, w)
    ensures var key := NodeOf(pages, root, f, w).entries[0]; var out := Erase(pages, root, key, w);
            && !BadErase(pages, root, key, w) && out.Erased? && out.root == root
            && Ready(out.pages, root, w, f) && Entries(out.pages, root, w, f) == Entries(pages, root, w, f) - 1
            && Entries(out.pages, root, w, f + 1) == Entries(pages, root, w, f + 1)
  {
    hide Flat, AllWidth, LeafChild, UsedBytes, Refresh, Erase, BadErase;
    FrontGoneNodes(pages, sh, root, maxKey, w, f);
    EraseFront(pages, sh, root, maxKey, w, f);
    var gone := FrontGone(pages, root, w, f);
    SizesAt(gone, sh, root, maxKey, w, f);
    RefreshNodes(gone, root, w, f);
  }

  /** With another entry left in the lender, the emptied leaf gets one. */
  lemma FrontIsLent(pages: Pages, sh: Shape, root: PageNo, maxKey: nat, w: nat, f: nat)
    requires Flat(pages, sh, root, maxKey, w) && Ready(pages, root, w, f) && root != 0 && MAX_WIDTH < w < 2029
    requires Entries(pages, root, w, f) == 1 && Entries(pages, root, w, f + 1) >= 2
    ensures Erasable(pages, root, w)
    ensures var key := NodeOf(pages, root, f, w).entries[0]; var out := Erase(pages, root, key, w);
            && !BadErase(pages, root, key, w) && out.Erased? && out.root == root
            && Ready(out.pages, root, w, f) && Entries(out.pages, root, w, f) == 1
            && Entries(out.pages, root, w, f + 1) == Entries(pages, root, w, f + 1) - 1
  {
    hide Flat, AllWidth, LeafChild, UsedBytes, FromLeft, FromRight, Erase, BadErase;
    FrontGoneNodes(pages, sh, root, maxKey, w, f);
    EraseFront(pages, sh, root, maxKey, w, f);
    var gone := FrontGone(pages, root, w, f);
    NeighbourSizes(gone, sh, root, maxKey, w, f);
    LentNodes(gone, root, w, f);
    RightLarger(gone, root, f, w);
    var now := FromRight(gone, root, f, w);
    assert Round(gone, root, f, w) == Loan(now, false);
    assert Refill(now, root, f, w) == Repaired(now, false);
  }

  lemma NeighbourSizes(pages: Pages, sh: Shape, root: PageNo, maxKey: nat, w: nat, f: nat)
    requires Flat(pages, sh, root, maxKey, w) && Bare(pages, root, w) && f + 1 < |pages[root].seps|
    requires MAX_WIDTH < w < 2029
    requires NodeOf(pages, root, f, w).entries == [] && NodeOf(pages, root, f + 1, w).entries != []
    requires f >= 1 ==> NodeOf(pages, root, f - 1, w).entries == []
    ensures Underfull(pages, root, f, w) && HasRoom(pages, root, f, w)
    ensures !LeftSpares(pages, root, f, w) && RightSpares(pages, root, f, w)
    ensures UsedBytes(NodeOf(pages, root, f, w)) + LEAF_OVERHEAD + w >= MIN_OCCUPANCY
  {
    hide Flat, AllWidth, LeafChild, UsedBytes;
    SizesAt(pages, sh, root, maxKey, w, f);
    SizesAt(pages, sh, root, maxKey, w, f + 1);
    if f >= 1 {
      SizesAt(pages, sh, root, maxKey, w, f - 1);
    }
  }

  lemma LentNodes(pages: Pages, root: PageNo, w: nat, f: nat)
    requires Bare(pages, root, w) && f < |pages[root].seps| && NodeOf(pages, root, f + 1, w).entries != []
    ensures var now := FromRight(pages, root, f, w); var r := NodeOf(pages, root, f + 1, w).entries;
            && Bare(now, root, w) && |now[root].seps| == |pages[root].seps|
            && NodeOf(now, root, f, w).entries == NodeOf(pages, root, f, w).entries + [r[0]]
            && NodeOf(now, root, f + 1, w).entries == r[1..]
            && forall j :: 0 <= j <= |pages[root].seps| && j != f && j != f + 1 ==>
               NodeOf(now, root, j, w) == NodeOf(pages, root, j, w)
  {
    hide AllWidth, LeafChild;
    var l, r := NodeOf(pages, root, f, w), NodeOf(pages, root, f + 1, w);
    assert Width(l, w) && Width(r, w);
    var first := if |r.entries| > 1 then r.entries[1] else r.entries[0];
    RebalanceBare(pages, root, w, f, l.entries + [r.entries[0]], r.entries[1..], first);
    RebalanceNodes(pages, root, w, f, l.entries + [r.entries[0]], r.entries[1..], first);
  }

  /** With one entry in each, the delete of the first loses the second. */
  lemma SecondIsLost(pages: Pages, sh: Shape, root: PageNo, maxKey: nat, w: nat, f: nat)
    requires Flat(pages, sh, root, maxKey, w) && Ready(pages, root, w, f) && root != 0 && MAX_WIDTH < w < 2029
    requires Entries(pages, root, w, f) == 1 && Entries(pages, root, w, f + 1) == 1
    ensures Erasable(pages, root, w)
    ensures var key, lost := NodeOf(pages, root, f, w).entries[0], NodeOf(pages, root, f + 1, w).entries[0];
            var out := Erase(pages, root, key, w);
            && out.Erased? && out.root == root && Holds(pages, lost) && lost != key && !Found(root, out.pages, lost)
  {
    hide Flat, AllWidth, LeafChild, UsedBytes, FromLeft, FromRight, Erase, BadErase, Holds, Findable;
    FrontGoneNodes(pages, sh, root, maxKey, w, f);
    EraseFront(pages, sh, root, maxKey, w, f);
    var gone := FrontGone(pages, root, w, f);
    NeighbourSizes(gone, sh, root, maxKey, w, f);
    RightLarger(gone, root, f, w);
    OnlyEntryIsLost(gone, sh, root, maxKey, w, f);
    RoutedHere(pages, sh, root, maxKey, w, f);
    RoutedHere(pages, sh, root, maxKey, w, f + 1);
  }

  // ------------------------------------------------------------------ a key that gets lost

  /** Without deletions, only the leftmost leaf can be empty. */
  lemma LaterChildHasEntries(pages: Pages, sh: Shape, root: PageNo, maxKey: nat, w: nat, j: nat)
    requires Flat(pages, sh, root, maxKey, w) && Bare(pages, root, w) && Minima(pages, sh)
    requires 1 <= j <= |pages[root].seps|
    ensures NodeOf(pages, root, j, w).entries != []
  {
    hide Lt, Parented, Fits, AllWidth;
    ChildFacts(pages, sh, root, j);
    assert LeafChild(pages, root, j);
  }

  lemma KeysLeft(was: Pages, now: Pages, inserted: seq<Key>, deleted: seq<Key>, key: Key)
    requires (forall k :: Holds(was, k) <==> k in inserted && k !in deleted) && Loses(was, now, key)
    ensures forall k :: Holds(now, k) <==> k in inserted && k !in deleted + [key]
  {
    hide Holds;
  }

  /** Deletes the first entry of child `f` of an index that is ready for it, and says whether that lost a key. */
  method DeleteFront(tree: BTree, f: nat, w: nat) returns (key: Key, lost: Option<Key>)
    requires Small(tree, w) && tree.root != 0 && Ready(tree.pages, tree.root, w, f) && MAX_WIDTH < w < 2029
    modifies tree
    ensures old(Holds(tree.pages, key))
    ensures lost.None? ==> Small(tree, w) && tree.root != 0 && Loses(old(tree.pages), tree.pages, key)
    ensures lost.None? ==> Ready(tree.pages, tree.root, w, f)
    ensures lost.None? ==> Entries(tree.pages, tree.root, w, f) + Entries(tree.pages, tree.root, w, f + 1)
                           == old(Entries(tree.pages, tree.root, w, f) + Entries(tree.pages, tree.root, w, f + 1)) - 1
    ensures lost.Some? ==> old(Holds(tree.pages, lost.value)) && lost.value != key
    ensures lost.Some? ==> !Found(tree.root, tree.pages, lost.value)
  {
    ghost var pages, sh, root, maxKey := tree.pages, tree.sh, tree.root, tree.maxKey;
    BareAt(pages, root, w, f);
    BareAt(pages, root, w, f + 1);
    var here, there := tree.pages[ChildAt(tree.pages[tree.root], f)].entries,
                       tree.pages[ChildAt(tree.pages[tree.root], f + 1)].entries;
    key := here[0];
    hide Bare, Quiet, AllWidth, Erase, BadErase, Loses, Holds, Found, BTree.Valid, UsedBytes, Width;
    ShallowIsFlat(pages, sh, root, maxKey, w);
    assert Holds(pages, key) by { RoutedHere(pages, sh, root, maxKey, w, f); }
    if |here| >= 2 {
      FrontGoes(pages, sh, root, maxKey, w, f);
    } else if |there| >= 2 {
      FrontIsLent(pages, sh, root, maxKey, w, f);
    } else {
      SecondIsLost(pages, sh, root, maxKey, w, f);
    }
    var out := Delete(tree, key, w);
    lost := if |here| == 1 && |there| == 1 then Some(there[0]) else None;
  }

  /**
   For every width from 1043 to 2028 bytes there are insertions into an empty index, followed by deletions of
   inserted keys, after which a key that was inserted and not deleted is not found.
   */
  method LoseKey(w: nat) returns (tree: BTree, inserted: seq<Key>, deleted: seq<Key>, lost: Key)
    requires MAX_WIDTH < w < 2029
    ensures fresh(tree) && (forall k :: k in deleted ==> k in inserted)
    ensures lost in inserted && lost !in deleted && !Found(tree.root, tree.pages, lost)
  {
    tree, inserted := Build(w, 3);
    deleted := [];
    var root := tree.root;
    ShallowIsFlat(tree.pages, tree.sh, tree.root, tree.maxKey, w);
    FlatIsBare(tree.pages, tree.sh, tree.root, tree.maxKey, w);
    hide Quiet, AllWidth, Loses, Holds, Found, BTree.Valid, UsedBytes, Width, Minima, LeafChild;
    LaterChildHasEntries(tree.pages, tree.sh, tree.root, tree.maxKey, w, 1);
    LaterChildHasEntries(tree.pages, tree.sh, tree.root, tree.maxKey, w, 2);
    BareAt(tree.pages, tree.root, w, 0);
    var f := if tree.pages[ChildAt(tree.pages[tree.root], 0)].entries == [] then 1 else 0;
    while true
      invariant fresh(tree) && Small(tree, w) && tree.root != 0 && Ready(tree.pages, tree.root, w, f)
      invariant (forall k :: Holds(tree.pages, k) <==> k in inserted && k !in deleted)
      invariant (forall k :: k in deleted ==> k in inserted)
      decreases Entries(tree.pages, tree.root, w, f) + Entries(tree.pages, tree.root, w, f + 1)
    {
      ghost var was := tree.pages;
      var key, missing := DeleteFront(tree, f, w);
      if missing.Some? {
        deleted := deleted + [key];
        lost := missing.value;
        return;
      }
      KeysLeft(was, tree.pages, inserted, deleted, key);
      deleted := deleted + [key];
    }
  }

  // ------------------------------------------------------------------ a delete that does not return

  /** From 2094 bytes on, a leaf that keeps an entry or is bounded never needs a repair. */
  lemma FrontGoesAway(pages: Pages, sh: Shape, root: PageNo, maxKey: nat, w: nat, f: nat)
    requires Flat(pages, sh, root, maxKey, w) && Bare(pages, root, w) && root != 0 && 2093 < w <= MAX_KEY
    requires f <= |pages[root].seps| && pages[root].seps != [] && NodeOf(pages, root, f, w).entries != []
    requires f < |pages[root].seps| || Entries(pages, root, w, f) >= 2
    ensures Erasable(pages, root, w)
    ensures var key := NodeOf(pages, root, f, w).entries[0]; var out := Erase(pages, root, key, w);
            && !BadErase(pages, root, key, w) && out.Erased? && out.root == root
            && Bare(out.pages, root, w) && |out.pages[root].seps| == |pages[root].seps|
            && (forall j :: 0 <= j <= |pages[root].seps| ==>
                  Entries(out.pages, root, w, j) ==
                  if j == f then Entries(pages, root, w, j) - 1 else Entries(pages, root, w, j))
  {
    hide Flat, AllWidth, LeafChild, UsedBytes, Refresh, Erase, BadErase;
    FrontGoneNodes(pages, sh, root, maxKey, w, f);
    EraseFront(pages, sh, root, maxKey, w, f);
    var gone := FrontGone(pages, root, w, f);
    SizesAt(gone, sh, root, maxKey, w, f);
    RefreshNodes(gone, root, w, f);
  }

  /** The last leaf loses its only entry, and the empty leaf before it is asked for its last one. */
  lemma LastDeletePanics(pages: Pages, sh: Shape, root: PageNo, maxKey: nat, w: nat)
    requires Flat(pages, sh, root, maxKey, w) && Bare(pages, root, w) && root != 0 && 2093 < w <= MAX_KEY
    requires pages[root].seps != []
    requires var n := |pages[root].seps|; Entries(pages, root, w, n) == 1 && Entries(pages, root, w, n - 1) == 0
    ensures Erasable(pages, root, w)
    ensures Erase(pages, root, NodeOf(pages, root, |pages[root].seps|, w).entries[0], w).Crashed?
  {
    hide Flat, AllWidth, LeafChild, UsedBytes, Refresh, Erase, BadErase;
    var n := |pages[root].seps|;
    FrontGoneNodes(pages, sh, root, maxKey, w, n);
    EraseFront(pages, sh, root, maxKey, w, n);
    var gone := FrontGone(pages, root, w, n);
    SizesAt(gone, sh, root, maxKey, w, n);
    SizesAt(gone, sh, root, maxKey, w, n - 1);
  }

  method DeleteWideFront(tree: BTree, f: nat, w: nat) returns (key: Key)
    requires Small(tree, w) && tree.root != 0 && Bare(tree.pages, tree.root, w) && 2093 < w <= MAX_KEY
    requires f <= |tree.pages[tree.root].seps| && tree.pages[tree.root].seps != []
    requires Entries(tree.pages, tree.root, w, f) >= 1
    requires f < |tree.pages[tree.root].seps| || Entries(tree.pages, tree.root, w, f) >= 2
    modifies tree
    ensures Small(tree, w) && tree.root == old(tree.root) && old(Holds(tree.pages, key))
    ensures Loses(old(tree.pages), tree.pages, key)
    ensures Bare(tree.pages, tree.root, w) && |tree.pages[tree.root].seps| == |old(tree.pages[tree.root]).seps|
    ensures forall j :: 0 <= j <= |tree.pages[tree.root].seps| ==>
              Entries(tree.pages, tree.root, w, j) ==
              old(Entries(tree.pages, tree.root, w, j)) - if j == f then 1 else 0
  {
    ghost var pages, sh, root, maxKey := tree.pages, tree.sh, tree.root, tree.maxKey;
    BareAt(pages, root, w, f);
    key := tree.pages[ChildAt(tree.pages[tree.root], f)].entries[0];
    hide Quiet, AllWidth, LeafChild, Erase, BadErase, Loses, Holds, BTree.Valid, UsedBytes, Width;
    ShallowIsFlat(pages, sh, root, maxKey, w);
    assert Holds(pages, key) by { RoutedHere(pages, sh, root, maxKey, w, f); }
    FrontGoesAway(pages, sh, root, maxKey, w, f);
    var out := Delete(tree, key, w);
  }

  method CountEntries(tree: BTree, j: nat, ghost w: nat) returns (n: nat)
    requires Bare(tree.pages, tree.root, w) && j <= |tree.pages[tree.root].seps|
    ensures n == Entries(tree.pages, tree.root, w, j)
  {
    BareAt(tree.pages, tree.root, w, j);
    n := |tree.pages[ChildAt(tree.pages[tree.root], j)].entries|;
  }

  /** An index of two levels whose root keeps its number of separators. */
  ghost predicate Level(tree: BTree, w: nat, n: nat)
    reads tree
  {
    Small(tree, w) && tree.root != 0 && Bare(tree.pages, tree.root, w) && |tree.pages[tree.root].seps| == n
  }

  /** Deletes entries at the front of child `f` until `rest` are left. */
  method DeleteFronts(tree: BTree, f: nat, rest: nat, n: nat, w: nat) returns (deleted: seq<Key>)
    requires Level(tree, w, n) && 2093 < w <= MAX_KEY && 1 <= n && f <= n && (f == n ==> rest == 1)
    requires Entries(tree.pages, tree.root, w, f) >= rest
    modifies tree
    ensures Level(tree, w, n) && Entries(tree.pages, tree.root, w, f) == rest
    ensures forall j :: 0 <= j <= n && j != f ==>
            Entries(tree.pages, tree.root, w, j) == old(Entries(tree.pages, tree.root, w, j))
    ensures forall k :: Holds(tree.pages, k) <==> old(Holds(tree.pages, k)) && k !in deleted
    ensures forall k :: k in deleted ==> old(Holds(tree.pages, k))
  {
    hide Bare, Small, Loses, Holds, Entries;
    deleted := [];
    var m := CountEntries(tree, f, w);
    while m > rest
      invariant Level(tree, w, n) && m == Entries(tree.pages, tree.root, w, f) >= rest
      invariant forall j :: 0 <= j <= n && j != f ==>
                Entries(tree.pages, tree.root, w, j) == old(Entries(tree.pages, tree.root, w, j))
      invariant forall k :: Holds(tree.pages, k) <==> old(Holds(tree.pages, k)) && k !in deleted
      invariant forall k :: k in deleted ==> old(Holds(tree.pages, k))
      decreases m
    {
      ghost var was := tree.pages;
      var gone := DeleteWideFront(tree, f, w);
      forall k
        ensures Holds(tree.pages, k) <==> Holds(was, k) && k != gone
      {
        LosesAt(was, tree.pages, gone, k);
      }
      deleted := deleted + [gone];
      m := CountEntries(tree, f, w);
    }
  }

  lemma BuiltLevel(tree: BTree, w: nat)
    requires Small(tree, w) && Enough(tree.root, tree.pages, 1) && Minima(tree.pages, tree.sh)
    ensures var n := |tree.pages[tree.root].seps|; Level(tree, w, n) && Entries(tree.pages, tree.root, w, n) >= 1
  {
    hide Quiet, AllWidth, BTree.Valid, Minima;
    ShallowIsFlat(tree.pages, tree.sh, tree.root, tree.maxKey, w);
    FlatIsBare(tree.pages, tree.sh, tree.root, tree.maxKey, w);
    LaterChildHasEntries(tree.pages, tree.sh, tree.root, tree.maxKey, w, |tree.pages[tree.root].seps|);
  }

  /**
   For every width from 2094 to 2716 bytes there are insertions into an empty index, followed by deletions of
   inserted keys, after which deleting one more key that is there reads before the start of a leaf.
   */
  method PanicDelete(w: nat) returns (inserted: seq<Key>, deleted: seq<Key>, key: Key, out: Deletion)
    requires 2093 < w <= MAX_KEY
    ensures (forall k :: k in deleted ==> k in inserted) && key in inserted && key !in deleted && out.Panic?
  {
    hide Loses, Holds, Minima, Bare, Shallow, Erase, BTree.Valid;
    var tree: BTree;
    tree, inserted := Build(w, 1);
    BuiltLevel(tree, w);
    var n := |tree.pages[tree.root].seps|;
    var before := DeleteFronts(tree, n - 1, 0, n, w);
    var last := DeleteFronts(tree, n, 1, n, w);
    deleted := before + last;
    assert forall k :: Holds(tree.pages, k) <==> k in inserted && k !in deleted;
    key := LastKey(tree, n, w);
    out := Delete(tree, key, w);
  }

  lemma LastPanics(tree: BTree, n: nat, w: nat)
    requires Level(tree, w, n) && 2093 < w <= MAX_KEY && 1 <= n
    requires Entries(tree.pages, tree.root, w, n) == 1 && Entries(tree.pages, tree.root, w, n - 1) == 0
    ensures var key := NodeOf(tree.pages, tree.root, n, w).entries[0];
            Holds(tree.pages, key) && Erasable(tree.pages, tree.root, w) &&
            Erase(tree.pages, tree.root, key, w).Crashed?
  {
    hide Quiet, AllWidth, Holds, BTree.Valid, UsedBytes, LeafChild, Erase;
    ShallowIsFlat(tree.pages, tree.sh, tree.root, tree.maxKey, w);
    RoutedHere(tree.pages, tree.sh, tree.root, tree.maxKey, w, n);
    LastDeletePanics(tree.pages, tree.sh, tree.root, tree.maxKey, w);
  }

  method LastKey(tree: BTree, n: nat, ghost w: nat) returns (key: Key)
    requires Level(tree, w, n) && 2093 < w <= MAX_KEY && 1 <= n
    requires Entries(tree.pages, tree.root, w, n) == 1 && Entries(tree.pages, tree.root, w, n - 1) == 0
    ensures Holds(tree.pages, key) && Erasable(tree.pages, tree.root, w)
    ensures Erase(tree.pages, tree.root, key, w).Crashed?
  {
    hide Small, Holds, LeafChild, Erase, AllWidth, Erasable, Width;
    LastPanics(tree, n, w);
    BareAt(tree.pages, tree.root, w, n);
    key := tree.pages[ChildAt(tree.pages[tree.root], n)].entries[0];
  }
}
