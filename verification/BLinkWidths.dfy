/** For which key widths deleting is right: exactly the widths at which no repair can start with a bad loan. */
module BLinkWidths {
  import opened Options
  import opened Bytes
  import opened KeyOrder
  import opened BLink
  import opened BLinkSplit
  import opened BLinkQuiet
  import opened BLinkSteps
  import opened BLinkDelete
  import opened BLinkLoans
  import opened BLinkErase

  /** From every index of at most two levels with keys of `w` bytes, every delete removes its key and nothing else. */
  ghost predicate DeletesExactly(w: nat) {
    forall pages, sh, root, maxKey, key ::
      Shallow(pages, sh, root, maxKey, w) && Holds(pages, key) ==> ErasesOnly(pages, root, key, w)
  }

  lemma GoodWidthErases(pages: Pages, sh: Shape, root: PageNo, maxKey: nat, w: nat, key: Key)
    requires Shallow(pages, sh, root, maxKey, w) && 0 < w <= MAX_KEY && GoodWidth(w) && Holds(pages, key)
    ensures ErasesOnly(pages, root, key, w)
  {
    hide Shallow, Erasable, BadErase, Holds;
    ShallowIsErasable(pages, sh, root, maxKey, w);
    GoodWidthIsClean(pages, sh, root, maxKey, w, key);
    EraseExact(pages, sh, root, maxKey, w, key);
  }

  // ------------------------------------------------------------------ an index for every other width

  /** A key of `w` equal bytes. */
  function Wide(w: nat, b: Byte): Key {
    Key(seq(w, i => b), 0, 0)
  }

  lemma WideOrder(w: nat, a: Byte, b: Byte)
    requires w > 0 && a < b
    ensures Lt(Wide(w, a), Wide(w, b))
  {
    assert Wide(w, a).bytes[0] == a && Wide(w, b).bytes[0] == b;
  }

  /** Three leaves with one entry each. */
  function Singles(w: nat): Pages {
    map[1 := Leaf([Wide(w, 1)], 2, Some(Wide(w, 2))),
        2 := Leaf([Wide(w, 2)], 3, Some(Wide(w, 3))),
        3 := Leaf([Wide(w, 3)], 0, None),
        4 := Internal(1, [Sep(Wide(w, 2), 2), Sep(Wide(w, 3), 3)], 0, None)]
  }

  ghost function SinglesShape(w: nat): Shape {
    Shape(map[1 := 0, 2 := 0, 3 := 0, 4 := 1], map[1 := None, 2 := Some(Wide(w, 2)), 3 := Some(Wide(w, 3)), 4 := None],
          map[1 := 0.0, 2 := 1.0, 3 := 2.0, 4 := 0.0])
  }

  /** An emptied leaf before one with an entry. */
  function Hollow(w: nat): Pages {
    map[1 := Leaf([], 2, Some(Wide(w, 2))),
        2 := Leaf([Wide(w, 2)], 0, None),
        3 := Internal(1, [Sep(Wide(w, 2), 2)], 0, None)]
  }

  ghost function HollowShape(w: nat): Shape {
    Shape(map[1 := 0, 2 := 0, 3 := 1], map[1 := None, 2 := Some(Wide(w, 2)), 3 := None],
          map[1 := 0.0, 2 := 1.0, 3 := 0.0])
  }

  lemma SinglesInv(w: nat)
    requires w > 0
    ensures Inv(Singles(w), SinglesShape(w)) && TopOk(Singles(w), SinglesShape(w), 4) && Parented(Singles(w), 4)
  {
    WideOrder(w, 1, 2);
    WideOrder(w, 2, 3);
    hide Lt, Wide;
    Order();
    var pages, sh := Singles(w), SinglesShape(w);
    assert PageOk(pages, sh, 1);
    assert PageOk(pages, sh, 2);
    assert PageOk(pages, sh, 3);
    assert PageOk(pages, sh, 4);
    assert ChildAt(pages[4], 0) == 1 && ChildAt(pages[4], 1) == 2 && ChildAt(pages[4], 2) == 3;
    assert Apart(pages, sh, 1, 2) && Apart(pages, sh, 2, 3) && Apart(pages, sh, 1, 3);
    assert HasChild(pages[4], 1) && HasChild(pages[4], 2) && HasChild(pages[4], 3);
  }

  lemma HollowInv(w: nat)
    requires w > 0
    ensures Inv(Hollow(w), HollowShape(w)) && TopOk(Hollow(w), HollowShape(w), 3) && Parented(Hollow(w), 3)
  {
    hide Lt, Wide;
    Order();
    var pages, sh := Hollow(w), HollowShape(w);
    assert PageOk(pages, sh, 1);
    assert PageOk(pages, sh, 2);
    assert PageOk(pages, sh, 3);
    assert ChildAt(pages[3], 0) == 1 && ChildAt(pages[3], 1) == 2;
    assert Apart(pages, sh, 1, 2);
    assert HasChild(pages[3], 1) && HasChild(pages[3], 2);
  }

  /** One more separator adds its bytes. */
  lemma SepBytes(first: PageNo, seps: seq<Sep>, w: nat)
    requires forall i :: 0 <= i < |seps| ==> |seps[i].key.bytes| == w
    ensures UsedBytes(Internal(first, seps, 0, None)) == BASE + |seps| * (INTERNAL_OVERHEAD + w)
  {
    EqualSizes(SepSizes(seps), INTERNAL_OVERHEAD + w);
  }

  lemma WideLength(w: nat, b: Byte)
    ensures |Wide(w, b).bytes| == w
  {
  }

  lemma SinglesBytes(w: nat)
    requires MAX_WIDTH < w < 2029
    ensures forall p :: p in Singles(w) ==>
            UsedBytes(Singles(w)[p]) <= PAGE_SIZE && Width(Singles(w)[p], w) && Bounded(Singles(w)[p], w)
  {
    var pages := Singles(w);
    WideLength(w, 1);
    WideLength(w, 2);
    WideLength(w, 3);
    hide Wide, UsedBytes;
    SepBytes(1, pages[4].seps, w);
    FewEntries(pages[1], w);
    FewEntries(pages[2], w);
    FewEntries(pages[3], w);
  }

  lemma SinglesShallow(w: nat)
    requires MAX_WIDTH < w < 2029
    ensures Shallow(Singles(w), SinglesShape(w), 4, w, w)
  {
    hide Inv, TopOk, Parented, Lt, Width, Bounded, UsedBytes, Wide;
    SinglesInv(w);
    SinglesBytes(w);
  }

  lemma HollowBytes(w: nat)
    requires 2093 < w <= MAX_KEY
    ensures forall p :: p in Hollow(w) ==> UsedBytes(Hollow(w)[p]) <= PAGE_SIZE && Width(Hollow(w)[p], w)
    ensures forall p :: p in Hollow(w) ==> Bounded(Hollow(w)[p], w)
  {
    var pages := Hollow(w);
    WideLength(w, 2);
    hide Wide, UsedBytes;
    SepBytes(1, pages[3].seps, w);
    FewEntries(pages[1], w);
    FewEntries(pages[2], w);
  }

  lemma HollowShallow(w: nat)
    requires 2093 < w <= MAX_KEY
    ensures Shallow(Hollow(w), HollowShape(w), 3, w, w)
  {
    hide Inv, TopOk, Parented, Lt, Width, Bounded, UsedBytes, Wide;
    HollowInv(w);
    HollowBytes(w);
  }

  /** Taking the only entry of a child empties it and leaves the other children alone. */
  lemma LonelyGone(pages: Pages, root: PageNo, w: nat, idx: nat, key: Key)
    requires Bare(pages, root, w) && idx <= |pages[root].seps| && NodeOf(pages, root, idx, w).entries == [key]
    ensures LeafChild(pages, root, idx)
    ensures var now := RemoveKey(pages, ChildAt(pages[root], idx), key);
            && Bare(now, root, w) && now[root] == pages[root]
            && NodeOf(now, root, idx, w).entries == []
            && NodeOf(now, root, idx, w).high == NodeOf(pages, root, idx, w).high
            && forall j :: 0 <= j <= |pages[root].seps| && j != idx ==>
                 NodeOf(now, root, j, w) == NodeOf(pages, root, j, w)
  {
    RemoveBare(pages, root, w, idx, key);
    hide AllWidth, Width, UsedBytes;
    assert forall j :: 0 <= j <= |pages[root].seps| ==> LeafChild(pages, root, j);
  }

  lemma SinglesRoute(w: nat)
    requires MAX_WIDTH < w < 2029
    ensures Erasable(Singles(w), 4, w) && Bare(Singles(w), 4, w) && Holds(Singles(w), Wide(w, 1))
    ensures NodeOf(Singles(w), 4, 0, w) == Leaf([Wide(w, 1)], 2, Some(Wide(w, 2)))
    ensures NodeOf(Singles(w), 4, 1, w) == Leaf([Wide(w, 2)], 3, Some(Wide(w, 3)))
    ensures RoutedAt(Singles(w)[4].seps, Wide(w, 1)) == 0
  {
    hide Shallow, AllWidth, Wide, Lt, UsedBytes, Width;
    var pages := Singles(w);
    SinglesShallow(w);
    ShallowIsErasable(pages, SinglesShape(w), 4, w, w);
    WideOrder(w, 1, 2);
    assert pages[4].Internal? && ChildAt(pages[4], 0) == 1 && ChildAt(pages[4], 1) == 2;
    assert Wide(w, 1) in pages[1].entries;
  }

  /** Taking the entry of the first leaf makes the second one lend its only entry. */
  lemma SinglesAreBad(w: nat)
    requires MAX_WIDTH < w < 2029
    ensures Erasable(Singles(w), 4, w) && Holds(Singles(w), Wide(w, 1)) && BadErase(Singles(w), 4, Wide(w, 1), w)
  {
    hide Bare, AllWidth, Wide, Lt, UsedBytes, Holds, NodeOf, RemoveKey, RoutedAt, Width, Shallow;
    var pages, key := Singles(w), Wide(w, 1);
    SinglesRoute(w);
    LonelyGone(pages, 4, w, 0, key);
    var gone := RemoveKey(pages, 1, key);
    FewEntries(NodeOf(gone, 4, 0, w), w);
    FewEntries(NodeOf(gone, 4, 1, w), w);
  }

  lemma RoutedLast(sep: Sep)
    ensures RoutedAt([sep], sep.key) == 1
  {
    Order();
    assert [sep][1..] == [];
  }

  lemma HollowRoute(w: nat)
    requires 2093 < w <= MAX_KEY
    ensures Erasable(Hollow(w), 3, w) && Bare(Hollow(w), 3, w) && Holds(Hollow(w), Wide(w, 2))
    ensures NodeOf(Hollow(w), 3, 0, w) == Leaf([], 2, Some(Wide(w, 2)))
    ensures NodeOf(Hollow(w), 3, 1, w) == Leaf([Wide(w, 2)], 0, None)
    ensures RoutedAt(Hollow(w)[3].seps, Wide(w, 2)) == 1
  {
    hide Shallow, AllWidth, Wide, Lt, UsedBytes, RoutedAt, Width;
    var pages := Hollow(w);
    HollowShallow(w);
    ShallowIsErasable(pages, HollowShape(w), 3, w, w);
    assert pages[3].Internal? && ChildAt(pages[3], 0) == 1 && ChildAt(pages[3], 1) == 2;
    assert Wide(w, 2) in pages[2].entries;
    RoutedLast(pages[3].seps[0]);
  }

  /** Taking the entry of the last leaf makes the empty one before it count as able to lend. */
  lemma HollowIsBad(w: nat)
    requires 2093 < w <= MAX_KEY
    ensures Erasable(Hollow(w), 3, w) && Holds(Hollow(w), Wide(w, 2)) && BadErase(Hollow(w), 3, Wide(w, 2), w)
  {
    hide Bare, AllWidth, Wide, Lt, UsedBytes, Holds, NodeOf, RemoveKey, RoutedAt, Width, Shallow;
    var pages, key := Hollow(w), Wide(w, 2);
    HollowRoute(w);
    LonelyGone(pages, 3, w, 1, key);
    var gone := RemoveKey(pages, 2, key);
    FewEntries(NodeOf(gone, 3, 0, w), w);
    FewEntries(NodeOf(gone, 3, 1, w), w);
  }

  /** Deleting is right for keys of `w` bytes exactly when `w` is at most 1042 or between 2029 and 2093. */
  lemma WidthExact(w: nat)
    requires 0 < w <= MAX_KEY
    ensures DeletesExactly(w) <==> GoodWidth(w)
  {
    hide Shallow, ErasesOnly, Holds, BadErase, Erasable;
    if GoodWidth(w) {
      forall pages, sh, root, maxKey, key | Shallow(pages, sh, root, maxKey, w) && Holds(pages, key)
        ensures ErasesOnly(pages, root, key, w)
      {
        GoodWidthErases(pages, sh, root, maxKey, w, key);
      }
    } else if w < 2029 {
      SinglesShallow(w);
      SinglesAreBad(w);
      EraseExact(Singles(w), SinglesShape(w), 4, w, w, Wide(w, 1));
    } else {
      HollowShallow(w);
      HollowIsBad(w);
      EraseExact(Hollow(w), HollowShape(w), 3, w, w, Wide(w, 2));
    }
  }
}
