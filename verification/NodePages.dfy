/** Index nodes in their pages: every operation on the bytes is the operation on the node. */
module NodePages {
  import opened Options
  import opened Bytes
  import opened KeyOrder
  import opened BLink
  import opened BLinkSplit
  import opened BLinkReaders
  import opened NodeBytes
  import Slotted
  import SlottedPage

  const LEAF: Byte := 0
  const INTERNAL: Byte := 1
  const SEP_REST := 10

  // ------------------------------------------------------------------ nodes as images

  function LeafCell(k: Key): Cell {
    Cell(k.bytes, RidBytes(k))
  }

  function LeafCells(entries: seq<Key>): (r: seq<Cell>)
    ensures |r| == |entries| && forall i :: 0 <= i < |r| ==> r[i] == LeafCell(entries[i])
  {
    seq(|entries|, i requires 0 <= i < |entries| => LeafCell(entries[i]))
  }

  function SepCell(s: Sep): Cell {
    Cell(s.key.bytes, RidBytes(s.key) + ToLe(s.child, 4))
  }

  function SepCells(seps: seq<Sep>): (r: seq<Cell>)
    ensures |r| == |seps| && forall i :: 0 <= i < |r| ==> r[i] == SepCell(seps[i])
  {
    seq(|seps|, i requires 0 <= i < |seps| => SepCell(seps[i]))
  }

  /** A high key without bytes cannot be told from none. */
  function Stored(high: Option<Key>): Option<Key> {
    if high.None? || high.value.bytes == [] then None else Some(high.value)
  }

  ghost predicate Addressable(node: Node) {
    && node.next < 0x1_0000_0000
    && (node.Internal? ==> node.first < 0x1_0000_0000 && forall i :: 0 <= i < |node.seps| ==>
        node.seps[i].child < 0x1_0000_0000)
  }

  ghost function ImageOf(node: Node, prev: U32): Image
    requires Addressable(node)
  {
    match node
    case Leaf(entries, next, high) => Image(LEAF, prev, next, Stored(high), LeafCells(entries))
    case Internal(first, seps, next, high) => Image(INTERNAL, first, next, Stored(high), SepCells(seps))
  }

  ghost function RestLen(node: Node): nat {
    if node.Leaf? then ROW_ID else SEP_REST
  }

  /** The page's bytes are this node's. */
  ghost predicate PageHolds(p: seq<Byte>, node: Node, prev: U32) {
    Addressable(node) && Shows(p, ImageOf(node, prev), RestLen(node))
  }

  lemma {:induction false} LeafBodyBytes(entries: seq<Key>)
    ensures |Body(LeafCells(entries))| == Sum(LeafSizes(entries))
  {
    if entries != [] {
      var n := |entries| - 1;
      LeafBodyBytes(entries[..n]);
      assert LeafCells(entries)[..n] == LeafCells(entries[..n]);
      assert LeafSizes(entries)[..n] == LeafSizes(entries[..n]);
      CellLength(LeafCell(entries[n]));
    } else {
      assert LeafCells(entries) == [] && LeafSizes(entries) == [];
    }
  }

  lemma {:induction false} SepBodyBytes(seps: seq<Sep>)
    ensures |Body(SepCells(seps))| == Sum(SepSizes(seps))
  {
    if seps != [] {
      var n := |seps| - 1;
      SepBodyBytes(seps[..n]);
      assert SepCells(seps)[..n] == SepCells(seps[..n]);
      assert SepSizes(seps)[..n] == SepSizes(seps[..n]);
      CellLength(SepCell(seps[n]));
    } else {
      assert SepCells(seps) == [] && SepSizes(seps) == [];
    }
  }

  /** The size the tree reckons with is the size on the page. */
  lemma UsedBytesExact(node: Node, prev: U32)
    requires Addressable(node)
    ensures var im := ImageOf(node, prev); UsedBytes(node) == HeadLen(im.high) + |Body(im.cells)| == |ImageBytes(im)|
  {
    hide Body, Sum, Head;
    var im := ImageOf(node, prev);
    HeadLength(im.kind, |im.cells|, im.first, im.next, im.high);
    match node
    case Leaf(entries, next, high) => LeafBodyBytes(entries);
    case Internal(first, seps, next, high) => SepBodyBytes(seps);
  }

  // ------------------------------------------------------------------ reading

  lemma LeafCellBack(k: Key)
    ensures var c := LeafCell(k); Key(c.key, Get32(c.rest[..4]), Get16(c.rest[4..6])) == k
  {
    RidRoundTrip(k);
  }

  lemma SepCellBack(s: Sep)
    requires s.child < 0x1_0000_0000
    ensures var c := SepCell(s);
            |c.rest| == SEP_REST && Key(c.key, Get32(c.rest[..4]), Get16(c.rest[4..6])) == s.key &&
            Get32(c.rest[6..10]) == s.child
  {
    hide ToLe, RidBytes;
    RidRoundTrip(s.key);
    WordRoundTrip32(s.child);
    var c, r := SepCell(s), RidBytes(s.key);
    assert c.rest[..4] == r[..4] && c.rest[4..6] == r[4..6] && c.rest[6..10] == ToLe(s.child, 4);
  }

  /** Key and row id of a cell. */
  function KeyOf(c: Cell): Key
    requires |c.rest| >= ROW_ID
  {
    Key(c.key, Get32(c.rest[..4]), Get16(c.rest[4..6]))
  }

  method LeafEntryAt(p: seq<Byte>, i: nat, ghost node: Node, ghost prev: U32) returns (k: Key)
    requires PageHolds(p, node, prev) && node.Leaf? && i < |node.entries|
    ensures k == node.entries[i]
  {
    hide Shows, RidBytes;
    var c := CellAt(p, i, ROW_ID, ImageOf(node, prev));
    LeafCellBack(node.entries[i]);
    k := KeyOf(c);
  }

  method InternalEntryAt(p: seq<Byte>, i: nat, ghost node: Node, ghost prev: U32) returns (s: Sep)
    requires PageHolds(p, node, prev) && node.Internal? && i < |node.seps|
    ensures s == node.seps[i]
  {
    hide Shows, RidBytes, ToLe;
    var c := CellAt(p, i, SEP_REST, ImageOf(node, prev));
    SepCellBack(node.seps[i]);
    s := Sep(KeyOf(c), Get32(c.rest[6..10]));
  }

  /** Sibling and bound; an empty bound reads as none. */
  method Links(p: seq<Byte>, ghost node: Node, ghost prev: U32) returns (next: PageNo, high: Option<Key>)
    requires PageHolds(p, node, prev)
    ensures next == node.next && high == Stored(node.high)
  {
    HeadWords(p, ImageOf(node, prev), RestLen(node));
    next := Word32(p, 7);
    high := HighKey(p, ImageOf(node, prev), RestLen(node));
  }

  predicate Past(k: Key, key: Key, strict: bool) {
    if strict then Lt(key, k) else !Lt(k, key)
  }

  predicate CellInside(p: seq<Byte>, off: nat) {
    off + 2 <= |p| && off + 2 + Slotted.Word(p, off) + ROW_ID <= |p|
  }

  /** The cell standing at `off`, as key. */
  function KeyAtOffset(p: seq<Byte>, off: nat): Key
    requires CellInside(p, off)
  {
    var l := Slotted.Word(p, off);
    Key(p[off + 2..off + 2 + l], Word32(p, off + 2 + l), Slotted.Word(p, off + 2 + l + 4))
  }

  lemma KeyIsRead(p: seq<Byte>, off: nat, w: nat, im: Image, i: nat)
    requires Shows(p, im, w) && i < |im.cells| && off == HeadLen(im.high) + |Body(im.cells[..i])| && w >= ROW_ID
    ensures |im.cells[i].rest| == w && CellInside(p, off) && KeyAtOffset(p, off) == KeyOf(im.cells[i])
  {
    hide Shows, Body, Get16, Get32;
    CellPlace(p, im, w, i);
    RestSlices(p, im, w, i);
  }

  lemma RestSlices(p: seq<Byte>, im: Image, w: nat, i: nat)
    requires Shows(p, im, w) && i < |im.cells| && w >= ROW_ID
    ensures var at, r := HeadLen(im.high) + |Body(im.cells[..i])| + 2 + |im.cells[i].key|, im.cells[i].rest;
            at + w <= |p| && |r| == w && p[at..at + 4] == r[..4] && p[at + 4..at + 6] == r[4..6] &&
            (w >= 10 ==> p[at + 6..at + 10] == r[6..10])
  {
    hide Body, ImageBytes;
    CellPlace(p, im, w, i);
    var at := HeadLen(im.high) + |Body(im.cells[..i])| + 2 + |im.cells[i].key|;
    Nested(p, at, w, 0, 4);
    Nested(p, at, w, 4, 6);
    if w >= 10 {
      Nested(p, at, w, 6, 10);
    }
  }

  /** The first entry not below the key (or above it), walking from cell to cell. */
  method LeafBound(p: seq<Byte>, key: Key, strict: bool, ghost node: Node, ghost prev: U32) returns (i: nat)
    requires PageHolds(p, node, prev) && node.Leaf?
    ensures i <= |node.entries| && (i < |node.entries| ==> Past(node.entries[i], key, strict))
    ensures forall j :: 0 <= j < i ==> !Past(node.entries[j], key, strict)
  {
    hide Shows, Lt, RidBytes, Body, Head, Slotted.Word, KeyAtOffset;
    ghost var im := ImageOf(node, prev);
    HeadWords(p, im, ROW_ID);
    NoCells(im.cells);
    var n, off := Slotted.Word(p, 1), NodeBytes.CellsStart(p, im, ROW_ID);
    i := 0;
    while i < n
      invariant i <= n == |node.entries| && off == HeadLen(im.high) + |Body(im.cells[..i])|
      invariant forall j :: 0 <= j < i ==> !Past(node.entries[j], key, strict)
    {
      LeafCellBack(node.entries[i]);
      KeyIsRead(p, off, ROW_ID, im, i);
      if Past(KeyAtOffset(p, off), key, strict) {
        return;
      }
      CellPlace(p, im, ROW_ID, i);
      off := off + 2 + Slotted.Word(p, off) + ROW_ID;
      i := i + 1;
    }
  }

  /** The child a key is routed to, read from the page. */
  method InternalChildFor(p: seq<Byte>, key: Key, ghost node: Node, ghost prev: U32) returns (child: PageNo)
    requires PageHolds(p, node, prev) && node.Internal?
    ensures child == ChildFor(node.first, node.seps, key)
  {
    hide Shows, Lt, RidBytes, Body, Head, Slotted.Word, KeyAtOffset, ToLe;
    ghost var im := ImageOf(node, prev);
    HeadWords(p, im, SEP_REST);
    NoCells(im.cells);
    var n, off := Slotted.Word(p, 1), NodeBytes.CellsStart(p, im, SEP_REST);
    child := Word32(p, 3);
    var i := 0;
    while i < n
      invariant i <= n == |node.seps| && off == HeadLen(im.high) + |Body(im.cells[..i])|
      invariant ChildFor(child, node.seps[i..], key) == ChildFor(node.first, node.seps, key)
    {
      SepCellBack(node.seps[i]);
      assert node.seps[i..][0] == node.seps[i] && node.seps[i..][1..] == node.seps[i + 1..];
      KeyIsRead(p, off, SEP_REST, im, i);
      if Lt(key, KeyAtOffset(p, off)) {
        break;
      }
      CellPlace(p, im, SEP_REST, i);
      RestSlices(p, im, SEP_REST, i);
      child := Word32(p, off + 2 + Slotted.Word(p, off) + ROW_ID);
      off := off + 2 + Slotted.Word(p, off) + SEP_REST;
      i := i + 1;
    }
  }

  /** Walking two images of one page cell by cell. */
  lemma {:induction false} SameCells(p: seq<Byte>, a: Image, b: Image, w: nat, i: nat)
    requires Shows(p, a, w) && Shows(p, b, w) && HeadLen(a.high) == HeadLen(b.high) && i <= |a.cells| == |b.cells|
    ensures a.cells[..i] == b.cells[..i]
    decreases i
  {
    hide ImageBytes, Body, ImageOk;
    if i > 0 {
      SameCells(p, a, b, w, i - 1);
      CellPlace(p, a, w, i - 1);
      CellPlace(p, b, w, i - 1);
      assert a.cells[..i] == a.cells[..i - 1] + [a.cells[i - 1]];
      assert b.cells[..i] == b.cells[..i - 1] + [b.cells[i - 1]];
    }
  }

  lemma SameImage(p: seq<Byte>, a: Image, b: Image, w: nat)
    requires Shows(p, a, w) && Shows(p, b, w)
    ensures a == b
  {
    hide ImageBytes, Body;
    HeadWords(p, a, w);
    HeadWords(p, b, w);
    SameCells(p, a, b, w, |a.cells|);
    assert a.cells[..|a.cells|] == a.cells && b.cells[..|b.cells|] == b.cells;
    assert a.high.Some? <==> b.high.Some?;
    if a.high.Some? {
      HighPlace(p, a, w);
      HighPlace(p, b, w);
      RidRoundTrip(a.high.value);
      RidRoundTrip(b.high.value);
    }
  }

  /** A page holds one node only, apart from a bound without bytes. */
  lemma PageDeterminesNode(p: seq<Byte>, a: Node, b: Node, prevA: U32, prevB: U32)
    requires PageHolds(p, a, prevA) && PageHolds(p, b, prevB)
    requires (a.high.Some? ==> a.high.value.bytes != []) && (b.high.Some? ==> b.high.value.bytes != [])
    ensures a == b
  {
    hide Shows, RidBytes, ToLe;
    HeadWords(p, ImageOf(a, prevA), RestLen(a));
    HeadWords(p, ImageOf(b, prevB), RestLen(b));
    SameImage(p, ImageOf(a, prevA), ImageOf(b, prevB), RestLen(a));
    if a.Leaf? {
      SameEntries(a.entries, b.entries);
    } else {
      SameSeps(a.seps, b.seps);
    }
  }

  lemma SameEntries(a: seq<Key>, b: seq<Key>)
    requires LeafCells(a) == LeafCells(b)
    ensures a == b
  {
    hide RidBytes;
    assert |a| == |LeafCells(a)| == |b|;
    forall i | 0 <= i < |a|
      ensures a[i] == b[i]
    {
      assert LeafCells(a)[i] == LeafCells(b)[i];
      LeafCellBack(a[i]);
      LeafCellBack(b[i]);
    }
  }

  lemma SameSeps(a: seq<Sep>, b: seq<Sep>)
    requires SepCells(a) == SepCells(b)
    requires (forall i :: 0 <= i < |a| ==> a[i].child < 0x1_0000_0000)
    requires forall i :: 0 <= i < |b| ==> b[i].child < 0x1_0000_0000
    ensures a == b
  {
    hide RidBytes, ToLe;
    assert |a| == |SepCells(a)| == |b|;
    forall i | 0 <= i < |a|
      ensures a[i] == b[i]
    {
      assert SepCells(a)[i] == SepCells(b)[i];
      SepCellBack(a[i]);
      SepCellBack(b[i]);
    }
  }

  // ------------------------------------------------------------------ writing

  function LeafWith(node: Node, i: nat, key: Key): Node
    requires node.Leaf? && i <= |node.entries|
  {
    Leaf(node.entries[..i] + [key] + node.entries[i..], node.next, node.high)
  }

  function InternalWith(node: Node, i: nat, s: Sep): Node
    requires node.Internal? && i <= |node.seps|
  {
    Internal(node.first, node.seps[..i] + [s] + node.seps[i..], node.next, node.high)
  }

  /** Refused exactly when the grown node would not fit a page, and then nothing changes. */
  method LeafInsertAt(page: array<Byte>, i: nat, key: Key, ghost node: Node, ghost prev: U32) returns (ok: bool)
    requires page.Length == PAGE_SIZE && PageHolds(page[..], node, prev) && node.Leaf? && i <= |node.entries|
    modifies page
    ensures ok <==> UsedBytes(LeafWith(node, i, key)) <= PAGE_SIZE
    ensures !ok ==> page[..] == old(page[..])
    ensures ok ==> PageHolds(page[..], LeafWith(node, i, key), prev)
  {
    hide Shows, RidBytes, Body, Head, Sum;
    ghost var im, after := ImageOf(node, prev), LeafWith(node, i, key);
    assert ImageOf(after, prev) == WithCell(im, i, LeafCell(key));
    WithCellSize(im, i, LeafCell(key));
    UsedBytesExact(node, prev);
    UsedBytesExact(after, prev);
    ok := InsertCell(page, i, Cell(key.bytes, RidBytes(key)), ROW_ID, im);
  }

  lemma WithCellSize(im: Image, i: nat, c: Cell)
    requires i <= |im.cells|
    ensures |Body(WithCell(im, i, c).cells)| == |Body(im.cells)| + 2 + |c.key| + |c.rest|
  {
    WithCellBytes(im, i, c);
    BodySplit(im.cells, i);
    CellLength(c);
  }

  method InternalInsertEntry(page: array<Byte>, i: nat, s: Sep, ghost node: Node, ghost prev: U32) returns (ok: bool)
    requires page.Length == PAGE_SIZE && PageHolds(page[..], node, prev) && node.Internal? && i <= |node.seps|
    requires s.child < 0x1_0000_0000
    modifies page
    ensures ok <==> UsedBytes(InternalWith(node, i, s)) <= PAGE_SIZE
    ensures !ok ==> page[..] == old(page[..])
    ensures ok ==> PageHolds(page[..], InternalWith(node, i, s), prev)
  {
    hide Shows, RidBytes, Body, Head, Sum, ToLe;
    ghost var im, after := ImageOf(node, prev), InternalWith(node, i, s);
    assert ImageOf(after, prev) == WithCell(im, i, SepCell(s));
    WithCellSize(im, i, SepCell(s));
    UsedBytesExact(node, prev);
    UsedBytesExact(after, prev);
    ok := InsertCell(page, i, Cell(s.key.bytes, RidBytes(s.key) + ToLe(s.child, 4)), SEP_REST, im);
  }

  method LeafRemoveAt(page: array<Byte>, i: nat, ghost node: Node, ghost prev: U32) returns (ok: bool)
    requires page.Length == PAGE_SIZE && PageHolds(page[..], node, prev) && node.Leaf?
    modifies page
    ensures ok <==> i < |node.entries|
    ensures !ok ==> page[..] == old(page[..])
    ensures ok ==> PageHolds(page[..], Leaf(node.entries[..i] + node.entries[i + 1..], node.next, node.high), prev)
    ensures ok && i + 1 == |node.entries| ==> page[..][3..] == old(page[..])[3..]
  {
    hide Shows, RidBytes, Body, Head;
    ghost var im := ImageOf(node, prev);
    ok := RemoveCell(page, i, ROW_ID, im);
    assert ok ==>
        ImageOf(Leaf(node.entries[..i] + node.entries[i + 1..], node.next, node.high), prev) == WithoutCell(im, i);
  }

  /**
   Takes the first entry out of a leaf and reads the first entry again, as a loan from the right does. On a leaf
   that had only one, the second read shows the entry that is gone.
   */
  method TakeFirstThenRead(page: array<Byte>, ghost node: Node, ghost prev: U32) returns (taken: Key, first: Key)
    requires page.Length == PAGE_SIZE && PageHolds(page[..], node, prev) && node.Leaf? && node.entries != []
    modifies page
    ensures PageHolds(page[..], Leaf(node.entries[1..], node.next, node.high), prev)
    ensures taken == node.entries[0]
    ensures first == if |node.entries| > 1 then node.entries[1] else node.entries[0]
  {
    hide Shows, RidBytes;
    ghost var was := page[..];
    ghost var rest := Leaf(node.entries[1..], node.next, node.high);
    taken := LeafEntryAt(page[..], 0, node, prev);
    var ok := LeafRemoveAt(page, 0, node, prev);
    assert node.entries[..0] + node.entries[1..] == node.entries[1..];
    ghost var shown := if |node.entries| > 1 then rest else node;
    ghost var bytes := if |node.entries| > 1 then page[..] else was;
    var c := FirstCellRead(page[..], ROW_ID, ImageOf(rest, prev), bytes, ImageOf(shown, prev));
    LeafCellBack(shown.entries[0]);
    first := KeyOf(c);
  }

  method InternalRemoveAt(page: array<Byte>, i: nat, ghost node: Node, ghost prev: U32) returns (ok: bool)
    requires page.Length == PAGE_SIZE && PageHolds(page[..], node, prev) && node.Internal?
    modifies page
    ensures ok <==> i < |node.seps|
    ensures !ok ==> page[..] == old(page[..])
    ensures ok ==> PageHolds(page[..], Internal(node.first, node.seps[..i] + node.seps[i + 1..], node.next, node.high),
                             prev)
  {
    hide Shows, RidBytes, Body, Head, ToLe;
    ghost var im := ImageOf(node, prev);
    ok := RemoveCell(page, i, SEP_REST, im);
    if ok {
      ghost var now := Internal(node.first, node.seps[..i] + node.seps[i + 1..], node.next, node.high);
      assert ImageOf(now, prev) == WithoutCell(im, i);
    }
  }

  // ------------------------------------------------------------------ building a page

  /** Writing right behind a known beginning extends it. */
  lemma Extended(p: seq<Byte>, a: seq<Byte>, x: seq<Byte>)
    requires a <= p && |a| + |x| <= |p|
    ensures a + x <= Slotted.Put(p, |a|, x)
  {
    assert Slotted.Put(p, |a|, x) == a + x + p[|a| + |x|..];
  }

  method WriteHead(page: array<Byte>, kind: Byte, first: U32, next: U32)
    requires page.Length == PAGE_SIZE
    modifies page
    ensures [kind] + ToLe(0, 2) + ToLe(first, 4) + ToLe(next, 4) + ToLe(0, 2) <= page[..]
  {
    hide ToLe, Slotted.Put;
    Extended(page[..], [], [kind]);
    SlottedPage.CopyInto(page, 0, [kind]);
    assert [] + [kind] == [kind];
    Extended(page[..], [kind], ToLe(0, 2));
    SlottedPage.CopyInto(page, 1, ToLe(0, 2));
    Extended(page[..], [kind] + ToLe(0, 2), ToLe(first, 4));
    SlottedPage.CopyInto(page, 3, ToLe(first, 4));
    Extended(page[..], [kind] + ToLe(0, 2) + ToLe(first, 4), ToLe(next, 4));
    SlottedPage.CopyInto(page, 7, ToLe(next, 4));
    Extended(page[..], [kind] + ToLe(0, 2) + ToLe(first, 4) + ToLe(next, 4), ToLe(0, 2));
    SlottedPage.CopyInto(page, 11, ToLe(0, 2));
  }

  /** The bound goes behind the fixed header of a page without cells. */
  method SetHighKey(page: array<Byte>, k: Key, ghost front: seq<Byte>) returns (ok: bool)
    requires page.Length == PAGE_SIZE && |front| == 11 && front <= page[..]
    modifies page
    ensures ok <==> NODE_BASE + |k.bytes| + ROW_ID <= PAGE_SIZE
    ensures !ok ==> page[..] == old(page[..])
    ensures ok ==> front + ToLe(|k.bytes|, 2) + k.bytes + RidBytes(k) <= page[..]
  {
    hide ToLe, Slotted.Put;
    if |k.bytes| > 0xFFFF || NODE_BASE + |k.bytes| + ROW_ID > PAGE_SIZE {
      return false;
    }
    var l := |k.bytes|;
    Extended(page[..], front, ToLe(l, 2));
    SlottedPage.CopyInto(page, 11, ToLe(l, 2));
    Extended(page[..], front + ToLe(l, 2), k.bytes);
    SlottedPage.CopyInto(page, NODE_BASE, k.bytes);
    Extended(page[..], front + ToLe(l, 2) + k.bytes, ToLe(k.page, 4));
    SlottedPage.CopyInto(page, NODE_BASE + l, ToLe(k.page, 4));
    Extended(page[..], front + ToLe(l, 2) + k.bytes + ToLe(k.page, 4), ToLe(k.slot, 2));
    SlottedPage.CopyInto(page, NODE_BASE + l + 4, ToLe(k.slot, 2));
    assert front + ToLe(l, 2) + k.bytes + ToLe(k.page, 4) + ToLe(k.slot, 2) ==
           front + ToLe(l, 2) + k.bytes + RidBytes(k);
    ok := true;
  }

  /** A page without cells; refused exactly when the bound does not fit. */
  method EmptyPage(kind: Byte, first: U32, next: U32, high: Option<Key>, ghost w: nat)
    returns (page: array<Byte>, ok: bool)
    ensures fresh(page) && page.Length == PAGE_SIZE
    ensures ok ==> HeaderLen(high) <= PAGE_SIZE && Shows(page[..], Image(kind, first, next, Stored(high), []), w)
    ensures !ok ==> HeaderLen(high) > PAGE_SIZE
  {
    hide ToLe, RidBytes;
    page := new Byte[PAGE_SIZE](_ => 0);
    WriteHead(page, kind, first, next);
    ghost var front := [kind] + ToLe(0, 2) + ToLe(first, 4) + ToLe(next, 4);
    assert front <= page[..] by {
      assert front <= front + ToLe(0, 2);
    }
    ok := true;
    if high.Some? {
      ok := SetHighKey(page, high.value, front);
    }
    if ok {
      EmptyShows(page[..], kind, first, next, high, w);
    }
  }

  lemma EmptyShows(p: seq<Byte>, kind: Byte, first: U32, next: U32, high: Option<Key>, w: nat)
    requires |p| == PAGE_SIZE
    requires var front := [kind] + ToLe(0, 2) + ToLe(first, 4) + ToLe(next, 4);
             if high.None? then front + ToLe(0, 2) <= p
             else front + ToLe(|high.value.bytes|, 2) + high.value.bytes + RidBytes(high.value) <= p
    ensures Shows(p, Image(kind, first, next, Stored(high), []), w)
  {
    hide ToLe, RidBytes;
    var front := [kind] + ToLe(0, 2) + ToLe(first, 4) + ToLe(next, 4);
    var im := Image(kind, first, next, Stored(high), []);
    if high.Some? && high.value.bytes != [] {
      assert HighBytes(im.high) == ToLe(|high.value.bytes|, 2) + high.value.bytes + RidBytes(high.value);
      assert ImageBytes(im) == front + ToLe(|high.value.bytes|, 2) + high.value.bytes + RidBytes(high.value);
    } else {
      assert ImageBytes(im) == front + ToLe(0, 2);
      assert high.Some? ==> front + ToLe(0, 2) <= front + ToLe(0, 2) + [] + RidBytes(high.value);
    }
  }

  lemma {:induction false} SumPrefix(s: seq<nat>, i: nat)
    requires i <= |s|
    ensures Sum(s[..i]) <= Sum(s)
  {
    if i < |s| {
      SumPrefix(s[..|s| - 1], i);
      assert s[..|s| - 1][..i] == s[..i];
    } else {
      assert s[..i] == s;
    }
  }

  lemma LeafPrefix(entries: seq<Key>, next: PageNo, high: Option<Key>, i: nat)
    requires i <= |entries|
    ensures UsedBytes(Leaf(entries[..i], next, high)) <= UsedBytes(Leaf(entries, next, high))
  {
    SumPrefix(LeafSizes(entries), i);
    assert LeafSizes(entries)[..i] == LeafSizes(entries[..i]);
  }

  lemma InternalPrefix(first: PageNo, seps: seq<Sep>, next: PageNo, high: Option<Key>, i: nat)
    requires i <= |seps|
    ensures UsedBytes(Internal(first, seps[..i], next, high)) <= UsedBytes(Internal(first, seps, next, high))
  {
    SumPrefix(SepSizes(seps), i);
    assert SepSizes(seps)[..i] == SepSizes(seps[..i]);
  }

  /** A leaf image is built exactly when the leaf fits by the tree's own reckoning. */
  method BuildLeaf(entries: seq<Key>, prev: U32, next: U32, high: Option<Key>) returns (page: array<Byte>, ok: bool)
    ensures fresh(page) && page.Length == PAGE_SIZE
    ensures ok <==> UsedBytes(Leaf(entries, next, high)) <= PAGE_SIZE
    ensures ok ==> PageHolds(page[..], Leaf(entries, next, high), prev)
  {
    hide Shows, UsedBytes, ToLe;
    page, ok := EmptyPage(LEAF, prev, next, high, ROW_ID);
    LeafPrefix(entries, next, high, 0);
    NoEntries(next, high);
    assert entries[..0] == [];
    if !ok {
      return;
    }
    assert LeafCells([]) == [];
    for i := 0 to |entries|
      invariant PageHolds(page[..], Leaf(entries[..i], next, high), prev) && fresh(page)
      invariant UsedBytes(Leaf(entries[..i], next, high)) <= PAGE_SIZE
    {
      assert LeafWith(Leaf(entries[..i], next, high), i, entries[i]).entries == entries[..i + 1];
      ok := LeafInsertAt(page, i, entries[i], Leaf(entries[..i], next, high), prev);
      LeafPrefix(entries, next, high, i + 1);
      if !ok {
        return;
      }
    }
    assert entries[..|entries|] == entries;
  }

  lemma NoEntries(next: PageNo, high: Option<Key>)
    ensures UsedBytes(Leaf([], next, high)) == HeaderLen(high)
  {
  }

  lemma NoSeps(first: PageNo, next: PageNo, high: Option<Key>)
    ensures UsedBytes(Internal(first, [], next, high)) == HeaderLen(high)
  {
  }

  method BuildInternal(first: U32, seps: seq<Sep>, next: U32, high: Option<Key>) returns (page: array<Byte>, ok: bool)
    requires forall i :: 0 <= i < |seps| ==> seps[i].child < 0x1_0000_0000
    ensures fresh(page) && page.Length == PAGE_SIZE
    ensures ok <==> UsedBytes(Internal(first, seps, next, high)) <= PAGE_SIZE
    ensures ok ==> PageHolds(page[..], Internal(first, seps, next, high), 0)
  {
    hide Shows, UsedBytes, ToLe;
    page, ok := EmptyPage(INTERNAL, first, next, high, SEP_REST);
    InternalPrefix(first, seps, next, high, 0);
    NoSeps(first, next, high);
    assert seps[..0] == [];
    if !ok {
      return;
    }
    assert SepCells([]) == [];
    for i := 0 to |seps|
      invariant PageHolds(page[..], Internal(first, seps[..i], next, high), 0) && fresh(page)
      invariant UsedBytes(Internal(first, seps[..i], next, high)) <= PAGE_SIZE
    {
      assert InternalWith(Internal(first, seps[..i], next, high), i, seps[i]).seps == seps[..i + 1];
      ok := InternalInsertEntry(page, i, seps[i], Internal(first, seps[..i], next, high), 0);
      InternalPrefix(first, seps, next, high, i + 1);
      if !ok {
        return;
      }
    }
    assert seps[..|seps|] == seps;
  }
}
