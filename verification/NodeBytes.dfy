/** Index node pages as bytes: a header with an optional high key, then self-delimiting cells. */
module NodeBytes {
  import opened Options
  import opened Bytes
  import opened Slotted
  import opened KeyOrder
  import SlottedPage

  const NODE_BASE := 13
  const ROW_ID := 6

  /** A cell: key bytes behind their length, then a fixed number of bytes (row id, and child page in inner nodes). */
  datatype Cell = Cell(key: seq<Byte>, rest: seq<Byte>)

  /** `first` is the previous leaf, or the first child. */
  datatype Image = Image(kind: Byte, first: U32, next: U32, high: Option<Key>, cells: seq<Cell>)

  function CellBytes(c: Cell): seq<Byte> {
    ToLe(|c.key|, 2) + c.key + c.rest
  }

  function Body(cells: seq<Cell>): seq<Byte> {
    if cells == [] then [] else Body(cells[..|cells| - 1]) + CellBytes(cells[|cells| - 1])
  }

  lemma {:induction false} BodyAppend(a: seq<Cell>, b: seq<Cell>)
    ensures Body(a + b) == Body(a) + Body(b)
  {
    if b == [] {
      assert a + b == a;
    } else {
      assert (a + b)[..|a + b| - 1] == a + b[..|b| - 1];
      BodyAppend(a, b[..|b| - 1]);
    }
  }

  lemma BodySplit(cells: seq<Cell>, i: nat)
    requires i <= |cells|
    ensures Body(cells) == Body(cells[..i]) + Body(cells[i..])
  {
    hide Body;
    assert cells[..i] + cells[i..] == cells;
    BodyAppend(cells[..i], cells[i..]);
  }

  lemma BodyNext(cells: seq<Cell>, i: nat)
    requires i < |cells|
    ensures Body(cells[..i + 1]) == Body(cells[..i]) + CellBytes(cells[i])
  {
    assert cells[..i + 1][..i] == cells[..i];
  }

  lemma BodyOne(c: Cell)
    ensures Body([c]) == CellBytes(c)
  {
    assert Body([]) == [];
  }

  /** A zero length stands for an absent high key. */
  function HighBytes(high: Option<Key>): seq<Byte> {
    match high
    case None => ToLe(0, 2)
    case Some(k) => ToLe(|k.bytes|, 2) + k.bytes + RidBytes(k)
  }

  function RidBytes(k: Key): (r: seq<Byte>)
    ensures |r| == ROW_ID
  {
    ToLe(k.page, 4) + ToLe(k.slot, 2)
  }

  /** The row id can be read back. */
  lemma RidRoundTrip(k: Key)
    ensures Get32(RidBytes(k)[..4]) == k.page && Get16(RidBytes(k)[4..6]) == k.slot
  {
    hide ToLe;
    assert RidBytes(k)[..4] == ToLe(k.page, 4) && RidBytes(k)[4..6] == ToLe(k.slot, 2);
    WordRoundTrip32(k.page);
    WordRoundTrip16(k.slot);
  }

  function Head(kind: Byte, n: nat, first: U32, next: U32, high: Option<Key>): seq<Byte> {
    [kind] + ToLe(n, 2) + ToLe(first, 4) + ToLe(next, 4) + HighBytes(high)
  }

  function HeadLen(high: Option<Key>): nat {
    if high.None? then NODE_BASE else NODE_BASE + |high.value.bytes| + ROW_ID
  }

  lemma HeadLength(kind: Byte, n: nat, first: U32, next: U32, high: Option<Key>)
    ensures |Head(kind, n, first, next, high)| == HeadLen(high)
  {
  }

  function ImageBytes(im: Image): seq<Byte> {
    Head(im.kind, |im.cells|, im.first, im.next, im.high) + Body(im.cells)
  }

  ghost predicate ImageOk(im: Image, w: nat) {
    && |im.cells| < 0x1_0000
    && (im.high.Some? ==> 0 < |im.high.value.bytes| < 0x1_0000)
    && forall i :: 0 <= i < |im.cells| ==> |im.cells[i].rest| == w && |im.cells[i].key| < 0x1_0000
  }

  /** The page starts with this image; what follows the last cell does not matter. */
  ghost predicate Shows(p: seq<Byte>, im: Image, w: nat) {
    |p| == PAGE_SIZE && ImageOk(im, w) && ImageBytes(im) <= p
  }

  // ------------------------------------------------------------------ reading

  function Word32(p: seq<Byte>, at: nat): U32
    requires at + 4 <= |p|
  {
    Get32(p[at..at + 4])
  }

  /** Part of a prefix is part of the whole. */
  lemma Inside(p: seq<Byte>, a: seq<Byte>, b: seq<Byte>, c: seq<Byte>)
    requires a + b + c <= p
    ensures |a| + |b| <= |p| && p[|a|..|a| + |b|] == b
  {
    assert p[|a|..|a| + |b|] == (a + b + c)[|a|..|a| + |b|];
  }

  lemma HeadWords(p: seq<Byte>, im: Image, w: nat)
    requires Shows(p, im, w)
    ensures p[0] == im.kind && Word(p, 1) == |im.cells| && Word32(p, 3) == im.first && Word32(p, 7) == im.next
    ensures Word(p, 11) == if im.high.None? then 0 else |im.high.value.bytes|
    ensures HeadLen(im.high) + |Body(im.cells)| <= |p|
  {
    hide ToLe, Body;
    var n, f, x, h, b := ToLe(|im.cells|, 2), ToLe(im.first, 4), ToLe(im.next, 4), HighBytes(im.high), Body(im.cells);
    HeadLength(im.kind, |im.cells|, im.first, im.next, im.high);
    var all := ImageBytes(im);
    assert all == [im.kind] + n + (f + x + h + b);
    Inside(p, [im.kind], n, f + x + h + b);
    assert all == ([im.kind] + n) + f + (x + h + b);
    Inside(p, [im.kind] + n, f, x + h + b);
    assert all == ([im.kind] + n + f) + x + (h + b);
    Inside(p, [im.kind] + n + f, x, h + b);
    var l := if im.high.None? then 0 else |im.high.value.bytes|;
    assert h == ToLe(l, 2) + h[2..];
    assert all == ([im.kind] + n + f + x) + ToLe(l, 2) + (h[2..] + b);
    Inside(p, [im.kind] + n + f + x, ToLe(l, 2), h[2..] + b);
    WordRoundTrip16(|im.cells|);
    WordRoundTrip32(im.first);
    WordRoundTrip32(im.next);
    WordRoundTrip16(l);
  }

  /** Where the cells start. */
  function CellsStart(p: seq<Byte>, ghost im: Image, ghost w: nat): (at: nat)
    requires Shows(p, im, w)
    ensures at == HeadLen(im.high)
  {
    HeadWords(p, im, w);
    NODE_BASE + if Word(p, 11) == 0 then 0 else Word(p, 11) + ROW_ID
  }

  lemma HighPlace(p: seq<Byte>, im: Image, w: nat)
    requires Shows(p, im, w) && im.high.Some?
    ensures var l := |im.high.value.bytes|;
            NODE_BASE + l + ROW_ID <= |p| && p[NODE_BASE..NODE_BASE + l] == im.high.value.bytes
    ensures var at := NODE_BASE + |im.high.value.bytes|;
            p[at..at + 4] == RidBytes(im.high.value)[..4] && p[at + 4..at + 6] == RidBytes(im.high.value)[4..6]
  {
    hide ToLe, Body, RidBytes;
    var k := im.high.value;
    var front := [im.kind] + ToLe(|im.cells|, 2) + ToLe(im.first, 4) + ToLe(im.next, 4) + ToLe(|k.bytes|, 2);
    assert ImageBytes(im) == front + k.bytes + RidBytes(k) + Body(im.cells);
    KeyInside(p, front, k.bytes, RidBytes(k), Body(im.cells));
  }

  /** A key and the row id behind it. */
  lemma KeyInside(p: seq<Byte>, front: seq<Byte>, key: seq<Byte>, rid: seq<Byte>, body: seq<Byte>)
    requires front + key + rid + body <= p && |rid| == ROW_ID
    ensures var at := |front| + |key|;
            at + ROW_ID <= |p| && p[|front|..at] == key && p[at..at + 4] == rid[..4] && p[at + 4..at + 6] == rid[4..6]
  {
    var at := |front| + |key|;
    assert front + key + rid + body == front + key + (rid + body);
    Inside(p, front, key, rid + body);
    Inside(p, front + key, rid, body);
    Nested(p, at, ROW_ID, 0, 4);
    Nested(p, at, ROW_ID, 4, 6);
  }

  /** A slice of a slice. */
  lemma Nested(p: seq<Byte>, at: nat, w: nat, i: nat, j: nat)
    requires at + w <= |p| && i <= j <= w
    ensures p[at..at + w][i..j] == p[at + i..at + j]
  {
    var a, b := p[at..at + w][i..j], p[at + i..at + j];
    assert |a| == |b|;
    assert forall x :: 0 <= x < |a| ==> a[x] == p[at + i + x];
    assert a == b;
  }

  /** The upper bound as stored. */
  method HighKey(p: seq<Byte>, ghost im: Image, ghost w: nat) returns (high: Option<Key>)
    requires Shows(p, im, w)
    ensures high == im.high
  {
    hide ImageBytes, RidBytes;
    HeadWords(p, im, w);
    var l := Word(p, 11);
    if l == 0 {
      return None;
    }
    HighPlace(p, im, w);
    RidRoundTrip(im.high.value);
    var at := NODE_BASE + l;
    high := Some(Key(p[NODE_BASE..at], Word32(p, at), Word(p, at + 4)));
  }

  /** Cell `i` and where it stands. */
  lemma CellPlace(p: seq<Byte>, im: Image, w: nat, i: nat)
    requires Shows(p, im, w) && i < |im.cells|
    ensures var off, c := HeadLen(im.high) + |Body(im.cells[..i])|, im.cells[i];
            && off + 2 + |c.key| + w <= |p| && Word(p, off) == |c.key|
            && p[off + 2..off + 2 + |c.key|] == c.key && p[off + 2 + |c.key|..off + 2 + |c.key| + w] == c.rest
    ensures HeadLen(im.high) + |Body(im.cells[..i + 1])| ==
            HeadLen(im.high) + |Body(im.cells[..i])| + 2 + |im.cells[i].key| + w
  {
    hide ToLe, Body, Head;
    BodyNext(im.cells, i);
    BodySplit(im.cells, i + 1);
    HeadLength(im.kind, |im.cells|, im.first, im.next, im.high);
    var head, before, c, after := Head(im.kind, |im.cells|, im.first, im.next, im.high), Body(im.cells[..i]),
                                  im.cells[i], Body(im.cells[i + 1..]);
    var len := ToLe(|c.key|, 2);
    assert ImageBytes(im) == (head + before) + len + (c.key + c.rest + after);
    Inside(p, head + before, len, c.key + c.rest + after);
    assert ImageBytes(im) == (head + before + len) + c.key + (c.rest + after);
    Inside(p, head + before + len, c.key, c.rest + after);
    assert ImageBytes(im) == (head + before + len + c.key) + c.rest + after;
    Inside(p, head + before + len + c.key, c.rest, after);
    WordRoundTrip16(|c.key|);
  }

  /** Walks over `i` cells by their lengths. */
  method CellOffset(p: seq<Byte>, i: nat, w: nat, ghost im: Image) returns (off: nat)
    requires Shows(p, im, w) && i <= |im.cells|
    ensures off == HeadLen(im.high) + |Body(im.cells[..i])|
  {
    hide ImageBytes, Body, Head;
    off := CellsStart(p, im, w);
    assert Body(im.cells[..0]) == [] by {
      NoCells(im.cells);
    }
    for j := 0 to i
      invariant off == HeadLen(im.high) + |Body(im.cells[..j])|
    {
      CellPlace(p, im, w, j);
      off := off + 2 + Word(p, off) + w;
    }
  }

  lemma NoCells(cells: seq<Cell>)
    ensures Body(cells[..0]) == []
  {
  }

  method CellAt(p: seq<Byte>, i: nat, w: nat, ghost im: Image) returns (c: Cell)
    requires Shows(p, im, w) && i < |im.cells|
    ensures c == im.cells[i]
  {
    hide ImageBytes, Body, Head;
    var off := CellOffset(p, i, w, im);
    CellPlace(p, im, w, i);
    var l := Word(p, off);
    c := Cell(p[off + 2..off + 2 + l], p[off + 2 + l..off + 2 + l + w]);
  }

  // ------------------------------------------------------------------ inserting and removing cells

  lemma ShowsParts(p: seq<Byte>, im: Image, w: nat, i: nat)
    requires Shows(p, im, w) && i <= |im.cells|
    ensures var h := Head(im.kind, |im.cells|, im.first, im.next, im.high);
            |h| == HeadLen(im.high) && h + Body(im.cells[..i]) + Body(im.cells[i..]) <= p
  {
    hide Head, Body;
    HeadLength(im.kind, |im.cells|, im.first, im.next, im.high);
    BodySplit(im.cells, i);
    var h := Head(im.kind, |im.cells|, im.first, im.next, im.high);
    assert h + Body(im.cells[..i]) + Body(im.cells[i..]) == h + (Body(im.cells[..i]) + Body(im.cells[i..]));
  }

  /** Moving `b` up by the room `e` needs, and writing `e` there. */
  lemma Opened(p: seq<Byte>, a: seq<Byte>, b: seq<Byte>, e: seq<Byte>)
    requires a + b <= p && |a| + |b| + |e| <= |p|
    ensures p[|a|..|a| + |b|] == b
    ensures a + e + b <= Put(Put(p, |a| + |e|, b), |a|, e)
  {
    assert p[..|a|] == a by {
      assert (a + b)[..|a|] == a;
    }
    assert p[|a|..|a| + |b|] == (a + b)[|a|..];
    var q := Put(p, |a| + |e|, b);
    assert q[..|a|] == a;
    assert q[|a| + |e|..] == b + p[|a| + |e| + |b|..];
    var r := Put(q, |a|, e);
    assert r == a + e + q[|a| + |e|..];
    assert r == a + e + b + p[|a| + |e| + |b|..];
  }

  /** Moving `b` down over `e`. */
  lemma Closed(p: seq<Byte>, a: seq<Byte>, e: seq<Byte>, b: seq<Byte>)
    requires a + e + b <= p
    ensures p[|a| + |e|..|a| + |e| + |b|] == b
    ensures a + b <= Put(p, |a|, b)
  {
    assert p[..|a|] == a by {
      assert (a + e + b)[..|a|] == a;
    }
    assert p[|a| + |e|..|a| + |e| + |b|] == (a + e + b)[|a| + |e|..];
    assert Put(p, |a|, b) == a + b + p[|a| + |b|..];
  }

  lemma Recounted(p: seq<Byte>, kind: Byte, n: nat, m: nat, first: U32, next: U32, high: Option<Key>, body: seq<Byte>)
    requires Head(kind, n, first, next, high) + body <= p
    ensures |p| >= NODE_BASE && Head(kind, m, first, next, high) + body <= Put(p, 1, ToLe(m, 2))
  {
    hide ToLe;
    var rest := ToLe(first, 4) + ToLe(next, 4) + HighBytes(high) + body;
    assert Head(kind, n, first, next, high) + body == [kind] + ToLe(n, 2) + rest;
    assert Head(kind, m, first, next, high) + body == [kind] + ToLe(m, 2) + rest;
    Recount(p, [kind], ToLe(n, 2), ToLe(m, 2), rest);
  }

  lemma Recount(p: seq<Byte>, a: seq<Byte>, old2: seq<Byte>, new2: seq<Byte>, rest: seq<Byte>)
    requires a + old2 + rest <= p && |old2| == |new2|
    ensures a + new2 + rest <= Put(p, |a|, new2)
  {
    assert p[..|a|] == (a + old2 + rest)[..|a|] == a;
    assert p[|a| + |old2|..][..|rest|] == (a + old2 + rest)[|a| + |old2|..] == rest;
    assert Put(p, |a|, new2) == a + new2 + p[|a| + |new2|..];
    assert p[|a| + |old2|..] == rest + p[|a| + |old2|..][|rest|..];
  }

  lemma ThreePuts(p: seq<Byte>, at: nat, a: seq<Byte>, b: seq<Byte>, c: seq<Byte>)
    requires at + |a| + |b| + |c| <= |p|
    ensures Put(Put(Put(p, at, a), at + |a|, b), at + |a| + |b|, c) == Put(p, at, a + b + c)
  {
    var q := Put(p, at, a);
    assert q == p[..at] + a + p[at + |a|..];
    var r := Put(q, at + |a|, b);
    assert r == p[..at] + a + b + p[at + |a| + |b|..];
    assert Put(r, at + |a| + |b|, c) == p[..at] + a + b + c + p[at + |a| + |b| + |c|..];
    assert p[..at] + a + b + c == p[..at] + (a + b + c);
  }

  function WithCell(im: Image, i: nat, c: Cell): Image
    requires i <= |im.cells|
  {
    im.(cells := im.cells[..i] + [c] + im.cells[i..])
  }

  function WithoutCell(im: Image, i: nat): Image
    requires i < |im.cells|
  {
    im.(cells := im.cells[..i] + im.cells[i + 1..])
  }

  lemma WithCellBytes(im: Image, i: nat, c: Cell)
    requires i <= |im.cells|
    ensures Body(WithCell(im, i, c).cells) == Body(im.cells[..i]) + CellBytes(c) + Body(im.cells[i..])
  {
    BodyAppend(im.cells[..i] + [c], im.cells[i..]);
    BodyAppend(im.cells[..i], [c]);
    BodyOne(c);
  }

  /** The bytes after the three steps of an insertion. */
  lemma InsertedShows(p: seq<Byte>, im: Image, w: nat, i: nat, c: Cell)
    requires Shows(p, im, w) && i <= |im.cells| && |c.rest| == w && |im.cells| < 0xFFFF
    requires HeadLen(im.high) + |Body(im.cells)| + |CellBytes(c)| <= PAGE_SIZE
    ensures var at, b, e := HeadLen(im.high) + |Body(im.cells[..i])|, Body(im.cells[i..]), CellBytes(c);
            && at + |b| == HeadLen(im.high) + |Body(im.cells)| && p[at..at + |b|] == b
            && Shows(Put(Put(Put(p, at + |e|, b), at, e), 1, ToLe(|im.cells| + 1, 2)), WithCell(im, i, c), w)
  {
    hide Head, Body, Put, ToLe, CellBytes;
    BodySplit(im.cells, i);
    ShowsParts(p, im, w, i);
    WithCellBytes(im, i, c);
    var h, a, b, e := Head(im.kind, |im.cells|, im.first, im.next, im.high), Body(im.cells[..i]), Body(im.cells[i..]),
                      CellBytes(c);
    Opened(p, h + a, b, e);
    var q := Put(Put(p, |h + a| + |e|, b), |h + a|, e);
    assert h + a + e + b == h + (a + e + b);
    Recounted(q, im.kind, |im.cells|, |im.cells| + 1, im.first, im.next, im.high, a + e + b);
    assert |c.key| < 0x1_0000 by {
      CellLength(c);
    }
  }

  lemma CellLength(c: Cell)
    ensures |CellBytes(c)| == 2 + |c.key| + |c.rest|
  {
  }

  /** A page never holds that many cells. */
  lemma {:induction false} CellsWeigh(cells: seq<Cell>)
    ensures 2 * |cells| <= |Body(cells)|
  {
    if cells != [] {
      CellsWeigh(cells[..|cells| - 1]);
      CellLength(cells[|cells| - 1]);
    }
  }

  /** Refused exactly when the cell does not fit behind the others; the page is then unchanged. */
  method InsertCell(page: array<Byte>, i: nat, c: Cell, w: nat, ghost im: Image) returns (ok: bool)
    requires page.Length == PAGE_SIZE && Shows(page[..], im, w) && i <= |im.cells| && |c.rest| == w
    modifies page
    ensures ok <==> HeadLen(im.high) + |Body(im.cells)| + 2 + |c.key| + w <= PAGE_SIZE
    ensures !ok ==> page[..] == old(page[..])
    ensures ok ==> Shows(page[..], WithCell(im, i, c), w)
  {
    hide ImageBytes, Head, Body, Put, ToLe, ImageOk, Word;
    var p := page[..];
    HeadWords(p, im, w);
    var n := Word(p, 1);
    var end := CellOffset(p, n, w, im);
    assert im.cells[..n] == im.cells;
    var need := 2 + |c.key| + w;
    if end + need > PAGE_SIZE {
      return false;
    }
    var at := CellOffset(p, i, w, im);
    CellsWeigh(im.cells);
    CellLength(c);
    InsertedShows(p, im, w, i, c);
    SlottedPage.CopyInto(page, at + need, p[at..end]);
    ThreePuts(page[..], at, ToLe(|c.key|, 2), c.key, c.rest);
    SlottedPage.CopyInto(page, at, ToLe(|c.key|, 2));
    SlottedPage.CopyInto(page, at + 2, c.key);
    SlottedPage.CopyInto(page, at + 2 + |c.key|, c.rest);
    SlottedPage.CopyInto(page, 1, ToLe(n + 1, 2));
    ok := true;
  }

  lemma RemovedShows(p: seq<Byte>, im: Image, w: nat, i: nat)
    requires Shows(p, im, w) && i < |im.cells|
    ensures var at, e, b := HeadLen(im.high) + |Body(im.cells[..i])|, CellBytes(im.cells[i]), Body(im.cells[i + 1..]);
            && at + |e| + |b| == HeadLen(im.high) + |Body(im.cells)| <= |p| && p[at + |e|..at + |e| + |b|] == b
            && Shows(Put(Put(p, at, b), 1, ToLe(|im.cells| - 1, 2)), WithoutCell(im, i), w)
  {
    hide Head, Body, Put, ToLe, CellBytes;
    ShowsParts(p, im, w, i + 1);
    BodyNext(im.cells, i);
    BodySplit(im.cells, i + 1);
    BodyAppend(im.cells[..i], im.cells[i + 1..]);
    var h, a, e, b := Head(im.kind, |im.cells|, im.first, im.next, im.high), Body(im.cells[..i]),
                      CellBytes(im.cells[i]), Body(im.cells[i + 1..]);
    assert h + (a + e) + b == h + a + e + b;
    Closed(p, h + a, e, b);
    var q := Put(p, |h + a|, b);
    assert h + a + b == h + (a + b);
    Recounted(q, im.kind, |im.cells|, |im.cells| - 1, im.first, im.next, im.high, a + b);
  }

  method RemoveCell(page: array<Byte>, i: nat, w: nat, ghost im: Image) returns (ok: bool)
    requires page.Length == PAGE_SIZE && Shows(page[..], im, w)
    modifies page
    ensures ok <==> i < |im.cells|
    ensures !ok ==> page[..] == old(page[..])
    ensures ok ==> Shows(page[..], WithoutCell(im, i), w)
    ensures ok && i + 1 == |im.cells| ==> page[..][3..] == old(page[..])[3..]
  {
    hide ImageBytes, Head, Body, Put, ToLe, ImageOk, Word;
    var p := page[..];
    HeadWords(p, im, w);
    var n := Word(p, 1);
    if i >= n {
      return false;
    }
    var at := CellOffset(p, i, w, im);
    CellPlace(p, im, w, i);
    CellLength(im.cells[i]);
    var size := 2 + Word(p, at) + w;
    var end := CellOffset(p, n, w, im);
    assert im.cells[..n] == im.cells;
    RemovedShows(p, im, w, i);
    SlottedPage.CopyInto(page, at, p[at + size..end]);
    SlottedPage.CopyInto(page, 1, ToLe(n - 1, 2));
    LastStays(p, at, p[at + size..end], n - 1);
    ok := true;
  }

  /** Nothing moves when nothing follows; only the count changes. */
  lemma LastStays(p: seq<Byte>, at: nat, tail: seq<Byte>, n: nat)
    requires 3 <= at <= |p| - |tail| && n < 0x1_0000
    ensures tail == [] ==> Put(Put(p, at, tail), 1, ToLe(n, 2))[3..] == p[3..]
  {
    if tail == [] {
      assert Put(p, at, tail) == p;
    }
  }

  lemma SameBehind(p: seq<Byte>, was: seq<Byte>, a: nat, b: nat)
    requires 3 <= a <= b <= |p| == |was| && p[3..] == was[3..]
    ensures p[a..b] == was[a..b]
  {
    assert p[a..b] == p[3..][a - 3..b - 3];
    assert was[a..b] == was[3..][a - 3..b - 3];
  }

  /**
   Reads where the first cell starts, whatever the count says: the first cell of any page with the same bytes
   behind the count.
   */
  method FirstCellRead(p: seq<Byte>, w: nat, ghost im: Image, ghost was: seq<Byte>, ghost imWas: Image)
    returns (c: Cell)
    requires Shows(p, im, w) && Shows(was, imWas, w) && imWas.cells != [] && imWas.high == im.high
    requires |p| == |was| >= 3 && p[3..] == was[3..]
    ensures c == imWas.cells[0]
  {
    hide ImageBytes, Body, Head, Shows;
    var off := CellsStart(p, im, w);
    CellPlace(was, imWas, w, 0);
    assert Body(imWas.cells[..0]) == [] by { NoCells(imWas.cells); }
    SameBehind(p, was, off, off + 2);
    var l := Word(p, off);
    SameBehind(p, was, off + 2, off + 2 + l);
    SameBehind(p, was, off + 2 + l, off + 2 + l + w);
    c := Cell(p[off + 2..off + 2 + l], p[off + 2 + l..off + 2 + l + w]);
  }
}
