/** Where every field of the stored formats stands, byte by byte. */
module Formats {
  import opened Options
  import opened Bytes
  import opened Values
  import opened KeyOrder
  import opened BLink
  import NodeBytes
  import opened NodePages
  import Slotted
  import Wal
  import opened RowCodec
  import Coding
  import LsmBlock
  import LsmRead

  /** The digit of weight 256 to the `i`. */
  function ByteOf(n: nat, i: nat): Byte {
    if i == 0 then n % 256 else ByteOf(n / 256, i - 1)
  }

  /** `n` stands at `at` in `width` bytes, the least significant first. */
  ghost predicate Number(p: seq<Byte>, at: nat, width: nat, n: nat) {
    at + width <= |p| && forall i :: 0 <= i < width ==> p[at + i] == ByteOf(n, i)
  }

  ghost predicate Stands(p: seq<Byte>, at: nat, s: seq<Byte>) {
    at + |s| <= |p| && p[at..at + |s|] == s
  }

  lemma {:induction false} Digits(n: nat, width: nat, i: nat)
    requires i < width
    ensures ToLe(n, width)[i] == ByteOf(n, i)
    decreases width
  {
    if i > 0 {
      Digits(n / 256, width - 1, i - 1);
    }
  }

  /** A number written somewhere stands there. */
  lemma Written(p: seq<Byte>, at: nat, width: nat, n: nat)
    requires Stands(p, at, ToLe(n, width))
    ensures Number(p, at, width, n)
  {
    forall i | 0 <= i < width
      ensures p[at + i] == ByteOf(n, i)
    {
      Digits(n, width, i);
      assert p[at + i] == p[at..at + width][i];
    }
  }

  /** A number read somewhere stands there. */
  lemma ReadThere(p: seq<Byte>, at: nat, width: nat)
    requires at + width <= |p|
    ensures Number(p, at, width, FromLe(p[at..at + width]))
  {
    ToFromLe(p[at..at + width]);
    Written(p, at, width, FromLe(p[at..at + width]));
  }

  // ------------------------------------------------------------------ slotted pages

  ghost predicate SlotHolds(p: seq<Byte>, i: nat, off: nat, record: seq<Byte>) {
    Number(p, 6 + 4 * i, 2, |record|) && Stands(p, off, record)
  }

  /** Slot count, and per slot an offset and a length; a slot at offset zero is empty. */
  lemma SlottedFormat(p: seq<Byte>, i: nat)
    requires Slotted.PageOk(p) && i < |Slotted.Records(p)|
    ensures Number(p, 0, 2, |Slotted.Records(p)|)
    ensures Slotted.Records(p)[i].None? <==> p[4 + 4 * i] == 0 && p[5 + 4 * i] == 0
    ensures Slotted.Records(p)[i].Some? ==>
            exists off: nat :: Number(p, 4 + 4 * i, 2, off) && SlotHolds(p, i, off, Slotted.Records(p)[i].value)
  {
    hide Number, ToLe;
    var s := Slotted.SlotAt(p, i);
    assert Slotted.Dir(p)[i] == s;
    ReadThere(p, 0, 2);
    ReadThere(p, 4 + 4 * i, 2);
    ReadThere(p, 6 + 4 * i, 2);
    ZeroWord(p, 4 + 4 * i);
    if Slotted.Records(p)[i].Some? {
      assert SlotHolds(p, i, s.off, Slotted.Records(p)[i].value);
    }
  }

  lemma ZeroWord(p: seq<Byte>, at: nat)
    requires at + 2 <= |p|
    ensures Slotted.Word(p, at) == 0 <==> p[at] == 0 && p[at + 1] == 0
  {
    var s := p[at..at + 2];
    assert s[1..][1..] == [];
    assert FromLe(s) == s[0] + 256 * FromLe(s[1..]) && FromLe(s[1..]) == s[1] + 256 * FromLe(s[1..][1..]);
  }

  // ------------------------------------------------------------------ index nodes

  /** A key's length, its bytes, and the row id behind it. */
  ghost predicate KeyStands(p: seq<Byte>, at: nat, k: Key) {
    && Number(p, at, 2, |k.bytes|) && Stands(p, at + 2, k.bytes)
    && Number(p, at + 2 + |k.bytes|, 4, k.page) && Number(p, at + 6 + |k.bytes|, 2, k.slot)
  }

  /** Type, count, left link or first child, right link, high key; then the entries from `at` on. */
  ghost predicate NodeHead(p: seq<Byte>, kind: Byte, count: nat, first: nat, next: nat, high: Option<Key>, at: nat) {
    && |p| > 0 && p[0] == kind && Number(p, 1, 2, count) && Number(p, 3, 4, first) && Number(p, 7, 4, next)
    && if high.None? || high.value.bytes == [] then Number(p, 11, 2, 0) && at == 13
       else KeyStands(p, 11, high.value) && at == 19 + |high.value.bytes|
  }

  lemma RowIdStands(p: seq<Byte>, at: nat, k: Key)
    requires at + 6 <= |p| && p[at..at + 4] == NodeBytes.RidBytes(k)[..4]
    requires p[at + 4..at + 6] == NodeBytes.RidBytes(k)[4..6]
    ensures Number(p, at, 4, k.page) && Number(p, at + 4, 2, k.slot)
  {
    hide ToLe, Number;
    Written(p, at, 4, k.page);
    Written(p, at + 4, 2, k.slot);
  }

  lemma HeadStands(p: seq<Byte>, node: Node, prev: U32)
    requires PageHolds(p, node, prev)
    ensures var im := ImageOf(node, prev);
            NodeHead(p, im.kind, |im.cells|, im.first, im.next, node.high, NodeBytes.HeadLen(im.high))
  {
    hide ToLe, FromLe, Number, NodeBytes.ImageBytes, NodeBytes.RidBytes;
    var im, w := ImageOf(node, prev), RestLen(node);
    NodeBytes.HeadWords(p, im, w);
    ReadThere(p, 1, 2);
    ReadThere(p, 3, 4);
    ReadThere(p, 7, 4);
    ReadThere(p, 11, 2);
    if im.high.Some? {
      NodeBytes.HighPlace(p, im, w);
      RowIdStands(p, 13 + |im.high.value.bytes|, im.high.value);
    }
  }

  /** Where cell `i` starts. */
  ghost function PlaceOf(im: NodeBytes.Image, i: nat): nat
    requires i <= |im.cells|
  {
    NodeBytes.HeadLen(im.high) + |NodeBytes.Body(im.cells[..i])|
  }

  lemma CellStands(p: seq<Byte>, im: NodeBytes.Image, w: nat, i: nat, k: Key)
    requires NodeBytes.Shows(p, im, w) && i < |im.cells| && w >= 6
    requires im.cells[i].key == k.bytes && im.cells[i].rest[..6] == NodeBytes.RidBytes(k)
    ensures KeyStands(p, PlaceOf(im, i), k) && PlaceOf(im, i + 1) == PlaceOf(im, i) + 2 + |k.bytes| + w
    ensures var at := PlaceOf(im, i) + 8 + |k.bytes|;
            at + w - 6 <= |p| && (w >= 10 ==> p[at..at + 4] == im.cells[i].rest[6..10])
  {
    hide ToLe, FromLe, Number, NodeBytes.ImageBytes, NodeBytes.RidBytes, NodeBytes.Body;
    NodeBytes.CellPlace(p, im, w, i);
    RestSlices(p, im, w, i);
    var at := PlaceOf(im, i);
    ReadThere(p, at, 2);
    assert im.cells[i].rest[..4] == im.cells[i].rest[..6][..4] && im.cells[i].rest[4..6] == im.cells[i].rest[..6][4..6];
    RowIdStands(p, at + 2 + |k.bytes|, k);
  }

  /** A leaf: its head, and its entries one behind the other. */
  lemma LeafFormat(p: seq<Byte>, node: Node, prev: U32) returns (at: seq<nat>)
    requires PageHolds(p, node, prev) && node.Leaf?
    ensures |at| == |node.entries| + 1 && NodeHead(p, 0, |node.entries|, prev, node.next, node.high, at[0])
    ensures forall i :: 0 <= i < |node.entries| ==>
            KeyStands(p, at[i], node.entries[i]) && at[i + 1] == at[i] + 8 + |node.entries[i].bytes|
  {
    hide KeyStands, NodeHead, NodeBytes.Shows, PlaceOf;
    var im := ImageOf(node, prev);
    at := seq(|node.entries| + 1, i requires 0 <= i <= |node.entries| => PlaceOf(im, i));
    HeadStands(p, node, prev);
    FirstPlace(im);
    forall i | 0 <= i < |node.entries|
      ensures KeyStands(p, at[i], node.entries[i]) && at[i + 1] == at[i] + 8 + |node.entries[i].bytes|
    {
      CellStands(p, im, 6, i, node.entries[i]);
    }
  }

  lemma FirstPlace(im: NodeBytes.Image)
    ensures PlaceOf(im, 0) == NodeBytes.HeadLen(im.high)
  {
  }

  /** An internal node: its head, and its separators one behind the other, each with its child. */
  lemma InternalFormat(p: seq<Byte>, node: Node, prev: U32) returns (at: seq<nat>)
    requires PageHolds(p, node, prev) && node.Internal?
    ensures |at| == |node.seps| + 1 && NodeHead(p, 1, |node.seps|, node.first, node.next, node.high, at[0])
    ensures forall i :: 0 <= i < |node.seps| ==>
            SepStands(p, at[i], node.seps[i]) && at[i + 1] == at[i] + 12 + |node.seps[i].key.bytes|
  {
    hide KeyStands, NodeHead, NodeBytes.Shows, PlaceOf, ToLe, Number;
    var im := ImageOf(node, prev);
    at := seq(|node.seps| + 1, i requires 0 <= i <= |node.seps| => PlaceOf(im, i));
    HeadStands(p, node, prev);
    FirstPlace(im);
    forall i | 0 <= i < |node.seps|
      ensures SepStands(p, at[i], node.seps[i]) && at[i + 1] == at[i] + 12 + |node.seps[i].key.bytes|
    {
      var s := node.seps[i];
      CellStands(p, im, 10, i, s.key);
      assert im.cells[i].rest[6..10] == ToLe(s.child, 4);
      Written(p, at[i] + 8 + |s.key.bytes|, 4, s.child);
    }
  }

  ghost predicate SepStands(p: seq<Byte>, at: nat, s: Sep) {
    KeyStands(p, at, s.key) && Number(p, at + 8 + |s.key.bytes|, 4, s.child)
  }

  // ------------------------------------------------------------------ log frames

  /** A number between two pieces. */
  lemma Between(a: seq<Byte>, width: nat, n: nat, c: seq<Byte>)
    ensures Number(a + ToLe(n, width) + c, |a|, width, n)
  {
    hide ToLe;
    Written(a + ToLe(n, width) + c, |a|, width, n);
  }

  /** File, page and slot, then the rest. */
  lemma AddressStands(front: seq<Byte>, file: nat, page: nat, slot: nat, rest: seq<Byte>)
    ensures var b := front + (ToLe(file, 4) + ToLe(page, 4) + ToLe(slot, 2) + rest);
            && Number(b, |front|, 4, file) && Number(b, |front| + 4, 4, page) && Number(b, |front| + 8, 2, slot)
            && b[|front| + 10..] == rest
  {
    hide ToLe, Number;
    var x, y, z := ToLe(file, 4), ToLe(page, 4), ToLe(slot, 2);
    var b := front + (x + y + z + rest);
    assert b == front + x + (y + z + rest);
    Between(front, 4, file, y + z + rest);
    assert b == (front + x) + y + (z + rest);
    Between(front + x, 4, page, z + rest);
    assert b == (front + x + y) + z + rest;
    Between(front + x + y, 2, slot, rest);
  }

  lemma FrontStands(f: Wal.Frame)
    requires Wal.Fits(f)
    ensures var b := Wal.Encode(f);
            && Number(b, 0, 4, |b| - 4) && |b| >= 13 && b[4] == Wal.TypeOf(f.rec) && Number(b, 5, 8, f.trx)
            && b == b[..13] + Wal.Payload(f.rec)
  {
    hide ToLe, Number;
    var b, l := Wal.Encode(f), ToLe(|Wal.Body(f)|, 4);
    assert b == [] + l + Wal.Body(f);
    Between([], 4, |Wal.Body(f)|, Wal.Body(f));
    assert b == (l + [Wal.TypeOf(f.rec)]) + ToLe(f.trx, 8) + Wal.Payload(f.rec);
    Between(l + [Wal.TypeOf(f.rec)], 8, f.trx, Wal.Payload(f.rec));
  }

  /** The length of what follows, the type, the transaction, and the fields of each kind of record. */
  lemma FrameFormat(f: Wal.Frame)
    requires Wal.Fits(f)
    ensures var b := Wal.Encode(f); Number(b, 0, 4, |b| - 4) && |b| >= 13 && Number(b, 5, 8, f.trx)
    ensures f.rec.Insert? ==>
            var b, r := Wal.Encode(f), f.rec;
            && b[4] == 1 && Number(b, 13, 4, r.file) && Number(b, 17, 4, r.rid.page) && Number(b, 21, 2, r.rid.slot)
            && b[23..] == r.image
    ensures f.rec.DeleteMark? ==>
            var b, r := Wal.Encode(f), f.rec;
            && b[4] == 2 && Number(b, 13, 4, r.file) && Number(b, 17, 4, r.rid.page) && Number(b, 21, 2, r.rid.slot)
            && Number(b, 23, 8, r.deleter) && Number(b, 31, 8, r.next) && |b| == 39
    ensures f.rec.Commit? ==> Wal.Encode(f)[4] == 3 && |Wal.Encode(f)| == 13
  {
    hide ToLe, Number, Wal.Encode;
    FrontStands(f);
    var b := Wal.Encode(f);
    match f.rec
    case Commit =>
    case Insert(file, rid, image) => AddressStands(b[..13], file, rid.page, rid.slot, image);
    case DeleteMark(file, rid, deleter, next) =>
      var d, x := ToLe(deleter, 8), ToLe(next, 8);
      AddressStands(b[..13], file, rid.page, rid.slot, d + x);
      assert Wal.Payload(f.rec) == ToLe(file, 4) + ToLe(rid.page, 4) + ToLe(rid.slot, 2) + (d + x);
      assert b[23..] == d + x;
      assert b == b[..23] + d + x;
      Between(b[..23], 8, deleter, x);
      assert b == b[..31] + x + [];
      Between(b[..31], 8, next, []);
  }

  // ------------------------------------------------------------------ stored values

  /** A tag, then the payload: numbers in two's complement, strings behind their length. */
  lemma ValueFormat(v: Value)
    requires Short(v)
    ensures var b := EncodeValue(v);
            match v
            case Null => b == [0]
            case Int(n) => |b| == 9 && b[0] == 1 && Number(b, 1, 8, if n < 0 then 0x1_0000_0000_0000_0000 + n else n)
            case Float(bits) => |b| == 9 && b[0] == 2 && Number(b, 1, 8, bits)
            case Str(text) => b[0] == 3 && Number(b, 1, 2, |text|) && b[3..] == text
            case Bool(x) => b == [4, if x then 1 else 0]
            case Date(d) => |b| == 5 && b[0] == 5 && Number(b, 1, 4, if d < 0 then 0x1_0000_0000 + d else d)
  {
    hide ToLe, Number;
    var b := EncodeValue(v);
    match v
    case Null =>
    case Int(n) => Written(b, 1, 8, Unsigned64(n));
    case Float(bits) => Written(b, 1, 8, bits);
    case Str(text) => Written(b, 1, 2, |text|);
    case Bool(x) =>
    case Date(d) => Written(b, 1, 4, Unsigned32(d));
  }

  // ------------------------------------------------------------------ varints

  /** The seven-bit digit of weight 128 to the `i`. */
  function SevenBits(n: nat, i: nat): nat {
    if i == 0 then n else SevenBits(n / 0x80, i - 1)
  }

  /** The bytes are the number's seven-bit digits, least first, all but the last flagged, and none is superfluous. */
  lemma {:induction false} VarintFormat(v: nat)
    ensures var s := Coding.Varint(v);
            && (forall i :: 0 <= i < |s| - 1 ==> s[i] == 0x80 + SevenBits(v, i) % 0x80)
            && s[|s| - 1] == SevenBits(v, |s| - 1) < 0x80
            && (|s| > 1 ==> s[|s| - 1] > 0)
  {
    if v >= 0x80 {
      VarintFormat(v / 0x80);
      var s, t := Coding.Varint(v), Coding.Varint(v / 0x80);
      forall i | 0 <= i < |s| - 1
        ensures s[i] == 0x80 + SevenBits(v, i) % 0x80
      {
        assert i > 0 ==> s[i] == t[i - 1];
      }
    }
  }

  // ------------------------------------------------------------------ sorted blocks

  /** The restart offsets stand behind the data, their number at the very end. */
  lemma BlockFormat(data: seq<Byte>, restarts: seq<nat>, m: nat)
    requires m < |restarts| && |restarts| < 0x1_0000_0000 && restarts[m] < 0x1_0000_0000
    ensures var b := LsmBlock.Finished(data, restarts);
            && data <= b && Number(b, |data| + 4 * m, 4, restarts[m])
            && Number(b, |b| - 4, 4, |restarts|) && |b| == |data| + 4 * |restarts| + 4
  {
    hide ToLe, Number, LsmBlock.WordBytes;
    var b, w := LsmBlock.Finished(data, restarts), LsmBlock.WordBytes(restarts);
    LsmRead.WordBytesAt(restarts, m);
    assert b[|data| + 4 * m..|data| + 4 * m + 4] == w[4 * m..4 * m + 4];
    Written(b, |data| + 4 * m, 4, restarts[m]);
    Written(b, |b| - 4, 4, |restarts|);
  }
}
