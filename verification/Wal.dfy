/** The write-ahead log: frames, a parser that stops at a torn tail, and the recovery plan. */
module Wal {
  import opened Options
  import opened Bytes

  datatype Rid = Rid(page: U32, slot: U16)

  datatype Record =
    | Insert(file: U32, rid: Rid, image: seq<Byte>)
    | DeleteMark(file: U32, rid: Rid, deleter: U64, next: U64)
    | Commit

  datatype Frame = Frame(trx: U64, rec: Record)

  const REC_INSERT: Byte := 1
  const REC_DELETE_MARK: Byte := 2
  const REC_COMMIT: Byte := 3

  /** Type byte and transaction id. */
  const HEADER_LEN := 9

  // ------------------------------------------------------------------ the frame codec

  function TypeOf(rec: Record): Byte {
    match rec
    case Insert(_, _, _) => REC_INSERT
    case DeleteMark(_, _, _, _) => REC_DELETE_MARK
    case Commit => REC_COMMIT
  }

  function Payload(rec: Record): seq<Byte> {
    match rec
    case Insert(file, rid, image) => ToLe(file, 4) + ToLe(rid.page, 4) + ToLe(rid.slot, 2) + image
    case DeleteMark(file, rid, deleter, next) =>
      ToLe(file, 4) + ToLe(rid.page, 4) + ToLe(rid.slot, 2) + ToLe(deleter, 8) + ToLe(next, 8)
    case Commit => []
  }

  function Body(f: Frame): seq<Byte> {
    [TypeOf(f.rec)] + ToLe(f.trx, 8) + Payload(f.rec)
  }

  /** The length field counts the body, modulo its 32 bits. */
  function Encode(f: Frame): seq<Byte> {
    ToLe(|Body(f)| % 0x1_0000_0000, 4) + Body(f)
  }

  /** The body's length fits its field; a row never exceeds a page, far below this. */
  predicate Fits(f: Frame) {
    |Body(f)| < 0x1_0000_0000
  }

  function DecodePayload(ty: Byte, payload: seq<Byte>): Option<Record> {
    if ty == REC_INSERT then
      if |payload| < 10 then None
      else Some(Insert(Get32(payload[0..4]), Rid(Get32(payload[4..8]), Get16(payload[8..10])), payload[10..]))
    else if ty == REC_DELETE_MARK then
      if |payload| < 26 then None
      else Some(DeleteMark(Get32(payload[0..4]), Rid(Get32(payload[4..8]), Get16(payload[8..10])),
                           Get64(payload[10..18]), Get64(payload[18..26])))
    else if ty == REC_COMMIT then Some(Commit)
    else None
  }

  /** The first frame of a log image and its length, or nothing at the end, a torn tail or an unknown type. */
  function Decode(bytes: seq<Byte>): (r: Option<(Frame, nat)>)
    ensures r.Some? ==> 0 < r.value.1 <= |bytes|
  {
    if |bytes| < 4 then None else
      var len := Get32(bytes[0..4]);
      if len < HEADER_LEN || |bytes| < 4 + len then None else
        var rec := DecodePayload(bytes[4], bytes[13..4 + len]);
        if rec.None? then None else Some((Frame(Get64(bytes[5..13]), rec.value), 4 + len))
  }

  lemma PayloadRoundTrip(rec: Record)
    ensures DecodePayload(TypeOf(rec), Payload(rec)) == Some(rec)
  {
    match rec
    case Insert(file, rid, image) =>
      var p := Payload(rec);
      WordRoundTrip32(file);
      WordRoundTrip32(rid.page);
      WordRoundTrip16(rid.slot);
      assert p[0..4] == ToLe(file, 4) && p[4..8] == ToLe(rid.page, 4) && p[8..10] == ToLe(rid.slot, 2) &&
             p[10..] == image;
    case DeleteMark(file, rid, deleter, next) =>
      var p := Payload(rec);
      WordRoundTrip32(file);
      WordRoundTrip32(rid.page);
      WordRoundTrip16(rid.slot);
      WordRoundTrip64(deleter);
      WordRoundTrip64(next);
      assert p[0..4] == ToLe(file, 4) && p[4..8] == ToLe(rid.page, 4) && p[8..10] == ToLe(rid.slot, 2);
      assert p[10..18] == ToLe(deleter, 8) && p[18..26] == ToLe(next, 8);
    case Commit =>
  }

  /** A whole frame is read back, whatever follows it. */
  lemma FrameRoundTrip(f: Frame, rest: seq<Byte>)
    requires Fits(f)
    ensures Decode(Encode(f) + rest) == Some((f, |Encode(f)|))
  {
    var body, bytes := Body(f), Encode(f) + rest;
    var len := |body|;
    WordRoundTrip32(len);
    WordRoundTrip64(f.trx);
    assert bytes[0..4] == ToLe(len, 4);
    assert bytes[4..4 + len] == body;
    assert bytes[4] == body[0] == TypeOf(f.rec);
    assert bytes[5..13] == body[1..9] == ToLe(f.trx, 8);
    assert bytes[13..4 + len] == body[9..] == Payload(f.rec);
    PayloadRoundTrip(f.rec);
  }

  /** A frame cut short is not read at all. */
  lemma TornFrame(f: Frame, n: nat)
    requires Fits(f) && n < |Encode(f)|
    ensures Decode(Encode(f)[..n]) == None
  {
    if n >= 4 {
      WordRoundTrip32(|Body(f)|);
      assert Encode(f)[..n][0..4] == ToLe(|Body(f)|, 4);
    }
  }

  /** Appends a frame: zeros for the length first, patched once the body is written. */
  method EncodeInto(out: seq<Byte>, f: Frame) returns (r: seq<Byte>)
    ensures r == out + Encode(f)
  {
    hide ToLe;
    var start := |out|;
    r := out + [0, 0, 0, 0];
    r := AppendBody(r, f);
    var len := |r| - start - 4;
    r := r[..start] + ToLe(len % 0x1_0000_0000, 4) + r[start + 4..];
  }

  method AppendBody(out: seq<Byte>, f: Frame) returns (r: seq<Byte>)
    ensures r == out + Body(f)
  {
    hide ToLe;
    match f.rec {
      case Insert(file, rid, image) =>
        r := out + [REC_INSERT] + ToLe(f.trx, 8);
        r := r + ToLe(file, 4) + ToLe(rid.page, 4) + ToLe(rid.slot, 2) + image;
      case DeleteMark(file, rid, deleter, next) =>
        r := out + [REC_DELETE_MARK] + ToLe(f.trx, 8);
        r := r + ToLe(file, 4) + ToLe(rid.page, 4) + ToLe(rid.slot, 2) + ToLe(deleter, 8) + ToLe(next, 8);
      case Commit =>
        r := out + [REC_COMMIT] + ToLe(f.trx, 8);
    }
  }

  // ------------------------------------------------------------------ whole logs

  function EncodeAll(frames: seq<Frame>): seq<Byte> {
    if frames == [] then [] else Encode(frames[0]) + EncodeAll(frames[1..])
  }

  /** The frames a scan finds before it stops. */
  function Parse(bytes: seq<Byte>): seq<Frame>
    decreases |bytes|
  {
    var d := Decode(bytes);
    if d.None? then [] else [d.value.0] + Parse(bytes[d.value.1..])
  }

  ghost predicate AllFit(frames: seq<Frame>) {
    forall i :: 0 <= i < |frames| ==> Fits(frames[i])
  }

  /** How many frames lie wholly within the first `n` bytes. */
  function Whole(frames: seq<Frame>, n: nat): (k: nat)
    ensures k <= |frames|
  {
    if frames == [] || n < |Encode(frames[0])| then 0 else 1 + Whole(frames[1..], n - |Encode(frames[0])|)
  }

  lemma EmptyLog()
    ensures Decode([]) == None
  {
  }

  /** A log cut at any byte yields exactly the frames that survived whole. */
  lemma {:induction false} TornTail(frames: seq<Frame>, n: nat)
    requires AllFit(frames) && n <= |EncodeAll(frames)|
    ensures Parse(EncodeAll(frames)[..n]) == frames[..Whole(frames, n)]
    decreases |frames|
  {
    EmptyLog();
    hide Encode, Decode, Fits;
    var bytes := EncodeAll(frames)[..n];
    if frames == [] {
      assert bytes == [];
    } else if n < |Encode(frames[0])| {
      assert bytes == Encode(frames[0])[..n];
      TornFrame(frames[0], n);
    } else {
      var first, rest := Encode(frames[0]), EncodeAll(frames[1..]);
      var m := n - |first|;
      assert bytes == first + rest[..m];
      FrameRoundTrip(frames[0], rest[..m]);
      assert bytes[|first|..] == rest[..m];
      TornTail(frames[1..], m);
      assert frames[..Whole(frames, n)] == [frames[0]] + frames[1..][..Whole(frames[1..], m)];
    }
  }

  /** `Whole` is the number of frames that end within `n` bytes. */
  lemma {:induction false} WholeIsExact(frames: seq<Frame>, n: nat)
    ensures var k := Whole(frames, n);
            |EncodeAll(frames[..k])| <= n && (k < |frames| ==> n < |EncodeAll(frames[..k + 1])|)
    decreases |frames|
  {
    if frames != [] {
      var k := Whole(frames, n);
      assert frames[..1][1..] == [] && frames[..1][0] == frames[0];
      assert |EncodeAll(frames[..1])| == |Encode(frames[0])| + |EncodeAll(frames[..1][1..])|;
      if n >= |Encode(frames[0])| {
        WholeIsExact(frames[1..], n - |Encode(frames[0])|);
        assert frames[..k][1..] == frames[1..][..k - 1];
        if k < |frames| {
          assert frames[..k + 1][1..] == frames[1..][..k];
        }
      }
    }
  }
}
