/** Replaying a recovery plan into the heap. */
module WalReplay {
  import opened Options
  import opened Bytes
  import opened Wal
  import opened WalPlan

  /** A slot of a heap file. */
  datatype Place = Place(file: U32, rid: Rid)

  type Store = map<Place, seq<Byte>>

  /** Creator, deleter and forward pointer, eight bytes each, precede the row. */
  const RECORD_HEADER := 24

  function Deleter(image: seq<Byte>): U64
    requires |image| >= RECORD_HEADER
  {
    Get64(image[8..16])
  }

  function SetMark(image: seq<Byte>, deleter: U64, next: U64): seq<Byte>
    requires |image| >= RECORD_HEADER
  {
    image[..8] + ToLe(deleter, 8) + ToLe(next, 8) + image[24..]
  }

  lemma MarkIsRead(image: seq<Byte>, deleter: U64, next: U64)
    requires |image| >= RECORD_HEADER
    ensures |SetMark(image, deleter, next)| == |image| && Deleter(SetMark(image, deleter, next)) == deleter
  {
    WordRoundTrip64(deleter);
    assert SetMark(image, deleter, next)[8..16] == ToLe(deleter, 8);
  }

  /** A mark writes deleter and forward pointer into bytes 8 to 24; creator and row stay. */
  lemma MarkedImage(image: seq<Byte>, deleter: U64, next: U64)
    requires |image| >= RECORD_HEADER
    ensures var m := SetMark(image, deleter, next);
            && |m| == |image| && m[..8] == image[..8] && m[24..] == image[24..]
            && Get64(m[8..16]) == deleter && Get64(m[16..24]) == next
  {
    WordRoundTrip64(deleter);
    WordRoundTrip64(next);
    var m := SetMark(image, deleter, next);
    assert m[8..16] == ToLe(deleter, 8) && m[16..24] == ToLe(next, 8);
  }

  // ------------------------------------------------------------------ one slot

  predicate Unmarked(image: seq<Byte>) {
    |image| >= RECORD_HEADER && Deleter(image) == 0
  }

  /** An insert fills an empty slot only; a mark needs a record that bears none. */
  function Apply(cell: Option<seq<Byte>>, rec: Record): Option<seq<Byte>> {
    match rec
    case Insert(_, _, image) => if cell.None? then Some(image) else cell
    case DeleteMark(_, _, deleter, next) =>
      if cell.Some? && Unmarked(cell.value) then Some(SetMark(cell.value, deleter, next)) else cell
    case Commit => cell
  }

  function ApplyAll(cell: Option<seq<Byte>>, recs: seq<Record>): Option<seq<Byte>>
    decreases |recs|
  {
    if recs == [] then cell else ApplyAll(Apply(cell, recs[0]), recs[1..])
  }

  ghost predicate HasMark(recs: seq<Record>) {
    exists i :: 0 <= i < |recs| && recs[i].DeleteMark?
  }

  /** Transaction ids start at one. */
  ghost predicate RealMarks(recs: seq<Record>) {
    forall i :: 0 <= i < |recs| && recs[i].DeleteMark? ==> recs[i].deleter != 0
  }

  /** Whether a record in the slot changes again, whatever the list says about inserts. */
  lemma {:induction false} Occupied(image: seq<Byte>, recs: seq<Record>)
    requires RealMarks(recs)
    ensures ApplyAll(Some(image), recs).Some?
    ensures !Unmarked(image) || !HasMark(recs) ==> ApplyAll(Some(image), recs) == Some(image)
    ensures HasMark(recs) ==> !Unmarked(ApplyAll(Some(image), recs).value)
    decreases |recs|
  {
    if recs != [] {
      var rest := recs[1..];
      if HasMark(rest) {
        var i :| 0 <= i < |rest| && rest[i].DeleteMark?;
        assert recs[i + 1].DeleteMark?;
      }
      if HasMark(recs) && !recs[0].DeleteMark? {
        var i :| 0 <= i < |recs| && recs[i].DeleteMark?;
        assert rest[i - 1].DeleteMark?;
      }
      if recs[0].DeleteMark? && Unmarked(image) {
        MarkIsRead(image, recs[0].deleter, recs[0].next);
        Occupied(SetMark(image, recs[0].deleter, recs[0].next), rest);
      } else {
        Occupied(image, rest);
      }
    }
  }

  /** Position of the first insert. */
  ghost function FirstInsert(recs: seq<Record>): (k: nat)
    ensures k <= |recs| && (k < |recs| ==> recs[k].Insert?) && forall i :: 0 <= i < k ==> !recs[i].Insert?
  {
    if recs == [] || recs[0].Insert? then 0 else 1 + FirstInsert(recs[1..])
  }

  /** An empty slot stays empty up to the first insert. */
  lemma {:induction false} EmptySlot(recs: seq<Record>)
    ensures var k := FirstInsert(recs);
            ApplyAll(None, recs) == if k == |recs| then None else ApplyAll(Some(recs[k].image), recs[k + 1..])
    decreases |recs|
  {
    if recs != [] && !recs[0].Insert? {
      EmptySlot(recs[1..]);
      var k := FirstInsert(recs[1..]);
      assert k < |recs[1..]| ==> recs[1..][k + 1..] == recs[k + 2..];
    }
  }

  /** A mark comes before the slot's first insert, and the inserted image is left without one. */
  ghost predicate Exposed(recs: seq<Record>) {
    var k := FirstInsert(recs);
    k < |recs| && HasMark(recs[..k]) && Unmarked(recs[k].image) && !HasMark(recs[k + 1..])
  }

  lemma MarkSomewhere(recs: seq<Record>, k: nat)
    requires k < |recs| && recs[k].Insert?
    ensures HasMark(recs) <==> HasMark(recs[..k]) || HasMark(recs[k + 1..])
  {
    if HasMark(recs[..k]) {
      var i :| 0 <= i < k && recs[..k][i].DeleteMark?;
      assert recs[i].DeleteMark?;
    }
    if HasMark(recs[k + 1..]) {
      var i :| 0 <= i < |recs| - k - 1 && recs[k + 1..][i].DeleteMark?;
      assert recs[k + 1 + i].DeleteMark?;
    }
    if HasMark(recs) {
      var i :| 0 <= i < |recs| && recs[i].DeleteMark?;
      if i < k {
        assert recs[..k][i].DeleteMark?;
      } else {
        assert recs[k + 1..][i - k - 1].DeleteMark?;
      }
    }
  }

  lemma OccupiedTwice(image: seq<Byte>, recs: seq<Record>)
    requires RealMarks(recs)
    ensures ApplyAll(ApplyAll(Some(image), recs), recs) == ApplyAll(Some(image), recs)
  {
    hide Unmarked;
    Occupied(image, recs);
    Occupied(ApplyAll(Some(image), recs).value, recs);
  }

  /** From an empty slot, a second replay changes nothing unless the slot is exposed. */
  lemma EmptyTwice(recs: seq<Record>)
    requires RealMarks(recs)
    ensures ApplyAll(ApplyAll(None, recs), recs) == ApplyAll(None, recs) <==> !Exposed(recs)
  {
    hide Unmarked;
    EmptySlot(recs);
    var k := FirstInsert(recs);
    if k < |recs| {
      var image := recs[k].image;
      Occupied(image, recs[k + 1..]);
      MarkSomewhere(recs, k);
      var once := ApplyAll(None, recs);
      Occupied(once.value, recs);
    }
  }

  // ------------------------------------------------------------------ the whole heap

  predicate Concerns(rec: Record, at: Place) {
    !rec.Commit? && at == Place(rec.file, rec.rid)
  }

  function Cell(store: Store, at: Place): Option<seq<Byte>> {
    if at in store then Some(store[at]) else None
  }

  /** Records of tables that no longer exist are skipped. */
  function Redone(store: Store, files: set<U32>, rec: Record): Store {
    if rec.Commit? || rec.file !in files then store else
      var at := Place(rec.file, rec.rid);
      var cell := Apply(Cell(store, at), rec);
      if cell.Some? then store[at := cell.value] else store
  }

  function Replayed(store: Store, files: set<U32>, recs: seq<Record>): Store
    decreases |recs|
  {
    if recs == [] then store else Replayed(Redone(store, files, recs[0]), files, recs[1..])
  }

  /** The records about one slot. */
  ghost function About(recs: seq<Record>, at: Place): seq<Record> {
    if recs == [] then [] else (if Concerns(recs[0], at) then [recs[0]] else []) + About(recs[1..], at)
  }

  /** Replay acts on every slot by itself. */
  lemma {:induction false} SlotBySlot(store: Store, files: set<U32>, recs: seq<Record>, at: Place)
    ensures Cell(Replayed(store, files, recs), at) ==
            if at.file in files then ApplyAll(Cell(store, at), About(recs, at)) else Cell(store, at)
    decreases |recs|
  {
    if recs != [] {
      var one := Redone(store, files, recs[0]);
      SlotBySlot(one, files, recs[1..], at);
      if Concerns(recs[0], at) && at.file in files {
        assert Cell(one, at) == Apply(Cell(store, at), recs[0]);
        assert About(recs, at)[1..] == About(recs[1..], at);
      } else {
        assert Cell(one, at) == Cell(store, at);
        assert !Concerns(recs[0], at) ==> About(recs, at) == About(recs[1..], at);
      }
    }
  }

  lemma {:induction false} AboutRealMarks(recs: seq<Record>, at: Place)
    requires RealMarks(recs)
    ensures RealMarks(About(recs, at))
  {
    if recs != [] {
      AboutRealMarks(recs[1..], at);
    }
  }

  ghost predicate NoneExposed(files: set<U32>, recs: seq<Record>) {
    forall at: Place :: at.file in files ==> !Exposed(About(recs, at))
  }

  /**
   Replaying twice equals replaying once on every heap exactly when no slot is marked before it is filled and
   then left unmarked.
   */
  lemma ReplayTwice(files: set<U32>, recs: seq<Record>)
    requires RealMarks(recs)
    ensures (forall store: Store :: Replayed(Replayed(store, files, recs), files, recs) == Replayed(store, files, recs))
              <==> NoneExposed(files, recs)
  {
    if NoneExposed(files, recs) {
      forall store: Store
        ensures Replayed(Replayed(store, files, recs), files, recs) == Replayed(store, files, recs)
      {
        TwiceIsOnce(store, files, recs);
      }
    } else {
      var at: Place :| at.file in files && Exposed(About(recs, at));
      SlotBySlot(map[], files, recs, at);
      SlotBySlot(Replayed(map[], files, recs), files, recs, at);
      AboutRealMarks(recs, at);
      EmptyTwice(About(recs, at));
      assert Cell(Replayed(Replayed(map[], files, recs), files, recs), at) != Cell(Replayed(map[], files, recs), at);
    }
  }

  lemma TwiceIsOnce(store: Store, files: set<U32>, recs: seq<Record>)
    requires RealMarks(recs) && NoneExposed(files, recs)
    ensures Replayed(Replayed(store, files, recs), files, recs) == Replayed(store, files, recs)
  {
    var once := Replayed(store, files, recs);
    var twice := Replayed(once, files, recs);
    forall at: Place
      ensures Cell(twice, at) == Cell(once, at)
    {
      SlotBySlot(store, files, recs, at);
      SlotBySlot(once, files, recs, at);
      AboutRealMarks(recs, at);
      if at.file in files {
        if at in store {
          OccupiedTwice(store[at], About(recs, at));
        } else {
          EmptyTwice(About(recs, at));
        }
      }
    }
    hide Replayed;
    SameCells(once, twice);
  }

  lemma SameCells(a: Store, b: Store)
    requires forall at: Place :: Cell(b, at) == Cell(a, at)
    ensures b == a
  {
    forall at: Place
      ensures (at in a <==> at in b) && (at in a ==> a[at] == b[at])
    {
      assert Cell(b, at) == Cell(a, at);
    }
  }

  /** A log in which every version is inserted before it is marked replays idempotently. */
  ghost predicate InsertedFirst(recs: seq<Record>) {
    forall i, j ::
      0 <= i < j < |recs| && recs[i].DeleteMark? && recs[j].Insert? &&
      Concerns(recs[j], Place(recs[i].file, recs[i].rid)) ==>
        exists h :: 0 <= h < i && recs[h].Insert? && Concerns(recs[h], Place(recs[i].file, recs[i].rid))
  }

  /** Where in the log the slot's `i`-th record stands. */
  ghost function Pos(recs: seq<Record>, at: Place, i: nat): (j: nat)
    requires i < |About(recs, at)|
    ensures j < |recs| && recs[j] == About(recs, at)[i] && Concerns(recs[j], at)
  {
    if !Concerns(recs[0], at) then 1 + Pos(recs[1..], at, i)
    else if i == 0 then 0
    else 1 + Pos(recs[1..], at, i - 1)
  }

  lemma {:induction false} PosAscends(recs: seq<Record>, at: Place, i: nat, g: nat)
    requires i < g < |About(recs, at)|
    ensures Pos(recs, at, i) < Pos(recs, at, g)
    decreases |recs|
  {
    if !Concerns(recs[0], at) {
      PosAscends(recs[1..], at, i, g);
    } else if i > 0 {
      PosAscends(recs[1..], at, i - 1, g - 1);
    }
  }

  lemma {:induction false} PosCovers(recs: seq<Record>, at: Place, h: nat) returns (g: nat)
    requires h < |recs| && Concerns(recs[h], at)
    ensures g < |About(recs, at)| && Pos(recs, at, g) == h
    decreases |recs|
  {
    if h == 0 {
      g := 0;
    } else {
      var g' := PosCovers(recs[1..], at, h - 1);
      g := if Concerns(recs[0], at) then g' + 1 else g';
    }
  }

  lemma InsertedFirstIsSafe(files: set<U32>, recs: seq<Record>)
    requires InsertedFirst(recs)
    ensures NoneExposed(files, recs)
  {
    forall at: Place | at.file in files
      ensures !Exposed(About(recs, at))
    {
      var slot := About(recs, at);
      var k := FirstInsert(slot);
      if k < |slot| && HasMark(slot[..k]) {
        var i :| 0 <= i < |slot[..k]| && slot[..k][i].DeleteMark?;
        PosAscends(recs, at, i, k);
        var a, b := Pos(recs, at, i), Pos(recs, at, k);
        var h :| 0 <= h < a && recs[h].Insert? && Concerns(recs[h], Place(recs[a].file, recs[a].rid));
        var g := PosCovers(recs, at, h);
        if g >= i && g != i {
          PosAscends(recs, at, i, g);
        }
        assert false;
      }
    }
  }

  // ------------------------------------------------------------------ recovery

  /** All records of a plan in replay order. */
  function InOrder(committed: seq<Redo>): seq<Record> {
    if committed == [] then [] else InOrder(committed[..|committed| - 1]) + committed[|committed| - 1].records
  }

  lemma {:induction false} ReplayedAppend(store: Store, files: set<U32>, a: seq<Record>, b: seq<Record>)
    ensures Replayed(store, files, a + b) == Replayed(Replayed(store, files, a), files, b)
    decreases |a|
  {
    if a == [] {
      assert a + b == b;
    } else {
      assert (a + b)[0] == a[0] && (a + b)[1..] == a[1..] + b;
      ReplayedAppend(Redone(store, files, a[0]), files, a[1..], b);
    }
  }

  lemma ReplayedOne(store: Store, files: set<U32>, a: seq<Record>, rec: Record)
    ensures Replayed(store, files, a + [rec]) == Redone(Replayed(store, files, a), files, rec)
  {
    ReplayedAppend(store, files, a, [rec]);
    assert Replayed(Replayed(store, files, a), files, [rec]) ==
           Replayed(Redone(Replayed(store, files, a), files, rec), files, []);
  }

  class Heap {
    var cells: Store

    /** The heap files the catalog still knows. */
    const files: set<U32>

    constructor (cells: Store, files: set<U32>)
      ensures this.cells == cells && this.files == files
    {
      this.cells, this.files := cells, files;
    }

    method Redo(rec: Record)
      modifies this
      ensures cells == Redone(old(cells), files, rec)
    {
      match rec
      case Insert(file, rid, image) =>
        if file in files && Place(file, rid) !in cells {
          cells := cells[Place(file, rid) := image];
        } else {
          assert file in files ==> cells == cells[Place(file, rid) := cells[Place(file, rid)]];
        }
      case DeleteMark(file, rid, deleter, next) =>
        var at := Place(file, rid);
        if file in files && at in cells {
          var image := cells[at];
          if |image| >= RECORD_HEADER && Deleter(image) == 0 {
            cells := cells[at := SetMark(image, deleter, next)];
          } else {
            assert cells == cells[at := cells[at]];
          }
        }
      case Commit =>
    }

    /** Replays the plan and names the tables whose indexes must be rebuilt. */
    method RecoverFromWal(plan: Plan) returns (touched: set<U32>)
      modifies this
      ensures cells == Replayed(old(cells), files, InOrder(plan.committed))
      ensures forall f: U32 :: f in touched <==> f in files && Touches(InOrder(plan.committed), f)
    {
      touched := {};
      ghost var done: seq<Record> := [];
      for n := 0 to |plan.committed|
        invariant done == InOrder(plan.committed[..n])
        invariant cells == Replayed(old(cells), files, done)
        invariant forall f: U32 :: f in touched <==> f in files && Touches(done, f)
      {
        var records := plan.committed[n].records;
        ghost var upto := plan.committed[..n + 1];
        assert upto[..n] == plan.committed[..n] && InOrder(upto) == InOrder(upto[..n]) + records;
        ghost var before := done;
        for j := 0 to |records|
          invariant done == before + records[..j]
          invariant cells == Replayed(old(cells), files, done)
          invariant forall f: U32 :: f in touched <==> f in files && Touches(done, f)
        {
          var rec := records[j];
          ReplayedOne(old(cells), files, done, rec);
          Redo(rec);
          TouchedOne(done, rec);
          if !rec.Commit? && rec.file in files {
            touched := touched + {rec.file};
          }
          done := done + [rec];
          assert before + records[..j + 1] == before + records[..j] + [rec];
        }
        assert records[..|records|] == records;
      }
      assert plan.committed[..|plan.committed|] == plan.committed;
    }
  }

  predicate Names(rec: Record, f: U32) {
    !rec.Commit? && rec.file == f
  }

  ghost predicate Touches(recs: seq<Record>, f: U32) {
    exists i :: 0 <= i < |recs| && Names(recs[i], f)
  }

  lemma TouchedOne(done: seq<Record>, rec: Record)
    ensures forall f: U32 :: Touches(done + [rec], f) <==> Touches(done, f) || Names(rec, f)
  {
    var all := done + [rec];
    assert all[|done|] == rec && forall i :: 0 <= i < |done| ==> all[i] == done[i];
    forall f: U32
      ensures Touches(all, f) <==> Touches(done, f) || Names(rec, f)
    {
      if Touches(done, f) {
        var i :| 0 <= i < |done| && Names(done[i], f);
        assert Names(all[i], f);
      }
    }
  }
}
