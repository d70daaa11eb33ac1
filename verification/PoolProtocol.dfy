/**
 The buffer pool under concurrent threads, one action per section of the state lock or of a page latch. A miss
 enters the new frame in the page table in one section and pins it in another, so a frame can be evicted before
 the thread that loaded it has pinned it.
 */
module PoolProtocol {
  import opened Options
  import opened Bytes
  import opened Replacer

  type Disk = map<PageId, seq<Byte>>
  type FrameNo = nat
  type Tid = nat

  /** A frame and the threads that hold a pin on it; `latch` is the thread inside its latch. */
  datatype Cached = Cached(key: PageId, data: seq<Byte>, dirty: bool, pins: set<Tid>, latch: Option<Tid>)

  /** How far a thread is with a page. `Loaded` frames are in the page table but not pinned yet. */
  datatype Pc =
    | Idle
    | Loaded(f: FrameNo)
    | Held(f: FrameNo)
    | Latched(f: FrameNo)
    | Changed(f: FrameNo)
    | Finished(f: FrameNo)
    | Unlatched(f: FrameNo)
    | Flushing(fs: set<FrameNo>)

  /** `pages` is what callers wrote last, page by page. */
  datatype World = World(disk: Disk, table: map<PageId, FrameNo>, frames: map<FrameNo, Cached>, threads: map<Tid, Pc>,
                         pages: Disk, capacity: nat)

  datatype Action =
    | Hit(t: Tid, key: PageId)
    | Miss(t: Tid, key: PageId, n: FrameNo, victim: Option<PageId>)
    | Pin(t: Tid)
    | Latch(t: Tid)
    | Read(t: Tid)
    | Change(t: Tid, data: seq<Byte>)
    | Mark(t: Tid)
    | Unlatch(t: Tid)
    | Unpin(t: Tid)
    | FlushStart(t: Tid)
    | FlushOne(t: Tid, f: FrameNo)
    | FlushEnd(t: Tid)
    | Alloc(key: PageId, zeros: seq<Byte>)

  // ------------------------------------------------------------------ steps

  function PcOf(w: World, t: Tid): Pc {
    if t in w.threads then w.threads[t] else Idle
  }

  /** Frames the thread has pinned. */
  function PinnedBy(pc: Pc): set<FrameNo> {
    match pc
    case Idle => {}
    case Loaded(_) => {}
    case Held(f) => {f}
    case Latched(f) => {f}
    case Changed(f) => {f}
    case Finished(f) => {f}
    case Unlatched(f) => {f}
    case Flushing(fs) => fs
  }

  predicate Inside(pc: Pc, f: FrameNo) {
    pc == Latched(f) || pc == Changed(f) || pc == Finished(f)
  }

  /** The frame that stands for its page. */
  predicate Resident(w: World, f: FrameNo) {
    f in w.frames && w.frames[f].key in w.table && w.table[w.frames[f].key] == f
  }

  /** What a caller sees who looks a page up now. */
  function View(w: World, key: PageId): Option<seq<Byte>> {
    if key in w.table && w.table[key] in w.frames then Some(w.frames[w.table[key]].data)
    else if key in w.disk then Some(w.disk[key]) else None
  }

  predicate Evictable(w: World, key: PageId) {
    key in w.table && w.table[key] in w.frames && w.frames[w.table[key]].pins == {}
  }

  /** The page leaves the table, written back if it was dirty. */
  function Evicted(w: World, key: PageId): World
    requires Evictable(w, key)
  {
    var f := w.frames[w.table[key]];
    w.(table := w.table - {key}, disk := if f.dirty then w.disk[key := f.data] else w.disk,
       frames := w.frames[w.table[key] := f.(dirty := false)])
  }

  predicate Enabled(w: World, a: Action) {
    match a
    case Hit(t, key) => PcOf(w, t).Idle? && key in w.table && w.table[key] in w.frames
    case Miss(t, key, n, victim) =>
      && PcOf(w, t).Idle? && key !in w.table && n !in w.frames && key in w.disk
      && (if |w.table| >= w.capacity then victim.Some? && Evictable(w, victim.value) else victim.None?)
    case Pin(t) => PcOf(w, t).Loaded? && PcOf(w, t).f in w.frames
    case Latch(t) => PcOf(w, t).Held? && PcOf(w, t).f in w.frames && w.frames[PcOf(w, t).f].latch.None?
    case Read(t) => PcOf(w, t).Latched? && PcOf(w, t).f in w.frames
    case Change(t, _) => PcOf(w, t).Latched? && PcOf(w, t).f in w.frames
    case Mark(t) => PcOf(w, t).Changed? && PcOf(w, t).f in w.frames
    case Unlatch(t) => PcOf(w, t).Finished? && PcOf(w, t).f in w.frames
    case Unpin(t) => PcOf(w, t).Unlatched? && PcOf(w, t).f in w.frames
    case FlushStart(t) => PcOf(w, t).Idle?
    case FlushOne(t, f) => PcOf(w, t).Flushing? && f in PcOf(w, t).fs && f in w.frames && w.frames[f].latch.None?
    case FlushEnd(t) => PcOf(w, t).Flushing?
    case Alloc(key, _) => key !in w.disk
  }

  function Goto(w: World, t: Tid, pc: Pc): World {
    w.(threads := w.threads[t := pc])
  }

  function Set(w: World, f: FrameNo, c: Cached): World {
    w.(frames := w.frames[f := c])
  }

  ghost function DirtyFrames(w: World): set<FrameNo> {
    set key | key in w.table && w.table[key] in w.frames && w.frames[w.table[key]].dirty :: w.table[key]
  }

  ghost function Next(w: World, a: Action): World
    requires Enabled(w, a)
  {
    match a
    case Hit(t, key) =>
      var f := w.table[key];
      Goto(Set(w, f, w.frames[f].(pins := w.frames[f].pins + {t})), t, Held(f))
    case Miss(t, key, n, victim) =>
      var w' := if victim.Some? && Evictable(w, victim.value) then Evicted(w, victim.value) else w;
      var data := if key in w'.disk then w'.disk[key] else [];
      Goto(Set(w', n, Cached(key, data, false, {}, None)).(table := w'.table[key := n]), t, Loaded(n))
    case Pin(t) =>
      var f := PcOf(w, t).f;
      Goto(Set(w, f, w.frames[f].(pins := w.frames[f].pins + {t})), t, Held(f))
    case Latch(t) =>
      var f := PcOf(w, t).f;
      Goto(Set(w, f, w.frames[f].(latch := Some(t))), t, Latched(f))
    case Read(t) => Goto(w, t, Finished(PcOf(w, t).f))
    case Change(t, data) =>
      var f := PcOf(w, t).f;
      Goto(Set(w, f, w.frames[f].(data := data)), t, Changed(f)).(pages := w.pages[w.frames[f].key := data])
    case Mark(t) =>
      var f := PcOf(w, t).f;
      Goto(Set(w, f, w.frames[f].(dirty := true)), t, Finished(f))
    case Unlatch(t) =>
      var f := PcOf(w, t).f;
      Goto(Set(w, f, w.frames[f].(latch := None)), t, Unlatched(f))
    case Unpin(t) =>
      var f := PcOf(w, t).f;
      Goto(Set(w, f, w.frames[f].(pins := w.frames[f].pins - {t})), t, Idle)
    case FlushStart(t) =>
      var fs := DirtyFrames(w);
      Goto(w, t, Flushing(fs)).(frames := Repinned(w.frames, fs, t, true))
    case FlushOne(t, f) => Set(w, f, w.frames[f].(dirty := false)).(disk := w.disk[w.frames[f].key := w.frames[f].data])
    case FlushEnd(t) => Goto(w, t, Idle).(frames := Repinned(w.frames, PcOf(w, t).fs, t, false))
    case Alloc(key, zeros) => w.(disk := w.disk[key := zeros], pages := w.pages[key := zeros])
  }

  function Repinned(frames: map<FrameNo, Cached>, fs: set<FrameNo>, t: Tid, add: bool): map<FrameNo, Cached> {
    map f | f in frames ::
      if f !in fs then frames[f]
      else frames[f].(pins := if add then frames[f].pins + {t} else frames[f].pins - {t})
  }

  ghost predicate Steps(w: World, acts: seq<Action>, w': World)
    decreases |acts|
  {
    if acts == [] then w == w'
    else Enabled(w, acts[0]) && Steps(Next(w, acts[0]), acts[1..], w')
  }

  // ------------------------------------------------------------------ what holds while no pin comes too late

  ghost predicate FrameOk(w: World, f: FrameNo)
    requires f in w.frames
  {
    var c := w.frames[f];
    && (forall t: Tid :: t in c.pins <==> f in PinnedBy(PcOf(w, t)))
    && (forall t: Tid :: c.latch == Some(t) <==> Inside(PcOf(w, t), f))
    && (c.pins != {} ==> Resident(w, f))
    && (Resident(w, f) ==>
          && c.key in w.disk && c.key in w.pages && c.data == w.pages[c.key]
          && (c.dirty || c.data == w.disk[c.key] || (c.latch.Some? && PcOf(w, c.latch.value) == Changed(f))))
  }

  ghost predicate Good(w: World) {
    && w.disk.Keys == w.pages.Keys
    && (forall key :: key in w.table ==> w.table[key] in w.frames && w.frames[w.table[key]].key == key)
    && (forall f :: f in w.frames ==> FrameOk(w, f))
    && (forall t: Tid, f :: f in PinnedBy(PcOf(w, t)) ==> f in w.frames)
    && (forall key :: key in w.disk && key !in w.table ==> w.disk[key] == w.pages[key])
  }

  /** A pin after a load finds the frame still in the page table. */
  predicate PinInTime(w: World, a: Action) {
    a.Pin? && PcOf(w, a.t).Loaded? ==> Resident(w, PcOf(w, a.t).f)
  }

  ghost predicate PinsInTime(w: World, acts: seq<Action>)
    decreases |acts|
  {
    acts != [] ==> Enabled(w, acts[0]) && PinInTime(w, acts[0]) && PinsInTime(Next(w, acts[0]), acts[1..])
  }

  /** An empty pool over a disk. */
  ghost predicate Init(w: World) {
    w.table == map[] && w.frames == map[] && w.threads == map[] && w.pages == w.disk && w.capacity >= 1
  }

  lemma InitGood(w: World)
    requires Init(w)
    ensures Good(w)
  {
  }

  // ------------------------------------------------------------------ steps on one frame

  /** Only frame `f` and thread `t` change, and of the pages at most the one `f` stands for. */
  ghost predicate OnlyTouches(w: World, w': World, t: Tid, f: FrameNo) {
    && w'.table == w.table && w'.disk == w.disk && w'.frames.Keys == w.frames.Keys
    && f in w.frames && w'.frames[f].key == w.frames[f].key
    && (forall g :: g in w.frames && g != f ==> w'.frames[g] == w.frames[g])
    && (forall u: Tid :: u != t ==> PcOf(w', u) == PcOf(w, u))
    && PinnedBy(PcOf(w, t)) <= {f} && PinnedBy(PcOf(w', t)) <= {f}
    && (w'.pages == w.pages || (Resident(w, f) && w'.pages == w.pages[w.frames[f].key := w'.frames[f].data]))
  }

  lemma OtherFrame(w: World, w': World, t: Tid, f: FrameNo, g: FrameNo)
    requires OnlyTouches(w, w', t, f) && g in w.frames && g != f && FrameOk(w, g)
    ensures FrameOk(w', g)
  {
    hide View;
    var c := w.frames[g];
    forall u: Tid
      ensures g in PinnedBy(PcOf(w', u)) <==> g in PinnedBy(PcOf(w, u))
      ensures Inside(PcOf(w', u), g) <==> Inside(PcOf(w, u), g)
    {
    }
  }

  lemma TouchGood(w: World, w': World, t: Tid, f: FrameNo)
    requires Good(w) && OnlyTouches(w, w', t, f) && FrameOk(w', f)
    ensures Good(w')
  {
    hide FrameOk, PinnedBy;
    FramePages(w, w', t, f);
    forall g | g in w'.frames
      ensures FrameOk(w', g)
    {
      assert g in w.frames.Keys;
      if g != f {
        OtherFrame(w, w', t, f, g);
      }
    }
    forall u: Tid, g | g in PinnedBy(PcOf(w', u))
      ensures g in w'.frames
    {
      assert g in w.frames.Keys;
    }
    forall key | key in w.table
      ensures w.table[key] in w'.frames && w'.frames[w.table[key]].key == key
    {
      assert w.table[key] in w.frames.Keys;
    }
  }

  lemma FramePages(w: World, w': World, t: Tid, f: FrameNo)
    requires Good(w) && OnlyTouches(w, w', t, f)
    ensures w'.pages.Keys == w'.disk.Keys
    ensures forall key :: key in w.disk && key !in w.table ==> w.disk[key] == w'.pages[key]
  {
    hide PinnedBy;
    assert Resident(w, f) ==> w.frames[f].key in w.pages by { FrameAt(w, f); }
  }

  lemma FrameAt(w: World, f: FrameNo)
    requires Good(w) && f in w.frames
    ensures FrameOk(w, f)
  {
  }

  lemma PinnedIsResident(w: World, t: Tid, f: FrameNo)
    requires Good(w) && f in PinnedBy(PcOf(w, t))
    ensures f in w.frames && Resident(w, f)
  {
    FrameAt(w, f);
  }

  lemma HitGood(w: World, a: Action)
    requires Good(w) && Enabled(w, a) && a.Hit?
    ensures Good(Next(w, a))
  {
    hide Good;
    TableAt(w, a.key);
    FrameAt(w, w.table[a.key]);
    TouchGood(w, Next(w, a), a.t, w.table[a.key]);
  }

  lemma PinGood(w: World, a: Action)
    requires Good(w) && Enabled(w, a) && a.Pin? && PinInTime(w, a)
    ensures Good(Next(w, a))
  {
    hide Good;
    FrameAt(w, PcOf(w, a.t).f);
    TouchGood(w, Next(w, a), a.t, PcOf(w, a.t).f);
  }

  lemma TableAt(w: World, key: PageId)
    requires Good(w) && key in w.table
    ensures w.table[key] in w.frames && w.frames[w.table[key]].key == key
  {
  }

  lemma LatchGood(w: World, a: Action)
    requires Good(w) && Enabled(w, a) && (a.Latch? || a.Unlatch? || a.Read?)
    ensures Good(Next(w, a))
  {
    hide Good;
    var f := PcOf(w, a.t).f;
    FrameAt(w, f);
    TouchGood(w, Next(w, a), a.t, f);
  }

  lemma ChangeGood(w: World, a: Action)
    requires Good(w) && Enabled(w, a) && (a.Change? || a.Mark?)
    ensures Good(Next(w, a))
  {
    hide Good;
    var f := PcOf(w, a.t).f;
    FrameAt(w, f);
    TouchGood(w, Next(w, a), a.t, f);
  }

  lemma UnpinGood(w: World, a: Action)
    requires Good(w) && Enabled(w, a) && a.Unpin?
    ensures Good(Next(w, a))
  {
    hide Good;
    var f := PcOf(w, a.t).f;
    FrameAt(w, f);
    TouchGood(w, Next(w, a), a.t, f);
  }

  // ------------------------------------------------------------------ misses and flushes

  /** Taking an unpinned page out of the table, after writing it back if it is dirty, changes no page. */
  lemma EvictGood(w: World, key: PageId)
    requires Good(w) && Evictable(w, key)
    ensures Good(Evicted(w, key)) && Evicted(w, key).threads == w.threads && Evicted(w, key).pages == w.pages
    ensures Evicted(w, key).frames.Keys == w.frames.Keys && Evicted(w, key).disk.Keys == w.disk.Keys
    ensures Evicted(w, key).table == w.table - {key}
  {
    hide FrameOk, PinnedBy;
    EvictedIsSaved(w, key);
    var w' := Evicted(w, key);
    assert w'.disk.Keys == w.disk.Keys;
    forall f | f in w'.frames
      ensures FrameOk(w', f)
    {
      EvictFrame(w, key, f);
    }
    assert forall t: Tid :: PcOf(w', t) == PcOf(w, t);
  }

  lemma UnpinnedIsUnlatched(w: World, f: FrameNo)
    requires f in w.frames && FrameOk(w, f)
    ensures w.frames[f].pins == {} ==> w.frames[f].latch.None?
  {
    var c := w.frames[f];
    assert c.latch.Some? ==> c.latch.value in c.pins;
  }

  lemma EvictedIsSaved(w: World, key: PageId)
    requires Good(w) && Evictable(w, key)
    ensures var c := w.frames[w.table[key]];
            c.key == key && key in w.disk && key in w.pages && c.data == w.pages[key] &&
            (c.dirty || c.data == w.disk[key])
  {
    hide Good;
    TableAt(w, key);
    FrameAt(w, w.table[key]);
    UnpinnedIsUnlatched(w, w.table[key]);
  }

  lemma EvictFrame(w: World, key: PageId, f: FrameNo)
    requires Good(w) && Evictable(w, key) && f in w.frames
    ensures f in Evicted(w, key).frames && FrameOk(Evicted(w, key), f)
  {
    hide Good;
    FrameAt(w, f);
    TableAt(w, key);
    FrameAt(w, w.table[key]);
    var w' := Evicted(w, key);
    assert forall u: Tid :: PcOf(w', u) == PcOf(w, u);
  }

  /** A page read from disk into a new frame. */
  lemma LoadGood(w: World, t: Tid, key: PageId, n: FrameNo)
    requires Good(w) && PcOf(w, t).Idle? && key !in w.table && n !in w.frames && key in w.disk
    ensures Good(Goto(Set(w, n, Cached(key, w.disk[key], false, {}, None)).(table := w.table[key := n]), t, Loaded(n)))
  {
    hide FrameOk;
    var w' := Goto(Set(w, n, Cached(key, w.disk[key], false, {}, None)).(table := w.table[key := n]), t, Loaded(n));
    forall f | f in w'.frames
      ensures FrameOk(w', f)
    {
      LoadFrame(w, t, key, n, f);
    }
    forall u: Tid, f | f in PinnedBy(PcOf(w', u))
      ensures f in w'.frames
    {
      assert u != t && f in PinnedBy(PcOf(w, u));
    }
  }

  lemma LoadFrame(w: World, t: Tid, key: PageId, n: FrameNo, f: FrameNo)
    requires Good(w) && PcOf(w, t).Idle? && key !in w.table && n !in w.frames && key in w.disk
    requires (f in w.frames || f == n)
    ensures var w' := Goto(Set(w, n, Cached(key, w.disk[key], false, {}, None)).(table := w.table[key := n]), t,
                           Loaded(n));
            f in w'.frames && FrameOk(w', f)
  {
    var w' := Goto(Set(w, n, Cached(key, w.disk[key], false, {}, None)).(table := w.table[key := n]), t, Loaded(n));
    forall u: Tid
      ensures PinnedBy(PcOf(w', u)) == PinnedBy(PcOf(w, u)) && n !in PinnedBy(PcOf(w, u))
      ensures Inside(PcOf(w', u), f) <==> Inside(PcOf(w, u), f)
      ensures PcOf(w', u) == Changed(f) <==> PcOf(w, u) == Changed(f)
    {
    }
    if f != n {
      FrameAt(w, f);
    }
  }

  lemma MissGood(w: World, a: Action)
    requires Good(w) && Enabled(w, a) && a.Miss?
    ensures Good(Next(w, a))
  {
    hide Good, Evicted, Evictable;
    if a.victim.Some? {
      EvictGood(w, a.victim.value);
      LoadGood(Evicted(w, a.victim.value), a.t, a.key, a.n);
    } else {
      LoadGood(w, a.t, a.key, a.n);
    }
  }

  lemma DirtyIsResident(w: World, f: FrameNo)
    requires Good(w) && f in DirtyFrames(w)
    ensures f in w.frames && Resident(w, f)
  {
  }

  /** A flush pins every dirty frame when it starts, and lets go of them when it ends. */
  lemma RepinFrame(w: World, t: Tid, fs: set<FrameNo>, add: bool, pc: Pc, f: FrameNo)
    requires f in w.frames && FrameOk(w, f) && (add ==> PcOf(w, t).Idle? && pc == Flushing(fs))
    requires (!add ==> PcOf(w, t) == Flushing(fs) && pc.Idle?)
    requires f in fs ==> Resident(w, f)
    ensures var w' := Goto(w, t, pc).(frames := Repinned(w.frames, fs, t, add)); f in w'.frames && FrameOk(w', f)
  {
    var w' := Goto(w, t, pc).(frames := Repinned(w.frames, fs, t, add));
    forall u: Tid
      ensures Inside(PcOf(w', u), f) <==> Inside(PcOf(w, u), f)
      ensures PcOf(w', u) == Changed(f) <==> PcOf(w, u) == Changed(f)
      ensures u in w'.frames[f].pins <==> f in PinnedBy(PcOf(w', u))
    {
    }
  }

  lemma RepinGood(w: World, t: Tid, fs: set<FrameNo>, add: bool, pc: Pc)
    requires Good(w) && (add ==> PcOf(w, t).Idle? && pc == Flushing(fs))
    requires (!add ==> PcOf(w, t) == Flushing(fs) && pc.Idle?)
    requires forall f :: f in fs ==> f in w.frames && Resident(w, f)
    ensures Good(Goto(w, t, pc).(frames := Repinned(w.frames, fs, t, add)))
  {
    hide FrameOk;
    var w' := Goto(w, t, pc).(frames := Repinned(w.frames, fs, t, add));
    forall f | f in w'.frames
      ensures FrameOk(w', f)
    {
      RepinFrame(w, t, fs, add, pc, f);
    }
    forall u: Tid, f | f in PinnedBy(PcOf(w', u))
      ensures f in w'.frames
    {
      assert u != t ==> f in PinnedBy(PcOf(w, u));
    }
  }

  lemma FlushStartGood(w: World, a: Action)
    requires Good(w) && Enabled(w, a) && a.FlushStart?
    ensures Good(Next(w, a))
  {
    hide Good, DirtyFrames;
    forall f | f in DirtyFrames(w)
      ensures f in w.frames && Resident(w, f)
    {
      DirtyIsResident(w, f);
    }
    RepinGood(w, a.t, DirtyFrames(w), true, Flushing(DirtyFrames(w)));
  }

  lemma FlushEndGood(w: World, a: Action)
    requires Good(w) && Enabled(w, a) && a.FlushEnd?
    ensures Good(Next(w, a))
  {
    hide Good;
    forall f | f in PcOf(w, a.t).fs
      ensures f in w.frames && Resident(w, f)
    {
      PinnedIsResident(w, a.t, f);
    }
    RepinGood(w, a.t, PcOf(w, a.t).fs, false, Idle);
  }

  /** Writing a pinned frame back under its latch leaves the pages as they are. */
  lemma FlushFrame(w: World, a: Action, g: FrameNo)
    requires Good(w) && Enabled(w, a) && a.FlushOne? && g in w.frames
    ensures g in Next(w, a).frames && FrameOk(Next(w, a), g)
  {
    hide Good;
    PinnedIsResident(w, a.t, a.f);
    FrameAt(w, a.f);
    FrameAt(w, g);
    assert forall u: Tid :: PcOf(Next(w, a), u) == PcOf(w, u);
  }

  lemma FlushOneGood(w: World, a: Action)
    requires Good(w) && Enabled(w, a) && a.FlushOne?
    ensures Good(Next(w, a))
  {
    hide FrameOk, PinnedBy;
    var w' := Next(w, a);
    PinnedKey(w, a.t, a.f);
    forall f | f in w'.frames
      ensures FrameOk(w', f)
    {
      FlushFrame(w, a, f);
    }
    assert forall u: Tid :: PcOf(w', u) == PcOf(w, u);
  }

  lemma PinnedKey(w: World, t: Tid, f: FrameNo)
    requires Good(w) && PcOf(w, t).Flushing? && f in PcOf(w, t).fs
    ensures f in w.frames && w.frames[f].key in w.table && w.frames[f].key in w.disk
  {
    PinnedIsResident(w, t, f);
    FrameAt(w, f);
  }

  lemma AllocFrame(w: World, a: Action, f: FrameNo)
    requires Good(w) && Enabled(w, a) && a.Alloc? && f in w.frames
    ensures f in Next(w, a).frames && FrameOk(Next(w, a), f)
  {
    hide Good;
    FrameAt(w, f);
    assert forall u: Tid :: PcOf(Next(w, a), u) == PcOf(w, u);
    assert Resident(w, f) ==> w.frames[f].key != a.key;
  }

  lemma AllocGood(w: World, a: Action)
    requires Good(w) && Enabled(w, a) && a.Alloc?
    ensures Good(Next(w, a))
  {
    hide PinnedBy, FrameOk;
    var w' := Next(w, a);
    assert forall u: Tid :: PcOf(w', u) == PcOf(w, u);
    forall f | f in w'.frames
      ensures FrameOk(w', f)
    {
      AllocFrame(w, a, f);
    }
  }

  // ------------------------------------------------------------------ all interleavings

  lemma StepGood(w: World, a: Action)
    requires Good(w) && Enabled(w, a) && PinInTime(w, a)
    ensures Good(Next(w, a))
  {
    hide Good, Next, Enabled, PinInTime;
    match a
    case Hit(_, _) => HitGood(w, a);
    case Miss(_, _, _, _) => MissGood(w, a);
    case Pin(_) => PinGood(w, a);
    case Latch(_) => LatchGood(w, a);
    case Read(_) => LatchGood(w, a);
    case Change(_, _) => ChangeGood(w, a);
    case Mark(_) => ChangeGood(w, a);
    case Unlatch(_) => LatchGood(w, a);
    case Unpin(_) => UnpinGood(w, a);
    case FlushStart(_) => FlushStartGood(w, a);
    case FlushOne(_, _) => FlushOneGood(w, a);
    case FlushEnd(_) => FlushEndGood(w, a);
    case Alloc(_, _) => AllocGood(w, a);
  }

  lemma {:induction false} RunGood(w: World, acts: seq<Action>, w': World)
    requires Good(w) && Steps(w, acts, w') && PinsInTime(w, acts)
    ensures Good(w')
    decreases |acts|
  {
    hide Good, Next, Enabled, PinInTime;
    if acts != [] {
      StepGood(w, acts[0]);
      RunGood(Next(w, acts[0]), acts[1..], w');
    }
  }

  /** The thread is about to read the page under its latch. */
  predicate Reading(w: World, t: Tid, key: PageId) {
    PcOf(w, t).Latched? && PcOf(w, t).f in w.frames && w.frames[PcOf(w, t).f].key == key
  }

  lemma ReaderIsCurrent(w: World, t: Tid, key: PageId)
    requires Good(w) && Reading(w, t, key)
    ensures key in w.pages && w.frames[PcOf(w, t).f].data == w.pages[key]
  {
    hide Good;
    PinnedIsResident(w, t, PcOf(w, t).f);
    FrameAt(w, PcOf(w, t).f);
  }

  lemma ViewIsPages(w: World, key: PageId)
    requires Good(w)
    ensures View(w, key) == if key in w.pages then Some(w.pages[key]) else None
  {
    hide FrameOk;
    assert key in w.disk <==> key in w.pages by { assert w.disk.Keys == w.pages.Keys; }
    if key in w.table {
      TableAt(w, key);
      CachedIsCurrent(w, key);
    }
  }

  lemma CachedIsCurrent(w: World, key: PageId)
    requires Good(w) && key in w.table
    ensures w.table[key] in w.frames && key in w.pages && w.frames[w.table[key]].data == w.pages[key]
  {
    hide Good;
    TableAt(w, key);
    FrameAt(w, w.table[key]);
  }

  /**
   However threads interleave, as long as every pin after a load finds its frame still in the page table, a page
   looked up is the page as it was last written, and so is a page a thread is about to read under its latch.
   */
  lemma PoolIsFlat(start: World, acts: seq<Action>, w: World, key: PageId)
    requires Init(start) && Steps(start, acts, w) && PinsInTime(start, acts)
    ensures View(w, key) == if key in w.pages then Some(w.pages[key]) else None
    ensures forall t: Tid :: Reading(w, t, key) ==> key in w.pages && w.frames[PcOf(w, t).f].data == w.pages[key]
  {
    hide Enabled, Next, Good, Init, PcOf;
    InitGood(start);
    RunGood(start, acts, w);
    ViewIsPages(w, key);
    forall t: Tid | Reading(w, t, key)
      ensures key in w.pages && w.frames[PcOf(w, t).f].data == w.pages[key]
    {
      ReaderIsCurrent(w, t, key);
    }
  }

  // ------------------------------------------------------------------ a pin that comes too late

  /**
   A thread that pins a frame which has left the page table can change it at once, and whoever looks the page up
   then does not see the change, unless it happens to be what the page held anyway.
   */
  lemma LatePinLosesWrite(w: World, t: Tid, data: seq<Byte>)
    requires Enabled(w, Pin(t)) && !PinInTime(w, Pin(t)) && w.frames[PcOf(w, t).f].latch.None?
    ensures var key := w.frames[PcOf(w, t).f].key; var acts := [Pin(t), Latch(t), Change(t, data)];
            exists w' :: Steps(w, acts, w') && key in w'.pages && w'.pages[key] == data && View(w', key) == View(w, key)
  {
    var f := PcOf(w, t).f;
    var key := w.frames[f].key;
    var w1 := Next(w, Pin(t));
    var w2 := Next(w1, Latch(t));
    var w3 := Next(w2, Change(t, data));
    hide Steps;
    OneStep(w, Pin(t));
    Then(w, [Pin(t)], w1, Latch(t));
    Then(w, [Pin(t)] + [Latch(t)], w2, Change(t, data));
    var acts := [Pin(t), Latch(t), Change(t, data)];
    assert acts == [Pin(t)] + [Latch(t)] + [Change(t, data)];
    assert Steps(w, acts, w3);
  }

  lemma OneStep(w: World, a: Action)
    requires Enabled(w, a)
    ensures Steps(w, [a], Next(w, a))
  {
    hide Enabled, Next;
    assert [a][1..] == [] && Steps(Next(w, a), [], Next(w, a));
  }

  /** So a run stays right whatever comes next only if its next pin is not late. */
  lemma LatePinIsFatal(start: World, acts: seq<Action>, w: World, t: Tid, data: seq<Byte>)
    requires Init(start) && Steps(start, acts, w) && PinsInTime(start, acts) && Enabled(w, Pin(t))
    requires !PinInTime(w, Pin(t))
    requires var key := w.frames[PcOf(w, t).f].key; View(w, key) != Some(data)
    ensures var key := w.frames[PcOf(w, t).f].key;
            exists w' ::
              Steps(w, [Pin(t), Latch(t), Change(t, data)], w') && key in w'.pages &&
              View(w', key) != Some(w'.pages[key])
  {
    hide Enabled, Next, Good, Init;
    InitGood(start);
    RunGood(start, acts, w);
    LateIsUnlatched(w, t);
    LatePinLosesWrite(w, t, data);
  }

  lemma LateIsUnlatched(w: World, t: Tid)
    requires Good(w) && Enabled(w, Pin(t)) && !PinInTime(w, Pin(t))
    ensures PcOf(w, t).f in w.frames && w.frames[PcOf(w, t).f].latch.None?
  {
    hide Good;
    var f := PcOf(w, t).f;
    FrameAt(w, f);
    UnpinnedIsUnlatched(w, f);
  }

  // ------------------------------------------------------------------ a write that gets lost

  lemma {:induction false} Join(w: World, xs: seq<Action>, w1: World, ys: seq<Action>, w': World)
    requires Steps(w, xs, w1) && Steps(w1, ys, w')
    ensures Steps(w, xs + ys, w')
    decreases |xs|
  {
    hide Enabled, Next;
    if xs == [] {
      assert xs + ys == ys;
    } else {
      Join(Next(w, xs[0]), xs[1..], w1, ys, w');
      assert (xs + ys)[1..] == xs[1..] + ys;
    }
  }

  lemma Then(w: World, xs: seq<Action>, w1: World, a: Action)
    requires Steps(w, xs, w1) && Enabled(w1, a)
    ensures Steps(w, xs + [a], Next(w1, a))
  {
    hide Enabled, Next;
    OneStep(w1, a);
    Join(w, xs, w1, [a], Next(w1, a));
  }

  /** A thread with a frame just loaded pins it and takes the latch. */
  lemma Enters(w: World, t: Tid, f: FrameNo)
    requires PcOf(w, t) == Loaded(f) && f in w.frames && w.frames[f].pins == {} && w.frames[f].latch.None?
    ensures Steps(w, [Pin(t)] + [Latch(t)], Goto(Set(w, f, w.frames[f].(pins := {t}, latch := Some(t))), t, Latched(f)))
  {
    OneStep(w, Pin(t));
    var w1 := Next(w, Pin(t));
    Then(w, [Pin(t)], w1, Latch(t));
    var w2 := Next(w1, Latch(t));
    assert {} + {t} == {t};
    assert w2.frames == w.frames[f := w.frames[f].(pins := {t}, latch := Some(t))];
    assert w2.threads == w.threads[t := Latched(f)];
  }

  /** It leaves the latch and lets go. */
  lemma LetsGo(w: World, t: Tid, f: FrameNo)
    requires PcOf(w, t) == Finished(f) && f in w.frames && w.frames[f].pins == {t}
    ensures Steps(w, [Unlatch(t)] + [Unpin(t)], Goto(Set(w, f, w.frames[f].(pins := {}, latch := None)), t, Idle))
  {
    hide Steps;
    OneStep(w, Unlatch(t));
    var w1 := Next(w, Unlatch(t));
    Then(w, [Unlatch(t)], w1, Unpin(t));
    var w2 := Next(w1, Unpin(t));
    assert {t} - {t} == {};
    assert w2.frames == w.frames[f := w.frames[f].(pins := {}, latch := None)];
    assert w2.threads == w.threads[t := Idle];
  }

  /** In between it changes the page. */
  lemma Writes(w: World, t: Tid, f: FrameNo, data: seq<Byte>)
    requires PcOf(w, t) == Latched(f) && f in w.frames
    ensures Steps(w, [Change(t, data)] + [Mark(t)],
                  Goto(Set(w, f, w.frames[f].(data := data, dirty := true)), t, Finished(f))
                  .(pages := w.pages[w.frames[f].key := data]))
  {
    OneStep(w, Change(t, data));
    var w1 := Next(w, Change(t, data));
    Then(w, [Change(t, data)], w1, Mark(t));
    var w2 := Next(w1, Mark(t));
    assert w2.frames == w.frames[f := w.frames[f].(data := data, dirty := true)];
    assert w2.threads == w.threads[t := Finished(f)];
  }

  const A := PageId(0, 0)
  const B := PageId(0, 1)

  /** One frame, two pages. */
  const START: World := World(map[A := [0], B := [0]], map[], map[], map[], map[A := [0], B := [0]], 1)

  /** Thread 1 has loaded page A, and thread 2 has evicted it again to load page B. */
  const EVICTED: World :=
    World(START.disk, map[B := 11], map[10 := Cached(A, [0], false, {}, None), 11 := Cached(B, [0], false, {}, None)],
          map[1 := Loaded(10), 2 := Loaded(11)], START.disk, 1)

  lemma RunToEvicted()
    ensures Steps(START, [Miss(1, A, 10, None)] + [Miss(2, B, 11, Some(A))], EVICTED)
  {
    OneStep(START, Miss(1, A, 10, None));
    var w1 := Next(START, Miss(1, A, 10, None));
    assert w1.table == map[A := 10] && |w1.table| == 1;
    Then(START, [Miss(1, A, 10, None)], w1, Miss(2, B, 11, Some(A)));
    var w2 := Next(w1, Miss(2, B, 11, Some(A)));
    assert w2.table == EVICTED.table;
    assert w2.frames == EVICTED.frames;
    assert w2.threads == EVICTED.threads;
  }

  /** Thread 1 has written page A and is done. */
  const WRITTEN: World :=
    EVICTED.(frames := EVICTED.frames[10 := Cached(A, [7], true, {}, None)], threads := EVICTED.threads[1 := Idle],
             pages := START.disk[A := [7]])

  lemma RunToWritten() returns (acts: seq<Action>)
    ensures Steps(EVICTED, acts, WRITTEN)
  {
    hide Enabled, Next, Steps;
    var w1 := Goto(Set(EVICTED, 10, Cached(A, [0], false, {1}, Some(1))), 1, Latched(10));
    Enters(EVICTED, 1, 10);
    var w2 := Goto(Set(w1, 10, Cached(A, [7], true, {1}, Some(1))), 1, Finished(10)).(pages := START.disk[A := [7]]);
    Writes(w1, 1, 10, [7]);
    Join(EVICTED, [Pin(1)] + [Latch(1)], w1, [Change(1, [7])] + [Mark(1)], w2);
    acts := [Pin(1)] + [Latch(1)] + ([Change(1, [7])] + [Mark(1)]);
    LetsGo(w2, 1, 10);
    var w3 := Goto(Set(w2, 10, Cached(A, [7], true, {}, None)), 1, Idle);
    Join(EVICTED, acts, w2, [Unlatch(1)] + [Unpin(1)], w3);
    acts := acts + ([Unlatch(1)] + [Unpin(1)]);
    assert w3.frames == WRITTEN.frames;
    assert w3.threads == WRITTEN.threads;
  }

  /** Thread 2 has read page B and is done; thread 3 has loaded page A again. */
  lemma RunToReread(w: World) returns (acts: seq<Action>, w': World)
    requires w == WRITTEN
    ensures Steps(w, acts, w') && Reading(w', 3, A) && w'.frames[PcOf(w', 3).f].data == [0] && w'.pages == w.pages
    ensures forall t: Tid :: t != 3 ==> PcOf(w', t).Idle?
  {
    hide Enabled, Next, Steps;
    var w1 := Goto(Set(w, 11, Cached(B, [0], false, {2}, Some(2))), 2, Latched(11));
    Enters(w, 2, 11);
    acts := [Pin(2)] + [Latch(2)];
    var w2 := Goto(w1, 2, Finished(11));
    assert Steps(w1, [Read(2)], w2) by { Reads(w1, 2, 11); }
    Join(w, acts, w1, [Read(2)], w2);
    acts := acts + [Read(2)];
    LetsGo(w2, 2, 11);
    var w3 := Goto(Set(w2, 11, Cached(B, [0], false, {}, None)), 2, Idle);
    Join(w, acts, w2, [Unlatch(2)] + [Unpin(2)], w3);
    acts := acts + ([Unlatch(2)] + [Unpin(2)]);
    assert w3.table == map[B := 11] && |w3.table| == 1;
    var w4 := Reloads(w3);
    Join(w, acts, w3, [Miss(3, A, 12, Some(B))], w4);
    acts := acts + [Miss(3, A, 12, Some(B))];
    Enters(w4, 3, 12);
    w' := Goto(Set(w4, 12, Cached(A, [0], false, {3}, Some(3))), 3, Latched(12));
    Join(w, acts, w4, [Pin(3)] + [Latch(3)], w');
    acts := acts + ([Pin(3)] + [Latch(3)]);
  }

  lemma Reads(w: World, t: Tid, f: FrameNo)
    requires PcOf(w, t) == Latched(f) && f in w.frames
    ensures Steps(w, [Read(t)], Goto(w, t, Finished(f)))
  {
    OneStep(w, Read(t));
  }

  lemma Reloads(w: World) returns (w': World)
    requires w.table == map[B := 11] && |w.table| == 1 && w.capacity == 1 && w.disk == START.disk && 12 !in w.frames
    requires PcOf(w, 3).Idle? && 11 in w.frames && w.frames[11] == Cached(B, [0], false, {}, None)
    ensures Steps(w, [Miss(3, A, 12, Some(B))], w') && w'.pages == w.pages && w'.threads == w.threads[3 := Loaded(12)]
    ensures 12 in w'.frames && w'.frames[12] == Cached(A, [0], false, {}, None)
  {
    OneStep(w, Miss(3, A, 12, Some(B)));
    w' := Next(w, Miss(3, A, 12, Some(B)));
  }

  lemma StartIsEmpty()
    ensures Init(START)
  {
  }

  /**
   From an empty pool: a thread writes a page and is done, no other write follows, and a later reader of that
   page is about to read what it held before.
   */
  lemma WriteGetsLost() returns (acts: seq<Action>, w: World)
    ensures Init(START) && Steps(START, acts, w) && !PinsInTime(START, acts)
    ensures A in w.pages && w.pages[A] == [7] && Reading(w, 3, A) && w.frames[PcOf(w, 3).f].data == [0]
    ensures forall t: Tid :: t != 3 ==> PcOf(w, t).Idle?
  {
    hide Enabled, Next, Steps, Init, PinsInTime, Reading, PcOf;
    StartIsEmpty();
    RunToEvicted();
    acts := [Miss(1, A, 10, None)] + [Miss(2, B, 11, Some(A))];
    var more := RunToWritten();
    Join(START, acts, EVICTED, more, WRITTEN);
    acts := acts + more;
    more, w := RunToReread(WRITTEN);
    Join(START, acts, WRITTEN, more, w);
    acts := acts + more;
    if PinsInTime(START, acts) {
      PoolIsFlat(START, acts, w, A);
    }
  }
}
