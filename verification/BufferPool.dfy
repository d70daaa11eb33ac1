/** The buffer pool: a bounded cache of pages that callers cannot tell from the flat page map. */
module BufferPool {
  import opened Options
  import opened Bytes
  import opened Replacer

  type Disk = map<PageId, seq<Byte>>

  /** What callers see: the cached copy where there is one. */
  ghost function Flat(disk: Disk, frames: Frames): Disk {
    map k | k in disk :: if k in frames then frames[k].data else disk[k]
  }

  /** A frame that nobody is changing and that is not marked dirty agrees with the disk. */
  ghost predicate CleanAgrees(disk: Disk, frames: Frames, writing: set<PageId>) {
    forall k :: k in frames ==> k in disk && (frames[k].dirty || k in writing || frames[k].data == disk[k])
  }

  /** Pages in use stay cached, and what stays cached keeps its contents, mark and pins. */
  ghost predicate PinnedStay(frames: Frames, frames': Frames) {
    && (forall k :: k in frames && frames[k].pins > 0 ==> k in frames')
    && (forall k :: k in frames && k in frames' ==>
        frames'[k] == frames[k] || frames'[k] == frames[k].(accessed := false))
  }

  class Pool {
    var disk: Disk
    var frames: Frames
    var replacer: Replacer
    const capacity: nat

    /** Pages changed by a closure that has not marked them dirty yet; their latch is held. */
    ghost var writing: set<PageId>

    ghost predicate Valid()
      reads this
    {
      && 1 <= capacity && |frames.Keys| <= capacity && replacer.Mirrors(frames)
      && CleanAgrees(disk, frames, writing)
      && forall k :: k in writing ==> k in frames && frames[k].pins > 0
    }

    ghost function View(): Disk
      reads this
    {
      Flat(disk, frames)
    }

    constructor (disk: Disk, capacity: nat, policy: Replacer)
      requires policy.Listed() == []
      ensures Valid() && Unpinned() && View() == disk
      ensures this.capacity == if capacity == 0 then 1 else capacity
    {
      this.disk, this.capacity := disk, if capacity == 0 then 1 else capacity;
      frames, replacer, writing := map[], policy, {};
    }

    /** Evicts one unpinned page, writing it back if it is dirty. */
    method EvictOne() returns (ok: bool)
      requires Valid()
      modifies this
      ensures Valid() && View() == old(View()) && writing == old(writing) && disk.Keys == old(disk.Keys)
      ensures PinnedStay(old(frames), frames)
      ensures frames.Keys <= old(frames.Keys) && |frames.Keys| == old(|frames.Keys|) - if ok then 1 else 0
      ensures !ok <==> forall k :: k in old(frames) ==> old(frames)[k].pins > 0
    {
      hide Flat, CleanAgrees, PinnedStay, OnlyBitsCleared, Replacer.Mirrors;
      var victim, order, marked := ChooseVictim(replacer, frames);
      BitsInvisible(disk, frames, marked, writing);
      replacer, frames := order, marked;
      if victim.None? {
        return false;
      }
      var key := victim.value;
      var frame := frames[key];
      ghost var before := frames;
      Dropped(disk, frames, key, writing);
      StayWithout(old(frames), frames, key);
      frames := frames - {key};
      assert frames.Keys == before.Keys - {key};
      if frame.dirty {
        disk := disk[key := frame.data];
      }
      return true;
    }

    method Hit(key: PageId)
      requires Valid() && key in frames
      modifies this
      ensures Valid() && View() == old(View()) && writing == old(writing) && disk == old(disk)
      ensures frames.Keys == old(frames.Keys) && PinnedStay(old(frames) - {key}, frames)
      ensures frames[key] == old(frames)[key].(pins := old(frames)[key].pins + 1, accessed := true)
      ensures frames[key].data == old(View())[key]
    {
      hide Flat, CleanAgrees, PinnedStay, Replacer.Mirrors, RecordAccess;
      var frame := frames[key].(pins := frames[key].pins + 1, accessed := true);
      RecordAccessMirrors(replacer, frames, key);
      Pinned(disk, frames, key, frame, writing, replacer);
      AccessKeeps(replacer, frames, key, frame);
      replacer := RecordAccess(replacer, key);
      frames := frames[key := frame];
    }

    /** Evicts until there is room; fails exactly when the pool is full of pinned frames. */
    method MakeRoom() returns (ok: bool)
      requires Valid()
      modifies this
      ensures Valid() && View() == old(View()) && writing == old(writing) && disk.Keys == old(disk.Keys)
      ensures frames.Keys <= old(frames.Keys) && PinnedStay(old(frames), frames)
      ensures ok ==> |frames.Keys| < capacity
      ensures !ok <==> |old(frames).Keys| >= capacity && forall k :: k in old(frames) ==> old(frames)[k].pins > 0
    {
      StaySame(frames);
      hide Flat, CleanAgrees, PinnedStay, Replacer.Mirrors;
      while |frames.Keys| >= capacity
        invariant Valid() && View() == old(View()) && writing == old(writing) && disk.Keys == old(disk.Keys)
        invariant frames.Keys <= old(frames.Keys)
        invariant PinnedStay(old(frames), frames)
        invariant frames == old(frames) || |old(frames).Keys| < capacity ||
                  exists k :: k in old(frames) && old(frames)[k].pins == 0
        invariant frames != old(frames) ==> |frames.Keys| < capacity
        decreases |frames.Keys|
      {
        ghost var was := frames;
        var evicted := EvictOne();
        StayTwice(old(frames), was, frames);
        if !evicted {
          return false;
        }
      }
      return true;
    }

    method Load(key: PageId)
      requires Valid() && key !in frames && key in disk && |frames.Keys| < capacity
      modifies this
      ensures Valid() && View() == old(View()) && writing == old(writing) && disk == old(disk)
      ensures frames == old(frames)[key := Frame(old(View())[key], false, 0, true)]
    {
      hide Flat, CleanAgrees, Replacer.Mirrors;
      var loaded := Frame(disk[key], false, 0, true);
      PushMirrors(replacer, frames, key, loaded);
      Loaded(disk, frames, key, writing);
      assert frames[key := loaded].Keys == frames.Keys + {key};
      replacer := replacer.Push(key);
      frames := frames[key := loaded];
    }

    /** A pin of its own, after the frame has entered the page table. */
    method PinFrame(key: PageId)
      requires Valid() && key in frames
      modifies `frames
      ensures Valid() && View() == old(View())
      ensures frames == old(frames)[key := old(frames)[key].(pins := old(frames)[key].pins + 1)]
    {
      hide Replacer.Mirrors, Flat, CleanAgrees, PinnedStay;
      Pinned(disk, frames, key, frames[key].(pins := frames[key].pins + 1), writing, replacer);
      SameKeysMirror(replacer, frames, frames[key := frames[key].(pins := frames[key].pins + 1)]);
      frames := frames[key := frames[key].(pins := frames[key].pins + 1)];
    }

    method LoadPinned(key: PageId)
      requires Valid() && key !in frames && key in disk && |frames.Keys| < capacity
      modifies this
      ensures Valid() && View() == old(View()) && writing == old(writing) && disk == old(disk)
      ensures frames == old(frames)[key := Frame(old(View())[key], false, 1, true)]
    {
      hide Valid, Flat;
      Load(key);
      PinFrame(key);
    }

    /** Finds or loads a page and pins it; fails only when the page does not exist or every frame is in use. */
    method FrameFor(key: PageId) returns (ok: bool)
      requires Valid()
      modifies this
      ensures Valid() && View() == old(View()) && writing == old(writing) && disk.Keys == old(disk.Keys)
      ensures ok <==> key in old(frames) ||
                      (key in old(disk) &&
                       !(|old(frames).Keys| >= capacity && forall k :: k in old(frames) ==> old(frames)[k].pins > 0))
      ensures !ok ==> PinnedStay(old(frames), frames) && frames.Keys <= old(frames).Keys
      ensures ok ==> key in frames && frames[key].pins == (if key in old(frames) then old(frames)[key].pins else 0) + 1
      ensures ok ==> PinnedStay(old(frames) - {key}, frames) && frames[key].data == old(View())[key]
      ensures frames.Keys <= old(frames).Keys + {key}
    {
      hide Flat, CleanAgrees, PinnedStay, Replacer.Mirrors;
      if key in frames {
        Hit(key);
        return true;
      }
      var room := MakeRoom();
      if !room || key !in disk {
        return false;
      }
      ghost var roomy := frames;
      LoadPinned(key);
      StayWith(old(frames), roomy, key, frames[key]);
      return true;
    }

    /** A closure that holds the page changes it. */
    method Mutate(key: PageId, data: seq<Byte>)
      requires Valid() && key in frames && frames[key].pins > 0
      modifies `frames, `writing
      ensures Valid() && View() == old(View())[key := data] && writing == old(writing) + {key}
      ensures frames == old(frames)[key := old(frames)[key].(data := data)]
    {
      hide Replacer.Mirrors, Flat, CleanAgrees, PinnedStay;
      Rewritten(disk, frames, key, frames[key].(data := data), writing);
      SameKeysMirror(replacer, frames, frames[key := frames[key].(data := data)]);
      frames := frames[key := frames[key].(data := data)];
      writing := writing + {key};
    }

    method MarkDirty(key: PageId)
      requires Valid() && key in frames
      modifies `frames, `writing
      ensures Valid() && View() == old(View()) && writing == old(writing) - {key}
      ensures frames == old(frames)[key := old(frames)[key].(dirty := true)]
    {
      hide Replacer.Mirrors, Flat, CleanAgrees, PinnedStay;
      Marked(disk, frames, key, writing);
      SameKeysMirror(replacer, frames, frames[key := frames[key].(dirty := true)]);
      frames := frames[key := frames[key].(dirty := true)];
      writing := writing - {key};
    }

    method Release(key: PageId)
      requires Valid() && key in frames && frames[key].pins > 0 && key !in writing
      modifies `frames
      ensures Valid() && View() == old(View())
      ensures frames == old(frames)[key := old(frames)[key].(pins := old(frames)[key].pins - 1)]
    {
      hide Replacer.Mirrors, Flat, CleanAgrees, PinnedStay;
      Pinned(disk, frames, key, frames[key].(pins := frames[key].pins - 1), writing, replacer);
      SameKeysMirror(replacer, frames, frames[key := frames[key].(pins := frames[key].pins - 1)]);
      frames := frames[key := frames[key].(pins := frames[key].pins - 1)];
    }

    /** Pins that are held elsewhere are unaffected by a completed access. */
    ghost predicate Unpinned()
      reads this
    {
      writing == {} && forall k :: k in frames ==> frames[k].pins == 0
    }

    method ReadPage(key: PageId) returns (r: Option<seq<Byte>>)
      requires Valid() && Unpinned()
      modifies this
      ensures Valid() && Unpinned() && View() == old(View())
      ensures r == if key in old(View()) then Some(old(View())[key]) else None
    {
      hide Replacer.Mirrors, Flat, CleanAgrees;
      ViewKeys(disk, frames);
      SomeUnpinned(frames, capacity);
      Resident(disk, frames, writing);
      ghost var was := frames;
      var ok := FrameFor(key);
      if !ok {
        return None;
      }
      OthersUnpinned(was, frames, key);
      hide PinnedStay;
      r := Some(frames[key].data);
      Release(key);
    }

    /** Runs `f` on the page; the change is visible at once and survives eviction. */
    method WithPage(key: PageId, f: seq<Byte> -> seq<Byte>) returns (ok: bool)
      requires Valid() && Unpinned()
      modifies this
      ensures Valid() && Unpinned() && ok == (key in old(View()))
      ensures View() == if ok then old(View())[key := f(old(View())[key])] else old(View())
    {
      hide Replacer.Mirrors, Flat, CleanAgrees;
      ViewKeys(disk, frames);
      SomeUnpinned(frames, capacity);
      Resident(disk, frames, writing);
      ghost var was := frames;
      ok := FrameFor(key);
      if ok {
        OthersUnpinned(was, frames, key);
        hide PinnedStay;
        Change(key, f(frames[key].data));
      }
    }

    /** The only user of a page writes it, marks it and lets go. */
    method Change(key: PageId, data: seq<Byte>)
      requires Valid() && key in frames && frames[key].pins == 1 && writing == {}
      requires forall k :: k in frames && k != key ==> frames[k].pins == 0
      modifies `frames, `writing
      ensures Valid() && Unpinned() && View() == old(View())[key := data]
    {
      hide Replacer.Mirrors, Flat, CleanAgrees;
      Mutate(key, data);
      MarkDirty(key);
      Release(key);
    }

    method FlushOne(key: PageId)
      requires Valid() && key in frames && frames[key].dirty && key !in writing
      modifies `frames, `disk
      ensures Valid() && View() == old(View()) && disk == old(disk)[key := frames[key].data]
      ensures frames == old(frames)[key := old(frames)[key].(dirty := false)]
    {
      hide Replacer.Mirrors, Flat, CleanAgrees, PinnedStay;
      WrittenBack(disk, frames, key, writing);
      SameKeysMirror(replacer, frames, frames[key := frames[key].(dirty := false)]);
      disk := disk[key := frames[key].data];
      frames := frames[key := frames[key].(dirty := false)];
    }

    /** Writes back every dirty page: afterwards the disk alone holds what callers see. */
    method FlushAll()
      requires Valid() && Unpinned()
      modifies `frames, `disk
      ensures Valid() && Unpinned() && View() == old(View()) && disk == View()
    {
      hide Replacer.Mirrors;
      var todo := set k | k in frames && frames[k].dirty;
      ghost var pages := frames.Keys;
      while todo != {}
        invariant Valid() && Unpinned() && View() == old(View()) && frames.Keys == pages && todo <= pages
        invariant forall k :: k in frames ==> (frames[k].dirty <==> k in todo)
        decreases |todo|
      {
        var key :| key in todo;
        FlushOne(key);
        todo := todo - {key};
      }
    }

    lemma WritingIsCached()
      requires Valid()
      ensures forall k :: k in writing ==> k in frames
    {
    }

    method DropFrame(key: PageId)
      requires Valid() && key in frames
      modifies `frames, `replacer, `writing
      ensures Valid() && frames == old(frames) - {key} && writing == old(writing) - {key}
    {
      hide Replacer.Mirrors, CleanAgrees;
      ForgetMirrors(replacer, frames, key);
      Discarded(disk, frames, key, writing);
      replacer := Forget(replacer, key);
      frames := frames - {key};
      writing := writing - {key};
    }

    /** Drops the cached pages of a file unwritten, also those in use; callers see the disk again. */
    method DiscardFile(file: nat)
      requires Valid()
      modifies `frames, `replacer, `writing
      ensures Valid() && View() == (map k | k in disk :: if k.file == file then disk[k] else old(View())[k])
      ensures frames == map k | k in old(frames) && k.file != file :: old(frames)[k]
      ensures writing == set k | k in old(writing) && k.file != file
    {
      hide Valid, Flat;
      WritingIsCached();
      var dropped := set k | k in frames && k.file == file;
      ghost var lost := dropped;
      while dropped != {}
        invariant Valid() && dropped <= lost && writing == old(writing) - (lost - dropped)
        invariant forall k :: k in dropped ==> k in frames && k.file == file
        invariant forall k :: k in frames ==> k in old(frames) && frames[k] == old(frames)[k]
        invariant forall k :: k in old(frames) && k !in dropped ==> (k in frames <==> k.file != file)
        decreases |dropped|
      {
        var key :| key in dropped;
        DropFrame(key);
        dropped := dropped - {key};
      }
      DiskAgain(disk, old(frames), frames, file);
    }

    /** A new page of zeros at the end of a file. */
    method AllocPage(key: PageId, zeros: seq<Byte>)
      requires Valid() && key !in disk
      modifies `disk
      ensures Valid() && View() == old(View())[key := zeros] && frames == old(frames)
    {
      Resident(disk, frames, writing);
      disk := disk[key := zeros];
    }
  }

  lemma Discarded(disk: Disk, frames: Frames, key: PageId, writing: set<PageId>)
    requires key in frames && CleanAgrees(disk, frames, writing)
    ensures CleanAgrees(disk, frames - {key}, writing - {key})
    ensures (frames - {key}).Keys == frames.Keys - {key}
  {
  }

  /** Without its frames a file looks as it does on disk. */
  lemma DiskAgain(disk: Disk, was: Frames, now: Frames, file: nat)
    requires now == map k | k in was && k.file != file :: was[k]
    ensures Flat(disk, was).Keys == disk.Keys
    ensures Flat(disk, now) == map k | k in disk :: if k.file == file then disk[k] else Flat(disk, was)[k]
  {
  }

  lemma Rewritten(disk: Disk, frames: Frames, key: PageId, f: Frame, writing: set<PageId>)
    requires key in frames && CleanAgrees(disk, frames, writing)
    ensures Flat(disk, frames[key := f]) == Flat(disk, frames)[key := f.data]
    ensures CleanAgrees(disk, frames[key := f], writing + {key})
  {
  }

  lemma Marked(disk: Disk, frames: Frames, key: PageId, writing: set<PageId>)
    requires key in frames && CleanAgrees(disk, frames, writing)
    ensures var frames' := frames[key := frames[key].(dirty := true)];
            Flat(disk, frames') == Flat(disk, frames) && CleanAgrees(disk, frames', writing - {key})
  {
  }

  lemma WrittenBack(disk: Disk, frames: Frames, key: PageId, writing: set<PageId>)
    requires key in frames && CleanAgrees(disk, frames, writing)
    ensures var disk', frames' := disk[key := frames[key].data], frames[key := frames[key].(dirty := false)];
            Flat(disk', frames') == Flat(disk, frames) && CleanAgrees(disk', frames', writing)
  {
  }

  lemma OthersUnpinned(was: Frames, now: Frames, key: PageId)
    requires PinnedStay(was - {key}, now) && now.Keys <= was.Keys + {key} && forall k :: k in was ==> was[k].pins == 0
    ensures forall k :: k in now && k != key ==> now[k].pins == 0
  {
    forall k | k in now && k != key
      ensures now[k].pins == 0
    {
      assert k in was.Keys + {key};
    }
  }

  lemma SameKeysMirror(r: Replacer, frames: Frames, frames': Frames)
    requires r.Mirrors(frames) && frames'.Keys == frames.Keys
    ensures r.Mirrors(frames')
  {
    forall k
      ensures k in frames <==> k in frames'
    {
      assert k in frames.Keys <==> k in frames'.Keys;
    }
  }

  lemma ViewKeys(disk: Disk, frames: Frames)
    ensures Flat(disk, frames).Keys == disk.Keys
  {
  }

  lemma Resident(disk: Disk, frames: Frames, writing: set<PageId>)
    requires CleanAgrees(disk, frames, writing)
    ensures forall k :: k in frames ==> k in disk
  {
  }

  /** A full pool has a frame. */
  lemma SomeUnpinned(frames: Frames, capacity: nat)
    requires 1 <= capacity && forall k :: k in frames ==> frames[k].pins == 0
    ensures !(|frames.Keys| >= capacity && forall k :: k in frames ==> frames[k].pins > 0)
  {
    if |frames.Keys| >= capacity {
      assert frames.Keys != {};
      var k :| k in frames.Keys;
      assert frames[k].pins == 0;
    }
  }

  lemma StaySame(frames: Frames)
    ensures PinnedStay(frames, frames)
  {
  }

  lemma StayTwice(a: Frames, b: Frames, c: Frames)
    requires PinnedStay(a, b) && PinnedStay(b, c) && c.Keys <= b.Keys
    ensures PinnedStay(a, c)
  {
  }

  lemma StayWith(frames: Frames, frames': Frames, key: PageId, f: Frame)
    requires PinnedStay(frames, frames') && key !in frames
    ensures PinnedStay(frames - {key}, frames'[key := f])
  {
  }

  /** Changing a frame's pins and reference bit is invisible. */
  lemma Pinned(disk: Disk, frames: Frames, key: PageId, f: Frame, writing: set<PageId>, r: Replacer)
    requires key in frames && CleanAgrees(disk, frames, writing) && f.data == frames[key].data
    requires f.dirty == frames[key].dirty
    ensures Flat(disk, frames[key := f]) == Flat(disk, frames) && CleanAgrees(disk, frames[key := f], writing)
    ensures PinnedStay(frames - {key}, frames[key := f]) && frames[key := f].Keys == frames.Keys
    ensures Flat(disk, frames)[key] == f.data
  {
  }

  lemma AccessKeeps(r: Replacer, frames: Frames, key: PageId, f: Frame)
    requires key in frames && RecordAccess(r, key).Mirrors(frames)
    ensures RecordAccess(r, key).Mirrors(frames[key := f])
  {
  }

  /** A page as read from disk is what callers already see. */
  lemma Loaded(disk: Disk, frames: Frames, key: PageId, writing: set<PageId>)
    requires key in disk && key !in frames && CleanAgrees(disk, frames, writing)
    ensures var f := Frame(disk[key], false, 0, true);
            && Flat(disk, frames[key := f]) == Flat(disk, frames) && CleanAgrees(disk, frames[key := f], writing)
            && Flat(disk, frames)[key] == disk[key]
  {
  }

  lemma BitsInvisible(disk: Disk, frames: Frames, frames': Frames, writing: set<PageId>)
    requires OnlyBitsCleared(frames, frames') && CleanAgrees(disk, frames, writing)
    ensures Flat(disk, frames') == Flat(disk, frames) && CleanAgrees(disk, frames', writing)
    ensures PinnedStay(frames, frames')
    ensures frames'.Keys == frames.Keys && forall k :: k in frames ==> frames'[k].pins == frames[k].pins
  {
  }

  lemma StayWithout(frames: Frames, frames': Frames, key: PageId)
    requires PinnedStay(frames, frames') && (key in frames ==> frames[key].pins == 0)
    ensures PinnedStay(frames, frames' - {key})
  {
  }

  /** Dropping an unused page after writing it back if dirty changes nothing for callers. */
  lemma Dropped(disk: Disk, frames: Frames, key: PageId, writing: set<PageId>)
    requires key in frames && key !in writing && CleanAgrees(disk, frames, writing)
    ensures var disk' := if frames[key].dirty then disk[key := frames[key].data] else disk;
            Flat(disk', frames - {key}) == Flat(disk, frames) && CleanAgrees(disk', frames - {key}, writing) &&
            disk'.Keys == disk.Keys
  {
  }

  // ------------------------------------------------------------------ any sequence of operations

  datatype Op = Read(key: PageId) | Write(key: PageId, data: seq<Byte>) | Flush | Alloc(key: PageId, zeros: seq<Byte>)

  /** One operation on the flat page map, and what it answers. */
  function FlatStep(pages: Disk, op: Op): Disk {
    match op
    case Read(_) => pages
    case Write(key, data) => if key in pages then pages[key := data] else pages
    case Flush => pages
    case Alloc(key, zeros) => if key in pages then pages else pages[key := zeros]
  }

  function FlatAnswer(pages: Disk, op: Op): Option<seq<Byte>> {
    if op.Read? && op.key in pages then Some(pages[op.key]) else None
  }

  function FlatRun(pages: Disk, ops: seq<Op>): Disk {
    if ops == [] then pages else FlatStep(FlatRun(pages, ops[..|ops| - 1]), ops[|ops| - 1])
  }

  /** Whatever the capacity and policy, callers get the answers of the flat page map. */
  method Run(disk: Disk, capacity: nat, policy: Replacer, ops: seq<Op>)
    returns (answers: seq<Option<seq<Byte>>>, final: Disk)
    requires policy.Listed() == []
    ensures |answers| == |ops|
    ensures forall i :: 0 <= i < |ops| ==> answers[i] == FlatAnswer(FlatRun(disk, ops[..i]), ops[i])
    ensures final == FlatRun(disk, ops)
  {
    var pool := new Pool(disk, capacity, policy);
    hide Pool.Valid, Pool.Unpinned, Pool.View, FlatAnswer, FlatRun;
    answers := RunOn(pool, ops);
    pool.FlushAll();
    final := pool.disk;
  }

  method RunOn(pool: Pool, ops: seq<Op>) returns (answers: seq<Option<seq<Byte>>>)
    requires pool.Valid() && pool.Unpinned()
    modifies pool
    ensures pool.Valid() && pool.Unpinned() && pool.View() == FlatRun(old(pool.View()), ops)
    ensures |answers| == |ops|
    ensures forall i :: 0 <= i < |ops| ==> answers[i] == FlatAnswer(FlatRun(old(pool.View()), ops[..i]), ops[i])
  {
    hide Pool.Valid, Pool.Unpinned, Pool.View, FlatAnswer, FlatStep, FlatRun;
    ghost var start := pool.View();
    FlatRunStart(start, ops);
    answers := [];
    for i := 0 to |ops|
      invariant pool.Valid() && pool.Unpinned() && pool.View() == FlatRun(start, ops[..i])
      invariant |answers| == i && forall j :: 0 <= j < i ==> answers[j] == FlatAnswer(FlatRun(start, ops[..j]), ops[j])
    {
      FlatRunStep(start, ops, i);
      var answer := Do(pool, ops[i]);
      answers := answers + [answer];
    }
    assert ops[..|ops|] == ops;
  }

  lemma FlatRunStart(pages: Disk, ops: seq<Op>)
    ensures FlatRun(pages, ops[..0]) == pages
  {
  }

  lemma FlatRunStep(pages: Disk, ops: seq<Op>, i: nat)
    requires i < |ops|
    ensures FlatRun(pages, ops[..i + 1]) == FlatStep(FlatRun(pages, ops[..i]), ops[i])
  {
    assert ops[..i + 1][..i] == ops[..i];
  }

  method Do(pool: Pool, op: Op) returns (answer: Option<seq<Byte>>)
    requires pool.Valid() && pool.Unpinned()
    modifies pool
    ensures pool.Valid() && pool.Unpinned()
    ensures pool.View() == FlatStep(old(pool.View()), op) && answer == FlatAnswer(old(pool.View()), op)
  {
    hide Replacer.Mirrors, Flat, CleanAgrees;
    ViewKeys(pool.disk, pool.frames);
    answer := None;
    match op {
      case Read(key) =>
        answer := pool.ReadPage(key);
      case Write(key, data) =>
        var ok := pool.WithPage(key, _ => data);
      case Flush =>
        pool.FlushAll();
      case Alloc(key, zeros) =>
        if key !in pool.disk {
          pool.AllocPage(key, zeros);
        }
    }
  }
}
