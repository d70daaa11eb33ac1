/** What a thread can do in the pool, whatever has happened before: read a page, write one, flush them all. */
module PoolRuns {
  import opened Options
  import opened Bytes
  import Replacer
  import opened PoolProtocol

  /** The page's frame is not latched, or a frame can be had for it: a free one, or a victim's. */
  predicate AtHand(w: World, t: Tid, key: Replacer.PageId, n: FrameNo, victim: Option<Replacer.PageId>) {
    && PcOf(w, t).Idle? && key in w.disk
    && if key in w.table then w.table[key] in w.frames && w.frames[w.table[key]].latch.None?
       else
         && n !in w.frames
         && if |w.table| >= w.capacity then victim.Some? && Evictable(w, victim.value) else victim.None?
  }

  /** One more step of a run. */
  lemma Goes(w: World, acts: seq<Action>, w1: World, a: Action) returns (acts': seq<Action>, w': World)
    requires Steps(w, acts, w1) && Good(w1) && Enabled(w1, a) && PinInTime(w1, a)
    ensures acts' == acts + [a] && w' == Next(w1, a) && Steps(w, acts', w') && Good(w')
  {
    hide Good, Enabled, Next, PinInTime, Steps;
    acts', w' := acts + [a], Next(w1, a);
    Then(w, acts, w1, a);
    StepGood(w1, a);
  }

  lemma Stays(w: World)
    ensures Steps(w, [], w)
  {
  }

  /** The thread holds a pin on the page's frame, and nobody has its latch. */
  predicate Pinned(w: World, t: Tid, key: Replacer.PageId) {
    PcOf(w, t).Held? && PcOf(w, t).f in w.frames && w.frames[PcOf(w, t).f].key == key &&
    w.frames[PcOf(w, t).f].latch.None?
  }

  lemma Hits(w: World, t: Tid, key: Replacer.PageId) returns (acts: seq<Action>, w': World)
    requires Good(w) && PcOf(w, t).Idle? && key in w.table
    requires w.table[key] in w.frames && w.frames[w.table[key]].latch.None?
    ensures Steps(w, acts, w') && Good(w') && Pinned(w', t, key) && w'.pages == w.pages
  {
    hide Good, Steps;
    Stays(w);
    TableAt(w, key);
    acts, w' := Goes(w, [], w, Hit(t, key));
  }

  lemma Loads(w: World, t: Tid, key: Replacer.PageId, n: FrameNo, victim: Option<Replacer.PageId>)
    returns (acts: seq<Action>, w': World)
    requires Good(w) && key !in w.table && AtHand(w, t, key, n, victim)
    ensures Steps(w, acts, w') && Good(w') && Pinned(w', t, key) && w'.pages == w.pages
  {
    hide Good, Steps;
    Stays(w);
    acts, w' := Goes(w, [], w, Miss(t, key, n, victim));
    assert PcOf(w', t) == Loaded(n) && Resident(w', n) && w'.frames[n].key == key && w'.frames[n].latch.None?;
    acts, w' := Goes(w, acts, w', Pin(t));
  }

  /** A thread gets hold of a page under its latch, and what it finds there is the page. */
  lemma Reaches(w: World, t: Tid, key: Replacer.PageId, n: FrameNo, victim: Option<Replacer.PageId>)
    returns (acts: seq<Action>, w': World)
    requires Good(w) && AtHand(w, t, key, n, victim)
    ensures Steps(w, acts, w') && Good(w') && Reading(w', t, key) && w'.pages == w.pages
    ensures key in w.pages && w'.frames[PcOf(w', t).f].data == w.pages[key]
  {
    hide Good, Steps;
    var w1: World;
    if key in w.table {
      acts, w1 := Hits(w, t, key);
    } else {
      acts, w1 := Loads(w, t, key, n, victim);
    }
    acts, w' := Goes(w, acts, w1, Latch(t));
    ReaderIsCurrent(w', t, key);
  }

  /** A thread can read any page, and leaves everything as it was. */
  lemma ReadAlone(w: World, t: Tid, key: Replacer.PageId, n: FrameNo, victim: Option<Replacer.PageId>)
    returns (enter: seq<Action>, mid: World, leave: seq<Action>, w': World)
    requires Good(w) && AtHand(w, t, key, n, victim)
    ensures Steps(w, enter, mid) && Reading(mid, t, key) && Steps(mid, leave, w')
    ensures key in w.pages && mid.frames[PcOf(mid, t).f].data == w.pages[key]
    ensures Good(w') && PcOf(w', t).Idle? && w'.pages == w.pages
  {
    hide Good, Steps, AtHand;
    enter, mid := Reaches(w, t, key, n, victim);
    Stays(mid);
    leave, w' := Goes(mid, [], mid, Read(t));
    leave, w' := Goes(mid, leave, w', Unlatch(t));
    leave, w' := Goes(mid, leave, w', Unpin(t));
  }

  /** A thread can write any page; whoever looks it up then sees what was written, and no other page has changed. */
  lemma WriteAlone(w: World, t: Tid, key: Replacer.PageId, n: FrameNo, victim: Option<Replacer.PageId>, data: seq<Byte>)
    returns (enter: seq<Action>, mid: World, leave: seq<Action>, w': World)
    requires Good(w) && AtHand(w, t, key, n, victim)
    ensures Steps(w, enter, mid) && Steps(mid, leave, w')
    ensures Good(w') && PcOf(w', t).Idle? && w'.pages == w.pages[key := data]
    ensures forall k :: View(w', k) == if k == key then Some(data) else View(w, k)
  {
    hide Good, Steps, AtHand, View;
    enter, mid := Reaches(w, t, key, n, victim);
    Stays(mid);
    leave, w' := Goes(mid, [], mid, Change(t, data));
    leave, w' := Goes(mid, leave, w', Mark(t));
    leave, w' := Goes(mid, leave, w', Unlatch(t));
    leave, w' := Goes(mid, leave, w', Unpin(t));
    forall k
      ensures View(w', k) == if k == key then Some(data) else View(w, k)
    {
      ViewIsPages(w, k);
      ViewIsPages(w', k);
    }
  }

  // ------------------------------------------------------------------ flushing

  ghost predicate Unlatched(w: World) {
    forall f :: f in w.frames ==> w.frames[f].latch.None?
  }

  /** Every dirty frame of the page table is still to be written. */
  ghost predicate Left(w: World, rest: set<FrameNo>) {
    forall key :: key in w.table && w.table[key] in w.frames && w.frames[w.table[key]].dirty ==> w.table[key] in rest
  }

  lemma {:induction false} FlushRest(w: World, t: Tid, rest: set<FrameNo>) returns (acts: seq<Action>, w': World)
    requires Good(w) && PcOf(w, t).Flushing? && rest <= PcOf(w, t).fs && Unlatched(w) && Left(w, rest)
    ensures Steps(w, acts, w') && Good(w') && PcOf(w', t).Flushing? && Unlatched(w') && Left(w', {})
    ensures w'.pages == w.pages
    decreases |rest|
  {
    hide Good, Steps;
    Stays(w);
    acts, w' := [], w;
    if rest != {} {
      var f :| f in rest;
      PinnedKey(w, t, f);
      var first, w1 := Goes(w, [], w, FlushOne(t, f));
      assert Unlatched(w1) && Left(w1, rest - {f});
      var more, w2 := FlushRest(w1, t, rest - {f});
      Join(w, first, w1, more, w2);
      acts, w' := first + more, w2;
    }
  }

  lemma CleanIsSaved(w: World)
    requires Good(w) && Unlatched(w) && Left(w, {})
    ensures w.disk == w.pages
  {
    assert w.disk.Keys == w.pages.Keys;
    forall key | key in w.disk
      ensures w.disk[key] == w.pages[key]
    {
      if key in w.table {
        assert FrameOk(w, w.table[key]);
      }
    }
  }

  /** A flush nobody interferes with leaves the pages on disk. */
  lemma FlushAlone(w: World, t: Tid) returns (acts: seq<Action>, w': World)
    requires Good(w) && PcOf(w, t).Idle? && Unlatched(w)
    ensures Steps(w, acts, w') && Good(w') && PcOf(w', t).Idle? && w'.pages == w.pages && w'.disk == w.pages
  {
    hide Good, Steps;
    Stays(w);
    var first, w1 := Goes(w, [], w, FlushStart(t));
    assert Unlatched(w1) && Left(w1, PcOf(w1, t).fs);
    var more, w2 := FlushRest(w1, t, PcOf(w1, t).fs);
    Join(w, first, w1, more, w2);
    acts, w' := Goes(w, first + more, w2, FlushEnd(t));
    assert Unlatched(w') && Left(w', {});
    CleanIsSaved(w');
  }
}
