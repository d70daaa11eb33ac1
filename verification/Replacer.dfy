/** The three eviction policies of the buffer pool. They keep an order; pins and reference bits live on the frames. */
module Replacer {
  import opened Options
  import opened Bytes

  datatype PageId = PageId(file: nat, no: nat)

  /** A cached page. */
  datatype Frame = Frame(data: seq<Byte>, dirty: bool, pins: nat, accessed: bool)

  type Frames = map<PageId, Frame>

  datatype Replacer =
    | Lru(order: seq<PageId>)
    | Fifo(order: seq<PageId>)
    | Clock(ring: seq<PageId>, hand: nat)
  {
    function Listed(): seq<PageId> {
      if Clock? then ring else order
    }

    /** Every resident page is registered exactly once. */
    ghost predicate Mirrors(frames: Frames) {
      && (forall i, j :: 0 <= i < j < |Listed()| ==> Listed()[i] != Listed()[j])
      && (forall k :: k in Listed() <==> k in frames)
    }

    function Push(key: PageId): Replacer {
      match this
      case Lru(order) => Lru(order + [key])
      case Fifo(order) => Fifo(order + [key])
      case Clock(ring, hand) => Clock(ring + [key], hand)
    }
  }

  function RemoveAt(s: seq<PageId>, i: nat): seq<PageId>
    requires i < |s|
  {
    s[..i] + s[i + 1..]
  }

  function Find(s: seq<PageId>, key: PageId): (i: nat)
    ensures i <= |s| && (i < |s| ==> s[i] == key) && forall j :: 0 <= j < i ==> s[j] != key
  {
    if s == [] || s[0] == key then 0 else 1 + Find(s[1..], key)
  }

  /** Only LRU reorders on a hit. */
  function RecordAccess(r: Replacer, key: PageId): Replacer {
    if r.Lru? && Find(r.order, key) < |r.order| then Lru(RemoveAt(r.order, Find(r.order, key)) + [key]) else r
  }

  function Forget(r: Replacer, key: PageId): Replacer {
    var i := Find(r.Listed(), key);
    if i == |r.Listed()| then r else
      match r
      case Lru(order) => Lru(RemoveAt(order, i))
      case Fifo(order) => Fifo(RemoveAt(order, i))
      case Clock(ring, hand) =>
        var ring' := RemoveAt(ring, i);
        Clock(ring', if hand >= |ring'| then 0 else hand)
  }

  lemma RemoveAtFacts(s: seq<PageId>, i: nat)
    requires i < |s| && forall a, b :: 0 <= a < b < |s| ==> s[a] != s[b]
    ensures forall a, b :: 0 <= a < b < |RemoveAt(s, i)| ==> RemoveAt(s, i)[a] != RemoveAt(s, i)[b]
    ensures forall k :: k in RemoveAt(s, i) <==> k in s && k != s[i]
  {
    var t := RemoveAt(s, i);
    forall k | k in s && k != s[i]
      ensures k in t
    {
      var j :| 0 <= j < |s| && s[j] == k;
      assert t[if j < i then j else j - 1] == k;
    }
  }

  lemma PushMirrors(r: Replacer, frames: Frames, key: PageId, frame: Frame)
    requires r.Mirrors(frames) && key !in frames
    ensures r.Push(key).Mirrors(frames[key := frame])
  {
  }

  lemma RecordAccessMirrors(r: Replacer, frames: Frames, key: PageId)
    requires r.Mirrors(frames)
    ensures RecordAccess(r, key).Mirrors(frames)
  {
    if r.Lru? && Find(r.order, key) < |r.order| {
      assert r.Listed() == r.order;
      RemoveAtFacts(r.order, Find(r.order, key));
    }
  }

  lemma ForgetMirrors(r: Replacer, frames: Frames, key: PageId)
    requires r.Mirrors(frames)
    ensures Forget(r, key).Mirrors(frames - {key})
  {
    var i := Find(r.Listed(), key);
    if i < |r.Listed()| {
      RemoveAtFacts(r.Listed(), i);
      assert Forget(r, key).Listed() == RemoveAt(r.Listed(), i);
    }
  }

  // ------------------------------------------------------------------ choosing a victim

  /** A page may be evicted when it is resident and nobody uses it. */
  predicate Evictable(frames: Frames, key: PageId) {
    key in frames && frames[key].pins == 0
  }

  /** The frames differ at most in cleared reference bits of unpinned pages. */
  ghost predicate OnlyBitsCleared(frames: Frames, frames': Frames) {
    && frames'.Keys == frames.Keys
    && forall k :: k in frames ==>
       frames'[k] == frames[k] || (frames[k].pins == 0 && frames'[k] == frames[k].(accessed := false))
  }

  /** The oldest evictable page of a queue is taken out; pinned ones keep their place. */
  method PickOldest(order: seq<PageId>, frames: Frames) returns (victim: Option<PageId>, order': seq<PageId>)
    ensures victim.None? ==> order' == order && forall k :: k in order ==> !Evictable(frames, k)
    ensures victim.Some? ==>
              exists i :: 0 <= i < |order| && order[i] == victim.value && order' == RemoveAt(order, i) &&
                          Evictable(frames, order[i]) && forall j :: 0 <= j < i ==> !Evictable(frames, order[j])
  {
    var i := 0;
    while i < |order| && !Evictable(frames, order[i])
      invariant i <= |order|
      invariant forall j :: 0 <= j < i ==> !Evictable(frames, order[j])
    {
      i := i + 1;
    }
    if i == |order| {
      return None, order;
    }
    victim, order' := Some(order[i]), RemoveAt(order, i);
  }

  /** Ring position visited in step `t` of a sweep that starts at `h`. */
  function At(h: nat, t: nat, n: nat): nat
    requires h < n && t <= 2 * n
  {
    if h + t < n then h + t else if h + t < 2 * n then h + t - n else h + t - 2 * n
  }

  /** Seen in an earlier step, a page is pinned or has used up its second chance. */
  ghost predicate Passed(ring: seq<PageId>, frames: Frames, h: nat, t: nat)
    requires h < |ring|
  {
    forall s :: 0 <= s < t && s <= 2 * |ring| && At(h, s, |ring|) < |ring| ==>
      var k := ring[At(h, s, |ring|)];
      !Evictable(frames, k) || !frames[k].accessed
  }

  /** Steps of a second round can only meet pinned pages. */
  ghost predicate PinnedFrom(ring: seq<PageId>, frames: Frames, h: nat, t: nat)
    requires h < |ring|
  {
    forall s :: |ring| <= s < t && s <= 2 * |ring| && At(h, s, |ring|) < |ring| ==>
      !Evictable(frames, ring[At(h, s, |ring|)])
  }

  lemma AtNext(h: nat, t: nat, n: nat)
    requires h < n && t < 2 * n
    ensures At(h, t, n) < n && At(h, t + 1, n) == if At(h, t, n) + 1 == n then 0 else At(h, t, n) + 1
  {
  }

  /** Meeting a pinned page. */
  lemma SkipPinned(ring: seq<PageId>, frames: Frames, h: nat, t: nat)
    requires h < |ring| && t <= 2 * |ring| && At(h, t, |ring|) < |ring| && !Evictable(frames, ring[At(h, t, |ring|)])
    requires Passed(ring, frames, h, t) && PinnedFrom(ring, frames, h, t)
    ensures Passed(ring, frames, h, t + 1) && PinnedFrom(ring, frames, h, t + 1)
  {
  }

  /** Taking away a second chance; this happens in the first round only. */
  lemma ClearOne(ring: seq<PageId>, frames: Frames, frames0: Frames, h: nat, t: nat, key: PageId)
    requires h < |ring| && t < |ring| && At(h, t, |ring|) < |ring| && key == ring[At(h, t, |ring|)] && key in frames
    requires frames[key].pins == 0
    requires Passed(ring, frames, h, t) && OnlyBitsCleared(frames0, frames)
    ensures var frames' := frames[key := frames[key].(accessed := false)];
            Passed(ring, frames', h, t + 1) && PinnedFrom(ring, frames', h, t + 1) && OnlyBitsCleared(frames0, frames')
  {
  }

  /** The pages met in the first `t` steps of the first round were pinned or had been referenced. */
  ghost predicate Spared(ring: seq<PageId>, frames: Frames, h: nat, t: nat)
    requires h < |ring|
  {
    forall s :: 0 <= s < t && s < |ring| && At(h, s, |ring|) < |ring| ==>
      var k := ring[At(h, s, |ring|)];
      !Evictable(frames, k) || frames[k].accessed
  }

  /** Pages not met yet are as they were. */
  ghost predicate Unmet(ring: seq<PageId>, frames: Frames, frames': Frames, h: nat, t: nat)
    requires h < |ring|
  {
    forall s :: t <= s < |ring| && At(h, s, |ring|) < |ring| ==>
      var k := ring[At(h, s, |ring|)];
      k in frames && k in frames' && frames'[k] == frames[k]
  }

  /**
   The second-chance rule: the victim is the first unpinned page from the hand on that was not referenced;
   if all unpinned pages were referenced, it is the first unpinned one.
   */
  ghost predicate SecondChance(ring: seq<PageId>, frames: Frames, h: nat, t: nat, victim: PageId)
    requires h < |ring| && t <= 2 * |ring|
  {
    && At(h, t, |ring|) < |ring| && ring[At(h, t, |ring|)] == victim && Evictable(frames, victim)
    && Spared(ring, frames, h, t)
    && (t < |ring| ==> !frames[victim].accessed)
    && PinnedFrom(ring, frames, h, t)
  }

  ghost predicate ByRule(ring: seq<PageId>, hand: nat, frames: Frames, victim: PageId) {
    && 0 < |ring|
    && var h := if hand < |ring| then hand else 0;
       exists t: nat | t <= 2 * |ring| :: SecondChance(ring, frames, h, t, victim)
  }

  /** What holds before step `t` of a sweep that started at `h`. */
  ghost predicate Sweeping(ring: seq<PageId>, frames: Frames, frames': Frames, h: nat, t: nat) {
    && h < |ring| && OnlyBitsCleared(frames, frames')
    && Passed(ring, frames', h, t) && PinnedFrom(ring, frames', h, t)
    && Spared(ring, frames, h, t) && Unmet(ring, frames, frames', h, t)
  }

  lemma SweepStart(ring: seq<PageId>, frames: Frames, h: nat)
    requires h < |ring| && forall i :: 0 <= i < |ring| ==> ring[i] in frames
    ensures Sweeping(ring, frames, frames, h, 0)
  {
  }

  lemma MetOne(ring: seq<PageId>, frames: Frames, frames': Frames, h: nat, t: nat, next: Frames)
    requires h < |ring| && t <= 2 * |ring| && At(h, t, |ring|) < |ring|
    requires (forall i, j :: 0 <= i < j < |ring| ==> ring[i] != ring[j])
    requires OnlyBitsCleared(frames, frames') && Spared(ring, frames, h, t) && Unmet(ring, frames, frames', h, t)
    requires var k := ring[At(h, t, |ring|)];
             k in frames' && (!Evictable(frames', k) || frames'[k].accessed) &&
             (forall x :: x in frames' && x != k ==> x in next && next[x] == frames'[x])
    ensures Spared(ring, frames, h, t + 1) && Unmet(ring, frames, next, h, t + 1)
  {
    var n := |ring|;
    forall s | t + 1 <= s < n && At(h, s, n) < n
      ensures var k := ring[At(h, s, n)]; k in frames && k in next && next[k] == frames[k]
    {
      assert At(h, s, n) != At(h, t, n);
    }
  }

  lemma PinnedStep(ring: seq<PageId>, frames: Frames, frames': Frames, h: nat, t: nat)
    requires Sweeping(ring, frames, frames', h, t) && t <= 2 * |ring| && At(h, t, |ring|) < |ring|
    requires (forall i, j :: 0 <= i < j < |ring| ==> ring[i] != ring[j])
    requires var k := ring[At(h, t, |ring|)]; k in frames' && frames'[k].pins > 0
    ensures Sweeping(ring, frames, frames', h, t + 1)
  {
    hide OnlyBitsCleared, Passed, PinnedFrom, Spared, Unmet;
    SkipPinned(ring, frames', h, t);
    MetOne(ring, frames, frames', h, t, frames');
  }

  lemma ClearedStep(ring: seq<PageId>, frames: Frames, frames': Frames, h: nat, t: nat)
    requires Sweeping(ring, frames, frames', h, t) && t <= 2 * |ring| && At(h, t, |ring|) < |ring|
    requires (forall i, j :: 0 <= i < j < |ring| ==> ring[i] != ring[j])
    requires var k := ring[At(h, t, |ring|)]; k in frames' && frames'[k].pins == 0 && frames'[k].accessed
    ensures var k := ring[At(h, t, |ring|)];
            t < |ring| && Sweeping(ring, frames, frames'[k := frames'[k].(accessed := false)], h, t + 1)
  {
    hide OnlyBitsCleared, Passed, PinnedFrom, Spared, Unmet;
    if t >= |ring| {
      SecondRound(ring, frames', h, t);
      assert false;
    }
    var k := ring[At(h, t, |ring|)];
    ClearOne(ring, frames', frames, h, t, k);
    MetOne(ring, frames, frames', h, t, frames'[k := frames'[k].(accessed := false)]);
  }

  lemma Struck(ring: seq<PageId>, hand: nat, frames: Frames, frames': Frames, h: nat, t: nat)
    requires Sweeping(ring, frames, frames', h, t) && t <= 2 * |ring| && At(h, t, |ring|) < |ring|
    requires h == if hand < |ring| then hand else 0
    requires var k := ring[At(h, t, |ring|)]; k in frames' && frames'[k].pins == 0 && !frames'[k].accessed
    ensures Evictable(frames, ring[At(h, t, |ring|)]) && ByRule(ring, hand, frames, ring[At(h, t, |ring|)])
  {
    assert SecondChance(ring, frames, h, t, ring[At(h, t, |ring|)]);
  }

  lemma SweepFacts(ring: seq<PageId>, frames: Frames, frames': Frames, h: nat, t: nat)
    requires Sweeping(ring, frames, frames', h, t)
    ensures OnlyBitsCleared(frames, frames') && frames'.Keys == frames.Keys
    ensures t == 2 * |ring| + 1 ==> forall k :: k in ring ==> !Evictable(frames, k)
  {
    hide Passed, Spared, Unmet, PinnedFrom;
    if t == 2 * |ring| + 1 {
      AllPinned(ring, frames', h);
    }
  }

  /** Within two rounds the second-chance sweep finds a victim, unless every page is pinned. */
  method Sweep(ring: seq<PageId>, hand: nat, frames: Frames)
    returns (victim: Option<PageId>, ring': seq<PageId>, hand': nat, frames': Frames)
    requires forall i :: 0 <= i < |ring| ==> ring[i] in frames
    requires forall i, j :: 0 <= i < j < |ring| ==> ring[i] != ring[j]
    ensures OnlyBitsCleared(frames, frames')
    ensures victim.None? ==> ring' == ring && forall k :: k in ring ==> !Evictable(frames, k)
    ensures victim.Some? ==>
              Evictable(frames, victim.value) &&
              exists i :: 0 <= i < |ring| && ring[i] == victim.value && ring' == RemoveAt(ring, i) &&
                          hand' == if i < |ring'| then i else 0
    ensures victim.Some? ==> ByRule(ring, hand, frames, victim.value)
  {
    hide OnlyBitsCleared, Sweeping, ByRule;
    var n := |ring|;
    hand', frames' := hand, frames;
    if n == 0 {
      SameBits(frames);
      return None, ring, hand', frames';
    }
    if hand' >= n {
      hand' := 0;
    }
    ghost var h := hand';
    var t := 0;
    SweepStart(ring, frames, h);
    while t < 2 * n + 1
      invariant 0 <= t <= 2 * n + 1 && hand' <= n
      invariant t <= 2 * n ==> (if hand' == n then 0 else hand') == At(h, t, n)
      invariant Sweeping(ring, frames, frames', h, t)
    {
      if hand' >= n {
        hand' := 0;
      }
      var key := ring[hand'];
      SweepFacts(ring, frames, frames', h, t);
      if t < 2 * n {
        AtNext(h, t, n);
      }
      if frames'[key].pins > 0 {
        PinnedStep(ring, frames, frames', h, t);
        hand', t := hand' + 1, t + 1;
        continue;
      }
      if frames'[key].accessed {
        ClearedStep(ring, frames, frames', h, t);
        frames' := frames'[key := frames'[key].(accessed := false)];
        hand', t := hand' + 1, t + 1;
        continue;
      }
      Struck(ring, hand, frames, frames', h, t);
      victim, ring' := Some(key), RemoveAt(ring, hand');
      if hand' >= |ring'| {
        hand' := 0;
      }
      return;
    }
    SweepFacts(ring, frames, frames', h, t);
    return None, ring, hand', frames';
  }

  lemma SameBits(frames: Frames)
    ensures OnlyBitsCleared(frames, frames)
  {
  }

  /** In the second round a page met before has no second chance left. */
  lemma SecondRound(ring: seq<PageId>, frames: Frames, h: nat, t: nat)
    requires h < |ring| && t <= 2 * |ring| && Passed(ring, frames, h, t) && |ring| <= t
    ensures At(h, t, |ring|) < |ring|
    ensures (!Evictable(frames, ring[At(h, t, |ring|)]) || !frames[ring[At(h, t, |ring|)]].accessed)
  {
    var s := t - |ring|;
    assert At(h, s, |ring|) == At(h, t, |ring|);
  }

  lemma AllPinned(ring: seq<PageId>, frames: Frames, h: nat)
    requires h < |ring| && PinnedFrom(ring, frames, h, 2 * |ring| + 1)
    ensures forall k :: k in ring ==> !Evictable(frames, k)
  {
    var n := |ring|;
    forall i | 0 <= i < n
      ensures !Evictable(frames, ring[i])
    {
      var s := if i >= h then n + i - h else 2 * n + i - h;
      assert At(h, s, n) == i;
    }
  }

  lemma VictimLeaves(r: Replacer, r': Replacer, frames: Frames, frames': Frames, i: nat)
    requires r.Mirrors(frames) && frames'.Keys == frames.Keys
    requires i < |r.Listed()| && r'.Listed() == RemoveAt(r.Listed(), i)
    ensures r'.Mirrors(frames' - {r.Listed()[i]})
  {
    hide RemoveAt;
    RemoveAtFacts(r.Listed(), i);
  }

  /** None exactly when every registered page is pinned; otherwise an unpinned page leaves the order. */
  method ChooseVictim(r: Replacer, frames: Frames) returns (victim: Option<PageId>, r': Replacer, frames': Frames)
    requires r.Mirrors(frames)
    ensures OnlyBitsCleared(frames, frames')
    ensures victim.None? ==> r'.Mirrors(frames') && forall k :: k in frames ==> frames[k].pins > 0
    ensures victim.Some? ==> Evictable(frames, victim.value) && r'.Mirrors(frames' - {victim.value})
    ensures victim.Some? && !r.Clock? ==> forall i, j :: 0 <= j < i < |r.order| && r.order[i] == victim.value ==>
            !Evictable(frames, r.order[j])
    ensures victim.Some? && r.Clock? ==> ByRule(r.ring, r.hand, frames, victim.value)
  {
    frames' := frames;
    var list := r.Listed();
    assert forall k :: k in frames ==> k in list;
    match r {
      case Lru(order) =>
        var order';
        victim, order' := PickOldest(order, frames);
        r' := Lru(order');
      case Fifo(order) =>
        var order';
        victim, order' := PickOldest(order, frames);
        r' := Fifo(order');
      case Clock(ring, hand) =>
        var ring', hand';
        victim, ring', hand', frames' := Sweep(ring, hand, frames);
        r' := Clock(ring', hand');
    }
    if victim.Some? {
      var i :| 0 <= i < |list| && list[i] == victim.value && r'.Listed() == RemoveAt(list, i);
      VictimLeaves(r, r', frames, frames', i);
    }
  }
}
