/** What the two queue policies have kept after any run of loads, accesses and removals. */
module ReplacerRuns {
  import opened Options
  import opened Replacer

  datatype Event = Load(key: PageId) | Access(key: PageId) | Remove(key: PageId)

  function After(r: Replacer, e: Event): Replacer {
    match e
    case Load(key) => r.Push(key)
    case Access(key) => RecordAccess(r, key)
    case Remove(key) => Forget(r, key)
  }

  function Runs(r: Replacer, es: seq<Event>): Replacer {
    if es == [] then r else After(Runs(r, es[..|es| - 1]), es[|es| - 1])
  }

  /** The page is in the pool: its last load has not been followed by a removal. */
  predicate Resident(es: seq<Event>, key: PageId) {
    es != [] &&
    var e := es[|es| - 1];
    if e.key == key && !e.Access? then e.Load? else Resident(es[..|es| - 1], key)
  }

  /** Only pages that are absent are loaded. */
  predicate Proper(es: seq<Event>) {
    forall i :: 0 <= i < |es| && es[i].Load? ==> !Resident(es[..i], es[i].key)
  }

  /** The events the policy goes by: LRU by loads and accesses, FIFO by loads alone. */
  predicate Counts(lru: bool, e: Event) {
    e.Load? || (lru && e.Access?)
  }

  /** The last event of the page that counts. */
  ghost predicate UsedAt(lru: bool, es: seq<Event>, key: PageId, i: int) {
    && 0 <= i < |es| && es[i].key == key && Counts(lru, es[i])
    && forall j :: i < j < |es| ==> !(es[j].key == key && Counts(lru, es[j]))
  }

  ghost predicate Distinct(s: seq<PageId>) {
    forall a, b :: 0 <= a < b < |s| ==> s[a] != s[b]
  }

  ghost predicate ByUse(lru: bool, es: seq<Event>, order: seq<PageId>) {
    forall a, b, i, j :: 0 <= a < b < |order| && UsedAt(lru, es, order[a], i) && UsedAt(lru, es, order[b], j) ==> i < j
  }

  ghost predicate ListsResident(es: seq<Event>, order: seq<PageId>) {
    Distinct(order) && (forall k :: k in order <==> Resident(es, k))
  }

  /** Another event leaves the last use of a page where it was. */
  lemma UseStays(lru: bool, es: seq<Event>, e: Event, key: PageId, i: int)
    requires e.key != key || !Counts(lru, e)
    ensures UsedAt(lru, es + [e], key, i) <==> UsedAt(lru, es, key, i)
  {
    var all := es + [e];
    assert all[|es|] == e && forall j :: 0 <= j < |es| ==> all[j] == es[j];
  }

  lemma UsedNow(lru: bool, es: seq<Event>, e: Event, i: int)
    requires Counts(lru, e)
    ensures UsedAt(lru, es + [e], e.key, i) <==> i == |es|
  {
    var all := es + [e];
    assert all[|es|] == e;
  }

  ghost predicate Earlier(order: seq<PageId>, p: PageId, q: PageId) {
    exists x, y :: 0 <= x < y < |order| && order[x] == p && order[y] == q
  }

  ghost predicate SameOrder(order: seq<PageId>, kept: seq<PageId>) {
    forall a, b :: 0 <= a < b < |kept| ==> Earlier(order, kept[a], kept[b])
  }

  /** A page that is used goes to the end. */
  lemma ByUseNow(lru: bool, es: seq<Event>, e: Event, order: seq<PageId>, kept: seq<PageId>)
    requires ByUse(lru, es, order) && Counts(lru, e) && e.key !in kept && SameOrder(order, kept)
    ensures ByUse(lru, es + [e], kept + [e.key])
  {
    var all, after := es + [e], kept + [e.key];
    forall a, b, i, j | 0 <= a < b < |after| && UsedAt(lru, all, after[a], i) && UsedAt(lru, all, after[b], j)
      ensures i < j
    {
      assert after[a] in kept;
      UseStays(lru, es, e, after[a], i);
      if b == |kept| {
        UsedNow(lru, es, e, j);
      } else {
        assert after[b] in kept;
        UseStays(lru, es, e, after[b], j);
        assert Earlier(order, kept[a], kept[b]);
      }
    }
  }

  /** An event that does not count for any page kept leaves their order right. */
  lemma ByUseStill(lru: bool, es: seq<Event>, e: Event, order: seq<PageId>, kept: seq<PageId>)
    requires ByUse(lru, es, order) && (!Counts(lru, e) || e.key !in kept) && SameOrder(order, kept)
    ensures ByUse(lru, es + [e], kept)
  {
    var all := es + [e];
    forall a, b, i, j | 0 <= a < b < |kept| && UsedAt(lru, all, kept[a], i) && UsedAt(lru, all, kept[b], j)
      ensures i < j
    {
      assert kept[a] in kept && kept[b] in kept;
      UseStays(lru, es, e, kept[a], i);
      UseStays(lru, es, e, kept[b], j);
      assert Earlier(order, kept[a], kept[b]);
    }
  }

  /** Taking one page out keeps the order of the others. */
  lemma KeptOrder(order: seq<PageId>, n: nat)
    requires n < |order|
    ensures SameOrder(order, RemoveAt(order, n))
  {
    var kept := RemoveAt(order, n);
    forall a, b | 0 <= a < b < |kept|
      ensures Earlier(order, kept[a], kept[b])
    {
      var x, y := if a < n then a else a + 1, if b < n then b else b + 1;
      assert order[x] == kept[a] && order[y] == kept[b];
    }
  }

  function Queue(lru: bool, order: seq<PageId>): Replacer {
    if lru then Lru(order) else Fifo(order)
  }

  lemma ResidentNext(es: seq<Event>, e: Event)
    ensures forall k :: Resident(es + [e], k) <==> if k == e.key && !e.Access? then e.Load? else Resident(es, k)
  {
    assert (es + [e])[..|es|] == es;
  }

  /** The pages that keep their place at an event. */
  function Kept(lru: bool, order: seq<PageId>, e: Event): seq<PageId> {
    var n := Find(order, e.key);
    if n < |order| && (e.Remove? || (lru && e.Access?)) then RemoveAt(order, n) else order
  }

  lemma KeptPages(lru: bool, order: seq<PageId>, e: Event)
    requires Distinct(order)
    ensures var kept := Kept(lru, order, e);
            && Distinct(kept) && SameOrder(order, kept)
            && (e.Remove? || (lru && e.Access?) ==> forall k :: k in kept <==> k in order && k != e.key)
  {
    hide RemoveAt;
    var n := Find(order, e.key);
    assert SameOrder(order, order);
    if n < |order| {
      RemoveAtFacts(order, n);
      KeptOrder(order, n);
    }
  }

  lemma NextOrder(lru: bool, order: seq<PageId>, e: Event)
    ensures var r := After(Queue(lru, order), e);
            && !r.Clock? && r == Queue(lru, r.order)
            && r.order == Kept(lru, order, e) + if e.Load? || (lru && e.Access? && e.key in order) then [e.key] else []
  {
  }

  lemma StepQueue(lru: bool, es: seq<Event>, e: Event, order: seq<PageId>)
    requires ListsResident(es, order) && ByUse(lru, es, order) && (e.Load? ==> !Resident(es, e.key))
    ensures var r := After(Queue(lru, order), e);
            && !r.Clock? && r == Queue(lru, r.order)
            && ListsResident(es + [e], r.order) && ByUse(lru, es + [e], r.order)
  {
    hide ByUse, Kept, After, SameOrder, Resident, Queue;
    var kept := Kept(lru, order, e);
    ResidentNext(es, e);
    KeptPages(lru, order, e);
    NextOrder(lru, order, e);
    if e.Load? {
      NothingLeaves(lru, order, e);
    }
    if e.Load? || (lru && e.Access? && e.key in order) {
      ByUseNow(lru, es, e, order, kept);
    } else {
      assert kept + [] == kept;
      if e.Access? {
        NothingGained(lru, order, e);
      }
      ByUseStill(lru, es, e, order, kept);
    }
  }

  lemma NothingLeaves(lru: bool, order: seq<PageId>, e: Event)
    requires e.Load?
    ensures Kept(lru, order, e) == order
  {
  }

  lemma NothingGained(lru: bool, order: seq<PageId>, e: Event)
    requires e.Access? && !(lru && e.key in order)
    ensures Kept(lru, order, e) == order
  {
  }

  lemma NothingUsed(lru: bool)
    ensures ListsResident([], []) && ByUse(lru, [], [])
  {
  }

  lemma {:induction false} RunQueue(lru: bool, es: seq<Event>)
    requires Proper(es)
    ensures var r := Runs(Queue(lru, []), es);
            !r.Clock? && r == Queue(lru, r.order) && ListsResident(es, r.order) && ByUse(lru, es, r.order)
    decreases |es|
  {
    hide ByUse, ListsResident, After;
    NothingUsed(lru);
    if es != [] {
      var n := |es| - 1;
      assert Proper(es[..n]) by {
        assert forall i :: 0 <= i < n ==> es[..n][..i] == es[..i];
      }
      RunQueue(lru, es[..n]);
      var before := Runs(Queue(lru, []), es[..n]);
      StepQueue(lru, es[..n], es[n], before.order);
      assert es[..n] + [es[n]] == es;
    }
  }

  /**
   The victim is, of all pages that may go, the one whose last use lies furthest back: whatever the run before,
   every other page that could have gone was used later. A use is a load or an access under LRU, a load under FIFO.
   */
  method EvictsLeastRecent(lru: bool, es: seq<Event>, frames: Frames) returns (victim: Option<PageId>)
    requires Proper(es) && forall k :: k in frames <==> Resident(es, k)
    ensures victim.None? <==> forall k :: k in frames ==> frames[k].pins > 0
    ensures victim.Some? ==> Evictable(frames, victim.value)
    ensures victim.Some? ==>
              forall k, i, j ::
                Evictable(frames, k) && k != victim.value &&
                UsedAt(lru, es, victim.value, i) && UsedAt(lru, es, k, j) ==>
                  i < j
  {
    hide ByUse, UsedAt;
    RunQueue(lru, es);
    var r := Runs(Queue(lru, []), es);
    var r', frames';
    victim, r', frames' := ChooseVictim(r, frames);
    if victim.Some? {
      OldestGoes(lru, es, r.order, frames, victim.value);
    }
  }

  lemma OldestGoes(lru: bool, es: seq<Event>, order: seq<PageId>, frames: Frames, victim: PageId)
    requires ByUse(lru, es, order) && (forall k :: k in frames ==> k in order) && Evictable(frames, victim)
    requires forall i, j :: 0 <= j < i < |order| && order[i] == victim ==> !Evictable(frames, order[j])
    ensures forall k, i, j ::
              Evictable(frames, k) && k != victim && UsedAt(lru, es, victim, i) && UsedAt(lru, es, k, j) ==> i < j
  {
    forall k, i, j | Evictable(frames, k) && k != victim && UsedAt(lru, es, victim, i) && UsedAt(lru, es, k, j)
      ensures i < j
    {
      var a :| 0 <= a < |order| && order[a] == victim;
      var b :| 0 <= b < |order| && order[b] == k;
    }
  }

  /** Every page in the pool has been used, so the comparison above speaks of all of them. */
  lemma {:induction false} ResidentIsUsed(lru: bool, es: seq<Event>, key: PageId) returns (i: int)
    requires Resident(es, key)
    ensures UsedAt(lru, es, key, i)
    decreases |es|
  {
    var n := |es| - 1;
    if es[n].key == key && Counts(lru, es[n]) {
      i := n;
    } else {
      i := ResidentIsUsed(lru, es[..n], key);
      UseStays(lru, es[..n], es[n], key, i);
      assert es[..n] + [es[n]] == es;
    }
  }
}
