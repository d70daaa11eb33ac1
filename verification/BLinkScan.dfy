/** Descents, point lookups and range scans along the leaf chain. */
module BLinkScan {
  import opened Options
  import opened Bytes
  import opened KeyOrder
  import opened BLink
  import opened BLinkReaders
  import opened BLinkTree

  // ------------------------------------------------------------------ progress along a level

  /** Pages of the same level further to the right. */
  ghost function Ahead(pages: Pages, sh: Shape, p: PageNo): set<PageNo>
    requires p in sh.level && p in sh.low
  {
    set q | q in pages && q in sh.level && sh.level[q] == sh.level[p] && Rank(sh, p) < Rank(sh, q)
  }

  lemma RightIsProgress(pages: Pages, sh: Shape, p: PageNo)
    requires Inv(pages, sh) && p in pages && pages[p].high.Some?
    ensures var n := pages[p].next;
            && n in pages && p in sh.level && p in sh.low && n in sh.level && n in sh.low && sh.level[n] == sh.level[p]
            && Ahead(pages, sh, n) < Ahead(pages, sh, p)
  {
    hide Lt;
    assert PageOk(pages, sh, p);
    var n := pages[p].next;
    assert n in Ahead(pages, sh, p) && n !in Ahead(pages, sh, n);
  }

  /** From any page on the way, the descent reaches the leaf whose range contains the key. */
  method Descend(pages: Pages, ghost sh: Shape, start: PageNo, key: Key) returns (p: PageNo)
    requires Inv(pages, sh) && OnTrack(pages, sh, start, key)
    ensures p in pages && pages[p].Leaf? && p in sh.low && Covers(pages, sh, p, key)
  {
    hide Lt, Inv, Ahead;
    p := start;
    LevelOf(pages, sh, p);
    while !Arrived(pages[p], key)
      invariant OnTrack(pages, sh, p, key) && p in sh.level
      decreases sh.level[p], Ahead(pages, sh, p)
    {
      MoveStaysOnTrack(pages, sh, p, key);
      if PastHigh(pages[p], key) {
        RightIsProgress(pages, sh, p);
        p := pages[p].next;
      } else {
        ghost var was := p;
        p := FindChild(pages[p], key);
        LevelOf(pages, sh, p);
      }
    }
  }

  lemma LevelOf(pages: Pages, sh: Shape, p: PageNo)
    requires Inv(pages, sh) && p in pages
    ensures p in sh.level && p in sh.low
  {
    assert PageOk(pages, sh, p);
  }

  // ------------------------------------------------------------------ positions in the leaf chain

  /** A key lies before position `pos` of leaf `p`. */
  ghost predicate Before(pages: Pages, sh: Shape, p: PageNo, pos: nat, k: Key)
    requires p in pages && pages[p].Leaf? && pos <= |pages[p].entries| && p in sh.low
  {
    (sh.low[p].Some? && Lt(k, sh.low[p].value)) || k in pages[p].entries[..pos]
  }

  /** Past its last entry, a leaf has given everything below its high key. */
  lemma LeafExhausted(pages: Pages, sh: Shape, p: PageNo, k: Key)
    requires Inv(pages, sh) && p in pages && pages[p].Leaf? && Holds(pages, k) && p in sh.low
    ensures Before(pages, sh, p, |pages[p].entries|, k) <==> Under(k, pages[p].high)
  {
    Order();
    hide Lt;
    assert PageOk(pages, sh, p);
    var entries := pages[p].entries;
    assert entries[..|entries|] == entries;
    var q :| q in pages && pages[q].Leaf? && k in pages[q].entries;
    assert PageOk(pages, sh, q);
    var i :| 0 <= i < |pages[q].entries| && pages[q].entries[i] == k;
    assert q != p ==> Apart(pages, sh, p, q);
  }

  // ------------------------------------------------------------------ ranges

  datatype Bound = Unbounded | Included(key: seq<Byte>) | Excluded(key: seq<Byte>)

  predicate AfterStart(start: Bound, k: Key) {
    match start
    case Unbounded => true
    case Included(s) => !BytesLess(k.bytes, s)
    case Excluded(s) => BytesLess(s, k.bytes)
  }

  predicate PastEnd(end: Bound, k: Key) {
    match end
    case Unbounded => false
    case Included(e) => BytesLess(e, k.bytes)
    case Excluded(e) => !BytesLess(k.bytes, e)
  }

  predicate Wanted(start: Bound, end: Bound, k: Key) {
    AfterStart(start, k) && !PastEnd(end, k)
  }

  lemma PastEndUpward(end: Bound, a: Key, b: Key)
    requires PastEnd(end, a) && Lt(a, b)
    ensures PastEnd(end, b)
  {
    BytesOrder();
    hide BytesLess;
  }

  /** `out` lists, in order, the wanted keys before position `pos` of leaf `p`. */
  ghost predicate Gathered(pages: Pages, sh: Shape, p: PageNo, pos: nat, start: Bound, end: Bound, out: seq<Key>) {
    && p in pages && pages[p].Leaf? && pos <= |pages[p].entries| && p in sh.low
    && Sorted(out)
    && forall k :: k in out <==> Holds(pages, k) && Wanted(start, end, k) && Before(pages, sh, p, pos, k)
  }

  /** `out` lists, in order, exactly the wanted keys. */
  ghost predicate Complete(pages: Pages, start: Bound, end: Bound, out: seq<Key>) {
    Sorted(out) && forall k :: k in out <==> Holds(pages, k) && Wanted(start, end, k)
  }

  lemma TakeEntry(pages: Pages, sh: Shape, p: PageNo, pos: nat, start: Bound, end: Bound, out: seq<Key>)
    requires Inv(pages, sh) && Gathered(pages, sh, p, pos, start, end, out) && pos < |pages[p].entries|
    ensures var e := pages[p].entries[pos];
            Gathered(pages, sh, p, pos + 1, start, end, if Wanted(start, end, e) then out + [e] else out)
  {
    Order();
    hide Lt, Wanted;
    assert PageOk(pages, sh, p);
    var entries := pages[p].entries;
    var e := entries[pos];
    assert entries[..pos + 1] == entries[..pos] + [e];
    assert Holds(pages, e);
    forall k | k in out
      ensures Lt(k, e)
    {
      if k in entries[..pos] {
        var i :| 0 <= i < pos && entries[i] == k;
      }
    }
  }

  lemma NextLeaf(pages: Pages, sh: Shape, p: PageNo, start: Bound, end: Bound, out: seq<Key>)
    requires Inv(pages, sh) && p in pages && pages[p].Leaf?
    requires Gathered(pages, sh, p, |pages[p].entries|, start, end, out) && pages[p].high.Some?
    ensures Gathered(pages, sh, pages[p].next, 0, start, end, out)
  {
    hide Lt, Wanted, Holds;
    assert PageOk(pages, sh, p);
    var n := pages[p].next;
    assert PageOk(pages, sh, n);
    forall k | Holds(pages, k)
      ensures Before(pages, sh, p, |pages[p].entries|, k) <==> Before(pages, sh, n, 0, k)
    {
      LeafExhausted(pages, sh, p, k);
    }
  }

  lemma ChainEnds(pages: Pages, sh: Shape, p: PageNo, start: Bound, end: Bound, out: seq<Key>)
    requires Inv(pages, sh) && p in pages && pages[p].Leaf?
    requires Gathered(pages, sh, p, |pages[p].entries|, start, end, out) && pages[p].high.None?
    ensures Complete(pages, start, end, out)
  {
    hide Lt, Wanted, Holds, Inv;
    forall k | Holds(pages, k)
      ensures Before(pages, sh, p, |pages[p].entries|, k)
    {
      LeafExhausted(pages, sh, p, k);
    }
  }

  /** Once an entry lies past the end, so does everything not yet seen. */
  lemma StopEarly(pages: Pages, sh: Shape, p: PageNo, pos: nat, start: Bound, end: Bound, out: seq<Key>)
    requires Inv(pages, sh) && Gathered(pages, sh, p, pos, start, end, out) && pos < |pages[p].entries|
    requires PastEnd(end, pages[p].entries[pos])
    ensures Complete(pages, start, end, out)
  {
    Order();
    hide Lt, PastEnd, AfterStart, Inv;
    var entries := pages[p].entries;
    var e := entries[pos];
    forall k | Holds(pages, k) && Wanted(start, end, k)
      ensures Before(pages, sh, p, pos, k)
    {
      assert PageOk(pages, sh, p) by { LeafPage(pages, sh, p); }
      LeafExhausted(pages, sh, p, k);
      assert forall i :: 0 <= i < pos ==> entries[i] in entries[..pos];
      if !Before(pages, sh, p, pos, k) {
        if Before(pages, sh, p, |entries|, k) {
          var i :| 0 <= i < |entries| && entries[i] == k;
        }
        assert k == e || Lt(e, k);
        if Lt(e, k) {
          PastEndUpward(end, e, k);
        }
        assert false;
      }
    }
  }

  lemma LeafPage(pages: Pages, sh: Shape, p: PageNo)
    requires Inv(pages, sh) && p in pages
    ensures PageOk(pages, sh, p)
  {
  }

  /** Nothing wanted lies before the place where the descent for the start bound ends. */
  lemma StartGathered(pages: Pages, sh: Shape, p: PageNo, pos: nat, start: Bound, end: Bound, key: Key)
    requires Inv(pages, sh) && p in pages && pages[p].Leaf? && p in sh.low && Covers(pages, sh, p, key)
    requires pos <= |pages[p].entries|
    requires start.Included? ==> key == FirstOf(start.key) && forall j :: 0 <= j < pos ==> Lt(pages[p].entries[j], key)
    requires start.Excluded? ==> key == LastOf(start.key) && forall j :: 0 <= j < pos ==> !Lt(key, pages[p].entries[j])
    requires !start.Unbounded?
    ensures Gathered(pages, sh, p, pos, start, end, [])
  {
    Order();
    hide Lt, Inv, BytesLess, Holds;
    forall k | Before(pages, sh, p, pos, k)
      ensures !AfterStart(start, k)
    {
      RidBounds(k, start.key);
    }
  }

  // ------------------------------------------------------------------ the scans

  /** What a reader needs of the index file; splits may still wait to be posted. */
  ghost predicate Readable(pages: Pages, sh: Shape, root: PageNo, firstLeaf: PageNo) {
    && (root == 0 ==> pages == map[] && firstLeaf == 0)
    && (root != 0 ==>
        Inv(pages, sh) && root in pages && root in sh.low && sh.low[root] == None && LeftmostLeaf(pages, sh, firstLeaf))
  }

  method UpperBound(entries: seq<Key>, key: Key) returns (i: nat)
    requires Sorted(entries)
    ensures i <= |entries| && (i < |entries| ==> Lt(key, entries[i]))
    ensures forall j :: 0 <= j < i ==> !Lt(key, entries[j])
  {
    hide Lt;
    i := 0;
    while i < |entries| && !Lt(key, entries[i])
      invariant i <= |entries|
      invariant forall j :: 0 <= j < i ==> !Lt(key, entries[j])
    {
      i := i + 1;
    }
  }

  /** Leaf and position where a scan begins. */
  method StartOfScan(pages: Pages, ghost sh: Shape, root: PageNo, firstLeaf: PageNo, start: Bound, ghost end: Bound)
    returns (p: PageNo, pos: nat)
    requires Readable(pages, sh, root, firstLeaf) && root != 0
    ensures Gathered(pages, sh, p, pos, start, end, [])
  {
    hide Lt, Inv, Gathered;
    match start
    case Unbounded =>
      p, pos := firstLeaf, 0;
      FirstGathered(pages, sh, p, start, end);
    case Included(s) =>
      p := Descend(pages, sh, root, FirstOf(s));
      LeafSorted(pages, sh, p);
      pos := LowerBound(pages[p].entries, FirstOf(s));
      StartGathered(pages, sh, p, pos, start, end, FirstOf(s));
    case Excluded(s) =>
      p := Descend(pages, sh, root, LastOf(s));
      LeafSorted(pages, sh, p);
      pos := UpperBound(pages[p].entries, LastOf(s));
      StartGathered(pages, sh, p, pos, start, end, LastOf(s));
  }

  lemma FirstGathered(pages: Pages, sh: Shape, p: PageNo, start: Bound, end: Bound)
    requires Inv(pages, sh) && LeftmostLeaf(pages, sh, p)
    ensures pages[p].Leaf? && Gathered(pages, sh, p, 0, start, end, [])
  {
    hide Lt, Holds, Wanted;
    assert PageOk(pages, sh, p);
  }

  /** All entries between the bounds, in key order. */
  method ScanRange(pages: Pages, ghost sh: Shape, root: PageNo, firstLeaf: PageNo, start: Bound, end: Bound)
    returns (out: seq<Key>)
    requires Readable(pages, sh, root, firstLeaf)
    ensures Complete(pages, start, end, out)
  {
    out := [];
    if root == 0 {
      return;
    }
    hide Lt, Inv, Ahead, Holds, AfterStart, PastEnd, Before, LeftmostLeaf;
    var p: PageNo, pos: nat := StartOfScan(pages, sh, root, firstLeaf, start, end);
    LevelOf(pages, sh, p);
    while true
      invariant Gathered(pages, sh, p, pos, start, end, out) && p in sh.level
      decreases Ahead(pages, sh, p), |pages[p].entries| - pos
    {
      if pos < |pages[p].entries| {
        var e := pages[p].entries[pos];
        if AfterStart(start, e) {
          if PastEnd(end, e) {
            StopEarly(pages, sh, p, pos, start, end, out);
            return;
          }
          TakeEntry(pages, sh, p, pos, start, end, out);
          out := out + [e];
        } else {
          TakeEntry(pages, sh, p, pos, start, end, out);
        }
        pos := pos + 1;
      } else {
        LinkAt(pages, sh, p);
        if pages[p].next == 0 {
          ChainEnds(pages, sh, p, start, end, out);
          return;
        }
        NextLeaf(pages, sh, p, start, end, out);
        RightIsProgress(pages, sh, p);
        p, pos := pages[p].next, 0;
      }
    }
  }

  lemma LinkAt(pages: Pages, sh: Shape, p: PageNo)
    requires Inv(pages, sh) && p in pages
    ensures pages[p].high.None? <==> pages[p].next == 0
  {
    assert PageOk(pages, sh, p);
  }

  /** All entries of one key: the run of equal bytes, which may span leaves. */
  method Search(pages: Pages, ghost sh: Shape, root: PageNo, ghost firstLeaf: PageNo, key: seq<Byte>)
    returns (out: seq<Key>)
    requires Readable(pages, sh, root, firstLeaf)
    ensures Sorted(out) && forall k :: k in out <==> Holds(pages, k) && k.bytes == key
  {
    out := [];
    if root == 0 {
      return;
    }
    BytesOrder();
    hide Lt, Inv, Ahead, Holds, Before, BytesLess;
    ghost var only := Included(key);
    var p := Descend(pages, sh, root, FirstOf(key));
    LevelOf(pages, sh, p);
    StartGathered(pages, sh, p, 0, only, only, FirstOf(key));
    while true
      invariant Gathered(pages, sh, p, 0, only, only, out) && p in sh.level
      decreases Ahead(pages, sh, p)
    {
      LeafSorted(pages, sh, p);
      var i := LowerBound(pages[p].entries, FirstOf(key));
      SkipTo(pages, sh, p, i, key, out);
      while i < |pages[p].entries|
        invariant Gathered(pages, sh, p, i, only, only, out)
        invariant forall j :: i <= j < |pages[p].entries| ==> !BytesLess(pages[p].entries[j].bytes, key)
      {
        var e := pages[p].entries[i];
        if e.bytes != key {
          StopEarly(pages, sh, p, i, only, only, out);
          return;
        }
        TakeEntry(pages, sh, p, i, only, only, out);
        out := out + [e];
        i := i + 1;
      }
      LinkAt(pages, sh, p);
      if pages[p].next == 0 {
        ChainEnds(pages, sh, p, only, only, out);
        return;
      }
      NextLeaf(pages, sh, p, only, only, out);
      RightIsProgress(pages, sh, p);
      p := pages[p].next;
    }
  }

  /** Entries below the first composite of the key are not wanted; those after it are not smaller. */
  lemma SkipTo(pages: Pages, sh: Shape, p: PageNo, i: nat, key: seq<Byte>, out: seq<Key>)
    requires Inv(pages, sh) && Gathered(pages, sh, p, 0, Included(key), Included(key), out) && i <= |pages[p].entries|
    requires forall j :: 0 <= j < i ==> Lt(pages[p].entries[j], FirstOf(key))
    requires i < |pages[p].entries| ==> !Lt(pages[p].entries[i], FirstOf(key))
    ensures Gathered(pages, sh, p, i, Included(key), Included(key), out)
    ensures forall j :: i <= j < |pages[p].entries| ==> !BytesLess(pages[p].entries[j].bytes, key)
  {
    Order();
    hide Lt, BytesLess, Holds;
    var entries := pages[p].entries;
    assert PageOk(pages, sh, p);
    forall j | i <= j < |entries|
      ensures !BytesLess(entries[j].bytes, key)
    {
      RidBounds(entries[j], key);
      assert i < j ==> Lt(entries[i], entries[j]);
    }
    forall j | 0 <= j < i
      ensures BytesLess(entries[j].bytes, key)
    {
      RidBounds(entries[j], key);
    }
  }

  // ------------------------------------------------------------------ the lazy cursor

  /** A forward reader over the leaf chain that holds only a leaf and a position. */
  class LeafCursor {
    var leaf: PageNo
    var pos: nat

    /** What it has returned so far. */
    ghost var given: seq<Key>

    ghost predicate Valid(pages: Pages, sh: Shape)
      reads this
    {
      && (leaf == 0 ==> Complete(pages, Unbounded, Unbounded, given))
      && (leaf != 0 ==> Inv(pages, sh) && Gathered(pages, sh, leaf, pos, Unbounded, Unbounded, given))
    }

    constructor (pages: Pages, ghost sh: Shape, ghost root: PageNo, firstLeaf: PageNo)
      requires Readable(pages, sh, root, firstLeaf)
      ensures Valid(pages, sh) && given == []
    {
      leaf, pos, given := firstLeaf, 0, [];
      if root != 0 {
        FirstGathered(pages, sh, firstLeaf, Unbounded, Unbounded);
      }
    }

    /** Every call returns the least key not yet returned, and none at the end. */
    method Next(pages: Pages, ghost sh: Shape) returns (r: Option<Key>)
      requires Valid(pages, sh)
      modifies this
      ensures Valid(pages, sh)
      ensures r.None? ==> given == old(given) && Complete(pages, Unbounded, Unbounded, given)
      ensures r.Some? ==> given == old(given) + [r.value] && Holds(pages, r.value)
      ensures r.Some? ==> forall k :: Holds(pages, k) && k !in old(given) ==> !Lt(k, r.value)
    {
      hide Lt, Inv, Ahead, Holds, Before;
      if leaf != 0 {
        LevelOf(pages, sh, leaf);
      }
      while leaf != 0
        invariant Valid(pages, sh) && given == old(given) && (leaf != 0 ==> leaf in sh.level)
        decreases leaf != 0, if leaf != 0 then Ahead(pages, sh, leaf) else {}
      {
        if pos < |pages[leaf].entries| {
          var e := pages[leaf].entries[pos];
          TakeEntry(pages, sh, leaf, pos, Unbounded, Unbounded, given);
          LeastUnseen(pages, sh, leaf, pos, given);
          pos, given := pos + 1, given + [e];
          return Some(e);
        }
        LinkAt(pages, sh, leaf);
        if pages[leaf].next == 0 {
          ChainEnds(pages, sh, leaf, Unbounded, Unbounded, given);
        } else {
          NextLeaf(pages, sh, leaf, Unbounded, Unbounded, given);
          RightIsProgress(pages, sh, leaf);
        }
        leaf, pos := pages[leaf].next, 0;
      }
      return None;
    }
  }

  lemma LeastUnseen(pages: Pages, sh: Shape, p: PageNo, pos: nat, given: seq<Key>)
    requires Inv(pages, sh) && Gathered(pages, sh, p, pos, Unbounded, Unbounded, given) && pos < |pages[p].entries|
    ensures Holds(pages, pages[p].entries[pos])
    ensures forall k :: Holds(pages, k) && k !in given ==> !Lt(k, pages[p].entries[pos])
  {
    Order();
    hide Lt;
    var entries := pages[p].entries;
    assert PageOk(pages, sh, p);
    assert forall i :: 0 <= i < pos ==> entries[i] in entries[..pos];
    forall k | Holds(pages, k) && k !in given
      ensures !Lt(k, entries[pos])
    {
      LeafExhausted(pages, sh, p, k);
      if Before(pages, sh, p, |entries|, k) {
        var i :| 0 <= i < |entries| && entries[i] == k;
      }
    }
  }

  /** A tree between insertions can be read. */
  lemma TreeIsReadable(tree: BTree)
    requires tree.Valid()
    ensures Readable(tree.pages, tree.sh, tree.root, tree.firstLeaf)
  {
  }
}
