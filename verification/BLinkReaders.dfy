/**
 Readers that descend page by page without holding anything, while writers
 publish splits, separators and new roots in between.
 */
module BLinkReaders {
  import opened Options
  import opened KeyOrder
  import opened BLink

  // ------------------------------------------------------------------ one step of a descent

  /** The last child whose separator is not above `k`; separators route equal keys right. */
  function ChildFor(first: PageNo, seps: seq<Sep>, k: Key): PageNo
    decreases |seps|
  {
    if seps == [] || Lt(k, seps[0].key) then first else ChildFor(seps[0].child, seps[1..], k)
  }

  predicate PastHigh(node: Node, k: Key) {
    node.high.Some? && !Lt(k, node.high.value)
  }

  /** The descent stops: a leaf whose bound lies above the key. */
  predicate Arrived(node: Node, k: Key) {
    node.Leaf? && !PastHigh(node, k)
  }

  /** Right when the key is not below the bound, down otherwise. */
  function Move(node: Node, k: Key): PageNo
    requires !Arrived(node, k)
  {
    if PastHigh(node, k) then node.next else ChildFor(node.first, node.seps, k)
  }

  /** A reader is on track at `p` if nothing it looks for lies to the left. */
  ghost predicate OnTrack(pages: Pages, sh: Shape, p: PageNo, k: Key) {
    p in pages && p in sh.low && AtLeast(k, sh.low[p])
  }

  lemma {:induction false} ChildForTrack(pages: Pages, sh: Shape, p: PageNo, first: PageNo, low: Option<Key>,
                                         seps: seq<Sep>, k: Key)
    requires p in sh.level && AtLeast(k, low) && PointerOk(pages, sh, p, first, low)
    requires forall i :: 0 <= i < |seps| ==> PointerOk(pages, sh, p, seps[i].child, Some(seps[i].key))
    ensures var c := ChildFor(first, seps, k);
            OnTrack(pages, sh, c, k) && c in sh.level && sh.level[c] + 1 == sh.level[p]
    decreases |seps|
  {
    hide Lt;
    if seps != [] && !Lt(k, seps[0].key) {
      assert PointerOk(pages, sh, p, seps[0].child, Some(seps[0].key));
      ChildForTrack(pages, sh, p, seps[0].child, Some(seps[0].key), seps[1..], k);
    }
  }

  /** A step never leaves the track and never runs off the end of a level. */
  lemma MoveStaysOnTrack(pages: Pages, sh: Shape, p: PageNo, k: Key)
    requires Inv(pages, sh) && OnTrack(pages, sh, p, k) && !Arrived(pages[p], k)
    ensures Move(pages[p], k) != 0 && OnTrack(pages, sh, Move(pages[p], k), k)
    ensures var q := Move(pages[p], k);
            if PastHigh(pages[p], k) then sh.level[q] == sh.level[p] && sh.low[q] == pages[p].high
            else sh.level[q] + 1 == sh.level[p]
  {
    hide Lt;
    var node := pages[p];
    assert PageOk(pages, sh, p);
    if !PastHigh(node, k) {
      ChildForTrack(pages, sh, p, node.first, sh.low[p], node.seps, k);
      assert PageOk(pages, sh, Move(node, k));
    }
  }

  lemma LeavesApart(pages: Pages, sh: Shape, p: PageNo, q: PageNo)
    requires Inv(pages, sh) && p in pages && q in pages && pages[p].Leaf? && pages[q].Leaf?
    ensures PageOk(pages, sh, p) && PageOk(pages, sh, q) && p in sh.low && q in sh.low
    ensures (p != q ==> Apart(pages, sh, p, q))
  {
    assert PageOk(pages, sh, p) && PageOk(pages, sh, q);
  }

  /** Where a descent arrives, the leaf decides membership for the whole tree. */
  lemma ArrivalDecides(pages: Pages, sh: Shape, p: PageNo, k: Key)
    requires Inv(pages, sh) && OnTrack(pages, sh, p, k) && Arrived(pages[p], k)
    ensures Holds(pages, k) <==> k in pages[p].entries
  {
    hide Lt, Inv;
    Order();
    forall q | q in pages && pages[q].Leaf? && k in pages[q].entries
      ensures q == p
    {
      var i :| 0 <= i < |pages[q].entries| && pages[q].entries[i] == k;
      LeavesApart(pages, sh, p, q);
    }
  }

  // ------------------------------------------------------------------ runs

  datatype Reader = Reader(key: Key, page: PageNo)

  /** `grown` is a new root written but not yet entered in the file header. */
  datatype World = World(pages: Pages, sh: Shape, root: PageNo, grown: Option<PageNo>, readers: map<nat, Reader>)

  datatype Action =
    | AddEntry(p: PageNo, i: nat, key: Key)
    | CutLeaf(p: PageNo, n: PageNo, m: nat)
    | CutLeafWith(p: PageNo, n: PageNo, m: nat, i: nat, key: Key)
    | CutInternal(p: PageNo, n: PageNo, m: nat)
    | Post(p: PageNo, i: nat, sep: Sep)
    | GrowRoot(r: PageNo, sep: Sep)
    | SetRoot
    | Start(id: nat, key: Key)
    | Advance(id: nat)

  ghost predicate Mapped(w: World) {
    forall p :: p in w.pages ==> p in w.sh.level && p in w.sh.low
  }

  ghost predicate CanAdd(w: World, p: PageNo, i: nat, k: Key) {
    && p in w.pages && p in w.sh.low && w.pages[p].Leaf? && i <= |w.pages[p].entries| && Covers(w.pages, w.sh, p, k)
    && (forall j :: 0 <= j < i ==> Lt(w.pages[p].entries[j], k))
    && (forall j :: i <= j < |w.pages[p].entries| ==> Lt(k, w.pages[p].entries[j]))
  }

  /** The separator leads to a page that lies, by key and along the level, between its neighbours in `p`. */
  ghost predicate CanPost(w: World, p: PageNo, i: nat, sep: Sep) {
    && p in w.pages && p in w.sh.level && p in w.sh.low && w.pages[p].Internal? && i <= |w.pages[p].seps|
    && PointerOk(w.pages, w.sh, p, sep.child, Some(sep.key))
    && NotOver(w.sh.low[p], Some(sep.key)) && NotOver(Some(sep.key), w.pages[p].high)
    && Inside(w.sh, p, w.pages[p], sep.child)
    && (forall j :: 0 <= j < i ==> After(w.sh, w.pages[p].seps[j], sep))
    && (forall j :: i <= j < |w.pages[p].seps| ==> After(w.sh, sep, w.pages[p].seps[j]))
  }

  /** A writer can cut a page it reached from the root in the header, and has a free page for the other half. */
  ghost predicate CanCut(w: World, p: PageNo, n: PageNo) {
    p in w.pages && w.grown != Some(p) && n !in w.pages && n != 0
  }

  ghost predicate Enabled(w: World, a: Action) {
    match a
    case AddEntry(p, i, k) => CanAdd(w, p, i, k)
    case CutLeaf(p, n, m) => CanCut(w, p, n) && w.pages[p].Leaf? && 0 < m < |w.pages[p].entries|
    case CutLeafWith(p, n, m, i, k) => CanAdd(w, p, i, k) && CanCut(w, p, n) && 0 < m <= |w.pages[p].entries|
    case CutInternal(p, n, m) => CanCut(w, p, n) && w.pages[p].Internal? && m < |w.pages[p].seps|
    case Post(p, i, sep) => CanPost(w, p, i, sep)
    case GrowRoot(r, sep) =>
      && w.grown.None? && r !in w.pages && r != 0
      && w.root in w.sh.level && sep.child in w.pages && sep.child in w.sh.level && sep.child in w.sh.low
      && w.sh.level[sep.child] == w.sh.level[w.root] && w.sh.low[sep.child] == Some(sep.key)
    case SetRoot => w.grown.Some?
    case Start(id, _) => id !in w.readers
    case Advance(id) =>
      id in w.readers && w.readers[id].page in w.pages && !Arrived(w.pages[w.readers[id].page], w.readers[id].key)
  }

  ghost function WithEntry(w: World, p: PageNo, i: nat, k: Key): World
    requires CanAdd(w, p, i, k)
  {
    w.(pages := InsertEntry(w.pages, p, i, k))
  }

  ghost function Next(w: World, a: Action): World
    requires Enabled(w, a) && Mapped(w)
  {
    match a
    case AddEntry(p, i, k) => WithEntry(w, p, i, k)
    case CutLeaf(p, n, m) =>
      w.(pages := SplitLeaf(w.pages, p, n, m),
         sh := AddPage(w.sh, n, w.sh.level[p], Some(w.pages[p].entries[m]), RankAfter(w.pages, w.sh, p)))
    case CutLeafWith(p, n, m, i, k) =>
      var w1 := WithEntry(w, p, i, k);
      w1.(pages := SplitLeaf(w1.pages, p, n, m),
          sh := AddPage(w.sh, n, w.sh.level[p], Some(w1.pages[p].entries[m]), RankAfter(w.pages, w.sh, p)))
    case CutInternal(p, n, m) =>
      var sep := w.pages[p].seps[m];
      w.(pages := SplitInternal(w.pages, p, n, m),
         sh := AddPage(w.sh, n, w.sh.level[p], Some(sep.key), Rank(w.sh, sep.child)))
    case Post(p, i, sep) => w.(pages := PostSep(w.pages, p, i, sep))
    case GrowRoot(r, sep) =>
      w.(pages := NewRoot(w.pages, r, w.root, sep), grown := Some(r),
         sh := AddPage(w.sh, r, w.sh.level[w.root] + 1, None, Rank(w.sh, w.root)))
    case SetRoot => w.(root := w.grown.value, grown := None)
    case Start(id, k) => w.(readers := w.readers[id := Reader(k, w.root)])
    case Advance(id) =>
      var r := w.readers[id];
      w.(readers := w.readers[id := r.(page := Move(w.pages[r.page], r.key))])
  }

  /** The root, and a root about to be installed, start at the very left; nothing lies above them. */
  ghost predicate RootOk(w: World) {
    && w.root in w.pages && w.root in w.sh.level && w.root in w.sh.low && w.sh.low[w.root] == None
    && (forall q :: q in w.pages ==>
          q in w.sh.level && (w.sh.level[q] <= w.sh.level[w.root] || w.grown == Some(q)))
    && (w.grown.Some? ==>
          && w.grown.value in w.pages && w.grown.value in w.sh.low && w.sh.low[w.grown.value] == None
          && w.grown.value in w.sh.level && w.sh.level[w.grown.value] == w.sh.level[w.root] + 1)
  }

  ghost predicate Good(w: World) {
    && Inv(w.pages, w.sh) && RootOk(w)
    && (forall id :: id in w.readers ==> OnTrack(w.pages, w.sh, w.readers[id].page, w.readers[id].key))
  }

  ghost predicate Steps(w: World, acts: seq<Action>, w': World)
    decreases |acts|
  {
    if acts == [] then w == w'
    else Enabled(w, acts[0]) && Mapped(w) && Steps(Next(w, acts[0]), acts[1..], w')
  }

  /** No write changes where a page's range starts, so readers stay on track. */
  lemma WriteKeepsReaders(w: World, w': World)
    requires Good(w) && Grows(w.pages, w.sh, w'.pages, w'.sh) && w'.readers == w.readers
    requires Mapped(w)
    ensures forall id :: id in w'.readers ==> OnTrack(w'.pages, w'.sh, w'.readers[id].page, w'.readers[id].key)
  {
  }

  lemma CutKeepsInv(w: World, a: Action)
    requires Inv(w.pages, w.sh) && Mapped(w) && Enabled(w, a) && (a.AddEntry? || a.CutLeaf? || a.CutLeafWith?)
    ensures Inv(Next(w, a).pages, Next(w, a).sh)
  {
    hide Lt, Inv;
    match a {
      case AddEntry(p, i, k) => InsertEntryOk(w.pages, w.sh, p, i, k);
      case CutLeaf(p, n, m) => SplitLeafOk(w.pages, w.sh, p, n, m);
      case CutLeafWith(p, n, m, i, k) =>
        InsertEntryOk(w.pages, w.sh, p, i, k);
        SplitLeafOk(InsertEntry(w.pages, p, i, k), w.sh, p, n, m);
    }
  }

  lemma PostKeepsInv(w: World, a: Action)
    requires Inv(w.pages, w.sh) && RootOk(w) && Mapped(w) && Enabled(w, a) && (a.CutInternal? || a.Post? || a.GrowRoot?)
    ensures Inv(Next(w, a).pages, Next(w, a).sh)
  {
    hide Lt, Inv;
    match a {
      case CutInternal(p, n, m) => SplitInternalOk(w.pages, w.sh, p, n, m);
      case Post(p, i, sep) => PostSepOk(w.pages, w.sh, p, i, sep);
      case GrowRoot(r, sep) => NewRootOk(w.pages, w.sh, r, w.root, sep);
    }
  }

  /** What every step keeps about the root, the page table and, if it is a write, the readers. */
  ghost predicate KeepsShape(w: World, w': World) {
    RootOk(w') && Grows(w.pages, w.sh, w'.pages, w'.sh)
  }

  lemma AddShape(w: World, a: Action)
    requires RootOk(w) && Mapped(w) && Enabled(w, a) && a.AddEntry?
    ensures KeepsShape(w, Next(w, a)) && Next(w, a).readers == w.readers
  {
    hide Lt, Covers;
  }

  lemma CutShape(w: World, a: Action)
    requires RootOk(w) && Mapped(w) && Enabled(w, a) && a.CutLeaf?
    ensures KeepsShape(w, Next(w, a)) && Next(w, a).readers == w.readers
  {
    hide Lt, Covers;
  }

  lemma CutWithShape(w: World, a: Action)
    requires RootOk(w) && Mapped(w) && Enabled(w, a) && a.CutLeafWith?
    ensures KeepsShape(w, Next(w, a)) && Next(w, a).readers == w.readers
  {
    hide Lt, Covers;
  }

  lemma CutInternalShape(w: World, a: Action)
    requires RootOk(w) && Mapped(w) && Enabled(w, a) && a.CutInternal?
    ensures KeepsShape(w, Next(w, a)) && Next(w, a).readers == w.readers
  {
    hide Lt, Covers;
  }

  lemma PostShape(w: World, a: Action)
    requires RootOk(w) && Mapped(w) && Enabled(w, a) && a.Post?
    ensures KeepsShape(w, Next(w, a)) && Next(w, a).readers == w.readers
  {
    hide Lt, Under, PointerOk;
  }

  lemma GrowShape(w: World, a: Action)
    requires RootOk(w) && Mapped(w) && Enabled(w, a) && a.GrowRoot?
    ensures KeepsShape(w, Next(w, a)) && Next(w, a).readers == w.readers
  {
    hide Lt, Under, PointerOk;
  }

  lemma RootShape(w: World, a: Action)
    requires RootOk(w) && Mapped(w) && Enabled(w, a) && a.SetRoot?
    ensures KeepsShape(w, Next(w, a)) && Next(w, a).readers == w.readers
  {
    hide Lt, Under, PointerOk;
  }

  lemma StepShape(w: World, a: Action)
    requires RootOk(w) && Mapped(w) && Enabled(w, a)
    ensures KeepsShape(w, Next(w, a))
    ensures !a.Start? && !a.Advance? ==> Next(w, a).readers == w.readers
  {
    if a.Start? || a.Advance? {
    } else {
      hide Enabled, Next, RootOk, KeepsShape;
      if a.AddEntry? {
        AddShape(w, a);
      } else if a.CutLeaf? {
        CutShape(w, a);
      } else if a.CutLeafWith? {
        CutWithShape(w, a);
      } else if a.CutInternal? {
        CutInternalShape(w, a);
      } else if a.Post? {
        PostShape(w, a);
      } else if a.GrowRoot? {
        GrowShape(w, a);
      } else {
        RootShape(w, a);
      }
    }
  }

  lemma StepGood(w: World, a: Action)
    requires Good(w) && Mapped(w) && Enabled(w, a)
    ensures Good(Next(w, a))
  {
    StepShape(w, a);
    var w' := Next(w, a);
    if a.Advance? {
      MoveStaysOnTrack(w.pages, w.sh, w.readers[a.id].page, w.readers[a.id].key);
    } else if !a.Start? {
      WriteKeepsReaders(w, w');
    }
    hide Inv, Lt, RootOk;
    if a.AddEntry? || a.CutLeaf? || a.CutLeafWith? {
      CutKeepsInv(w, a);
    } else if a.CutInternal? || a.Post? || a.GrowRoot? {
      PostKeepsInv(w, a);
    }
  }

  lemma {:induction false} RunGood(w: World, acts: seq<Action>, w': World)
    requires Good(w) && Steps(w, acts, w')
    ensures Good(w')
    decreases |acts|
  {
    hide Good, Next, Enabled;
    if acts != [] {
      StepGood(w, acts[0]);
      RunGood(Next(w, acts[0]), acts[1..], w');
    }
  }

  /** A tree of one empty leaf, nobody reading. */
  ghost predicate Init(w: World) {
    && w.root != 0 && w.pages == map[w.root := Leaf([], 0, None)]
    && w.sh == Shape(map[w.root := 0], map[w.root := None], map[w.root := 0.0]) && w.grown == None && w.readers == map[]
  }

  lemma InitGood(w: World)
    requires Init(w)
    ensures Good(w)
  {
  }

  /**
   However its steps interleave with page writes, and however old the root it
   started from, a reader can always take its next step without hitting a
   missing link, and once it arrives the leaf it stands on decides whether the
   key is in the tree at that moment.
   */
  lemma ReaderFindsItsLeaf(start: World, acts: seq<Action>, w: World, id: nat)
    requires Init(start) && Steps(start, acts, w) && id in w.readers
    ensures var r := w.readers[id];
            && r.page in w.pages
            && (Arrived(w.pages[r.page], r.key) ==> (Holds(w.pages, r.key) <==> r.key in w.pages[r.page].entries))
            && (!Arrived(w.pages[r.page], r.key) ==>
                  Move(w.pages[r.page], r.key) != 0 && Move(w.pages[r.page], r.key) in w.pages)
  {
    InitGood(start);
    RunGood(start, acts, w);
    var r := w.readers[id];
    if Arrived(w.pages[r.page], r.key) {
      ArrivalDecides(w.pages, w.sh, r.page, r.key);
    } else {
      MoveStaysOnTrack(w.pages, w.sh, r.page, r.key);
    }
  }
}
