/** What a heap holds after recovery, slot by slot, in terms of the frames that survived in the log. */
module WalRecovery {
  import opened Options
  import opened Bytes
  import opened Wal
  import opened WalPlan
  import opened WalReplay

  // ------------------------------------------------------------------ commit order

  /** Number of records of the first `i` transactions. */
  ghost function Ahead(committed: seq<Redo>, i: nat): nat
    requires i <= |committed|
  {
    if i == 0 then 0 else Ahead(committed, i - 1) + |committed[i - 1].records|
  }

  lemma {:induction false} AheadPrefix(committed: seq<Redo>, n: nat, i: nat)
    requires i <= n <= |committed|
    ensures Ahead(committed[..n], i) == Ahead(committed, i)
  {
    if i > 0 {
      AheadPrefix(committed, n, i - 1);
    }
  }

  lemma {:induction false} AheadAscends(committed: seq<Redo>, i: nat, j: nat)
    requires i < j <= |committed|
    ensures Ahead(committed, i) + |committed[i].records| <= Ahead(committed, j)
    decreases j
  {
    if i + 1 < j {
      AheadAscends(committed, i, j - 1);
    }
  }

  lemma {:induction false} InOrderLength(committed: seq<Redo>)
    ensures |InOrder(committed)| == Ahead(committed, |committed|)
  {
    if committed != [] {
      var n := |committed| - 1;
      InOrderLength(committed[..n]);
      AheadPrefix(committed, n, n);
    }
  }

  /** Record `k` of the `i`-th transaction is replayed when all records of those before it have been. */
  ghost predicate InPlace(committed: seq<Redo>, i: nat, k: nat)
    requires i < |committed| && k < |committed[i].records|
  {
    var x := Ahead(committed, i) + k;
    x < |InOrder(committed)| && InOrder(committed)[x] == committed[i].records[k]
  }

  lemma {:induction false} RecordPlace(committed: seq<Redo>, i: nat, k: nat)
    requires i < |committed| && k < |committed[i].records|
    ensures InPlace(committed, i, k)
    decreases |committed|
  {
    var n := |committed| - 1;
    var rest := committed[..n];
    InOrderLength(rest);
    AheadPrefix(committed, n, n);
    if i < n {
      assert rest[i] == committed[i];
      AheadPrefix(committed, n, i);
      RecordPlace(rest, i, k);
    }
  }

  /** Replay takes the transactions one after the other as they committed, the records of each as they were logged. */
  lemma CommitOrder(committed: seq<Redo>)
    ensures |InOrder(committed)| == Ahead(committed, |committed|)
    ensures forall i, j :: 0 <= i < j < |committed| ==>
              Ahead(committed, i) + |committed[i].records| <= Ahead(committed, j)
    ensures forall i, k :: 0 <= i < |committed| && 0 <= k < |committed[i].records| ==> InPlace(committed, i, k)
  {
    hide InOrder, Ahead;
    InOrderLength(committed);
    forall i, j | 0 <= i < j < |committed|
      ensures Ahead(committed, i) + |committed[i].records| <= Ahead(committed, j)
    {
      AheadAscends(committed, i, j);
    }
    forall i, k | 0 <= i < |committed| && 0 <= k < |committed[i].records|
      ensures InPlace(committed, i, k)
    {
      RecordPlace(committed, i, k);
    }
  }

  /** Every record of the replay belongs to one of the transactions. */
  lemma {:induction false} BelongsTo(committed: seq<Redo>, x: nat, n: nat) returns (i: nat, k: nat)
    requires n <= |committed| && x < Ahead(committed, n)
    ensures i < n && k < |committed[i].records| && x == Ahead(committed, i) + k
    decreases n
  {
    if x >= Ahead(committed, n - 1) {
      i, k := n - 1, x - Ahead(committed, n - 1);
    } else {
      i, k := BelongsTo(committed, x, n - 1);
    }
  }

  // ------------------------------------------------------------------ one slot of a replay

  ghost predicate InsertsAt(recs: seq<Record>, x: int, at: Place) {
    0 <= x < |recs| && recs[x].Insert? && Concerns(recs[x], at)
  }

  ghost predicate MarksAt(recs: seq<Record>, x: int, at: Place) {
    0 <= x < |recs| && recs[x].DeleteMark? && Concerns(recs[x], at)
  }

  ghost predicate FirstInsert(recs: seq<Record>, x: int, at: Place) {
    InsertsAt(recs, x, at) && forall y :: InsertsAt(recs, y, at) ==> x <= y
  }

  ghost predicate FirstMark(recs: seq<Record>, x: int, y: int, at: Place) {
    MarksAt(recs, y, at) && x < y && forall z :: MarksAt(recs, z, at) && x < z ==> y <= z
  }

  lemma {:induction false} NeverFilled(store: Store, files: set<U32>, recs: seq<Record>, at: Place)
    requires Cell(store, at) == None && forall x :: !InsertsAt(recs, x, at)
    ensures Cell(Replayed(store, files, recs), at) == None
    decreases |recs|
  {
    if recs != [] {
      assert !InsertsAt(recs, 0, at);
      assert forall x :: InsertsAt(recs[1..], x, at) ==> InsertsAt(recs, x + 1, at);
      NeverFilled(Redone(store, files, recs[0]), files, recs[1..], at);
    }
  }

  /** A record that bears a mark, or that nothing marks, stays as it is. */
  lemma {:induction false} Unchanged(store: Store, files: set<U32>, recs: seq<Record>, at: Place, image: seq<Byte>)
    requires Cell(store, at) == Some(image)
    requires !Unmarked(image) || forall x :: !MarksAt(recs, x, at)
    ensures Cell(Replayed(store, files, recs), at) == Some(image)
    decreases |recs|
  {
    hide Unmarked;
    if recs != [] {
      assert Unmarked(image) ==> !MarksAt(recs, 0, at);
      assert forall x :: MarksAt(recs[1..], x, at) ==> MarksAt(recs, x + 1, at);
      assert Cell(Redone(store, files, recs[0]), at) == Some(image);
      Unchanged(Redone(store, files, recs[0]), files, recs[1..], at, image);
    }
  }

  /** Up to and including the first insert. */
  lemma FilledOnce(files: set<U32>, recs: seq<Record>, at: Place, x: nat)
    requires at.file in files && FirstInsert(recs, x, at)
    ensures Cell(Replayed(map[], files, recs[..x + 1]), at) == Some(recs[x].image)
  {
    assert forall y :: InsertsAt(recs[..x], y, at) ==> InsertsAt(recs, y, at);
    NeverFilled(map[], files, recs[..x], at);
    assert recs[..x + 1] == recs[..x] + [recs[x]];
    ReplayedOne(map[], files, recs[..x], recs[x]);
  }

  /** Between the first insert and the first mark after it nothing happens to the slot. */
  lemma UnmarkedUpTo(files: set<U32>, recs: seq<Record>, at: Place, x: nat, y: nat)
    requires at.file in files && FirstInsert(recs, x, at) && x < y <= |recs|
    requires !Unmarked(recs[x].image) || forall z :: MarksAt(recs, z, at) && x < z ==> y <= z
    ensures Cell(Replayed(map[], files, recs[..y]), at) == Some(recs[x].image)
  {
    hide Unmarked, Replayed, Cell;
    FilledOnce(files, recs, at, x);
    var mid := recs[x + 1..y];
    assert recs[..y] == recs[..x + 1] + mid;
    ReplayedAppend(map[], files, recs[..x + 1], mid);
    forall z | MarksAt(mid, z, at)
      ensures MarksAt(recs, z + x + 1, at)
    {
    }
    Unchanged(Replayed(map[], files, recs[..x + 1]), files, mid, at, recs[x].image);
  }

  /** A slot whose first insert is at `x` and that is not marked after it keeps the inserted record. */
  lemma InsertStands(files: set<U32>, recs: seq<Record>, at: Place, x: nat)
    requires at.file in files && FirstInsert(recs, x, at)
    requires !Unmarked(recs[x].image) || forall y :: !(MarksAt(recs, y, at) && x < y)
    ensures Cell(Replayed(map[], files, recs), at) == Some(recs[x].image)
  {
    hide Unmarked, Replayed, Cell;
    UnmarkedUpTo(files, recs, at, x, |recs|);
    assert recs[..|recs|] == recs;
  }

  /** The first mark after the first insert is the one that stays. */
  lemma FirstMarkStands(files: set<U32>, recs: seq<Record>, at: Place, x: nat, y: nat)
    requires at.file in files && FirstInsert(recs, x, at) && FirstMark(recs, x, y, at)
    requires Unmarked(recs[x].image) && recs[y].deleter != 0
    ensures Cell(Replayed(map[], files, recs), at) == Some(SetMark(recs[x].image, recs[y].deleter, recs[y].next))
  {
    UnmarkedUpTo(files, recs, at, x, y);
    var marked := SetMark(recs[x].image, recs[y].deleter, recs[y].next);
    assert recs[..y + 1] == recs[..y] + [recs[y]];
    ReplayedOne(map[], files, recs[..y], recs[y]);
    MarkIsRead(recs[x].image, recs[y].deleter, recs[y].next);
    assert recs == recs[..y + 1] + recs[y + 1..];
    ReplayedAppend(map[], files, recs[..y + 1], recs[y + 1..]);
    Unchanged(Replayed(map[], files, recs[..y + 1]), files, recs[y + 1..], at, marked);
  }

  // ------------------------------------------------------------------ from the log to the replay

  /** The transaction's commit stands at `c`, and none before. */
  ghost predicate CommitAt(log: seq<Frame>, t: U64, c: int) {
    0 <= c < |log| && log[c] == Frame(t, Commit) && forall j :: 0 <= j < c ==> log[j] != Frame(t, Commit)
  }

  /** `p` is a data frame of a committed transaction. */
  ghost predicate Redoes(log: seq<Frame>, p: int) {
    0 <= p < |log| && !log[p].rec.Commit? && Committed(log, log[p].trx)
  }

  /** `p` is redone before `q`: its transaction committed before, or it comes first within one transaction. */
  ghost predicate Sooner(log: seq<Frame>, p: int, q: int) {
    Redoes(log, p) && Redoes(log, q) &&
    exists c, d :: CommitAt(log, log[p].trx, c) && CommitAt(log, log[q].trx, d) && (c < d || (c == d && p < q))
  }

  ghost predicate InsertFrame(log: seq<Frame>, p: int, at: Place) {
    Redoes(log, p) && log[p].rec.Insert? && Concerns(log[p].rec, at)
  }

  ghost predicate MarkFrame(log: seq<Frame>, p: int, at: Place) {
    Redoes(log, p) && log[p].rec.DeleteMark? && Concerns(log[p].rec, at)
  }

  /** Position of frame `p` among its transaction's records. */
  lemma {:induction false} RecordOfFrame(log: seq<Frame>, p: nat)
    requires p < |log| && !log[p].rec.Commit?
    ensures var t := log[p].trx;
            |RecordsOf(log[..p], t)| < |RecordsOf(log, t)| && RecordsOf(log, t)[|RecordsOf(log[..p], t)|] == log[p].rec
    decreases |log|
  {
    var n := |log| - 1;
    assert log[..p] == log[..n][..p];
    if p < n {
      RecordOfFrame(log[..n], p);
    }
  }

  lemma {:induction false} RecordsGrow(log: seq<Frame>, t: U64, p: nat, q: nat)
    requires p < q <= |log|
    ensures |RecordsOf(log[..p], t)| <= |RecordsOf(log[..q], t)|
    ensures log[p].trx == t && !log[p].rec.Commit? ==> |RecordsOf(log[..p], t)| < |RecordsOf(log[..q], t)|
    decreases q
  {
    assert log[..q][..q - 1] == log[..q - 1];
    if p + 1 < q {
      RecordsGrow(log, t, p, q - 1);
    }
  }

  lemma {:induction false} FrameOfRecord(log: seq<Frame>, t: U64, k: nat) returns (p: nat)
    requires k < |RecordsOf(log, t)|
    ensures p < |log| && log[p].trx == t && !log[p].rec.Commit? && |RecordsOf(log[..p], t)| == k
    decreases |log|
  {
    var n := |log| - 1;
    if k < |RecordsOf(log[..n], t)| {
      p := FrameOfRecord(log[..n], t, k);
      assert log[..p] == log[..n][..p];
    } else {
      p := n;
    }
  }

  /** Whatever the commits of the two are, `a`'s stands first. */
  ghost predicate CommitsFirst(log: seq<Frame>, a: Redo, b: Redo) {
    forall c, d :: CommitAt(log, a.trx, c) && CommitAt(log, b.trx, d) ==> c < d
  }

  ghost predicate ByCommitFrame(log: seq<Frame>, committed: seq<Redo>) {
    forall i, j :: 0 <= i < j < |committed| ==> CommitsFirst(log, committed[i], committed[j])
  }

  ghost predicate Committed(log: seq<Frame>, t: U64) {
    exists c :: CommitAt(log, t, c)
  }

  ghost predicate Redoable(log: seq<Frame>, r: Redo) {
    Committed(log, r.trx) && r.records == RecordsOf(log, r.trx)
  }

  ghost predicate Planned(committed: seq<Redo>, t: U64) {
    exists i :: 0 <= i < |committed| && committed[i].trx == t
  }

  /** The plan redoes the committed transactions of `log`, ordered by their commits. */
  ghost predicate PlansLog(log: seq<Frame>, committed: seq<Redo>) {
    && (forall i :: 0 <= i < |committed| ==> Redoable(log, committed[i]))
    && ByCommitFrame(log, committed)
    && (forall t: U64 :: Committed(log, t) && RecordsOf(log, t) != [] ==> Planned(committed, t))
  }

  lemma OrderOf(log: seq<Frame>, committed: seq<Redo>, i: nat, j: nat, c: int, d: int)
    requires PlansLog(log, committed) && i < |committed| && j < |committed|
    requires CommitAt(log, committed[i].trx, c) && CommitAt(log, committed[j].trx, d)
    ensures (i < j ==> c < d) && (j < i ==> d < c)
  {
    hide CommitAt;
    assert ByCommitFrame(log, committed);
    if i < j {
      assert CommitsFirst(log, committed[i], committed[j]);
    } else if j < i {
      assert CommitsFirst(log, committed[j], committed[i]);
    }
  }

  /** `x` is where frame `p` is replayed. */
  ghost predicate ReplayedAt(log: seq<Frame>, committed: seq<Redo>, p: nat, i: nat, x: nat) {
    && p < |log| && i < |committed| && committed[i].trx == log[p].trx
    && x == Ahead(committed, i) + |RecordsOf(log[..p], log[p].trx)|
  }

  lemma FrameIsReplayed(log: seq<Frame>, committed: seq<Redo>, p: nat) returns (i: nat, x: nat)
    requires PlansLog(log, committed) && Redoes(log, p)
    ensures ReplayedAt(log, committed, p, i, x) && x < |InOrder(committed)| && InOrder(committed)[x] == log[p].rec
  {
    hide InOrder, Ahead;
    var t := log[p].trx;
    RecordOfFrame(log, p);
    var c :| CommitAt(log, t, c);
    i :| 0 <= i < |committed| && committed[i].trx == t;
    var k := |RecordsOf(log[..p], t)|;
    RecordPlace(committed, i, k);
    x := Ahead(committed, i) + k;
  }

  lemma ReplayedIsFrame(log: seq<Frame>, committed: seq<Redo>, x: nat) returns (p: nat, i: nat)
    requires PlansLog(log, committed) && x < |InOrder(committed)|
    ensures Redoes(log, p) && ReplayedAt(log, committed, p, i, x) && InOrder(committed)[x] == log[p].rec
  {
    hide InOrder, Ahead;
    InOrderLength(committed);
    var k;
    i, k := BelongsTo(committed, x, |committed|);
    RecordPlace(committed, i, k);
    p := FrameOfRecord(log, committed[i].trx, k);
    RecordOfFrame(log, p);
  }

  /** Replay follows the order of the frames. */
  lemma SoonerIsEarlier(log: seq<Frame>, committed: seq<Redo>, p: nat, i: nat, x: nat, q: nat, j: nat, y: nat)
    requires PlansLog(log, committed) && ReplayedAt(log, committed, p, i, x) && ReplayedAt(log, committed, q, j, y)
    requires Sooner(log, p, q)
    ensures x < y
  {
    hide InOrder, Ahead;
    var c, d :| CommitAt(log, log[p].trx, c) && CommitAt(log, log[q].trx, d) && (c < d || (c == d && p < q));
    RecordOfFrame(log, p);
    OrderOf(log, committed, i, j, c, d);
    if c < d {
      AheadAscends(committed, i, j);
    } else {
      RecordsGrow(log, log[p].trx, p, q);
    }
  }

  lemma InsertComesFirst(log: seq<Frame>, committed: seq<Redo>, at: Place, p: nat, i: nat, x: nat)
    requires PlansLog(log, committed) && InsertFrame(log, p, at) && ReplayedAt(log, committed, p, i, x)
    requires x < |InOrder(committed)| && InOrder(committed)[x] == log[p].rec
    requires forall q :: InsertFrame(log, q, at) && q != p ==> Sooner(log, p, q)
    ensures FirstInsert(InOrder(committed), x, at)
  {
    hide InOrder, Ahead, PlansLog, Sooner, ReplayedAt, Redoes;
    forall y | InsertsAt(InOrder(committed), y, at)
      ensures x <= y
    {
      var q, j := ReplayedIsFrame(log, committed, y);
      if q != p {
        SoonerIsEarlier(log, committed, p, i, x, q, j, y);
      } else {
        SamePlace(log, committed, p, i, x, j, y);
      }
    }
  }

  lemma SamePlace(log: seq<Frame>, committed: seq<Redo>, p: nat, i: nat, x: nat, j: nat, y: nat)
    requires PlansLog(log, committed) && Redoes(log, p)
    requires ReplayedAt(log, committed, p, i, x) && ReplayedAt(log, committed, p, j, y)
    ensures x == y && i == j
  {
    hide InOrder, Ahead;
    var c :| CommitAt(log, log[p].trx, c);
    OrderOf(log, committed, i, j, c, c);
  }

  /** A mark frame redone after the insert, and before every other such mark. */
  ghost predicate FirstMarkFrame(log: seq<Frame>, at: Place, p: int, q: int) {
    && MarkFrame(log, q, at) && Sooner(log, p, q)
    && forall r :: MarkFrame(log, r, at) && Sooner(log, p, r) && r != q ==> Sooner(log, q, r)
  }

  lemma MarkComesFirst(log: seq<Frame>, committed: seq<Redo>, at: Place, p: nat, i: nat, x: nat, q: nat, j: nat, y: nat)
    requires PlansLog(log, committed) && InsertFrame(log, p, at) && ReplayedAt(log, committed, p, i, x)
    requires ReplayedAt(log, committed, q, j, y) && y < |InOrder(committed)| && InOrder(committed)[y] == log[q].rec
    requires FirstMarkFrame(log, at, p, q)
    ensures FirstMark(InOrder(committed), x, y, at)
  {
    hide InOrder, Ahead, PlansLog, Sooner, ReplayedAt, Redoes;
    SoonerIsEarlier(log, committed, p, i, x, q, j, y);
    forall z | MarksAt(InOrder(committed), z, at) && x < z
      ensures y <= z
    {
      var r, k := ReplayedIsFrame(log, committed, z);
      LaterOrSame(log, committed, p, i, x, r, k, z);
      if r != q {
        SoonerIsEarlier(log, committed, q, j, y, r, k, z);
      } else {
        SamePlace(log, committed, q, j, y, k, z);
      }
    }
  }

  /** Two redone frames are comparable. */
  lemma EitherSooner(log: seq<Frame>, p: nat, q: nat)
    requires Redoes(log, p) && Redoes(log, q) && p != q
    ensures Sooner(log, p, q) || Sooner(log, q, p)
  {
    var c :| CommitAt(log, log[p].trx, c);
    var d :| CommitAt(log, log[q].trx, d);
  }

  lemma LaterOrSame(log: seq<Frame>, committed: seq<Redo>, p: nat, i: nat, x: nat, q: nat, j: nat, y: nat)
    requires PlansLog(log, committed) && Redoes(log, p) && Redoes(log, q) && x < y
    requires ReplayedAt(log, committed, p, i, x) && ReplayedAt(log, committed, q, j, y)
    ensures Sooner(log, p, q)
  {
    hide InOrder, Ahead, PlansLog, Sooner, ReplayedAt, Redoes;
    if p == q {
      SamePlace(log, committed, p, i, x, j, y);
    } else {
      EitherSooner(log, p, q);
      if Sooner(log, q, p) {
        SoonerIsEarlier(log, committed, q, j, y, p, i, x);
      }
    }
  }

  // ------------------------------------------------------------------ what recovery leaves

  lemma InsertIsFrame(log: seq<Frame>, committed: seq<Redo>, at: Place, x: int) returns (p: nat)
    requires PlansLog(log, committed) && InsertsAt(InOrder(committed), x, at)
    ensures InsertFrame(log, p, at)
  {
    hide InOrder, PlansLog;
    var i;
    p, i := ReplayedIsFrame(log, committed, x);
  }

  /** A slot no committed transaction inserted into stays empty. */
  lemma NothingRecovered(log: seq<Frame>, committed: seq<Redo>, files: set<U32>, at: Place)
    requires PlansLog(log, committed) && forall p :: !InsertFrame(log, p, at)
    ensures Cell(Replayed(map[], files, InOrder(committed)), at) == None
  {
    hide InOrder, Ahead, PlansLog, InsertFrame;
    forall x
      ensures !InsertsAt(InOrder(committed), x, at)
    {
      if InsertsAt(InOrder(committed), x, at) {
        var p := InsertIsFrame(log, committed, at, x);
      }
    }
    NeverFilled(map[], files, InOrder(committed), at);
  }

  /** A slot filled once and not marked afterwards holds the first committed insert. */
  lemma InsertRecovered(log: seq<Frame>, committed: seq<Redo>, files: set<U32>, at: Place, p: nat)
    requires PlansLog(log, committed) && at.file in files && InsertFrame(log, p, at)
    requires forall q :: InsertFrame(log, q, at) && q != p ==> Sooner(log, p, q)
    requires forall q :: !(MarkFrame(log, q, at) && Sooner(log, p, q))
    ensures Cell(Replayed(map[], files, InOrder(committed)), at) == Some(log[p].rec.image)
  {
    hide InOrder, Ahead, PlansLog, ReplayedAt, Redoes, Sooner, Cell, Replayed;
    var i, x := FrameIsReplayed(log, committed, p);
    InsertComesFirst(log, committed, at, p, i, x);
    forall y | MarksAt(InOrder(committed), y, at) && x < y
      ensures false
    {
      var q, j := ReplayedIsFrame(log, committed, y);
      LaterOrSame(log, committed, p, i, x, q, j, y);
    }
    InsertStands(files, InOrder(committed), at, x);
  }

  /** The first mark redone after the first insert is the one the slot bears. */
  lemma MarkRecovered(log: seq<Frame>, committed: seq<Redo>, files: set<U32>, at: Place, p: nat, q: nat)
    requires PlansLog(log, committed) && at.file in files && InsertFrame(log, p, at)
    requires forall r :: InsertFrame(log, r, at) && r != p ==> Sooner(log, p, r)
    requires FirstMarkFrame(log, at, p, q)
    requires Unmarked(log[p].rec.image) && log[q].rec.deleter != 0
    ensures Cell(Replayed(map[], files, InOrder(committed)), at) ==
            Some(SetMark(log[p].rec.image, log[q].rec.deleter, log[q].rec.next))
  {
    hide InOrder, Ahead, PlansLog, ReplayedAt, Redoes, Sooner, Cell, Replayed, Unmarked, SetMark, FirstMarkFrame;
    assert Redoes(log, q) && MarkFrame(log, q, at) by { MarkIsRedone(log, at, p, q); }
    var i, x := FrameIsReplayed(log, committed, p);
    InsertComesFirst(log, committed, at, p, i, x);
    var j, y := FrameIsReplayed(log, committed, q);
    MarkComesFirst(log, committed, at, p, i, x, q, j, y);
    FirstMarkStands(files, InOrder(committed), at, x, y);
  }

  lemma MarkIsRedone(log: seq<Frame>, at: Place, p: int, q: int)
    requires FirstMarkFrame(log, at, p, q)
    ensures Redoes(log, q) && MarkFrame(log, q, at)
  {
  }

  lemma CommitInLog(entries: seq<Entry>, log: seq<Frame>, t: U64) returns (c: nat)
    requires log == Frames(entries) && HasCommit(entries, t)
    ensures CommitAt(log, t, c) && entries[c].end == FirstCommit(entries, t)
  {
    c := FirstCommitAt(entries, t);
  }

  lemma CommitIsUnique(log: seq<Frame>, t: U64, c: int, d: int)
    requires CommitAt(log, t, c) && CommitAt(log, t, d)
    ensures c == d
  {
  }

  lemma PlannedInOrder(entries: seq<Entry>, log: seq<Frame>, committed: seq<Redo>, i: nat, j: nat, c: int, d: int)
    requires log == Frames(entries) && Ascending(entries) && CommittedOk(entries, committed)
    requires i < j < |committed| && CommitAt(log, committed[i].trx, c) && CommitAt(log, committed[j].trx, d)
    ensures c < d
  {
    hide Frames, HasCommit, FirstCommit, DataOf, CommitAt;
    assert RedoOk(entries, committed[i]) && RedoOk(entries, committed[j]);
    var c' := CommitInLog(entries, log, committed[i].trx);
    var d' := CommitInLog(entries, log, committed[j].trx);
    CommitIsUnique(log, committed[i].trx, c, c');
    CommitIsUnique(log, committed[j].trx, d, d');
    InLog(log, committed[i].trx, c);
    InLog(log, committed[j].trx, d);
    FramesLength(entries);
    assert entries[c].end < entries[d].end;
  }

  lemma InLog(log: seq<Frame>, t: U64, c: int)
    requires CommitAt(log, t, c)
    ensures 0 <= c < |log|
  {
  }

  lemma FramesLength(entries: seq<Entry>)
    ensures |Frames(entries)| == |entries|
  {
  }

  lemma PlannedByCommit(entries: seq<Entry>, log: seq<Frame>, committed: seq<Redo>)
    requires log == Frames(entries) && Ascending(entries) && CommittedOk(entries, committed)
    ensures ByCommitFrame(log, committed)
  {
    hide Frames, Ascending, CommittedOk, CommitAt;
    forall i, j | 0 <= i < j < |committed|
      ensures CommitsFirst(log, committed[i], committed[j])
    {
      forall c, d | CommitAt(log, committed[i].trx, c) && CommitAt(log, committed[j].trx, d)
        ensures c < d
      {
        PlannedInOrder(entries, log, committed, i, j, c, d);
      }
    }
  }

  /** A plan for some entries is a plan for their frames. */
  lemma PlanOfEntries(entries: seq<Entry>, log: seq<Frame>, committed: seq<Redo>)
    requires log == Frames(entries) && Ascending(entries) && CommittedOk(entries, committed)
    ensures PlansLog(log, committed)
  {
    hide Frames, HasCommit, FirstCommit, DataOf, RecordsOf, Ascending, ByCommitFrame, Committed, Planned;
    PlannedByCommit(entries, log, committed);
    forall i | 0 <= i < |committed|
      ensures Redoable(log, committed[i])
    {
      assert RedoOk(entries, committed[i]);
      DataInFrames(entries, committed[i].trx);
      CommitShown(entries, log, committed[i].trx);
    }
    forall t: U64 | Committed(log, t) && RecordsOf(log, t) != []
      ensures Planned(committed, t)
    {
      CommitShown(entries, log, t);
      DataInFrames(entries, t);
      InPlan(entries, committed, t);
    }
  }

  lemma InPlan(entries: seq<Entry>, committed: seq<Redo>, t: U64)
    requires CommittedOk(entries, committed) && HasCommit(entries, t) && DataOf(entries, t) != []
    ensures Planned(committed, t)
  {
  }

  lemma CommitShown(entries: seq<Entry>, log: seq<Frame>, t: U64)
    requires log == Frames(entries)
    ensures HasCommit(entries, t) <==> Committed(log, t)
  {
    CommitInFrames(entries, t);
    if HasCommit(entries, t) {
      var c := CommitInLog(entries, log, t);
    }
  }

  /** The plan made from a log cut at any byte redoes the frames that survived. */
  lemma PlanOfLog(frames: seq<Frame>, n: nat, plan: Plan)
    requires AllFit(frames) && n <= |EncodeAll(frames)| && PlanOk(Scan(EncodeAll(frames)[..n], 0), plan)
    ensures PlansLog(frames[..Whole(frames, n)], plan.committed)
  {
    hide Decode, Parse, EncodeAll, Whole, HasCommit, FirstCommit, DataOf, PlansLog, CommittedOk, Frames;
    var bytes := EncodeAll(frames)[..n];
    TornTail(frames, n);
    ScanFrames(bytes, 0);
    ScanAscends(bytes, 0);
    assert bytes[0..] == bytes;
    PlanOfEntries(Scan(bytes, 0), frames[..Whole(frames, n)], plan.committed);
  }

  /**
   After a crash at any byte, with everything lost but the log: a slot is empty when no surviving
   transaction inserted into it. Otherwise it holds the first insert in commit order, and bears
   the first mark that follows it in commit order, if there is one.
   */
  lemma RecoveredSlot(frames: seq<Frame>, n: nat, plan: Plan, files: set<U32>, at: Place)
    requires AllFit(frames) && n <= |EncodeAll(frames)| && PlanOk(Scan(EncodeAll(frames)[..n], 0), plan)
    requires at.file in files
    requires forall i :: 0 <= i < |frames| && frames[i].rec.DeleteMark? ==> frames[i].rec.deleter != 0
    ensures var log := frames[..Whole(frames, n)];
            var cell := Cell(Replayed(map[], files, InOrder(plan.committed)), at);
            && ((forall p :: !InsertFrame(log, p, at)) ==> cell == None)
            && (forall p :: FirstInsertFrame(log, at, p) ==> RecoveredFrom(log, at, p, cell))
  {
    hide Scan, Decode, EncodeAll, Whole, PlanOk, InOrder, Replayed, Cell, PlansLog, Sooner;
    var log := frames[..Whole(frames, n)];
    PlanOfLog(frames, n, plan);
    assert forall i :: 0 <= i < |log| ==> log[i] == frames[i];
    if forall p :: !InsertFrame(log, p, at) {
      NothingRecovered(log, plan.committed, files, at);
    }
    forall p | FirstInsertFrame(log, at, p)
      ensures RecoveredFrom(log, at, p, Cell(Replayed(map[], files, InOrder(plan.committed)), at))
    {
      SlotIsRecovered(log, plan.committed, files, at, p);
    }
  }

  /** The slot holds the record inserted at `p`, with the first mark redone after it. */
  ghost predicate RecoveredFrom(log: seq<Frame>, at: Place, p: int, cell: Option<seq<Byte>>)
    requires InsertFrame(log, p, at)
  {
    && ((forall q :: !(MarkFrame(log, q, at) && Sooner(log, p, q))) ==> cell == Some(log[p].rec.image))
    && (forall q :: FirstMarkFrame(log, at, p, q) && Unmarked(log[p].rec.image) ==>
          cell == Some(SetMark(log[p].rec.image, log[q].rec.deleter, log[q].rec.next)))
  }

  lemma SlotIsRecovered(log: seq<Frame>, committed: seq<Redo>, files: set<U32>, at: Place, p: nat)
    requires PlansLog(log, committed) && at.file in files && FirstInsertFrame(log, at, p)
    requires forall i :: 0 <= i < |log| && log[i].rec.DeleteMark? ==> log[i].rec.deleter != 0
    ensures RecoveredFrom(log, at, p, Cell(Replayed(map[], files, InOrder(committed)), at))
  {
    hide InOrder, Replayed, Cell, PlansLog, Sooner, SetMark;
    if forall q :: !(MarkFrame(log, q, at) && Sooner(log, p, q)) {
      InsertRecovered(log, committed, files, at, p);
    }
    forall q | FirstMarkFrame(log, at, p, q) && Unmarked(log[p].rec.image)
      ensures Cell(Replayed(map[], files, InOrder(committed)), at) ==
              Some(SetMark(log[p].rec.image, log[q].rec.deleter, log[q].rec.next))
    {
      MarkRecovered(log, committed, files, at, p, q);
    }
  }

  /** An insert frame redone before every other insert into the slot. */
  ghost predicate FirstInsertFrame(log: seq<Frame>, at: Place, p: int) {
    InsertFrame(log, p, at) && forall q :: InsertFrame(log, q, at) && q != p ==> Sooner(log, p, q)
  }
}
