/** The recovery plan: which transactions to redo, with which records, in which order. */
module WalPlan {
  import opened Options
  import opened Bytes
  import opened Wal

  /** A frame and the offset just behind it. */
  datatype Entry = Entry(frame: Frame, end: nat)

  datatype Redo = Redo(pos: nat, trx: U64, records: seq<Record>)

  datatype Plan = Plan(committed: seq<Redo>, ids: seq<U64>, maxTrx: U64)

  // ------------------------------------------------------------------ what a log says

  function Scan(bytes: seq<Byte>, pos: nat): seq<Entry>
    requires pos <= |bytes|
    decreases |bytes| - pos
  {
    var d := Decode(bytes[pos..]);
    if d.None? then [] else [Entry(d.value.0, pos + d.value.1)] + Scan(bytes, pos + d.value.1)
  }

  ghost function Frames(entries: seq<Entry>): seq<Frame> {
    seq(|entries|, i requires 0 <= i < |entries| => entries[i].frame)
  }

  lemma {:induction false} ScanFrames(bytes: seq<Byte>, pos: nat)
    requires pos <= |bytes|
    ensures Frames(Scan(bytes, pos)) == Parse(bytes[pos..])
    decreases |bytes| - pos
  {
    hide Decode;
    var d := Decode(bytes[pos..]);
    if d.Some? {
      var next := pos + d.value.1;
      ScanFrames(bytes, next);
      assert bytes[pos..][d.value.1..] == bytes[next..];
      assert Frames(Scan(bytes, pos)) == [d.value.0] + Frames(Scan(bytes, next));
    }
  }

  ghost predicate HasCommit(entries: seq<Entry>, t: U64) {
    exists i :: 0 <= i < |entries| && entries[i].frame == Frame(t, Commit)
  }

  /** End of the transaction's first commit frame. */
  ghost function FirstCommit(entries: seq<Entry>, t: U64): nat
    requires HasCommit(entries, t)
  {
    if entries[0].frame == Frame(t, Commit) then entries[0].end
    else RestHasCommit(entries, t); FirstCommit(entries[1..], t)
  }

  lemma RestHasCommit(entries: seq<Entry>, t: U64)
    requires HasCommit(entries, t) && entries[0].frame != Frame(t, Commit)
    ensures HasCommit(entries[1..], t)
  {
    var i :| 0 <= i < |entries| && entries[i].frame == Frame(t, Commit);
    assert entries[1..][i - 1].frame == Frame(t, Commit);
  }

  /** The transaction's redo records, in log order. */
  ghost function DataOf(entries: seq<Entry>, t: U64): seq<Record> {
    if entries == [] then [] else
      var last := entries[|entries| - 1].frame;
      DataOf(entries[..|entries| - 1], t) + if last.trx == t && !last.rec.Commit? then [last.rec] else []
  }

  ghost predicate Ascending(entries: seq<Entry>) {
    forall i, j :: 0 <= i < j < |entries| ==> entries[i].end < entries[j].end
  }

  lemma {:induction false} ScanAscends(bytes: seq<Byte>, pos: nat)
    requires pos <= |bytes|
    ensures Ascending(Scan(bytes, pos)) && forall i :: 0 <= i < |Scan(bytes, pos)| ==> pos < Scan(bytes, pos)[i].end
    decreases |bytes| - pos
  {
    hide Decode;
    var d := Decode(bytes[pos..]);
    if d.Some? {
      ScanAscends(bytes, pos + d.value.1);
    }
  }

  lemma {:induction false} FirstCommitAt(entries: seq<Entry>, t: U64) returns (i: nat)
    requires HasCommit(entries, t)
    ensures i < |entries| && entries[i] == Entry(Frame(t, Commit), FirstCommit(entries, t))
    ensures forall j :: 0 <= j < i ==> entries[j].frame != Frame(t, Commit)
    decreases |entries|
  {
    if entries[0].frame == Frame(t, Commit) {
      i := 0;
    } else {
      RestHasCommit(entries, t);
      var i' := FirstCommitAt(entries[1..], t);
      i := i' + 1;
    }
  }

  /** A later frame does not move the first commit. */
  lemma FirstCommitAppend(entries: seq<Entry>, e: Entry, t: U64)
    ensures HasCommit(entries, t) ==> HasCommit(entries + [e], t)
    ensures HasCommit(entries, t) ==> FirstCommit(entries + [e], t) == FirstCommit(entries, t)
    ensures !HasCommit(entries, t) && e.frame == Frame(t, Commit) ==> HasCommit(entries + [e], t)
    ensures !HasCommit(entries, t) && e.frame == Frame(t, Commit) ==> FirstCommit(entries + [e], t) == e.end
    ensures !HasCommit(entries, t) && e.frame != Frame(t, Commit) ==> !HasCommit(entries + [e], t)
  {
    var all := entries + [e];
    if HasCommit(entries, t) {
      var i := FirstCommitAt(entries, t);
      assert all[i] == entries[i];
      var j := FirstCommitAt(all, t);
      assert i == j;
    } else if e.frame == Frame(t, Commit) {
      assert all[|entries|] == e;
      var j := FirstCommitAt(all, t);
      assert j == |entries|;
    }
  }

  // ------------------------------------------------------------------ what a plan must say

  ghost predicate IdsOk(entries: seq<Entry>, ids: seq<U64>) {
    && (forall i, j :: 0 <= i < j < |ids| ==> ids[i] < ids[j])
    && (forall t: U64 :: t in ids <==> HasCommit(entries, t))
  }

  ghost predicate RedoOk(entries: seq<Entry>, r: Redo) {
    && HasCommit(entries, r.trx) && r.pos == FirstCommit(entries, r.trx)
    && r.records == DataOf(entries, r.trx) && r.records != []
  }

  ghost predicate ByCommit(committed: seq<Redo>) {
    forall i, j :: 0 <= i < j < |committed| ==> committed[i].pos < committed[j].pos
  }

  /** Exactly the committed transactions that changed something, ordered by commit position. */
  ghost predicate CommittedOk(entries: seq<Entry>, committed: seq<Redo>) {
    && ByCommit(committed)
    && (forall i :: 0 <= i < |committed| ==> RedoOk(entries, committed[i]))
    && (forall t: U64 :: HasCommit(entries, t) && DataOf(entries, t) != [] ==>
        exists i :: 0 <= i < |committed| && committed[i].trx == t)
  }

  ghost predicate MaxOk(entries: seq<Entry>, maxTrx: U64) {
    && (forall i :: 0 <= i < |entries| ==> entries[i].frame.trx <= maxTrx)
    && (maxTrx == 0 || exists i :: 0 <= i < |entries| && entries[i].frame.trx == maxTrx)
  }

  ghost predicate PlanOk(entries: seq<Entry>, plan: Plan) {
    IdsOk(entries, plan.ids) && CommittedOk(entries, plan.committed) && MaxOk(entries, plan.maxTrx)
  }

  // ------------------------------------------------------------------ building it

  /** The maps the scan fills reflect the entries read so far. */
  ghost predicate Filled(entries: seq<Entry>, records: map<U64, seq<Record>>, commitPos: map<U64, nat>) {
    && (forall t: U64 :: t in records <==> DataOf(entries, t) != [])
    && (forall t: U64 :: t in records ==> records[t] == DataOf(entries, t))
    && (forall t: U64 :: t in commitPos <==> HasCommit(entries, t))
    && (forall t: U64 :: t in commitPos ==> commitPos[t] == FirstCommit(entries, t))
  }

  lemma FillOne(entries: seq<Entry>, e: Entry, records: map<U64, seq<Record>>, commitPos: map<U64, nat>)
    requires Filled(entries, records, commitPos)
    ensures e.frame.rec.Commit? ==>
              Filled(entries + [e], records,
                     if e.frame.trx in commitPos then commitPos else commitPos[e.frame.trx := e.end])
    ensures !e.frame.rec.Commit? ==>
              Filled(entries + [e],
                     records[e.frame.trx := (if e.frame.trx in records then records[e.frame.trx] else [])
                                              + [e.frame.rec]],
                     commitPos)
  {
    hide HasCommit, FirstCommit;
    var all := entries + [e];
    assert all[..|all| - 1] == entries;
    forall t: U64
      ensures HasCommit(all, t) <==> HasCommit(entries, t) || e.frame == Frame(t, Commit)
      ensures HasCommit(entries, t) ==> HasCommit(all, t) && FirstCommit(all, t) == FirstCommit(entries, t)
      ensures !HasCommit(entries, t) && e.frame == Frame(t, Commit) ==> HasCommit(all, t)
      ensures !HasCommit(entries, t) && e.frame == Frame(t, Commit) ==> FirstCommit(all, t) == e.end
    {
      FirstCommitAppend(entries, e, t);
    }
    forall t: U64
      ensures DataOf(all, t) ==
              DataOf(entries, t) + if e.frame.trx == t && !e.frame.rec.Commit? then [e.frame.rec] else []
    {
    }
  }

  /** The ids of a set in ascending order, as an ordered map iterates. */
  method AscendingIds(s: set<U64>) returns (ids: seq<U64>)
    ensures forall i, j :: 0 <= i < j < |ids| ==> ids[i] < ids[j]
    ensures forall t: U64 :: t in ids <==> t in s
  {
    ids := [];
    var rest := s;
    while rest != {}
      invariant rest <= s
      invariant forall t: U64 :: t in s <==> t in rest || t in ids
      invariant forall i, j :: 0 <= i < j < |ids| ==> ids[i] < ids[j]
      invariant forall i, t :: 0 <= i < |ids| && t in rest ==> ids[i] < t
      decreases |rest|
    {
      var least := LeastId(rest);
      rest := rest - {least};
      ids := ids + [least];
    }
  }

  method LeastId(s: set<U64>) returns (least: U64)
    requires s != {}
    ensures least in s && forall t: U64 :: t in s ==> least <= t
  {
    var rest := s;
    least :| least in s;
    while rest != {}
      invariant rest <= s && least in s
      invariant forall t: U64 :: t in s && t !in rest ==> least <= t
      decreases |rest|
    {
      var t: U64 :| t in rest;
      if t < least {
        least := t;
      }
      rest := rest - {t};
    }
  }

  /** Adds a transaction at its place in commit order. */
  method AddRedo(committed: seq<Redo>, r: Redo) returns (out: seq<Redo>)
    requires ByCommit(committed) && forall i :: 0 <= i < |committed| ==> committed[i].pos != r.pos
    ensures ByCommit(out) && |out| == |committed| + 1
    ensures forall x :: x in out <==> x in committed || x == r
  {
    var i := 0;
    while i < |committed| && committed[i].pos < r.pos
      invariant i <= |committed|
      invariant forall j :: 0 <= j < i ==> committed[j].pos < r.pos
    {
      i := i + 1;
    }
    out := committed[..i] + [r] + committed[i..];
    assert out[i] == r;
    forall x
      ensures x in out <==> x in committed || x == r
    {
      assert committed == committed[..i] + committed[i..];
    }
  }

  /** Different transactions have different first commit positions. */
  lemma CommitsApart(entries: seq<Entry>, t: U64, u: U64)
    requires Ascending(entries) && HasCommit(entries, t) && HasCommit(entries, u) && t != u
    ensures FirstCommit(entries, t) != FirstCommit(entries, u)
  {
    var i := FirstCommitAt(entries, t);
    var j := FirstCommitAt(entries, u);
    assert i < j ==> entries[i].end < entries[j].end;
    assert j < i ==> entries[j].end < entries[i].end;
  }

  method CollectCommitted(ghost entries: seq<Entry>, ids: seq<U64>, records: map<U64, seq<Record>>,
                          commitPos: map<U64, nat>)
    returns (committed: seq<Redo>)
    requires Ascending(entries) && Filled(entries, records, commitPos) && IdsOk(entries, ids)
    ensures CommittedOk(entries, committed)
  {
    hide HasCommit, FirstCommit, DataOf;
    committed := [];
    for n := 0 to |ids|
      invariant ByCommit(committed)
      invariant forall x :: x in committed ==> RedoOk(entries, x) && x.trx in ids[..n]
      invariant forall k :: 0 <= k < n && ids[k] in records ==>
                Redo(commitPos[ids[k]], ids[k], records[ids[k]]) in committed
    {
      var t := ids[n];
      assert ids[..n + 1] == ids[..n] + [t];
      if t in records {
        var r := Redo(commitPos[t], t, records[t]);
        forall i | 0 <= i < |committed|
          ensures committed[i].pos != r.pos
        {
          assert committed[i] in committed;
          CommitsApart(entries, committed[i].trx, t);
        }
        committed := AddRedo(committed, r);
      }
    }
    assert ids[..|ids|] == ids;
    forall t: U64 | HasCommit(entries, t) && DataOf(entries, t) != []
      ensures exists i :: 0 <= i < |committed| && committed[i].trx == t
    {
      assert t in ids && t in records;
      var k :| 0 <= k < |ids| && ids[k] == t;
      assert Redo(commitPos[t], t, records[t]) in committed;
    }
  }

  lemma ScanStep(bytes: seq<Byte>, pos: nat, done: seq<Entry>)
    requires pos <= |bytes|
    ensures Decode(bytes[pos..]).None? ==> done + Scan(bytes, pos) == done
    ensures var d := Decode(bytes[pos..]);
            d.Some? ==>
              done + Scan(bytes, pos) == (done + [Entry(d.value.0, pos + d.value.1)]) + Scan(bytes, pos + d.value.1)
  {
    hide Decode;
  }

  /** One pass over the log image fills the maps. */
  method ReadLog(bytes: seq<Byte>) returns (records: map<U64, seq<Record>>, commitPos: map<U64, nat>, maxTrx: U64)
    ensures Filled(Scan(bytes, 0), records, commitPos) && MaxOk(Scan(bytes, 0), maxTrx)
  {
    hide Decode, Scan, Filled, MaxOk;
    records, commitPos, maxTrx := map[], map[], 0;
    var pos := 0;
    ghost var done: seq<Entry> := [];
    NothingFilled();
    assert bytes[0..] == bytes && [] + Scan(bytes, 0) == Scan(bytes, 0);
    var next := Decode(bytes);
    while next.Some?
      invariant 0 <= pos <= |bytes| && next == Decode(bytes[pos..])
      invariant done + Scan(bytes, pos) == Scan(bytes, 0)
      invariant Filled(done, records, commitPos) && MaxOk(done, maxTrx)
      decreases |bytes| - pos
    {
      ScanStep(bytes, pos, done);
      var (frame, len) := next.value;
      pos := pos + len;
      ghost var e := Entry(frame, pos);
      FillOne(done, e, records, commitPos);
      MaxOne(done, e, maxTrx);
      maxTrx := if frame.trx > maxTrx then frame.trx else maxTrx;
      if frame.rec.Commit? {
        if frame.trx !in commitPos {
          commitPos := commitPos[frame.trx := pos];
        }
      } else {
        records := records[frame.trx := (if frame.trx in records then records[frame.trx] else []) + [frame.rec]];
      }
      done := done + [e];
      next := Decode(bytes[pos..]);
    }
    ScanStep(bytes, pos, done);
  }

  method PlanRecovery(bytes: seq<Byte>) returns (plan: Plan)
    ensures PlanOk(Scan(bytes, 0), plan)
  {
    hide Decode, HasCommit, FirstCommit, DataOf, Scan;
    var records, commitPos, maxTrx := ReadLog(bytes);
    ScanAscends(bytes, 0);
    var ids := AscendingIds(commitPos.Keys);
    var committed := CollectCommitted(Scan(bytes, 0), ids, records, commitPos);
    plan := Plan(committed, ids, maxTrx);
  }

  /** After a crash at any byte, the plan redoes exactly the transactions whose commit frame survived whole. */
  lemma PlanOfTornLog(frames: seq<Frame>, n: nat, plan: Plan, t: U64)
    requires AllFit(frames) && n <= |EncodeAll(frames)| && PlanOk(Scan(EncodeAll(frames)[..n], 0), plan)
    ensures t in plan.ids <==> Frame(t, Commit) in frames[..Whole(frames, n)]
    ensures forall i :: 0 <= i < |plan.committed| && plan.committed[i].trx == t ==>
              Frame(t, Commit) in frames[..Whole(frames, n)] &&
              plan.committed[i].records == RecordsOf(frames[..Whole(frames, n)], t)
    ensures Frame(t, Commit) in frames[..Whole(frames, n)] && RecordsOf(frames[..Whole(frames, n)], t) != [] ==>
              exists i :: 0 <= i < |plan.committed| && plan.committed[i].trx == t
  {
    var bytes := EncodeAll(frames)[..n];
    var entries := Scan(bytes, 0);
    var kept := frames[..Whole(frames, n)];
    TornTail(frames, n);
    ScanFrames(bytes, 0);
    assert bytes[0..] == bytes && Frames(entries) == kept;
    hide Scan, Decode, Parse, EncodeAll, Whole, FirstCommit;
    CommitInFrames(entries, t);
    DataInFrames(entries, t);
    hide HasCommit, DataOf, RecordsOf, Frames;
  }

  /** The data records of a transaction among frames, in order. */
  ghost function RecordsOf(frames: seq<Frame>, t: U64): seq<Record> {
    if frames == [] then [] else
      var last := frames[|frames| - 1];
      RecordsOf(frames[..|frames| - 1], t) + if last.trx == t && !last.rec.Commit? then [last.rec] else []
  }

  lemma CommitInFrames(entries: seq<Entry>, t: U64)
    ensures HasCommit(entries, t) <==> Frame(t, Commit) in Frames(entries)
  {
    if HasCommit(entries, t) {
      var i :| 0 <= i < |entries| && entries[i].frame == Frame(t, Commit);
      assert Frames(entries)[i] == Frame(t, Commit);
    }
  }

  lemma {:induction false} DataInFrames(entries: seq<Entry>, t: U64)
    ensures DataOf(entries, t) == RecordsOf(Frames(entries), t)
  {
    if entries != [] {
      DataInFrames(entries[..|entries| - 1], t);
      assert Frames(entries)[..|entries| - 1] == Frames(entries[..|entries| - 1]);
    }
  }

  lemma NothingFilled()
    ensures Filled([], map[], map[]) && MaxOk([], 0)
  {
  }

  lemma MaxOne(entries: seq<Entry>, e: Entry, maxTrx: U64)
    requires MaxOk(entries, maxTrx)
    ensures MaxOk(entries + [e], if e.frame.trx > maxTrx then e.frame.trx else maxTrx)
  {
    var all := entries + [e];
    assert all[|entries|] == e && forall i :: 0 <= i < |entries| ==> all[i] == entries[i];
  }
}
