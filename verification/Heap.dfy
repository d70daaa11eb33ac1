/** Row versions, and the undo entries that take a transaction's writes back. */
module Heap {
  import opened Options

  type Xid = nat

  /** Row ids; 0 is the "no successor" value of a forward pointer. */
  type Rid = nat

  type Row = seq<Option<int>>

  /** `deleter` 0 means unmarked; `next` is the version that superseded this one. */
  datatype Version = Version(creator: Xid, deleter: Xid, next: Rid, row: Row)

  type Versions = map<Rid, Version>

  datatype Undo =
    | UndoInsert(rid: Rid, row: Row)
    | UndoMark(rid: Rid, prevDeleter: Xid, prevNext: Rid)
    | UndoUpdate(rid: Rid, newRid: Rid, newRow: Row, prevDeleter: Xid, prevNext: Rid)

  function SetMark(h: Versions, r: Rid, deleter: Xid, next: Rid): Versions
    requires r in h
  {
    h[r := h[r].(deleter := deleter, next := next)]
  }

  /** Rows an undo entry touches. */
  function Touched(u: Undo): set<Rid> {
    match u
    case UndoInsert(r, _) => {r}
    case UndoMark(r, _, _) => {r}
    case UndoUpdate(r, n, _, _, _) => {r, n}
  }

  /** The row an undo entry marked, if any. */
  function Marked(u: Undo): set<Rid> {
    match u
    case UndoInsert(_, _) => {}
    case UndoMark(r, _, _) => {r}
    case UndoUpdate(r, _, _, _, _) => {r}
  }

  /** Taking one write back: remove what it created, restore the mark it replaced. */
  function UndoOne(h: Versions, u: Undo): Versions {
    match u
    case UndoInsert(r, _) => h - {r}
    case UndoMark(r, d, n) => if r in h then SetMark(h, r, d, n) else h
    case UndoUpdate(r, n, _, d, p) =>
      var h' := h - {n};
      if r in h' then SetMark(h', r, d, p) else h'
  }
}
