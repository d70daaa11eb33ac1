/** The bytes of a column-major page, and reading single values back from them. */
module PaxImage {
  import opened Bytes
  import opened Slotted

  const PAX_HEADER := 16
  const DIR_ENTRY := 4
  const VERSION_LEN := 24

  const MAGIC: seq<Byte> := [0x50, 0x41, 0x58, 0x33]

  /** One slot: its version bytes and one tagged value per column; an empty slot has empty values. */
  datatype Cells = Cells(version: seq<Byte>, vals: seq<seq<Byte>>)

  // ------------------------------------------------------------------ where everything stands

  ghost predicate RowsOk(rows: seq<Cells>, ncols: nat) {
    forall s :: 0 <= s < |rows| ==> |rows[s].version| == VERSION_LEN && |rows[s].vals| == ncols
  }

  /** Bytes of column `c` in the first `s` slots. */
  function Width(rows: seq<Cells>, ncols: nat, c: nat, s: nat): nat
    requires (forall s :: 0 <= s < |rows| ==> |rows[s].vals| == ncols) && c < ncols && s <= |rows|
  {
    if s == 0 then 0 else Width(rows, ncols, c, s - 1) + |rows[s - 1].vals[c]|
  }

  lemma {:induction false} WidthGrows(rows: seq<Cells>, ncols: nat, c: nat, s: nat, t: nat)
    requires RowsOk(rows, ncols) && c < ncols && s <= t <= |rows|
    ensures Width(rows, ncols, c, s) <= Width(rows, ncols, c, t)
    decreases t
  {
    if s < t {
      WidthGrows(rows, ncols, c, s, t - 1);
    }
  }

  function DirEnd(ncols: nat): nat {
    PAX_HEADER + (ncols + 1) * DIR_ENTRY
  }

  /** Offset of column `c`'s segment: offsets first, then values. */
  function Start(rows: seq<Cells>, ncols: nat, c: nat): nat
    requires (forall s :: 0 <= s < |rows| ==> |rows[s].vals| == ncols) && c <= ncols
  {
    if c == 0 then DirEnd(ncols) + VERSION_LEN * |rows|
    else Start(rows, ncols, c - 1) + 2 * (|rows| + 1) + Width(rows, ncols, c - 1, |rows|)
  }

  lemma {:induction false} StartGrows(rows: seq<Cells>, ncols: nat, c: nat, d: nat)
    requires RowsOk(rows, ncols) && c <= d <= ncols
    ensures Start(rows, ncols, c) <= Start(rows, ncols, d)
    decreases d
  {
    if c < d {
      StartGrows(rows, ncols, c, d - 1);
    }
  }

  /** Bytes a page with these rows takes. */
  function Total(rows: seq<Cells>, ncols: nat): nat
    requires forall s :: 0 <= s < |rows| ==> |rows[s].vals| == ncols
  {
    Start(rows, ncols, ncols)
  }

  function DirAt(c: nat): nat {
    PAX_HEADER + DIR_ENTRY * (1 + c)
  }

  // ------------------------------------------------------------------ what the bytes say

  ghost predicate Headed(p: seq<Byte>, rows: seq<Cells>, ncols: nat)
    requires |p| == PAGE_SIZE && RowsOk(rows, ncols)
  {
    && p[0..4] == MAGIC
    && Word(p, 4) == |rows| && Word(p, 6) == ncols && Word(p, 8) == ncols + 1 && Word(p, 10) == Total(rows, ncols)
    && Word(p, PAX_HEADER) == DirEnd(ncols) && Word(p, PAX_HEADER + 2) == VERSION_LEN * |rows|
  }

  function VersionAt(ncols: nat, s: nat): nat {
    DirEnd(ncols) + VERSION_LEN * s
  }

  ghost predicate Versioned(p: seq<Byte>, rows: seq<Cells>, ncols: nat, n: nat)
    requires |p| == PAGE_SIZE && RowsOk(rows, ncols) && n <= |rows| && Total(rows, ncols) <= PAGE_SIZE
  {
    StartGrows(rows, ncols, 0, ncols);
    forall s :: 0 <= s < n ==> p[VersionAt(ncols, s)..VersionAt(ncols, s) + VERSION_LEN] == rows[s].version
  }

  function OffsetAt(rows: seq<Cells>, ncols: nat, c: nat, s: nat): nat
    requires (forall s :: 0 <= s < |rows| ==> |rows[s].vals| == ncols) && c < ncols && s <= |rows|
  {
    Start(rows, ncols, c) + 2 * s
  }

  function ValueAt(rows: seq<Cells>, ncols: nat, c: nat, s: nat): nat
    requires (forall s :: 0 <= s < |rows| ==> |rows[s].vals| == ncols) && c < ncols && s <= |rows|
  {
    Start(rows, ncols, c) + 2 * (|rows| + 1) + Width(rows, ncols, c, s)
  }

  lemma CellBounds(rows: seq<Cells>, ncols: nat, c: nat, s: nat)
    requires RowsOk(rows, ncols) && c < ncols && s <= |rows|
    ensures Start(rows, ncols, c) <= OffsetAt(rows, ncols, c, s)
    ensures OffsetAt(rows, ncols, c, s) + 2 <= ValueAt(rows, ncols, c, 0) <= ValueAt(rows, ncols, c, s)
    ensures ValueAt(rows, ncols, c, s) <= Start(rows, ncols, c + 1) <= Total(rows, ncols)
    ensures s < |rows| ==> ValueAt(rows, ncols, c, s) + |rows[s].vals[c]| == ValueAt(rows, ncols, c, s + 1)
    ensures s < |rows| ==> ValueAt(rows, ncols, c, s + 1) <= Start(rows, ncols, c + 1)
    ensures DirEnd(ncols) + VERSION_LEN * |rows| <= Start(rows, ncols, c)
  {
    WidthGrows(rows, ncols, c, 0, s);
    WidthGrows(rows, ncols, c, s, |rows|);
    if s < |rows| {
      WidthGrows(rows, ncols, c, s + 1, |rows|);
    }
    StartGrows(rows, ncols, c + 1, ncols);
    StartGrows(rows, ncols, 0, c);
  }

  /** Slot `s` of column `c`: its offset word and its value. */
  ghost predicate CellOk(p: seq<Byte>, rows: seq<Cells>, ncols: nat, c: nat, s: nat)
    requires |p| == PAGE_SIZE && RowsOk(rows, ncols) && Total(rows, ncols) <= PAGE_SIZE && c < ncols && s < |rows|
  {
    CellBounds(rows, ncols, c, s);
    && Word(p, OffsetAt(rows, ncols, c, s)) == Width(rows, ncols, c, s)
    && p[ValueAt(rows, ncols, c, s)..ValueAt(rows, ncols, c, s) + |rows[s].vals[c]|] == rows[s].vals[c]
  }

  /** Column `c`: its directory entry, every cell, and the end offset. */
  ghost predicate ColumnOk(p: seq<Byte>, rows: seq<Cells>, ncols: nat, c: nat)
    requires |p| == PAGE_SIZE && RowsOk(rows, ncols) && Total(rows, ncols) <= PAGE_SIZE && c < ncols
  {
    CellBounds(rows, ncols, c, |rows|);
    && Word(p, DirAt(c)) == Start(rows, ncols, c)
    && Word(p, DirAt(c) + 2) == Start(rows, ncols, c + 1) - Start(rows, ncols, c)
    && (forall s :: 0 <= s < |rows| ==> CellOk(p, rows, ncols, c, s))
    && Word(p, OffsetAt(rows, ncols, c, |rows|)) == Width(rows, ncols, c, |rows|)
  }

  /** Page `p` is formatted and holds exactly these slots. */
  ghost predicate Represents(p: seq<Byte>, rows: seq<Cells>, ncols: nat) {
    && |p| == PAGE_SIZE && RowsOk(rows, ncols) && Total(rows, ncols) <= PAGE_SIZE
    && Headed(p, rows, ncols)
    && Versioned(p, rows, ncols, |rows|)
    && (forall c :: 0 <= c < ncols ==> ColumnOk(p, rows, ncols, c))
  }

  // ------------------------------------------------------------------ what a write leaves alone

  ghost predicate Only(p: seq<Byte>, q: seq<Byte>, a: nat, b: nat) {
    && |p| == |q|
    && forall i :: 0 <= i < |p| && !(a <= i < b) ==> p[i] == q[i]
  }

  lemma PutOnly(p: seq<Byte>, at: nat, data: seq<Byte>, a: nat, b: nat)
    requires a <= at && at + |data| <= b && at + |data| <= |p|
    ensures Only(p, Put(p, at, data), a, b)
  {
  }

  lemma Kept(p: seq<Byte>, q: seq<Byte>, a: nat, b: nat, i: nat, j: nat)
    requires Only(p, q, a, b) && i <= j <= |p| && (j <= a || b <= i)
    ensures |p| == |q| && p[i..j] == q[i..j] && (j == i + 2 ==> Word(p, i) == Word(q, i))
  {
  }

  lemma CellKept(p: seq<Byte>, q: seq<Byte>, a: nat, b: nat, rows: seq<Cells>, ncols: nat, c: nat, s: nat)
    requires |p| == PAGE_SIZE && RowsOk(rows, ncols) && Total(rows, ncols) <= PAGE_SIZE && c < ncols && s < |rows|
    requires Only(p, q, a, b) && CellOk(p, rows, ncols, c, s)
    requires OffsetAt(rows, ncols, c, s) + 2 <= a || b <= OffsetAt(rows, ncols, c, s)
    requires ValueAt(rows, ncols, c, s + 1) <= a || b <= ValueAt(rows, ncols, c, s)
    ensures CellOk(q, rows, ncols, c, s)
  {
    hide Word, Start, Width, Only;
    CellBounds(rows, ncols, c, s);
    var o, v := OffsetAt(rows, ncols, c, s), ValueAt(rows, ncols, c, s);
    Kept(p, q, a, b, o, o + 2);
    Kept(p, q, a, b, v, v + |rows[s].vals[c]|);
  }

  lemma ColumnKept(p: seq<Byte>, q: seq<Byte>, a: nat, b: nat, rows: seq<Cells>, ncols: nat, c: nat)
    requires |p| == PAGE_SIZE && RowsOk(rows, ncols) && Total(rows, ncols) <= PAGE_SIZE && c < ncols
    requires Only(p, q, a, b) && ColumnOk(p, rows, ncols, c)
    requires DirAt(c) + DIR_ENTRY <= a || b <= DirAt(c)
    requires Start(rows, ncols, c + 1) <= a || b <= Start(rows, ncols, c)
    ensures ColumnOk(q, rows, ncols, c)
  {
    hide Word, Start, Width, Only, CellOk;
    CellBounds(rows, ncols, c, |rows|);
    Kept(p, q, a, b, DirAt(c), DirAt(c) + 2);
    Kept(p, q, a, b, DirAt(c) + 2, DirAt(c) + 4);
    Kept(p, q, a, b, OffsetAt(rows, ncols, c, |rows|), OffsetAt(rows, ncols, c, |rows|) + 2);
    forall s | 0 <= s < |rows|
      ensures CellOk(q, rows, ncols, c, s)
    {
      CellBounds(rows, ncols, c, s);
      CellKept(p, q, a, b, rows, ncols, c, s);
    }
  }

  lemma HeadedKept(p: seq<Byte>, q: seq<Byte>, a: nat, b: nat, rows: seq<Cells>, ncols: nat)
    requires |p| == PAGE_SIZE && RowsOk(rows, ncols) && Headed(p, rows, ncols)
    requires Only(p, q, a, b) && DirAt(0) <= a
    ensures Headed(q, rows, ncols)
  {
    hide Word, Start, Only;
    Kept(p, q, a, b, 0, 4);
    Kept(p, q, a, b, 4, 6);
    Kept(p, q, a, b, 6, 8);
    Kept(p, q, a, b, 8, 10);
    Kept(p, q, a, b, 10, 12);
    Kept(p, q, a, b, 16, 18);
    Kept(p, q, a, b, 18, 20);
  }

  lemma VersionedKept(p: seq<Byte>, q: seq<Byte>, a: nat, b: nat, rows: seq<Cells>, ncols: nat, n: nat)
    requires |p| == PAGE_SIZE && RowsOk(rows, ncols) && n <= |rows| && Total(rows, ncols) <= PAGE_SIZE
    requires Versioned(p, rows, ncols, n)
    requires Only(p, q, a, b) && (VersionAt(ncols, n) <= a || b <= DirEnd(ncols))
    ensures Versioned(q, rows, ncols, n)
  {
    hide Start, Only;
    StartGrows(rows, ncols, 0, ncols);
    CellsStart(rows, ncols);
    Kept(p, q, a, b, 0, 0);
    forall s | 0 <= s < n
      ensures q[VersionAt(ncols, s)..VersionAt(ncols, s) + VERSION_LEN] == rows[s].version
    {
      Kept(p, q, a, b, VersionAt(ncols, s), VersionAt(ncols, s) + VERSION_LEN);
    }
  }

  lemma CellsStart(rows: seq<Cells>, ncols: nat)
    requires RowsOk(rows, ncols)
    ensures VersionAt(ncols, |rows|) == Start(rows, ncols, 0) <= Total(rows, ncols)
  {
    StartGrows(rows, ncols, 0, ncols);
  }

  // ------------------------------------------------------------------ reading

  /** A column value read through the directory and two offset words. */
  function ColValue(p: seq<Byte>, c: nat, s: nat, ghost rows: seq<Cells>, ghost ncols: nat): (v: seq<Byte>)
    requires Represents(p, rows, ncols) && c < ncols && s < |rows|
    ensures v == rows[s].vals[c]
  {
    ReadFacts(p, c, s, rows, ncols);
    var at := Word(p, DirAt(c));
    var data := at + 2 * (Word(p, 4) + 1);
    var a, b := Word(p, at + 2 * s), Word(p, at + 2 * s + 2);
    p[data + a..data + b]
  }

  lemma ReadFacts(p: seq<Byte>, c: nat, s: nat, rows: seq<Cells>, ncols: nat)
    requires Represents(p, rows, ncols) && c < ncols && s < |rows|
    ensures DirAt(c) + 2 <= |p| && Word(p, DirAt(c)) == Start(rows, ncols, c) && Word(p, 4) == |rows|
    ensures var at := Start(rows, ncols, c); at + 2 * s + 4 <= |p|
    ensures Word(p, Start(rows, ncols, c) + 2 * s) == Width(rows, ncols, c, s)
    ensures Word(p, Start(rows, ncols, c) + 2 * s + 2) == Width(rows, ncols, c, s + 1)
    ensures ValueAt(rows, ncols, c, s) <= ValueAt(rows, ncols, c, s + 1) <= |p|
    ensures p[ValueAt(rows, ncols, c, s)..ValueAt(rows, ncols, c, s + 1)] == rows[s].vals[c]
  {
    hide Word, Start, Width;
    CellBounds(rows, ncols, c, s);
    CellBounds(rows, ncols, c, s + 1);
    assert ColumnOk(p, rows, ncols, c) && CellOk(p, rows, ncols, c, s);
    assert s + 1 < |rows| ==> CellOk(p, rows, ncols, c, s + 1);
  }

  function VersionBytes(p: seq<Byte>, s: nat, ghost rows: seq<Cells>, ghost ncols: nat): (v: seq<Byte>)
    requires Represents(p, rows, ncols) && s < |rows|
    ensures v == rows[s].version
  {
    CellsStart(rows, ncols);
    var at := Word(p, PAX_HEADER) + s * VERSION_LEN;
    assert at == VersionAt(ncols, s);
    p[at..at + VERSION_LEN]
  }
}
