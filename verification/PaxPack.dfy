/** Writing a column-major page from its slots. */
module PaxPack {
  import opened Bytes
  import opened Slotted
  import opened PaxImage
  import SlottedPage

  /** Column `c` written up to slot `s`. */
  ghost predicate Filled(p: seq<Byte>, rows: seq<Cells>, ncols: nat, c: nat, s: nat)
    requires |p| == PAGE_SIZE && RowsOk(rows, ncols) && Total(rows, ncols) <= PAGE_SIZE && c < ncols && s <= |rows|
  {
    forall t :: 0 <= t < s ==> CellOk(p, rows, ncols, c, t)
  }

  /** Everything before column `c` written. */
  ghost predicate Written(p: seq<Byte>, rows: seq<Cells>, ncols: nat, c: nat)
    requires |p| == PAGE_SIZE && RowsOk(rows, ncols) && Total(rows, ncols) <= PAGE_SIZE && c <= ncols
  {
    && Headed(p, rows, ncols)
    && Versioned(p, rows, ncols, |rows|)
    && forall d :: 0 <= d < c ==> ColumnOk(p, rows, ncols, d)
  }

  lemma OnlyWithin(p: seq<Byte>, q: seq<Byte>, r: seq<Byte>, a: nat, b: nat)
    requires Only(p, q, a, b) && Only(q, r, a, b)
    ensures Only(p, r, a, b)
  {
  }

  /** Writing a value behind the filled part. */
  lemma NextCell(p: seq<Byte>, rows: seq<Cells>, ncols: nat, c: nat, s: nat)
    requires |p| == PAGE_SIZE && RowsOk(rows, ncols) && Total(rows, ncols) <= PAGE_SIZE && c < ncols && s < |rows|
    requires Filled(p, rows, ncols, c, s)
    ensures ValueAt(rows, ncols, c, s) + |rows[s].vals[c]| <= PAGE_SIZE && OffsetAt(rows, ncols, c, s) + 2 <= PAGE_SIZE
    ensures var q := Put(p, OffsetAt(rows, ncols, c, s), ToLe(Width(rows, ncols, c, s), 2));
            var r := Put(q, ValueAt(rows, ncols, c, s), rows[s].vals[c]);
            Only(p, r, Start(rows, ncols, c), Start(rows, ncols, c + 1)) && Filled(r, rows, ncols, c, s + 1)
  {
    hide Word, Start, Width, Only, Put, ToLe;
    CellBounds(rows, ncols, c, s);
    var o, v, w, x := OffsetAt(rows, ncols, c, s), ValueAt(rows, ncols, c, s), Width(rows, ncols, c, s),
                      rows[s].vals[c];
    assert w < 0x1_0000;
    var q := Put(p, o, ToLe(w, 2));
    var r := Put(q, v, x);
    PutOnly(p, o, ToLe(w, 2), o, o + 2);
    PutOnly(q, v, x, v, v + |x|);
    forall t | 0 <= t < s
      ensures CellOk(r, rows, ncols, c, t)
    {
      CellBounds(rows, ncols, c, t);
      WidthGrows(rows, ncols, c, t + 1, s);
      CellKept(p, q, o, o + 2, rows, ncols, c, t);
      CellKept(q, r, v, v + |x|, rows, ncols, c, t);
    }
    PutWord(p, o, w);
    OtherWord(q, v, x, o);
    PutRange(q, v, x, v, v + |x|);
    assert CellOk(r, rows, ncols, c, s);
    PutOnly(p, o, ToLe(w, 2), Start(rows, ncols, c), Start(rows, ncols, c + 1));
    PutOnly(q, v, x, Start(rows, ncols, c), Start(rows, ncols, c + 1));
    OnlyWithin(p, q, r, Start(rows, ncols, c), Start(rows, ncols, c + 1));
  }

  /** The end offset and the directory entry finish a filled column. */
  lemma CloseColumn(p: seq<Byte>, q: seq<Byte>, rows: seq<Cells>, ncols: nat, c: nat)
    requires |p| == PAGE_SIZE && RowsOk(rows, ncols) && Total(rows, ncols) <= PAGE_SIZE && c < ncols
    requires Written(p, rows, ncols, c) && Only(p, q, Start(rows, ncols, c), Start(rows, ncols, c + 1))
    requires Filled(q, rows, ncols, c, |rows|)
    ensures OffsetAt(rows, ncols, c, |rows|) + 2 <= PAGE_SIZE && DirAt(c) + 4 <= PAGE_SIZE
    ensures Written(Closed(q, rows, ncols, c), rows, ncols, c + 1)
  {
    hide Word, Start, Width, Only, Put, ToLe, Headed, Versioned, CellOk, ColumnOk;
    CellBounds(rows, ncols, c, |rows|);
    CellsStart(rows, ncols);
    StartGrows(rows, ncols, 0, c);
    var a, b := Start(rows, ncols, c), Start(rows, ncols, c + 1);
    Kept(p, q, a, b, 0, 0);
    var o, w := OffsetAt(rows, ncols, c, |rows|), Width(rows, ncols, c, |rows|);
    var q1 := Put(q, o, ToLe(w, 2));
    var q2 := Put(q1, DirAt(c), ToLe(a, 2));
    var r := Put(q2, DirAt(c) + 2, ToLe(b - a, 2));
    PutOnly(q, o, ToLe(w, 2), a, b);
    OnlyWithin(p, q, q1, a, b);
    PutOnly(q1, DirAt(c), ToLe(a, 2), DirAt(c), DirAt(c) + 4);
    PutOnly(q2, DirAt(c) + 2, ToLe(b - a, 2), DirAt(c), DirAt(c) + 4);
    OnlyWithin(q1, q2, r, DirAt(c), DirAt(c) + 4);
    HeadedKept(p, q1, a, b, rows, ncols);
    HeadedKept(q1, r, DirAt(c), DirAt(c) + 4, rows, ncols);
    VersionedKept(p, q1, a, b, rows, ncols, |rows|);
    VersionedKept(q1, r, DirAt(c), DirAt(c) + 4, rows, ncols, |rows|);
    forall d | 0 <= d < c
      ensures ColumnOk(r, rows, ncols, d)
    {
      StartGrows(rows, ncols, d + 1, c);
      CellBounds(rows, ncols, d, 0);
      ColumnKept(p, q1, a, b, rows, ncols, d);
      ColumnKept(q1, r, DirAt(c), DirAt(c) + 4, rows, ncols, d);
    }
    ClosedColumn(q, rows, ncols, c);
  }

  ghost function Closed(q: seq<Byte>, rows: seq<Cells>, ncols: nat, c: nat): seq<Byte>
    requires |q| == PAGE_SIZE && RowsOk(rows, ncols) && c < ncols
    requires OffsetAt(rows, ncols, c, |rows|) + 2 <= PAGE_SIZE && DirAt(c) + 4 <= PAGE_SIZE
  {
    var q1 := Put(q, OffsetAt(rows, ncols, c, |rows|), ToLe(Width(rows, ncols, c, |rows|), 2));
    var q2 := Put(q1, DirAt(c), ToLe(Start(rows, ncols, c), 2));
    Put(q2, DirAt(c) + 2, ToLe(Start(rows, ncols, c + 1) - Start(rows, ncols, c), 2))
  }

  lemma ClosedColumn(q: seq<Byte>, rows: seq<Cells>, ncols: nat, c: nat)
    requires |q| == PAGE_SIZE && RowsOk(rows, ncols) && Total(rows, ncols) <= PAGE_SIZE && c < ncols
    requires OffsetAt(rows, ncols, c, |rows|) + 2 <= PAGE_SIZE && DirAt(c) + 4 <= PAGE_SIZE
    requires Filled(q, rows, ncols, c, |rows|)
    ensures ColumnOk(Closed(q, rows, ncols, c), rows, ncols, c)
  {
    hide Word, Start, Width, Only, Put, ToLe, CellOk;
    CellBounds(rows, ncols, c, |rows|);
    CellsStart(rows, ncols);
    StartGrows(rows, ncols, 0, c);
    var a, b := Start(rows, ncols, c), Start(rows, ncols, c + 1);
    var o, w := OffsetAt(rows, ncols, c, |rows|), Width(rows, ncols, c, |rows|);
    var q1 := Put(q, o, ToLe(w, 2));
    var q2 := Put(q1, DirAt(c), ToLe(a, 2));
    var r := Put(q2, DirAt(c) + 2, ToLe(b - a, 2));
    PutWord(q, o, w);
    OtherWord(q1, DirAt(c), ToLe(a, 2), o);
    OtherWord(q2, DirAt(c) + 2, ToLe(b - a, 2), o);
    PutWord(q1, DirAt(c), a);
    OtherWord(q2, DirAt(c) + 2, ToLe(b - a, 2), DirAt(c));
    PutWord(q2, DirAt(c) + 2, b - a);
    PutOnly(q, o, ToLe(w, 2), o, o + 2);
    PutOnly(q1, DirAt(c), ToLe(a, 2), DirAt(c), DirAt(c) + 2);
    PutOnly(q2, DirAt(c) + 2, ToLe(b - a, 2), DirAt(c) + 2, DirAt(c) + 4);
    forall s | 0 <= s < |rows|
      ensures CellOk(r, rows, ncols, c, s)
    {
      CellBounds(rows, ncols, c, s);
      CellBounds(rows, ncols, c, s + 1);
      CellKept(q, q1, o, o + 2, rows, ncols, c, s);
      CellKept(q1, q2, DirAt(c), DirAt(c) + 2, rows, ncols, c, s);
      CellKept(q2, r, DirAt(c) + 2, DirAt(c) + 4, rows, ncols, c, s);
    }
  }

  // ------------------------------------------------------------------ header and versions

  ghost function WithHeader(p: seq<Byte>, n: nat, ncols: nat, total: nat): seq<Byte>
    requires |p| == PAGE_SIZE
  {
    var p1 := Put(p, 0, MAGIC);
    var p2 := Put(p1, 4, ToLe(n, 2));
    var p3 := Put(p2, 6, ToLe(ncols, 2));
    var p4 := Put(p3, 8, ToLe(ncols + 1, 2));
    var p5 := Put(p4, 10, ToLe(total, 2));
    var p6 := Put(p5, 16, ToLe(DirEnd(ncols), 2));
    Put(p6, 18, ToLe(VERSION_LEN * n, 2))
  }

  lemma HeaderIs(p: seq<Byte>, rows: seq<Cells>, ncols: nat)
    requires |p| == PAGE_SIZE && RowsOk(rows, ncols) && Total(rows, ncols) <= PAGE_SIZE
    ensures Headed(WithHeader(p, |rows|, ncols, Total(rows, ncols)), rows, ncols)
  {
    hide Word, Start, Put, ToLe, Total;
    CellsStart(rows, ncols);
    var n, total := |rows|, Total(rows, ncols);
    var p1 := Put(p, 0, MAGIC);
    var p2 := Put(p1, 4, ToLe(n, 2));
    var p3 := Put(p2, 6, ToLe(ncols, 2));
    var p4 := Put(p3, 8, ToLe(ncols + 1, 2));
    var p5 := Put(p4, 10, ToLe(total, 2));
    var p6 := Put(p5, 16, ToLe(DirEnd(ncols), 2));
    var p7 := Put(p6, 18, ToLe(VERSION_LEN * n, 2));
    PutRange(p, 0, MAGIC, 0, 4);
    PutRange(p1, 4, ToLe(n, 2), 0, 4);
    PutRange(p2, 6, ToLe(ncols, 2), 0, 4);
    PutRange(p3, 8, ToLe(ncols + 1, 2), 0, 4);
    PutRange(p4, 10, ToLe(total, 2), 0, 4);
    PutRange(p5, 16, ToLe(DirEnd(ncols), 2), 0, 4);
    PutRange(p6, 18, ToLe(VERSION_LEN * n, 2), 0, 4);
    PutWord(p1, 4, n);
    OtherWord(p2, 6, ToLe(ncols, 2), 4);
    OtherWord(p3, 8, ToLe(ncols + 1, 2), 4);
    OtherWord(p4, 10, ToLe(total, 2), 4);
    OtherWord(p5, 16, ToLe(DirEnd(ncols), 2), 4);
    OtherWord(p6, 18, ToLe(VERSION_LEN * n, 2), 4);
    PutWord(p2, 6, ncols);
    OtherWord(p3, 8, ToLe(ncols + 1, 2), 6);
    OtherWord(p4, 10, ToLe(total, 2), 6);
    OtherWord(p5, 16, ToLe(DirEnd(ncols), 2), 6);
    OtherWord(p6, 18, ToLe(VERSION_LEN * n, 2), 6);
    PutWord(p3, 8, ncols + 1);
    OtherWord(p4, 10, ToLe(total, 2), 8);
    OtherWord(p5, 16, ToLe(DirEnd(ncols), 2), 8);
    OtherWord(p6, 18, ToLe(VERSION_LEN * n, 2), 8);
    PutWord(p4, 10, total);
    OtherWord(p5, 16, ToLe(DirEnd(ncols), 2), 10);
    OtherWord(p6, 18, ToLe(VERSION_LEN * n, 2), 10);
    PutWord(p5, 16, DirEnd(ncols));
    OtherWord(p6, 18, ToLe(VERSION_LEN * n, 2), 16);
    PutWord(p6, 18, VERSION_LEN * n);
  }

  lemma NextVersion(p: seq<Byte>, rows: seq<Cells>, ncols: nat, s: nat)
    requires |p| == PAGE_SIZE && RowsOk(rows, ncols) && Total(rows, ncols) <= PAGE_SIZE && s < |rows|
    requires Headed(p, rows, ncols) && Versioned(p, rows, ncols, s)
    ensures VersionAt(ncols, s) + VERSION_LEN <= PAGE_SIZE
    ensures var q := Put(p, VersionAt(ncols, s), rows[s].version);
            Headed(q, rows, ncols) && Versioned(q, rows, ncols, s + 1)
  {
    hide Word, Start, Only, Put, Total;
    CellsStart(rows, ncols);
    var at := VersionAt(ncols, s);
    var q := Put(p, at, rows[s].version);
    PutOnly(p, at, rows[s].version, at, at + VERSION_LEN);
    HeadedKept(p, q, at, at + VERSION_LEN, rows, ncols);
    VersionedKept(p, q, at, at + VERSION_LEN, rows, ncols, s);
    PutRange(p, at, rows[s].version, at, at + VERSION_LEN);
  }

  // ------------------------------------------------------------------ writing the page

  /** The size the rows need, column by column. */
  method Measure(rows: seq<Cells>, ncols: nat) returns (total: nat)
    requires RowsOk(rows, ncols)
    ensures total == Total(rows, ncols)
  {
    total := PAX_HEADER + (ncols + 1) * DIR_ENTRY + |rows| * VERSION_LEN;
    for c := 0 to ncols
      invariant total == Start(rows, ncols, c)
    {
      total := total + 2 * (|rows| + 1);
      for s := 0 to |rows|
        invariant total == Start(rows, ncols, c) + 2 * (|rows| + 1) + Width(rows, ncols, c, s)
      {
        total := total + |rows[s].vals[c]|;
      }
    }
  }

  method WriteHeader(page: array<Byte>, n: nat, ncols: nat, total: nat)
    requires page.Length == PAGE_SIZE
    modifies page
    ensures page[..] == WithHeader(old(page[..]), n, ncols, total)
  {
    hide Put, ToLe;
    SlottedPage.CopyInto(page, 0, MAGIC);
    SlottedPage.CopyInto(page, 4, ToLe(n, 2));
    SlottedPage.CopyInto(page, 6, ToLe(ncols, 2));
    SlottedPage.CopyInto(page, 8, ToLe(ncols + 1, 2));
    SlottedPage.CopyInto(page, 10, ToLe(total, 2));
    SlottedPage.CopyInto(page, 16, ToLe(DirEnd(ncols), 2));
    SlottedPage.CopyInto(page, 18, ToLe(VERSION_LEN * n, 2));
  }

  method WriteVersions(page: array<Byte>, rows: seq<Cells>, ncols: nat)
    requires page.Length == PAGE_SIZE && RowsOk(rows, ncols) && Total(rows, ncols) <= PAGE_SIZE
    requires Headed(page[..], rows, ncols)
    modifies page
    ensures Written(page[..], rows, ncols, 0)
  {
    hide Put, Headed, Start, Total;
    for s := 0 to |rows|
      invariant Headed(page[..], rows, ncols) && Versioned(page[..], rows, ncols, s)
    {
      NextVersion(page[..], rows, ncols, s);
      SlottedPage.CopyInto(page, DirEnd(ncols) + s * VERSION_LEN, rows[s].version);
    }
  }

  /** One column: an offset word and the value bytes per slot, then the end offset and the directory entry. */
  method WriteColumn(page: array<Byte>, rows: seq<Cells>, ncols: nat, c: nat, start: nat) returns (end: nat)
    requires page.Length == PAGE_SIZE && RowsOk(rows, ncols) && Total(rows, ncols) <= PAGE_SIZE && c < ncols
    requires start == Start(rows, ncols, c) && Written(page[..], rows, ncols, c)
    modifies page
    ensures Written(page[..], rows, ncols, c + 1) && end == Start(rows, ncols, c + 1)
  {
    hide Put, Headed, Versioned, ColumnOk, CellOk, ToLe, Only, Start, Total, Written, Filled;
    ghost var p := page[..];
    end := start + 2 * (|rows| + 1);
    var rel := 0;
    StartFilled(p, rows, ncols, c);
    for s := 0 to |rows|
      invariant Only(p, page[..], Start(rows, ncols, c), Start(rows, ncols, c + 1))
      invariant Filled(page[..], rows, ncols, c, s)
      invariant rel == Width(rows, ncols, c, s) && end == ValueAt(rows, ncols, c, s)
    {
      NextCell(page[..], rows, ncols, c, s);
      ghost var q := page[..];
      SlottedPage.CopyInto(page, start + 2 * s, ToLe(rel, 2));
      var v := rows[s].vals[c];
      PutNothing(page[..], end);
      if v != [] {
        SlottedPage.CopyInto(page, end, v);
        end := end + |v|;
        rel := rel + |v|;
      }
      OnlyWithin(p, q, page[..], Start(rows, ncols, c), Start(rows, ncols, c + 1));
    }
    CloseColumn(p, page[..], rows, ncols, c);
    EndOfColumn(rows, ncols, c);
    SlottedPage.CopyInto(page, start + 2 * |rows|, ToLe(rel, 2));
    SlottedPage.CopyInto(page, DirAt(c), ToLe(start, 2));
    SlottedPage.CopyInto(page, DirAt(c) + 2, ToLe(end - start, 2));
  }

  lemma PutNothing(p: seq<Byte>, at: nat)
    ensures at <= |p| ==> Put(p, at, []) == p
  {
  }

  lemma StartFilled(p: seq<Byte>, rows: seq<Cells>, ncols: nat, c: nat)
    requires |p| == PAGE_SIZE && RowsOk(rows, ncols) && Total(rows, ncols) <= PAGE_SIZE && c < ncols
    ensures Filled(p, rows, ncols, c, 0) && Only(p, p, Start(rows, ncols, c), Start(rows, ncols, c + 1))
  {
  }

  lemma EndOfColumn(rows: seq<Cells>, ncols: nat, c: nat)
    requires RowsOk(rows, ncols) && c < ncols
    ensures ValueAt(rows, ncols, c, |rows|) == Start(rows, ncols, c + 1)
  {
  }

  /** Refused exactly when the rows do not fit, and then nothing is written. */
  method Pack(page: array<Byte>, rows: seq<Cells>, ncols: nat) returns (ok: bool)
    requires page.Length == PAGE_SIZE && RowsOk(rows, ncols)
    modifies page
    ensures ok <==> Total(rows, ncols) <= PAGE_SIZE
    ensures !ok ==> page[..] == old(page[..])
    ensures ok ==> Represents(page[..], rows, ncols)
  {
    var total := Measure(rows, ncols);
    if total > PAGE_SIZE {
      return false;
    }
    for i := 0 to PAGE_SIZE {
      page[i] := 0;
    }
    HeaderIs(page[..], rows, ncols);
    WriteHeader(page, |rows|, ncols, total);
    WriteVersions(page, rows, ncols);
    var cur := PAX_HEADER + (ncols + 1) * DIR_ENTRY + |rows| * VERSION_LEN;
    for c := 0 to ncols
      invariant Written(page[..], rows, ncols, c) && cur == Start(rows, ncols, c)
    {
      cur := WriteColumn(page, rows, ncols, c, cur);
    }
    ok := true;
  }
}
