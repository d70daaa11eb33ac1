/**
 Commit status as a chunked bitmap above a vacuum horizon. Abstractly it is a
 pair: the horizon, below which every id counts as committed, and the set of
 ids marked at or above it.
 */
module Clog {

  const BITS := 64
  const WORDS_PER_CHUNK := 1024

  /** One 64-bit word, bit by bit from the least significant. */
  type Word = w: seq<bool> | |w| == BITS witness ZeroWord()

  function ZeroWord(): seq<bool> {
    seq(BITS, _ => false)
  }

  /** What the bitmap stands for. */
  datatype Status = Status(base: nat, marked: set<nat>) {

    /** Id 0 is the read-only sentinel and never committed. */
    predicate Committed(xid: nat) {
      xid != 0 && (xid < base || xid in marked)
    }

    function Mark(xid: nat): Status {
      if xid < base then this else this.(marked := marked + {xid})
    }

    function Advance(newBase: nat): Status {
      if newBase <= base then this else Status(newBase, set x | x in marked && newBase <= x)
    }
  }

  ghost predicate Bit(words: seq<Word>, i: nat) {
    i / BITS < |words| && words[i / BITS][i % BITS]
  }

  ghost function MarkedIn(base: nat, words: seq<Word>): set<nat> {
    set i | 0 <= i < BITS * |words| && Bit(words, i) :: base + i
  }

  lemma MarkedIff(base: nat, words: seq<Word>, i: nat)
    ensures base + i in MarkedIn(base, words) <==> Bit(words, i)
  {
    if Bit(words, i) {
      assert i < BITS * |words|;
    }
  }

  /** The position of the lowest set bit. */
  method TrailingZeros(w: Word) returns (b: nat)
    requires true in w
    ensures b < BITS && w[b] && forall j :: 0 <= j < b ==> !w[j]
  {
    b := 0;
    while !w[b]
      invariant b < BITS && forall j :: 0 <= j < b ==> !w[j]
      decreases BITS - b
    {
      assert exists j :: b < j < BITS && w[j];
      b := b + 1;
    }
  }

  /** Appends `first + b` for every set bit `b` of `w`, lowest first, clearing bits as it goes. */
  method WordIds(w: Word, first: nat, out0: seq<nat>) returns (out: seq<nat>)
    requires Ascending(out0) && forall x :: x in out0 ==> x < first
    ensures Ascending(out) && forall x :: x in out ==> x < first + BITS
    ensures forall x :: x in out <==> x in out0 || (first <= x < first + BITS && w[x - first])
  {
    var bits: Word := w;
    out := out0;
    ghost var done: nat := 0;
    while true in bits
      invariant done <= BITS && Ascending(out)
      invariant forall x :: x in out ==> x < first + done
      invariant forall j :: 0 <= j < done ==> !bits[j]
      invariant forall j :: done <= j < BITS ==> bits[j] == w[j]
      invariant forall x :: x in out <==> x in out0 || (first <= x < first + done && w[x - first])
      decreases BITS - done
    {
      var b := TrailingZeros(bits);
      AscendingAppend(out, first + b);
      out := out + [first + b];
      bits := bits[b := false];
      done := b + 1;
    }
    assert forall j :: 0 <= j < BITS ==> !bits[j];
  }

  ghost predicate Ascending(s: seq<nat>) {
    forall i, j :: 0 <= i < j < |s| ==> s[i] < s[j]
  }

  lemma AscendingAppend(s: seq<nat>, x: nat)
    requires Ascending(s) && forall y :: y in s ==> y < x
    ensures Ascending(s + [x])
  {
    forall i, j | 0 <= i < j < |s + [x]|
      ensures (s + [x])[i] < (s + [x])[j]
    {
      assert s[i] in s;
    }
  }

  class CommitStatus {
    var base: nat
    var words: seq<Word>

    ghost predicate Valid()
      reads this
    {
      |words| % WORDS_PER_CHUNK == 0
    }

    ghost function View(): Status
      reads this
    {
      Status(base, MarkedIn(base, words))
    }

    constructor ()
      ensures Valid() && View() == Status(0, {})
    {
      base, words := 0, [];
    }

    /** Restart from a persisted horizon and the ids at or above it. */
    constructor Reload(base0: nat, ids: seq<nat>)
      ensures Valid() && View().base == base0
      ensures View().marked == set x | x in ids && base0 <= x
    {
      base, words := base0, [];
      new;
      for i := 0 to |ids|
        invariant Valid() && base == base0
        invariant View().marked == set x | x in ids[..i] && base0 <= x
      {
        assert ids[..i + 1] == ids[..i] + [ids[i]];
        MarkCommitted(ids[i]);
      }
      assert ids[..|ids|] == ids;
    }

    /** Grows the array a chunk at a time, then sets one bit. */
    method SetBit(xid: nat)
      requires Valid() && base <= xid
      modifies this
      ensures Valid() && View() == old(View()).Mark(xid)
    {
      var idx := xid - base;
      var word := idx / BITS;
      if word >= |words| {
        var chunk := (word / WORDS_PER_CHUNK + 1) * WORDS_PER_CHUNK;
        words := words + seq(chunk - |words|, _ => ZeroWord());
      }
      ghost var grown := words;
      GrowthKeepsBits(old(words), grown);
      words := words[word := words[word][idx % BITS := true]];
      SetBitMarks(base, grown, words, idx);
    }

    method MarkCommitted(xid: nat)
      requires Valid()
      modifies this
      ensures Valid() && View() == old(View()).Mark(xid)
    {
      if xid < base {
        return;
      }
      SetBit(xid);
    }

    method IsCommitted(xid: nat) returns (yes: bool)
      ensures yes == View().Committed(xid)
    {
      if xid == 0 {
        return false;
      }
      if xid < base {
        return true;
      }
      var idx := xid - base;
      MarkedIff(base, words, idx);
      yes := idx / BITS < |words| && words[idx / BITS][idx % BITS];
    }

    /** Every marked id, in ascending order. */
    method Ids() returns (out: seq<nat>)
      ensures Ascending(out) && forall x :: x in out <==> x in View().marked
    {
      out := [];
      for w := 0 to |words|
        invariant Ascending(out)
        invariant forall x :: x in out ==> x < base + w * BITS
        invariant forall x :: x in out <==> x in MarkedIn(base, words[..w])
      {
        MarkedWords(base, words, w);
        out := WordIds(words[w], base + w * BITS, out);
      }
      assert words[..|words|] == words;
    }

    /** Moves the horizon forward only, and rebuilds the bitmap from the ids that stay above it. */
    method AdvanceBase(newBase: nat) returns (b: nat)
      requires Valid()
      modifies this
      ensures Valid() && View() == old(View()).Advance(newBase) && b == base
    {
      if newBase <= base {
        return base;
      }
      var ids := Ids();
      base, words := newBase, [];
      for i := 0 to |ids|
        invariant Valid() && base == newBase
        invariant View().marked == set x | x in ids[..i] && newBase <= x
      {
        assert ids[..i + 1] == ids[..i] + [ids[i]];
        if ids[i] >= newBase {
          SetBit(ids[i]);
        }
      }
      assert ids[..|ids|] == ids;
      return base;
    }
  }

  /** Persisting the horizon and the ids and reading them back after a restart loses nothing. */
  method Restart(c: CommitStatus) returns (d: CommitStatus)
    ensures fresh(d) && d.Valid() && d.View() == c.View()
  {
    var ids := c.Ids();
    d := new CommitStatus.Reload(c.base, ids);
    assert forall x :: x in c.View().marked ==> c.base <= x;
  }

  lemma GrowthKeepsBits(words: seq<Word>, grown: seq<Word>)
    requires |words| <= |grown| && grown[..|words|] == words
    requires forall w :: |words| <= w < |grown| ==> grown[w] == ZeroWord()
    ensures forall i: nat :: Bit(grown, i) == Bit(words, i)
  {
    forall i: nat
      ensures Bit(grown, i) == Bit(words, i)
    {
      if i / BITS < |words| {
        assert grown[i / BITS] == grown[..|words|][i / BITS];
      }
    }
  }

  lemma SetBitMarks(base: nat, words: seq<Word>, words': seq<Word>, idx: nat)
    requires idx / BITS < |words|
    requires words' == words[idx / BITS := words[idx / BITS][idx % BITS := true]]
    ensures MarkedIn(base, words') == MarkedIn(base, words) + {base + idx}
  {
    forall i: nat
      ensures Bit(words', i) <==> Bit(words, i) || i == idx
    {
    }
    MarkedIff(base, words', idx);
  }

  lemma MarkedWords(base: nat, words: seq<Word>, w: nat)
    requires w < |words|
    ensures forall x :: x in MarkedIn(base, words[..w]) ==> x < base + w * BITS
    ensures forall x :: x in MarkedIn(base, words[..w + 1]) <==>
                x in MarkedIn(base, words[..w]) ||
                (base + w * BITS <= x < base + w * BITS + BITS && words[w][x - (base + w * BITS)])
  {
    forall x
      ensures x in MarkedIn(base, words[..w]) ==> x < base + w * BITS
      ensures x in MarkedIn(base, words[..w + 1]) <==>
                x in MarkedIn(base, words[..w]) ||
                (base + w * BITS <= x < base + w * BITS + BITS && words[w][x - (base + w * BITS)])
    {
      if x >= base {
        MarkedIff(base, words[..w + 1], x - base);
        MarkedIff(base, words[..w], x - base);
        LastWord(words, w, x - base);
      }
    }
  }

  /** A bit of the first `w + 1` words lies in the first `w` or in the last one. */
  lemma LastWord(words: seq<Word>, w: nat, i: nat)
    requires w < |words|
    ensures Bit(words[..w], i) ==> i < w * BITS
    ensures Bit(words[..w + 1], i) <==>
            Bit(words[..w], i) || (w * BITS <= i < w * BITS + BITS && words[w][i - w * BITS])
  {
    if w * BITS <= i < w * BITS + BITS {
      assert i / BITS == w && i % BITS == i - w * BITS;
    }
  }
}
