/** Page budgets: how large nodes are, and where a node that has become too large is cut. */
module BLinkSplit {
  import opened Options
  import opened KeyOrder
  import opened BLink

  const PAGE_SIZE := 8192

  /** Fixed node header; a high key adds its bytes and a row id. */
  const BASE := 13
  const RID_LEN := 6
  const LEAF_OVERHEAD := 8
  const INTERNAL_OVERHEAD := 12

  /** Longest key for which every split below is guaranteed to succeed. */
  const MAX_KEY := 2716

  function HeaderLen(high: Option<Key>): nat {
    if high.None? || high.value.bytes == [] then BASE else BASE + |high.value.bytes| + RID_LEN
  }

  function Sum(s: seq<nat>): nat {
    if s == [] then 0 else Sum(s[..|s| - 1]) + s[|s| - 1]
  }

  function LeafSizes(entries: seq<Key>): (r: seq<nat>)
    ensures |r| == |entries| && forall i :: 0 <= i < |r| ==> r[i] == LEAF_OVERHEAD + |entries[i].bytes|
  {
    seq(|entries|, i requires 0 <= i < |entries| => LEAF_OVERHEAD + |entries[i].bytes|)
  }

  function SepSizes(seps: seq<Sep>): (r: seq<nat>)
    ensures |r| == |seps| && forall i :: 0 <= i < |r| ==> r[i] == INTERNAL_OVERHEAD + |seps[i].key.bytes|
  {
    seq(|seps|, i requires 0 <= i < |seps| => INTERNAL_OVERHEAD + |seps[i].key.bytes|)
  }

  function UsedBytes(node: Node): nat {
    HeaderLen(node.high) + if node.Leaf? then Sum(LeafSizes(node.entries)) else Sum(SepSizes(node.seps))
  }

  // ------------------------------------------------------------------ prefix sums

  lemma {:induction false} SumAppend(a: seq<nat>, b: seq<nat>)
    ensures Sum(a + b) == Sum(a) + Sum(b)
  {
    if b == [] {
      assert a + b == a;
    } else {
      assert (a + b)[..|a + b| - 1] == a + b[..|b| - 1];
      SumAppend(a, b[..|b| - 1]);
    }
  }

  lemma SumTake(s: seq<nat>, i: nat)
    requires i < |s|
    ensures Sum(s[..i + 1]) == Sum(s[..i]) + s[i]
  {
    assert s[..i + 1][..i] == s[..i];
  }

  lemma SumCut(s: seq<nat>, i: nat)
    requires i <= |s|
    ensures Sum(s) == Sum(s[..i]) + Sum(s[i..])
  {
    assert s == s[..i] + s[i..];
    SumAppend(s[..i], s[i..]);
  }

  lemma {:induction false} SumBound(s: seq<nat>, most: nat)
    requires forall i :: 0 <= i < |s| ==> s[i] <= most
    ensures Sum(s) <= most * |s|
  {
    if s != [] {
      SumBound(s[..|s| - 1], most);
      assert most * |s| == most * (|s| - 1) + most;
    }
  }

  // ------------------------------------------------------------------ choosing the cut

  /** Bytes of the left half when cut at `m`. */
  ghost function LeftBytes(sizes: seq<nat>, heads: seq<nat>, m: nat): nat
    requires m < |sizes| == |heads|
  {
    heads[m] + Sum(sizes[..m])
  }

  /** Bytes of the right half; an internal cut (`skip` 1) moves entry `m` up instead of keeping it. */
  ghost function RightBytes(sizes: seq<nat>, tail: nat, skip: nat, m: nat): int
    requires m + skip <= |sizes|
  {
    tail + Sum(sizes) - Sum(sizes[..m + skip])
  }

  ghost predicate Fitting(sizes: seq<nat>, heads: seq<nat>, tail: nat, skip: nat, m: nat)
    requires m < |sizes| == |heads| && skip <= 1
  {
    LeftBytes(sizes, heads, m) <= PAGE_SIZE && RightBytes(sizes, tail, skip, m) <= PAGE_SIZE
  }

  ghost function Imbalance(sizes: seq<nat>, heads: seq<nat>, tail: nat, skip: nat, m: nat): nat
    requires m < |sizes| == |heads| && skip <= 1
  {
    var d := LeftBytes(sizes, heads, m) - RightBytes(sizes, tail, skip, m);
    if d < 0 then -d else d
  }

  method PrefixSums(sizes: seq<nat>) returns (prefix: seq<nat>)
    ensures |prefix| == |sizes| + 1
    ensures forall j :: 0 <= j <= |sizes| ==> prefix[j] == Sum(sizes[..j])
  {
    prefix := [0];
    for i := 0 to |sizes|
      invariant |prefix| == i + 1
      invariant forall j :: 0 <= j <= i ==> prefix[j] == Sum(sizes[..j])
    {
      SumTake(sizes, i);
      prefix := prefix + [prefix[i] + sizes[i]];
    }
  }

  /** `best` is the first least imbalanced fitting cut below `upto`, or none of them fits. */
  ghost predicate BestBelow(sizes: seq<nat>, heads: seq<nat>, tail: nat, skip: nat, best: Option<nat>, upto: nat)
    requires |sizes| == |heads| && skip <= 1
  {
    match best
    case None => forall m :: 0 < m < upto && m < |sizes| ==> !Fitting(sizes, heads, tail, skip, m)
    case Some(b) =>
      && 0 < b < |sizes| && b < upto && Fitting(sizes, heads, tail, skip, b)
      && (forall m :: 0 < m < upto && m < |sizes| && Fitting(sizes, heads, tail, skip, m) ==>
            Imbalance(sizes, heads, tail, skip, b) <= Imbalance(sizes, heads, tail, skip, m))
      && (forall m :: 0 < m < b && Fitting(sizes, heads, tail, skip, m) ==>
            Imbalance(sizes, heads, tail, skip, b) < Imbalance(sizes, heads, tail, skip, m))
  }

  lemma Judge(sizes: seq<nat>, heads: seq<nat>, tail: nat, skip: nat, m: nat, prefix: seq<nat>)
    requires m < |sizes| == |heads| && skip <= 1 && |prefix| == |sizes| + 1
    requires forall j :: 0 <= j <= |sizes| ==> prefix[j] == Sum(sizes[..j])
    ensures var left, right := heads[m] + prefix[m], tail + prefix[|sizes|] - prefix[m + skip];
            && (Fitting(sizes, heads, tail, skip, m) <==> left <= PAGE_SIZE && right <= PAGE_SIZE)
            && Imbalance(sizes, heads, tail, skip, m) == if left < right then right - left else left - right
  {
    assert sizes[..|sizes|] == sizes;
  }

  /** The best balanced cut whose halves both fit a page, if there is one. */
  method BestSplit(sizes: seq<nat>, heads: seq<nat>, tail: nat, skip: nat) returns (best: Option<nat>)
    requires |sizes| == |heads| && skip <= 1
    ensures BestBelow(sizes, heads, tail, skip, best, |sizes|)
  {
    hide Fitting, Imbalance;
    var n := |sizes|;
    var prefix := PrefixSums(sizes);
    best := None;
    var bestDiff := 0;
    var m := 1;
    while m < n
      invariant 1 <= m && (n > 0 ==> m <= n)
      invariant best.Some? ==> best.value < n && bestDiff == Imbalance(sizes, heads, tail, skip, best.value)
      invariant BestBelow(sizes, heads, tail, skip, best, m)
    {
      var left := heads[m] + prefix[m];
      var right := tail + prefix[n] - prefix[m + skip];
      Judge(sizes, heads, tail, skip, m, prefix);
      if left <= PAGE_SIZE && right <= PAGE_SIZE {
        var diff := if left < right then right - left else left - right;
        if best.None? || diff < bestDiff {
          best, bestDiff := Some(m), diff;
        }
      }
      m := m + 1;
    }
  }

  // ------------------------------------------------------------------ a fitting cut always exists

  /** The shortest prefix that reaches `goal` overshoots it by less than its last entry. */
  lemma {:induction false} ShortestPrefix(sizes: seq<nat>, goal: nat, from: nat) returns (m: nat)
    requires from < |sizes| && Sum(sizes[..from]) < goal <= Sum(sizes)
    ensures from < m <= |sizes| && goal <= Sum(sizes[..m]) < goal + sizes[m - 1]
    decreases |sizes| - from
  {
    SumTake(sizes, from);
    if Sum(sizes[..from + 1]) >= goal {
      m := from + 1;
    } else {
      assert sizes[..|sizes|] == sizes;
      m := ShortestPrefix(sizes, goal, from + 1);
    }
  }

  /** A leaf that overflows by at most one entry can be cut into two pages. */
  lemma LeafCutExists(sizes: seq<nat>, heads: seq<nat>, tail: nat) returns (m: nat)
    requires 2 <= |sizes| == |heads| && tail <= BASE + RID_LEN + MAX_KEY
    requires forall i :: 0 <= i < |sizes| ==>
             sizes[i] <= LEAF_OVERHEAD + MAX_KEY && heads[i] <= BASE + RID_LEN + MAX_KEY
    requires tail + Sum(sizes) <= PAGE_SIZE + LEAF_OVERHEAD + MAX_KEY
    ensures 0 < m < |sizes| && Fitting(sizes, heads, tail, 0, m)
  {
    if tail + Sum(sizes) <= PAGE_SIZE {
      m := 1;
      SumTake(sizes, 0);
    } else {
      var over := tail + Sum(sizes) - PAGE_SIZE;
      assert sizes[..0] == [];
      assert sizes[..|sizes|] == sizes;
      m := ShortestPrefix(sizes, over, 0);
    }
  }

  /** Sizes of an internal node too full to take one more separator of any length in use. */
  ghost predicate FullInternal(sizes: seq<nat>, heads: seq<nat>, tail: nat) {
    && |sizes| == |heads| && BASE <= tail <= BASE + RID_LEN + MAX_KEY
    && (forall i :: 0 <= i < |sizes| ==> sizes[i] <= INTERNAL_OVERHEAD + MAX_KEY && heads[i] == sizes[i] + 7)
    && tail + Sum(sizes) <= PAGE_SIZE < tail + Sum(sizes) + INTERNAL_OVERHEAD + MAX_KEY
  }

  ghost function Skew(sizes: seq<nat>, heads: seq<nat>, tail: nat, m: nat): int
    requires m < |sizes| == |heads|
  {
    LeftBytes(sizes, heads, m) - RightBytes(sizes, tail, 1, m)
  }

  /** Moving the cut right shifts bytes from one half to the other; their total stays the same. */
  lemma SkewFacts(sizes: seq<nat>, heads: seq<nat>, tail: nat, m: nat)
    requires FullInternal(sizes, heads, tail) && m < |sizes|
    ensures LeftBytes(sizes, heads, m) + RightBytes(sizes, tail, 1, m) == tail + Sum(sizes) + 7
    ensures m + 1 < |sizes| ==> Skew(sizes, heads, tail, m + 1) == Skew(sizes, heads, tail, m) + 2 * sizes[m + 1]
  {
    SumTake(sizes, m);
    if m + 1 < |sizes| {
      SumTake(sizes, m + 1);
    }
  }

  lemma {:induction false} SkewGrows(sizes: seq<nat>, heads: seq<nat>, tail: nat, i: nat, j: nat)
    requires FullInternal(sizes, heads, tail) && i <= j < |sizes|
    ensures Skew(sizes, heads, tail, i) <= Skew(sizes, heads, tail, j)
    decreases j
  {
    if i < j {
      SkewGrows(sizes, heads, tail, i, j - 1);
      SkewFacts(sizes, heads, tail, j - 1);
    }
  }

  /** The last cut that leaves the left half lighter. */
  lemma {:induction false} Crossing(sizes: seq<nat>, heads: seq<nat>, tail: nat, from: nat, to: nat) returns (m: nat)
    requires FullInternal(sizes, heads, tail) && from < to < |sizes|
    requires Skew(sizes, heads, tail, from) < 0 <= Skew(sizes, heads, tail, to)
    ensures from <= m < to && Skew(sizes, heads, tail, m) < 0 <= Skew(sizes, heads, tail, m + 1)
    decreases |sizes| - from
  {
    if Skew(sizes, heads, tail, from + 1) >= 0 {
      m := from;
    } else {
      m := Crossing(sizes, heads, tail, from + 1, to);
    }
  }

  /** A cut exists whose halves can each take one more separator. */
  ghost predicate RoomyAt(sizes: seq<nat>, heads: seq<nat>, tail: nat, m: nat)
    requires m < |sizes| == |heads|
  {
    && LeftBytes(sizes, heads, m) + INTERNAL_OVERHEAD + MAX_KEY <= PAGE_SIZE
    && RightBytes(sizes, tail, 1, m) + INTERNAL_OVERHEAD + MAX_KEY <= PAGE_SIZE
  }

  lemma InternalCutExists(sizes: seq<nat>, heads: seq<nat>, tail: nat) returns (m: nat)
    requires FullInternal(sizes, heads, tail)
    ensures 0 < m < |sizes| && RoomyAt(sizes, heads, tail, m)
    ensures m == 1 || Imbalance(sizes, heads, tail, 1, m) <= INTERNAL_OVERHEAD + MAX_KEY
    ensures Imbalance(sizes, heads, tail, 1, m) <= INTERNAL_OVERHEAD + MAX_KEY || 0 <= Skew(sizes, heads, tail, 1)
  {
    SumBound(sizes, INTERNAL_OVERHEAD + MAX_KEY);
    var n := |sizes|;
    assert n >= 2;
    SkewFacts(sizes, heads, tail, 1);
    SumTake(sizes, 0);
    if Skew(sizes, heads, tail, 1) >= 0 {
      m := 1;
    } else {
      SkewFacts(sizes, heads, tail, n - 1);
      assert sizes[..n] == sizes;
      var c := Crossing(sizes, heads, tail, 1, n - 1);
      SkewFacts(sizes, heads, tail, c);
      SkewFacts(sizes, heads, tail, c + 1);
      hide Sum;
      m := if -Skew(sizes, heads, tail, c) <= Skew(sizes, heads, tail, c + 1) then c else c + 1;
    }
  }

  /** The best balanced cut of a full internal node leaves room in both halves. */
  lemma BestCutIsRoomy(sizes: seq<nat>, heads: seq<nat>, tail: nat, best: Option<nat>)
    requires FullInternal(sizes, heads, tail) && BestBelow(sizes, heads, tail, 1, best, |sizes|)
    ensures best.Some? && 0 < best.value < |sizes| && RoomyAt(sizes, heads, tail, best.value)
  {
    var m := InternalCutExists(sizes, heads, tail);
    assert Fitting(sizes, heads, tail, 1, m);
    var b := best.value;
    SkewFacts(sizes, heads, tail, b);
    SkewFacts(sizes, heads, tail, m);
    if m == 1 {
      SkewGrows(sizes, heads, tail, 1, b);
    }
  }
}
