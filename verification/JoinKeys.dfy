/** Which conjuncts become hash keys, and what equal key bytes mean. */
module JoinKeys {
  import opened Options
  import opened Values
  import opened KeyEncoding
  import opened JoinExpr

  predicate Compatible(a: DataType, b: DataType) {
    (a.IntType? && b.IntType?) || (a.FloatType? && b.FloatType?) || (a.DateType? && b.DateType?) ||
    (a.TextType? && b.TextType?) || (a.CharType? && b.CharType?)
  }

  /** NULL, or a value of the column's type; floats are not NaN and strings shorter than two gigabytes. */
  ghost predicate Fits(v: Value, t: DataType) {
    v.Null? || (match t
                case IntType => v.Int?
                case FloatType => v.Float? && !IsNan(v.bits)
                case DateType => v.Date?
                case TextType => v.Str? && |v.text| < 0x8000_0000
                case CharType(_) => v.Str? && |v.text| < 0x8000_0000)
  }

  ghost predicate Typed(schema: Schema, row: Row) {
    |row| == |schema| && forall i :: 0 <= i < |row| ==> Fits(row[i], schema[i].dtype)
  }

  /** The two sides come from different tables. */
  ghost predicate OwnersDiffer(left: Schema, right: Schema) {
    forall i, j :: 0 <= i < |left| && 0 <= j < |right| ==> left[i].owner != right[j].owner
  }

  // ------------------------------------------------------------------ recognizing a key

  /** `a` names a column of the left side, `b` one of the right side, of compatible types. */
  predicate IsKey(a: Term, b: Term, left: Schema, right: Schema) {
    a.Col? && b.Col? &&
    var i, j := Find(left, a.ref), Find(right, b.ref);
    i < |left| && j < |right| && Compatible(left[i].dtype, right[j].dtype)
  }

  lemma {:induction false} FindInLeft(left: Schema, right: Schema, ref: Ref)
    requires Find(left, ref) < |left|
    ensures Find(left + right, ref) == Find(left, ref)
  {
    if !Matches(left[0], ref) {
      assert (left + right)[1..] == left[1..] + right;
      FindInLeft(left[1..], right, ref);
    }
  }

  lemma {:induction false} FindInRight(left: Schema, right: Schema, ref: Ref)
    requires Find(left, ref) == |left|
    ensures Find(left + right, ref) == |left| + Find(right, ref)
  {
    if left == [] {
      assert left + right == right;
    } else {
      assert (left + right)[1..] == left[1..] + right;
      FindInRight(left[1..], right, ref);
    }
  }

  /** A reference to a column of the right side that evaluates does not also name one of the left side. */
  lemma NotInLeft(left: Schema, right: Schema, b: Ref)
    requires OwnersDiffer(left, right) && Find(right, b) < |right| && Resolve(left + right, b).Some?
    ensures Find(left, b) == |left|
  {
    hide Find;
    var i, j := Find(left, b), Find(right, b);
    assert Matches(right[j], b);
    if i < |left| {
      assert Matches(left[i], b) && left[i].owner != right[j].owner;
      assert b.Plain?;
      MatchedTwice(left, right, b, i, j);
      assert false;
    }
  }

  /** A plain name with a match on either side is ambiguous. */
  lemma MatchedTwice(left: Schema, right: Schema, b: Ref, i: nat, j: nat)
    requires b.Plain? && i == Find(left, b) < |left| && j < |right| && Matches(right[j], b)
    ensures Resolve(left + right, b).None?
  {
    hide Find, Matches;
    FindInLeft(left, right, b);
    var rest := (left + right)[i + 1..];
    assert rest[|left| - i - 1 + j] == right[j];
    assert Find(rest, b) <= |left| - i - 1 + j;
  }

  /** In the joined row a reference that evaluates means the column each side found by itself. */
  lemma ResolvedSides(left: Schema, right: Schema, a: Ref, b: Ref)
    requires OwnersDiffer(left, right) && Find(left, a) < |left| && Find(right, b) < |right|
    requires Resolve(left + right, a).Some? && Resolve(left + right, b).Some?
    ensures Resolve(left + right, a) == Some(Find(left, a)) && Resolve(left + right, b) == Some(|left| + Find(right, b))
  {
    hide Find, Resolve;
    NotInLeft(left, right, b);
    SidesApart(left, right, a, b);
  }

  /** Both key values are present and equal. */
  ghost predicate SameKeyValue(l: Row, i: nat, r: Row, j: nat)
    requires i < |l| && j < |r|
  {
    Equal(l[i], r[j])
  }

  lemma EvalKey(a: Ref, b: Ref, i: nat, j: nat, schema: Schema, row: Row, env: Env)
    requires |row| == |schema| && i < |row| && j < |row| && Resolve(schema, a) == Some(i)
    requires Resolve(schema, b) == Some(j)
    ensures Eval(Eq(Col(a), Col(b)), schema, row, env) == CompareEq(row[i], row[j], env)
  {
    hide Resolve, CompareEq;
  }

  lemma DecidedResolves(a: Ref, b: Ref, schema: Schema, row: Row, env: Env)
    requires |row| == |schema| && Decides(Eq(Col(a), Col(b)), schema, row, env)
    ensures Resolve(schema, a).Some? && Resolve(schema, b).Some?
  {
    hide Resolve, CompareEq;
  }

  lemma CompareKey(x: Value, y: Value, t: DataType, u: DataType, env: Env)
    requires Fits(x, t) && Fits(y, u) && Compatible(t, u)
    ensures CompareEq(x, y, env) == Some(Bool(true)) <==> Equal(x, y)
    ensures CompareEq(x, y, env) == CompareEq(y, x, env)
  {
  }

  lemma KeyHolds(a: Ref, b: Ref, left: Schema, right: Schema, l: Row, r: Row, env: Env)
    requires OwnersDiffer(left, right) && Typed(left, l) && Typed(right, r)
    requires IsKey(Col(a), Col(b), left, right) && Decides(Eq(Col(a), Col(b)), left + right, l + r, env)
    ensures Holds(Eq(Col(a), Col(b)), left + right, l + r, env) <==> SameKeyValue(l, Find(left, a), r, Find(right, b))
  {
    hide Find, Resolve, Eval, CompareEq, Equal, OwnersDiffer, Fits;
    DecidedResolves(a, b, left + right, l + r, env);
    ResolvedSides(left, right, a, b);
    KeyHoldsAt(a, b, left, right, l, r, Find(left, a), Find(right, b), env);
  }

  lemma KeyHoldsSwapped(a: Ref, b: Ref, left: Schema, right: Schema, l: Row, r: Row, env: Env)
    requires OwnersDiffer(left, right) && Typed(left, l) && Typed(right, r)
    requires IsKey(Col(b), Col(a), left, right) && Decides(Eq(Col(a), Col(b)), left + right, l + r, env)
    ensures Holds(Eq(Col(a), Col(b)), left + right, l + r, env) <==> SameKeyValue(l, Find(left, b), r, Find(right, a))
  {
    hide Find, Resolve, Eval, CompareEq, Equal, OwnersDiffer, Fits;
    DecidedResolves(a, b, left + right, l + r, env);
    ResolvedSides(left, right, b, a);
    var i, j := Find(left, b), Find(right, a);
    assert (l + r)[i] == l[i] && (l + r)[|left| + j] == r[j];
    EvalKey(a, b, |left| + j, i, left + right, l + r, env);
    CompareKey(l[i], r[j], left[i].dtype, right[j].dtype, env);
  }

  // ------------------------------------------------------------------ when a key means its condition

  /** On all typed rows the equality holds exactly when the key columns agree. */
  ghost predicate Faithful(a: Ref, b: Ref, left: Schema, right: Schema, env: Env)
    requires IsKey(Col(a), Col(b), left, right)
  {
    forall l: Row, r: Row | Typed(left, l) && Typed(right, r) ::
      Holds(Eq(Col(a), Col(b)), left + right, l + r, env) <==> SameKeyValue(l, Find(left, a), r, Find(right, b))
  }

  /** A value every column of the type, and of any compatible one, can hold. */
  function Sample(t: DataType): Value {
    match t
    case IntType => Int(0)
    case FloatType => Float(0)
    case DateType => Date(0)
    case TextType => Str([])
    case CharType(_) => Str([])
  }

  lemma SampleFits(t: DataType, u: DataType, env: Env)
    requires Compatible(t, u)
    ensures Fits(Sample(t), t) && Fits(Sample(t), u) && !Sample(t).Null?
    ensures Equal(Sample(t), Sample(t)) && !Equal(Sample(t), Null)
    ensures CompareEq(Sample(t), Sample(t), env) == Some(Bool(true))
  {
  }

  ghost function OnlyAt(n: nat, i: nat, v: Value): (r: Row)
    requires i < n
    ensures |r| == n && r[i] == v && forall j :: 0 <= j < n && j != i ==> r[j] == Null
  {
    seq(n, j => if j == i then v else Null)
  }

  /** Rows on which the equality and the keys part, once the right reference also names a left column. */
  lemma Unfaithful(a: Ref, b: Ref, left: Schema, right: Schema, env: Env)
    requires IsKey(Col(a), Col(b), left, right) && Find(left, b) < |left|
    requires Resolve(left + right, a).Some? && Resolve(left + right, b).Some?
    ensures !Faithful(a, b, left, right, env)
  {
    hide Find, Resolve, Eval, CompareEq, Equal, Fits;
    FindInLeft(left, right, a);
    FindInLeft(left, right, b);
    assert Resolve(left + right, a) == Some(Find(left, a)) && Resolve(left + right, b) == Some(Find(left, b)) by {
      ResolvedIsFirst(left + right, a);
      ResolvedIsFirst(left + right, b);
    }
    var i, j, k := Find(left, a), Find(left, b), Find(right, b);
    var v := Sample(left[i].dtype);
    SampleFits(left[i].dtype, right[k].dtype, env);
    NullFits();
    var l := OnlyAt(|left|, i, v);
    var r := if i == j then seq(|right|, _ => Null) else OnlyAt(|right|, k, v);
    assert Typed(left, l) && Typed(right, r);
    assert (l + r)[i] == l[i] && (l + r)[j] == l[j];
    EvalKey(a, b, i, j, left + right, l + r, env);
    NullCompares(v, env);
  }

  lemma NullFits()
    ensures forall t :: Fits(Null, t)
  {
  }

  lemma NullCompares(v: Value, env: Env)
    ensures CompareEq(v, Null, env) == Some(Null)
  {
  }

  lemma ResolvedIsFirst(schema: Schema, ref: Ref)
    requires Resolve(schema, ref).Some?
    ensures Resolve(schema, ref).value == Find(schema, ref)
  {
  }

  /**
   An extracted key means its condition on all rows if and only if the right-hand reference names no column of
   the left side.
   */
  lemma KeyMeansCondition(a: Ref, b: Ref, left: Schema, right: Schema, env: Env)
    requires IsKey(Col(a), Col(b), left, right) && Resolve(left + right, a).Some? && Resolve(left + right, b).Some?
    ensures Faithful(a, b, left, right, env) <==> Find(left, b) == |left|
  {
    hide Find, Resolve, Holds, Equal, Fits, Matches, Compatible;
    if Find(left, b) < |left| {
      Unfaithful(a, b, left, right, env);
    } else {
      SidesApart(left, right, a, b);
      forall l: Row, r: Row | Typed(left, l) && Typed(right, r)
        ensures Holds(Eq(Col(a), Col(b)), left + right, l + r, env) <==>
                SameKeyValue(l, Find(left, a), r, Find(right, b))
      {
        KeyHoldsAt(a, b, left, right, l, r, Find(left, a), Find(right, b), env);
      }
    }
  }

  lemma SidesApart(left: Schema, right: Schema, a: Ref, b: Ref)
    requires Find(left, a) < |left| && Find(left, b) == |left|
    requires Resolve(left + right, a).Some? && Resolve(left + right, b).Some?
    ensures Resolve(left + right, a) == Some(Find(left, a)) && Resolve(left + right, b) == Some(|left| + Find(right, b))
  {
    hide Find, Resolve;
    FindInLeft(left, right, a);
    FindInRight(left, right, b);
    ResolvedIsFirst(left + right, a);
    ResolvedIsFirst(left + right, b);
  }

  lemma KeyHoldsAt(a: Ref, b: Ref, left: Schema, right: Schema, l: Row, r: Row, i: nat, j: nat, env: Env)
    requires i < |left| == |l| && j < |right| == |r| && Compatible(left[i].dtype, right[j].dtype)
    requires Fits(l[i], left[i].dtype) && Fits(r[j], right[j].dtype)
    requires Resolve(left + right, a) == Some(i) && Resolve(left + right, b) == Some(|left| + j)
    ensures Holds(Eq(Col(a), Col(b)), left + right, l + r, env) <==> Equal(l[i], r[j])
  {
    hide Resolve, Eval, Holds, Equal, Fits, Compatible;
    assert (l + r)[i] == l[i];
    assert (l + r)[|left| + j] == r[j];
    EqHolds(a, b, left + right, l + r, i, |left| + j, left[i].dtype, right[j].dtype, env);
  }

  lemma EqHolds(a: Ref, b: Ref, schema: Schema, row: Row, i: nat, j: nat, t: DataType, u: DataType, env: Env)
    requires |row| == |schema| && i < |row| && j < |row| && Resolve(schema, a) == Some(i)
    requires Resolve(schema, b) == Some(j)
    requires Fits(row[i], t) && Fits(row[j], u) && Compatible(t, u)
    ensures Holds(Eq(Col(a), Col(b)), schema, row, env) <==> Equal(row[i], row[j])
  {
    hide Resolve, Eval, Equal, Fits, Compatible;
    EvalKey(a, b, i, j, schema, row, env);
    CompareKey(row[i], row[j], t, u, env);
  }

  // ------------------------------------------------------------------ extracting all keys

  ghost predicate KeyPositions(left: Schema, right: Schema, lk: seq<nat>, rk: seq<nat>) {
    |lk| == |rk| && forall i :: 0 <= i < |lk| ==>
      lk[i] < |left| && rk[i] < |right| && Compatible(left[lk[i]].dtype, right[rk[i]].dtype)
  }

  ghost predicate KeysAgree(l: Row, lk: seq<nat>, r: Row, rk: seq<nat>) {
    |lk| == |rk| && forall i :: 0 <= i < |lk| ==> lk[i] < |l| && rk[i] < |r| && SameKeyValue(l, lk[i], r, rk[i])
  }

  /** On every pair of rows, the conjuncts hold exactly when the keys agree and the kept conjuncts hold. */
  ghost predicate Splits(cs: seq<Expr>, left: Schema, right: Schema, lk: seq<nat>, rk: seq<nat>, kept: seq<Expr>,
                         l: Row, r: Row, env: Env)
    requires |l| == |left| && |r| == |right|
  {
    && (AllDecide(cs, left + right, l + r, env) ==> AllDecide(kept, left + right, l + r, env))
    && (AllDecide(cs, left + right, l + r, env) ==>
          (AllHold(cs, left + right, l + r, env) <==>
           KeysAgree(l, lk, r, rk) && AllHold(kept, left + right, l + r, env)))
  }

  lemma DecideAppend(cs: seq<Expr>, c: Expr, schema: Schema, row: Row, env: Env)
    requires |row| == |schema|
    ensures AllDecide(cs + [c], schema, row, env) <==> AllDecide(cs, schema, row, env) && Decides(c, schema, row, env)
    ensures AllHold(cs + [c], schema, row, env) <==> AllHold(cs, schema, row, env) && Holds(c, schema, row, env)
  {
    hide Decides, Holds;
    var all := cs + [c];
    assert all[|cs|] == c && forall i :: 0 <= i < |cs| ==> all[i] == cs[i];
    if AllDecide(all, schema, row, env) {
      assert forall i :: 0 <= i < |cs| ==> Decides(all[i], schema, row, env);
      assert Decides(all[|cs|], schema, row, env);
    }
    if AllHold(all, schema, row, env) {
      assert forall i :: 0 <= i < |cs| ==> Holds(all[i], schema, row, env);
      assert Holds(all[|cs|], schema, row, env);
    }
  }

  lemma AgreeAppend(l: Row, lk: seq<nat>, i: nat, r: Row, rk: seq<nat>, j: nat)
    requires i < |l| && j < |r| && |lk| == |rk|
    ensures KeysAgree(l, lk + [i], r, rk + [j]) <==> KeysAgree(l, lk, r, rk) && SameKeyValue(l, i, r, j)
  {
    hide SameKeyValue;
    var a, b := lk + [i], rk + [j];
    assert a[|lk|] == i && b[|rk|] == j && forall k :: 0 <= k < |lk| ==> a[k] == lk[k] && b[k] == rk[k];
    if KeysAgree(l, a, r, b) {
      assert forall k :: 0 <= k < |lk| ==> SameKeyValue(l, a[k], r, b[k]);
    }
  }

  /** One more conjunct: a key in either direction, or kept. */
  lemma SplitsOne(cs: seq<Expr>, c: Expr, left: Schema, right: Schema, lk: seq<nat>, rk: seq<nat>, kept: seq<Expr>,
                  l: Row, r: Row, env: Env)
    requires OwnersDiffer(left, right) && Typed(left, l) && Typed(right, r)
    requires Splits(cs, left, right, lk, rk, kept, l, r, env) && |lk| == |rk|
    ensures c.Eq? && IsKey(c.a, c.b, left, right) ==>
              Splits(cs + [c], left, right, lk + [Find(left, c.a.ref)], rk + [Find(right, c.b.ref)], kept, l, r, env)
    ensures c.Eq? && IsKey(c.b, c.a, left, right) ==>
              Splits(cs + [c], left, right, lk + [Find(left, c.b.ref)], rk + [Find(right, c.a.ref)], kept, l, r, env)
    ensures Splits(cs + [c], left, right, lk, rk, kept + [c], l, r, env)
  {
    hide AllDecide, AllHold, KeysAgree, Decides, Holds, OwnersDiffer, Typed, SameKeyValue;
    TypedLength(left, l);
    TypedLength(right, r);
    DecideAppend(cs, c, left + right, l + r, env);
    DecideAppend(kept, c, left + right, l + r, env);
    if c.Eq? && IsKey(c.a, c.b, left, right) {
      AgreeAppend(l, lk, Find(left, c.a.ref), r, rk, Find(right, c.b.ref));
      if Decides(c, left + right, l + r, env) {
        KeyHolds(c.a.ref, c.b.ref, left, right, l, r, env);
      }
    }
    if c.Eq? && IsKey(c.b, c.a, left, right) {
      AgreeAppend(l, lk, Find(left, c.b.ref), r, rk, Find(right, c.a.ref));
      if Decides(c, left + right, l + r, env) {
        KeyHoldsSwapped(c.a.ref, c.b.ref, left, right, l, r, env);
      }
    }
  }

  /** For all typed rows of the two sides. */
  ghost predicate SplitsAlways(cs: seq<Expr>, left: Schema, right: Schema, lk: seq<nat>, rk: seq<nat>, kept: seq<Expr>,
                               env: Env) {
    forall l: Row, r: Row :: Typed(left, l) && Typed(right, r) ==> Splits(cs, left, right, lk, rk, kept, l, r, env)
  }

  method ExtractHashKeys(cs: seq<Expr>, left: Schema, right: Schema, ghost env: Env)
    returns (lk: seq<nat>, rk: seq<nat>, kept: seq<Expr>)
    ensures KeyPositions(left, right, lk, rk)
    ensures OwnersDiffer(left, right) ==> SplitsAlways(cs, left, right, lk, rk, kept, env)
  {
    hide OwnersDiffer, Typed, Splits, IsKey;
    lk, rk, kept := [], [], [];
    SplitsNone(left, right, env);
    for n := 0 to |cs|
      invariant KeyPositions(left, right, lk, rk)
      invariant OwnersDiffer(left, right) ==> SplitsAlways(cs[..n], left, right, lk, rk, kept, env)
    {
      var c := cs[n];
      assert cs[..n + 1] == cs[..n] + [c];
      if OwnersDiffer(left, right) {
        SplitsOneAlways(cs[..n], c, left, right, lk, rk, kept, env);
      }
      if c.Eq? && IsKey(c.a, c.b, left, right) {
        KeyPosition(c.a, c.b, left, right);
        lk, rk := lk + [Find(left, c.a.ref)], rk + [Find(right, c.b.ref)];
      } else if c.Eq? && IsKey(c.b, c.a, left, right) {
        KeyPosition(c.b, c.a, left, right);
        lk, rk := lk + [Find(left, c.b.ref)], rk + [Find(right, c.a.ref)];
      } else {
        kept := kept + [c];
      }
    }
    assert cs[..|cs|] == cs;
  }

  lemma KeyPosition(a: Term, b: Term, left: Schema, right: Schema)
    requires IsKey(a, b, left, right)
    ensures a.Col? && b.Col? && Find(left, a.ref) < |left| && Find(right, b.ref) < |right|
    ensures Compatible(left[Find(left, a.ref)].dtype, right[Find(right, b.ref)].dtype)
  {
  }

  lemma SplitsNone(left: Schema, right: Schema, env: Env)
    ensures SplitsAlways([], left, right, [], [], [], env)
  {
  }

  lemma SplitsOneAlways(cs: seq<Expr>, c: Expr, left: Schema, right: Schema, lk: seq<nat>, rk: seq<nat>,
                        kept: seq<Expr>, env: Env)
    requires OwnersDiffer(left, right) && SplitsAlways(cs, left, right, lk, rk, kept, env) && |lk| == |rk|
    ensures c.Eq? && IsKey(c.a, c.b, left, right) ==>
              SplitsAlways(cs + [c], left, right, lk + [Find(left, c.a.ref)], rk + [Find(right, c.b.ref)], kept, env)
    ensures c.Eq? && IsKey(c.b, c.a, left, right) ==>
              SplitsAlways(cs + [c], left, right, lk + [Find(left, c.b.ref)], rk + [Find(right, c.a.ref)], kept, env)
    ensures SplitsAlways(cs + [c], left, right, lk, rk, kept + [c], env)
  {
    hide OwnersDiffer, Typed, Splits;
    forall l: Row, r: Row | Typed(left, l) && Typed(right, r)
      ensures |l| == |left| && |r| == |right|
      ensures c.Eq? && IsKey(c.a, c.b, left, right) ==>
                Splits(cs + [c], left, right, lk + [Find(left, c.a.ref)], rk + [Find(right, c.b.ref)], kept, l, r, env)
      ensures c.Eq? && IsKey(c.b, c.a, left, right) ==>
                Splits(cs + [c], left, right, lk + [Find(left, c.b.ref)], rk + [Find(right, c.a.ref)], kept, l, r, env)
      ensures Splits(cs + [c], left, right, lk, rk, kept + [c], l, r, env)
    {
      TypedLength(left, l);
      TypedLength(right, r);
      SplitsOne(cs, c, left, right, lk, rk, kept, l, r, env);
    }
  }

  lemma TypedLength(schema: Schema, row: Row)
    requires Typed(schema, row)
    ensures |row| == |schema|
  {
  }
}
