/** Join conditions: three-valued evaluation, conjuncts, and the equality keys a hash join can use. */
module JoinExpr {
  import opened Options
  import opened Values
  import opened KeyEncoding

  datatype DataType = IntType | FloatType | CharType(len: nat) | DateType | TextType

  datatype Column = Column(owner: string, name: string, dtype: DataType)

  type Schema = seq<Column>

  type Row = seq<Value>

  datatype Ref = Plain(name: string) | Qualified(owner: string, name: string)

  /** A side of an equality: a column, or anything else. */
  datatype Term = Col(ref: Ref) | Computed(id: nat)

  /** Conditions other than conjunctions and equalities are left open. */
  datatype Expr = And(l: Expr, r: Expr) | Eq(a: Term, b: Term) | Test(id: nat)

  /** Meaning of the open parts; `mixed` compares values of different types. */
  datatype Env = Env(test: (nat, Row) -> Value, term: (nat, Row) -> Value, mixed: (Value, Value) -> Option<Value>)

  // ------------------------------------------------------------------ columns

  predicate Matches(c: Column, ref: Ref) {
    c.name == ref.name && (ref.Qualified? ==> c.owner == ref.owner)
  }

  /** Position of the first matching column, or the number of columns. */
  function Find(schema: Schema, ref: Ref): (i: nat)
    ensures i <= |schema| && (i < |schema| ==> Matches(schema[i], ref))
    ensures forall j :: 0 <= j < i ==> !Matches(schema[j], ref)
  {
    if schema == [] || Matches(schema[0], ref) then 0 else 1 + Find(schema[1..], ref)
  }

  /** A plain name must be unique; a qualified one takes the first match. */
  function Resolve(schema: Schema, ref: Ref): Option<nat> {
    var i := Find(schema, ref);
    if i == |schema| || (ref.Plain? && Find(schema[i + 1..], ref) < |schema| - i - 1) then None else Some(i)
  }

  // ------------------------------------------------------------------ evaluation

  function EvalTerm(t: Term, schema: Schema, row: Row, env: Env): Option<Value>
    requires |row| == |schema|
  {
    match t
    case Col(ref) => var i := Resolve(schema, ref); if i.None? then None else Some(row[i.value])
    case Computed(id) => Some(env.term(id, row))
  }

  predicate NanFree(v: Value) {
    v.Float? ==> !IsNan(v.bits)
  }

  /** Equality: NULL with NULL operands, never true for NaN. */
  function CompareEq(a: Value, b: Value, env: Env): Option<Value> {
    if a.Null? || b.Null? then Some(Null)
    else if SameType(a, b) then Some(Bool(NanFree(a) && NanFree(b) && Equal(a, b)))
    else if a.Bool? && b.Bool? then Some(Bool(a.b == b.b))
    else env.mixed(a, b)
  }

  function EvalAnd(a: Value, b: Value): Option<Value> {
    if a == Bool(false) || b == Bool(false) then Some(Bool(false))
    else if a == Bool(true) && b == Bool(true) then Some(Bool(true))
    else if (a == Bool(true) || a.Null?) && (b == Bool(true) || b.Null?) then Some(Null)
    else None
  }

  function Eval(e: Expr, schema: Schema, row: Row, env: Env): Option<Value>
    requires |row| == |schema|
  {
    match e
    case And(l, r) =>
      var a, b := Eval(l, schema, row, env), Eval(r, schema, row, env);
      if a.None? || b.None? then None else EvalAnd(a.value, b.value)
    case Eq(a, b) =>
      var x, y := EvalTerm(a, schema, row, env), EvalTerm(b, schema, row, env);
      if x.None? || y.None? then None else CompareEq(x.value, y.value, env)
    case Test(id) => Some(env.test(id, row))
  }

  /** Evaluates without error to a truth value. */
  ghost predicate Decides(e: Expr, schema: Schema, row: Row, env: Env)
    requires |row| == |schema|
  {
    var v := Eval(e, schema, row, env);
    v.Some? && (v.value.Bool? || v.value.Null?)
  }

  predicate Holds(e: Expr, schema: Schema, row: Row, env: Env)
    requires |row| == |schema|
  {
    Eval(e, schema, row, env) == Some(Bool(true))
  }

  // ------------------------------------------------------------------ conjuncts

  function SplitConjuncts(e: Expr): seq<Expr> {
    match e
    case And(l, r) => SplitConjuncts(l) + SplitConjuncts(r)
    case _ => [e]
  }

  /** Right-nested conjunction of the parts. */
  function CombineAnd(parts: seq<Expr>): Option<Expr> {
    if parts == [] then None
    else if |parts| == 1 then Some(parts[0])
    else Some(And(parts[0], CombineAnd(parts[1..]).value))
  }

  ghost predicate AllDecide(parts: seq<Expr>, schema: Schema, row: Row, env: Env)
    requires |row| == |schema|
  {
    forall i :: 0 <= i < |parts| ==> Decides(parts[i], schema, row, env)
  }

  ghost predicate AllHold(parts: seq<Expr>, schema: Schema, row: Row, env: Env)
    requires |row| == |schema|
  {
    forall i :: 0 <= i < |parts| ==> Holds(parts[i], schema, row, env)
  }

  /** A condition holds exactly when all its conjuncts do. */
  lemma {:induction false} ConjunctsDecide(e: Expr, schema: Schema, row: Row, env: Env)
    requires |row| == |schema| && AllDecide(SplitConjuncts(e), schema, row, env)
    ensures Decides(e, schema, row, env)
    ensures (Holds(e, schema, row, env) <==> AllHold(SplitConjuncts(e), schema, row, env))
  {
    match e {
      case And(l, r) =>
        var a, b := SplitConjuncts(l), SplitConjuncts(r);
        assert forall i :: 0 <= i < |a| ==> (a + b)[i] == a[i];
        assert forall i :: 0 <= i < |b| ==> (a + b)[|a| + i] == b[i];
        ConjunctsDecide(l, schema, row, env);
        ConjunctsDecide(r, schema, row, env);
        AllHoldAppend(a, b, schema, row, env);
      case _ =>
        assert SplitConjuncts(e)[0] == e;
    }
  }

  lemma AllHoldAppend(a: seq<Expr>, b: seq<Expr>, schema: Schema, row: Row, env: Env)
    requires |row| == |schema|
    ensures AllHold(a + b, schema, row, env) <==> AllHold(a, schema, row, env) && AllHold(b, schema, row, env)
  {
    hide Holds;
    assert forall i :: 0 <= i < |a| ==> (a + b)[i] == a[i];
    assert forall i :: 0 <= i < |b| ==> (a + b)[|a| + i] == b[i];
    if AllHold(a + b, schema, row, env) {
      forall i | 0 <= i < |b|
        ensures Holds(b[i], schema, row, env)
      {
        assert Holds((a + b)[|a| + i], schema, row, env);
      }
      forall i | 0 <= i < |a|
        ensures Holds(a[i], schema, row, env)
      {
        assert Holds((a + b)[i], schema, row, env);
      }
    }
  }

  /** Regrouping the conjuncts keeps their meaning. */
  lemma {:induction false} CombinedDecides(parts: seq<Expr>, schema: Schema, row: Row, env: Env)
    requires |row| == |schema| && parts != [] && AllDecide(parts, schema, row, env)
    ensures CombineAnd(parts).Some? && Decides(CombineAnd(parts).value, schema, row, env)
    ensures Holds(CombineAnd(parts).value, schema, row, env) <==> AllHold(parts, schema, row, env)
    decreases |parts|
  {
    if |parts| > 1 {
      var rest := parts[1..];
      CombinedDecides(rest, schema, row, env);
      AllHoldAppend([parts[0]], rest, schema, row, env);
      assert [parts[0]] + rest == parts;
      assert AllHold([parts[0]], schema, row, env) <==> Holds(parts[0], schema, row, env) by {
        assert [parts[0]][0] == parts[0];
      }
      assert Decides(parts[0], schema, row, env);
    }
  }
}
