/** Both join operators row by row. */
module JoinRows {
  import opened Options
  import opened Bytes
  import opened Values
  import opened JoinExpr
  import opened HashJoin

  datatype Kind = Cross | Inner | Left | Right

  /** Which side drives the join, whether it is preserved, and what a pair must satisfy. */
  datatype Plan = Plan(flip: bool, outer: bool, nulls: nat, cond: Option<Expr>, schema: Schema, env: Env)

  function PlanFor(kind: Kind, cond: Option<Expr>, left: Schema, right: Schema, env: Env): Plan {
    Plan(kind.Right?, kind.Left? || kind.Right?, if kind.Right? then |left| else |right|, cond, left + right, env)
  }

  // ------------------------------------------------------------------ what a join yields

  predicate Accepts(plan: Plan, row: Row) {
    plan.cond.None? || (|row| == |plan.schema| && Holds(plan.cond.value, plan.schema, row, plan.env))
  }

  /** Columns of the left side come first, whichever side drives. */
  function Combine(plan: Plan, p: Row, o: Row): Row {
    if plan.flip then o + p else p + o
  }

  function Nulls(n: nat): Row {
    seq(n, _ => Null)
  }

  function MatchesOf(plan: Plan, p: Row, others: seq<Row>): seq<Row> {
    if others == [] then [] else
      var n := |others| - 1;
      var row := Combine(plan, p, others[n]);
      MatchesOf(plan, p, others[..n]) + if Accepts(plan, row) then [row] else []
  }

  function RowsFor(plan: Plan, p: Row, others: seq<Row>): seq<Row> {
    var m := MatchesOf(plan, p, others);
    if m == [] && plan.outer then [Combine(plan, p, Nulls(plan.nulls))] else m
  }

  function Joined(plan: Plan, ps: seq<Row>, others: seq<Row>): seq<Row> {
    if ps == [] then [] else Joined(plan, ps[..|ps| - 1], others) + RowsFor(plan, ps[|ps| - 1], others)
  }

  lemma {:induction false} JoinedAppend(plan: Plan, a: seq<Row>, b: seq<Row>, others: seq<Row>)
    ensures Joined(plan, a + b, others) == Joined(plan, a, others) + Joined(plan, b, others)
    decreases |b|
  {
    hide RowsFor;
    if b == [] {
      assert a + b == a;
    } else {
      var n := |b| - 1;
      assert (a + b)[..|a + b| - 1] == a + b[..n];
      JoinedAppend(plan, a, b[..n], others);
    }
  }

  lemma JoinedOne(plan: Plan, a: seq<Row>, p: Row, others: seq<Row>)
    ensures Joined(plan, a + [p], others) == Joined(plan, a, others) + RowsFor(plan, p, others)
  {
    hide RowsFor;
    assert (a + [p])[..|a|] == a;
  }

  // ------------------------------------------------------------------ nested loops

  method NestedLoop(plan: Plan, ps: seq<Row>, others: seq<Row>) returns (rows: seq<Row>)
    ensures rows == Joined(plan, ps, others)
  {
    hide Joined, MatchesOf, Combine, Accepts;
    rows := [];
    JoinedNone(plan, others);
    for i := 0 to |ps|
      invariant rows == Joined(plan, ps[..i], others)
    {
      var p := ps[i];
      var matched := false;
      ghost var before := rows;
      MatchesNone(plan, p);
      for j := 0 to |others|
        invariant rows == before + MatchesOf(plan, p, others[..j])
        invariant matched <==> MatchesOf(plan, p, others[..j]) != []
      {
        var row := Combine(plan, p, others[j]);
        MatchesNext(plan, p, others, j);
        if Accepts(plan, row) {
          rows := rows + [row];
          matched := true;
        }
      }
      assert others[..|others|] == others;
      if !matched && plan.outer {
        rows := rows + [Combine(plan, p, Nulls(plan.nulls))];
      }
      JoinedOne(plan, ps[..i], p, others);
      assert ps[..i + 1] == ps[..i] + [p];
    }
    assert ps[..|ps|] == ps;
  }

  lemma JoinedNone(plan: Plan, others: seq<Row>)
    ensures Joined(plan, [], others) == []
  {
  }

  lemma MatchesNone(plan: Plan, p: Row)
    ensures MatchesOf(plan, p, []) == []
  {
  }

  lemma MatchesNext(plan: Plan, p: Row, others: seq<Row>, j: nat)
    requires j < |others|
    ensures var row := Combine(plan, p, others[j]);
            MatchesOf(plan, p, others[..j + 1]) ==
            MatchesOf(plan, p, others[..j]) + if Accepts(plan, row) then [row] else []
  {
    assert others[..j + 1][..j] == others[..j];
  }

  // ------------------------------------------------------------------ the hash table

  ghost predicate AllHashable(rows: seq<Row>, keys: seq<nat>) {
    forall i :: 0 <= i < |rows| ==> Hashable(rows[i], keys)
  }

  /** The first `n` rows with the given key, in order. */
  ghost function Candidates(build: seq<Row>, keys: seq<nat>, key: seq<Byte>, n: nat): seq<nat>
    requires n <= |build| && AllHashable(build, keys)
  {
    if n == 0 then []
    else Candidates(build, keys, key, n - 1) + if KeyOf(build[n - 1], keys) == Some(key) then [n - 1] else []
  }

  ghost predicate TableOk(table: map<seq<Byte>, seq<nat>>, build: seq<Row>, keys: seq<nat>, n: nat)
    requires n <= |build| && AllHashable(build, keys)
  {
    forall key :: Candidates(build, keys, key, n) == if key in table then table[key] else []
  }

  method BuildTable(build: seq<Row>, keys: seq<nat>) returns (table: map<seq<Byte>, seq<nat>>)
    requires AllHashable(build, keys)
    ensures TableOk(table, build, keys, |build|)
  {
    hide KeyOf, Hashable;
    table := map[];
    for i := 0 to |build|
      invariant TableOk(table, build, keys, i)
    {
      var key := RowKey(build[i], keys);
      if key.Some? {
        var k := key.value;
        if k in table {
          table := table[k := table[k] + [i]];
        } else {
          table := table[k := [i]];
        }
      }
    }
  }

  ghost predicate Inside(at: seq<nat>, n: nat) {
    forall i :: 0 <= i < |at| ==> at[i] < n
  }

  /** What the table lists for a key; nothing for a NULL key. */
  function Found(table: map<seq<Byte>, seq<nat>>, key: Option<seq<Byte>>): seq<nat> {
    if key.Some? && key.value in table then table[key.value] else []
  }

  /** The rows at the listed positions that pass the plan's condition. */
  function HashRows(plan: Plan, p: Row, build: seq<Row>, at: seq<nat>): seq<Row>
    requires Inside(at, |build|)
  {
    if at == [] then [] else
      var n := |at| - 1;
      var row := Combine(plan, p, build[at[n]]);
      HashRows(plan, p, build, at[..n]) + if Accepts(plan, row) then [row] else []
  }

  lemma {:induction false} CandidatesInside(build: seq<Row>, keys: seq<nat>, key: seq<Byte>, n: nat)
    requires n <= |build| && AllHashable(build, keys)
    ensures Inside(Candidates(build, keys, key, n), n)
  {
    if n > 0 {
      CandidatesInside(build, keys, key, n - 1);
    }
  }

  /** What the keys and the residual decide together is what the whole condition decides. */
  ghost predicate Agrees(full: Plan, residual: Plan, p: Row, pk: seq<nat>, o: Row, ok: seq<nat>) {
    && Hashable(p, pk) && Hashable(o, ok) && full.flip == residual.flip
    && (Accepts(full, Combine(full, p, o)) <==>
          KeyOf(p, pk).Some? && KeyOf(o, ok) == KeyOf(p, pk) && Accepts(residual, Combine(full, p, o)))
  }

  lemma {:induction false} HashIsNested(full: Plan, residual: Plan, p: Row, pk: seq<nat>, build: seq<Row>, bk: seq<nat>,
                                        n: nat)
    requires n <= |build| && AllHashable(build, bk) && Hashable(p, pk) && KeyOf(p, pk).Some?
    requires forall i :: 0 <= i < |build| ==> Agrees(full, residual, p, pk, build[i], bk)
    ensures Inside(Candidates(build, bk, KeyOf(p, pk).value, n), |build|)
    ensures HashRows(residual, p, build, Candidates(build, bk, KeyOf(p, pk).value, n)) == MatchesOf(full, p, build[..n])
    decreases n
  {
    hide KeyOf, Hashable, Accepts, MatchesOf, HashRows;
    var key := KeyOf(p, pk).value;
    CandidatesInside(build, bk, key, n);
    HashRowsNone(residual, p, build);
    MatchesNone(full, p);
    if n > 0 {
      HashIsNested(full, residual, p, pk, build, bk, n - 1);
      MatchesNext(full, p, build, n - 1);
      assert Agrees(full, residual, p, pk, build[n - 1], bk);
      var c, m := Candidates(build, bk, key, n - 1), MatchesOf(full, p, build[..n - 1]);
      HashRowsOne(residual, p, build, c, n - 1);
      assert c + [] == c && m + [] == m;
    } else {
      assert build[..0] == [];
    }
  }

  lemma HashRowsNone(plan: Plan, p: Row, build: seq<Row>)
    ensures HashRows(plan, p, build, []) == []
  {
  }

  lemma HashRowsOne(plan: Plan, p: Row, build: seq<Row>, at: seq<nat>, x: nat)
    requires x < |build| && Inside(at, |build|)
    ensures var row := Combine(plan, p, build[x]);
            HashRows(plan, p, build, at + [x]) ==
            HashRows(plan, p, build, at) + if Accepts(plan, row) then [row] else []
  {
    assert (at + [x])[..|at|] == at;
  }

  /** A row with a NULL key matches nothing. */
  lemma {:induction false} NullMatchesNothing(full: Plan, residual: Plan, p: Row, pk: seq<nat>, build: seq<Row>,
                                              bk: seq<nat>)
    requires Hashable(p, pk) && KeyOf(p, pk).None?
    requires forall i :: 0 <= i < |build| ==> Agrees(full, residual, p, pk, build[i], bk)
    ensures MatchesOf(full, p, build) == []
    decreases |build|
  {
    hide KeyOf, Hashable, Accepts;
    if build != [] {
      NullMatchesNothing(full, residual, p, pk, build[..|build| - 1], bk);
      assert Agrees(full, residual, p, pk, build[|build| - 1], bk);
    }
  }

  // ------------------------------------------------------------------ the hash join operator

  class HashJoinOp {
    /** Driving the same way as the nested loop, but testing only what the keys leave open. */
    const residual: Plan
    const probeKeys: seq<nat>
    const buildKeys: seq<nat>

    var build: seq<Row>
    var table: map<seq<Byte>, seq<nat>>
    var pending: seq<Row>

    ghost predicate Valid()
      reads this
    {
      AllHashable(build, buildKeys) && TableOk(table, build, buildKeys, |build|)
    }

    constructor (residual: Plan, probeKeys: seq<nat>, buildKeys: seq<nat>)
      ensures Valid() && pending == [] && this.residual == residual && this.probeKeys == probeKeys
      ensures this.buildKeys == buildKeys
    {
      this.residual, this.probeKeys, this.buildKeys := residual, probeKeys, buildKeys;
      build, table, pending := [], map[], [];
    }

    /** Reads the build side into the table. */
    method Open(rows: seq<Row>)
      requires AllHashable(rows, buildKeys)
      modifies this
      ensures Valid() && build == rows && pending == []
    {
      build, pending := rows, [];
      table := BuildTable(rows, buildKeys);
    }

    /** Joins one chunk of the probe side and queues the result. */
    method FillOutput(chunk: seq<Row>, ghost full: Plan)
      requires Valid() && Equivalent(full, residual, chunk, probeKeys, build, buildKeys)
      modifies `pending
      ensures Valid() && pending == old(pending) + Joined(full, chunk, build)
    {
      hide Joined, RowsFor, Hashable, KeyOf, TableOk;
      JoinedNone(full, build);
      for i := 0 to |chunk|
        invariant Valid() && pending == old(pending) + Joined(full, chunk[..i], build)
      {
        ProbeOne(chunk[i], full);
        JoinedOne(full, chunk[..i], chunk[i], build);
        assert chunk[..i + 1] == chunk[..i] + [chunk[i]];
      }
      assert chunk[..|chunk|] == chunk;
    }

    method ProbeOne(p: Row, ghost full: Plan)
      requires Valid() && RowEquivalent(full, residual, p, probeKeys, build, buildKeys)
      modifies `pending
      ensures Valid() && pending == old(pending) + RowsFor(full, p, build)
    {
      hide Hashable, KeyOf, MatchesOf, HashRows, Accepts, TableOk, AllHashable, Agrees;
      var key := RowKey(p, probeKeys);
      var at := Found(table, key);
      ProbeResult(full, residual, p, probeKeys, build, buildKeys, table);
      var matched := Emit(p, at);
      if !matched && residual.outer {
        pending := pending + [Combine(residual, p, Nulls(residual.nulls))];
      }
    }

    /** Queues the listed build rows that pass the residual condition. */
    method Emit(p: Row, at: seq<nat>) returns (matched: bool)
      requires Inside(at, |build|)
      modifies `pending
      ensures pending == old(pending) + HashRows(residual, p, build, at)
      ensures (matched <==> HashRows(residual, p, build, at) != [])
    {
      hide HashRows, Accepts, Combine;
      matched := false;
      HashRowsNone(residual, p, build);
      for j := 0 to |at|
        invariant pending == old(pending) + HashRows(residual, p, build, at[..j])
        invariant matched <==> HashRows(residual, p, build, at[..j]) != []
      {
        var row := Combine(residual, p, build[at[j]]);
        HashRowsOne(residual, p, build, at[..j], at[j]);
        assert at[..j + 1] == at[..j] + [at[j]];
        if Accepts(residual, row) {
          pending := pending + [row];
          matched := true;
        }
      }
      assert at[..|at|] == at;
    }
  }

  /** The two plans drive alike, and agree on this row against every build row. */
  ghost predicate RowEquivalent(full: Plan, residual: Plan, p: Row, pk: seq<nat>, build: seq<Row>, bk: seq<nat>) {
    && full.flip == residual.flip && full.outer == residual.outer && full.nulls == residual.nulls
    && AllHashable(build, bk) && Hashable(p, pk)
    && forall i :: 0 <= i < |build| ==> Agrees(full, residual, p, pk, build[i], bk)
  }

  ghost predicate Equivalent(full: Plan, residual: Plan, ps: seq<Row>, pk: seq<nat>, build: seq<Row>, bk: seq<nat>) {
    forall i :: 0 <= i < |ps| ==> RowEquivalent(full, residual, ps[i], pk, build, bk)
  }

  /** The rows found through the table are the rows the nested loop finds. */
  lemma ProbeResult(full: Plan, residual: Plan, p: Row, pk: seq<nat>, build: seq<Row>, bk: seq<nat>,
                    table: map<seq<Byte>, seq<nat>>)
    requires RowEquivalent(full, residual, p, pk, build, bk) && TableOk(table, build, bk, |build|)
    ensures Inside(Found(table, KeyOf(p, pk)), |build|)
    ensures HashRows(residual, p, build, Found(table, KeyOf(p, pk))) == MatchesOf(full, p, build)
  {
    hide KeyOf, Hashable, MatchesOf, HashRows, Agrees;
    assert build[..|build|] == build;
    var key := KeyOf(p, pk);
    HashRowsNone(residual, p, build);
    if key.Some? {
      HashIsNested(full, residual, p, pk, build, bk, |build|);
      assert Candidates(build, bk, key.value, |build|) == Found(table, key);
    } else {
      NullMatchesNothing(full, residual, p, pk, build, bk);
    }
  }
}
