/** Planning a hash join from a condition, and why it returns what the nested loop returns. */
module JoinTheorem {
  import opened Options
  import opened Values
  import opened JoinExpr
  import opened JoinKeys
  import opened HashJoin
  import opened JoinRows
  import opened JoinMeaning

  ghost predicate AllTyped(schema: Schema, rows: seq<Row>) {
    forall i :: 0 <= i < |rows| ==> Typed(schema, rows[i])
  }

  /** Every conjunct evaluates to a truth value on every pair of rows. */
  ghost predicate ErrorFree(cond: Expr, left: Schema, right: Schema, ls: seq<Row>, rs: seq<Row>, env: Env)
    requires AllTyped(left, ls) && AllTyped(right, rs)
  {
    forall i, j :: 0 <= i < |ls| && 0 <= j < |rs| ==>
      |ls[i]| == |left| && |rs[j]| == |right| && AllDecide(SplitConjuncts(cond), left + right, ls[i] + rs[j], env)
  }

  datatype HashKeys = HashKeys(left: seq<nat>, right: seq<nat>, residual: Option<Expr>)

  /** The keys divide the condition soundly for rows of the two sides. */
  ghost predicate Sound(cond: Expr, left: Schema, right: Schema, keys: HashKeys, env: Env) {
    KeyPositions(left, right, keys.left, keys.right) &&
    forall l: Row, r: Row :: Typed(left, l) && Typed(right, r) ==> PairSound(cond, left, right, keys, l, r, env)
  }

  ghost predicate PairSound(cond: Expr, left: Schema, right: Schema, keys: HashKeys, l: Row, r: Row, env: Env)
    requires |l| == |left| && |r| == |right|
  {
    AllDecide(SplitConjuncts(cond), left + right, l + r, env) ==>
      (Holds(cond, left + right, l + r, env) <==>
         KeysAgree(l, keys.left, r, keys.right) &&
         (keys.residual.None? || Holds(keys.residual.value, left + right, l + r, env)))
  }

  /** Looks for equality keys; without any, or for a cross join, there is no hash plan. */
  method AnalyzeHashJoin(kind: Kind, cond: Option<Expr>, left: Schema, right: Schema, ghost env: Env)
    returns (keys: Option<HashKeys>)
    ensures keys.Some? ==> !kind.Cross? && cond.Some? && keys.value.left != []
    ensures keys.Some? && OwnersDiffer(left, right) ==> Sound(cond.value, left, right, keys.value, env)
  {
    if kind.Cross? || cond.None? {
      return None;
    }
    hide OwnersDiffer, Sound, SplitsAlways;
    var lk, rk, kept := ExtractHashKeys(SplitConjuncts(cond.value), left, right, env);
    if lk == [] {
      return None;
    }
    keys := Some(HashKeys(lk, rk, CombineAnd(kept)));
    if OwnersDiffer(left, right) {
      KeysSound(cond.value, left, right, lk, rk, kept, env);
    }
  }

  lemma KeysSound(cond: Expr, left: Schema, right: Schema, lk: seq<nat>, rk: seq<nat>, kept: seq<Expr>, env: Env)
    requires KeyPositions(left, right, lk, rk) && SplitsAlways(SplitConjuncts(cond), left, right, lk, rk, kept, env)
    ensures Sound(cond, left, right, HashKeys(lk, rk, CombineAnd(kept)), env)
  {
    hide Typed, PairSound, Splits;
    forall l: Row, r: Row | Typed(left, l) && Typed(right, r)
      ensures |l| == |left| && |r| == |right|
      ensures PairSound(cond, left, right, HashKeys(lk, rk, CombineAnd(kept)), l, r, env)
    {
      TypedLength(left, l);
      TypedLength(right, r);
      OnePairSound(cond, left, right, lk, rk, kept, l, r, env);
    }
  }

  lemma OnePairSound(cond: Expr, left: Schema, right: Schema, lk: seq<nat>, rk: seq<nat>, kept: seq<Expr>, l: Row,
                     r: Row, env: Env)
    requires |l| == |left| && |r| == |right| && Splits(SplitConjuncts(cond), left, right, lk, rk, kept, l, r, env)
    ensures PairSound(cond, left, right, HashKeys(lk, rk, CombineAnd(kept)), l, r, env)
  {
    hide AllDecide, AllHold, KeysAgree, Holds, Decides, SplitConjuncts;
    var schema, row := left + right, l + r;
    if AllDecide(SplitConjuncts(cond), schema, row, env) {
      ConjunctsDecide(cond, schema, row, env);
      if kept == [] {
        NoneHold(schema, row, env);
      } else {
        CombinedDecides(kept, schema, row, env);
      }
    }
  }

  lemma NoneHold(schema: Schema, row: Row, env: Env)
    requires |row| == |schema|
    ensures AllHold([], schema, row, env)
  {
  }

  // ------------------------------------------------------------------ the two plans agree

  lemma PairAgrees(kind: Kind, cond: Expr, left: Schema, right: Schema, keys: HashKeys, l: Row, r: Row, env: Env)
    requires Sound(cond, left, right, keys, env) && Typed(left, l) && Typed(right, r)
    requires |l| == |left| && |r| == |right| && AllDecide(SplitConjuncts(cond), left + right, l + r, env)
    ensures var full := PlanFor(kind, Some(cond), left, right, env); var residual := full.(cond := keys.residual);
            if kind.Right? then Agrees(full, residual, r, keys.right, l, keys.left)
            else Agrees(full, residual, l, keys.left, r, keys.right)
  {
    hide Typed, Holds, KeysAgree, AllDecide, KeyOf, Hashable, SplitConjuncts, KeyPositions;
    assert PairSound(cond, left, right, keys, l, r, env);
    KeysHashable(left, right, keys.left, keys.right, l, r);
    SameBytes(left, right, l, keys.left, r, keys.right);
  }

  lemma KeysHashable(left: Schema, right: Schema, lk: seq<nat>, rk: seq<nat>, l: Row, r: Row)
    requires KeyPositions(left, right, lk, rk) && Typed(left, l) && Typed(right, r)
    ensures Hashable(l, lk) && Hashable(r, rk)
  {
    TypedHashable(left, l, lk);
    TypedHashable(right, r, rk);
  }

  lemma SidesEquivalent(kind: Kind, cond: Expr, left: Schema, right: Schema, keys: HashKeys, ls: seq<Row>, rs: seq<Row>,
                        env: Env)
    requires Sound(cond, left, right, keys, env) && AllTyped(left, ls) && AllTyped(right, rs)
    requires ErrorFree(cond, left, right, ls, rs, env)
    ensures var full := PlanFor(kind, Some(cond), left, right, env); var residual := full.(cond := keys.residual);
            if kind.Right? then Equivalent(full, residual, rs, keys.right, ls, keys.left) && AllHashable(ls, keys.left)
            else Equivalent(full, residual, ls, keys.left, rs, keys.right) && AllHashable(rs, keys.right)
  {
    var full := PlanFor(kind, Some(cond), left, right, env);
    var residual := full.(cond := keys.residual);
    hide Typed, AllDecide, Hashable, Agrees, SplitConjuncts, PairSound, KeyPositions;
    forall i | 0 <= i < |ls|
      ensures Hashable(ls[i], keys.left)
    {
      SideHashable(left, right, keys, ls[i]);
    }
    forall j | 0 <= j < |rs|
      ensures Hashable(rs[j], keys.right)
    {
      OtherHashable(left, right, keys, rs[j]);
    }
    forall i, j | 0 <= i < |ls| && 0 <= j < |rs|
      ensures if kind.Right? then Agrees(full, residual, rs[j], keys.right, ls[i], keys.left)
              else Agrees(full, residual, ls[i], keys.left, rs[j], keys.right)
    {
      PairAgrees(kind, cond, left, right, keys, ls[i], rs[j], env);
    }
  }

  lemma SideHashable(left: Schema, right: Schema, keys: HashKeys, l: Row)
    requires KeyPositions(left, right, keys.left, keys.right) && Typed(left, l)
    ensures Hashable(l, keys.left)
  {
    TypedHashable(left, l, keys.left);
  }

  lemma OtherHashable(left: Schema, right: Schema, keys: HashKeys, r: Row)
    requires KeyPositions(left, right, keys.left, keys.right) && Typed(right, r)
    ensures Hashable(r, keys.right)
  {
    TypedHashable(right, r, keys.right);
  }

  // ------------------------------------------------------------------ running it

  function Flatten(chunks: seq<seq<Row>>): seq<Row> {
    if chunks == [] then [] else Flatten(chunks[..|chunks| - 1]) + chunks[|chunks| - 1]
  }

  /** Builds on the side that does not drive, then streams the driving side in chunks. */
  method RunHashJoin(kind: Kind, keys: HashKeys, cond: Expr, left: Schema, right: Schema, build: seq<Row>,
                     chunks: seq<seq<Row>>, env: Env)
    returns (rows: seq<Row>)
    requires Sound(cond, left, right, keys, env) && !kind.Cross?
    requires kind.Right? ==> AllTyped(left, build) && AllTyped(right, Flatten(chunks))
    requires kind.Right? ==> ErrorFree(cond, left, right, build, Flatten(chunks), env)
    requires !kind.Right? ==> AllTyped(right, build) && AllTyped(left, Flatten(chunks))
    requires !kind.Right? ==> ErrorFree(cond, left, right, Flatten(chunks), build, env)
    ensures rows == Joined(PlanFor(kind, Some(cond), left, right, env), Flatten(chunks), build)
    ensures kind.Right? ==> JoinResult(kind, Some(cond), left, right, env, build, Flatten(chunks), rows)
    ensures !kind.Right? ==> JoinResult(kind, Some(cond), left, right, env, Flatten(chunks), build, rows)
  {
    hide JoinResult, Joined;
    JoinedMeans(kind, Some(cond), left, right, env, if kind.Right? then build else Flatten(chunks),
                if kind.Right? then Flatten(chunks) else build);
    ghost var full := PlanFor(kind, Some(cond), left, right, env);
    ghost var ps := Flatten(chunks);
    if kind.Right? {
      SidesEquivalent(kind, cond, left, right, keys, build, ps, env);
    } else {
      SidesEquivalent(kind, cond, left, right, keys, ps, build, env);
    }
    var pk, bk := if kind.Right? then keys.right else keys.left, if kind.Right? then keys.left else keys.right;
    rows := Drain(PlanFor(kind, keys.residual, left, right, env), pk, bk, build, chunks, full);
  }

  method Drain(residual: Plan, pk: seq<nat>, bk: seq<nat>, build: seq<Row>, chunks: seq<seq<Row>>, ghost full: Plan)
    returns (rows: seq<Row>)
    requires AllHashable(build, bk) && Equivalent(full, residual, Flatten(chunks), pk, build, bk)
    ensures rows == Joined(full, Flatten(chunks), build)
  {
    hide AllHashable, RowEquivalent, Joined, HashJoinOp.Valid;
    var op := new HashJoinOp(residual, pk, bk);
    op.Open(build);
    JoinedNone(full, build);
    for i := 0 to |chunks|
      invariant fresh(op) && op.Valid() && op.build == build && op.residual == residual && op.probeKeys == pk
      invariant op.buildKeys == bk
      invariant op.pending == Joined(full, Flatten(chunks[..i]), build)
    {
      ChunkEquivalent(full, residual, chunks, i, pk, build, bk);
      assert chunks[..i + 1][..i] == chunks[..i];
      JoinedAppend(full, Flatten(chunks[..i]), chunks[i], build);
      op.FillOutput(chunks[i], full);
    }
    assert chunks[..|chunks|] == chunks;
    rows := op.pending;
  }

  lemma ChunkEquivalent(full: Plan, residual: Plan, chunks: seq<seq<Row>>, i: nat, pk: seq<nat>, build: seq<Row>,
                        bk: seq<nat>)
    requires i < |chunks| && Equivalent(full, residual, Flatten(chunks), pk, build, bk)
    ensures Equivalent(full, residual, chunks[i], pk, build, bk)
  {
    hide RowEquivalent;
    var cuts := ChunksInOrder(chunks);
    forall j | 0 <= j < |chunks[i]|
      ensures RowEquivalent(full, residual, chunks[i][j], pk, build, bk)
    {
      assert Block(Flatten(chunks), cuts, |chunks|, i)[j] == chunks[i][j];
      assert Flatten(chunks)[cuts[i] + j] == chunks[i][j];
    }
  }

  /** The driving side is its chunks one after the other. */
  lemma {:induction false} ChunksInOrder(chunks: seq<seq<Row>>) returns (cuts: seq<nat>)
    ensures Divides(cuts, |chunks|, |Flatten(chunks)|)
    ensures forall i :: 0 <= i < |chunks| ==> Block(Flatten(chunks), cuts, |chunks|, i) == chunks[i]
    decreases |chunks|
  {
    if chunks == [] {
      cuts := [0];
    } else {
      var n := |chunks| - 1;
      var before := ChunksInOrder(chunks[..n]);
      var rest, all := Flatten(chunks[..n]), Flatten(chunks);
      cuts := before + [|all|];
      forall i | 0 <= i < |chunks|
        ensures Block(all, cuts, |chunks|, i) == chunks[i]
      {
        if i < n {
          assert Block(all, cuts, |chunks|, i) == Block(rest, before, n, i);
        } else {
          assert all[|rest|..] == chunks[n];
        }
      }
    }
  }

  // ------------------------------------------------------------------ one name for both sides

  /**
   When both sides carry the same table name, a qualified reference means the left side in the joined row
   but each side's own column in the hash keys, and the two joins part.
   */
  lemma SharedOwnerParts(env: Env)
    ensures var schema := [Column("t", "a", IntType)];
            var cond := Eq(Col(Qualified("t", "a")), Col(Qualified("t", "a")));
            && Typed(schema, [Int(1)]) && Typed(schema, [Int(2)])
            && IsKey(cond.a, cond.b, schema, schema)
            && Holds(cond, schema + schema, [Int(1)] + [Int(2)], env)
            && !KeysAgree([Int(1)], [0], [Int(2)], [0])
  {
    var schema := [Column("t", "a", IntType)];
    var ref := Qualified("t", "a");
    assert (schema + schema)[0] == schema[0];
    assert Find(schema, ref) == 0 && Find(schema + schema, ref) == 0;
    assert Resolve(schema + schema, ref) == Some(0);
    EvalKey(ref, ref, 0, 0, schema + schema, [Int(1)] + [Int(2)], env);
    assert ([Int(1)] + [Int(2)])[0] == Int(1);
    assert !SameKeyValue([Int(1)], 0, [Int(2)], 0);
    assert [0][0] == 0;
  }
}
