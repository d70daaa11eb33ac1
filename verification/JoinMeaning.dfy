/** What a join returns, by kind and without its operators. */
module JoinMeaning {
  import opened Options
  import opened Values
  import opened JoinExpr
  import opened JoinRows

  /** The pair passes the condition; without one every pair does. */
  predicate Satisfied(cond: Option<Expr>, left: Schema, right: Schema, l: Row, r: Row, env: Env) {
    cond.None? || (|l| + |r| == |left| + |right| && Holds(cond.value, left + right, l + r, env))
  }

  predicate Ascends(at: seq<nat>) {
    forall a, b :: 0 <= a < b < |at| ==> at[a] < at[b]
  }

  predicate AllNull(row: Row, n: nat) {
    |row| == n && forall i :: 0 <= i < n ==> row[i] == Null
  }

  /** `at` are the positions, in order, of the right rows that pair with `l`. */
  ghost predicate LeftPairs(cond: Option<Expr>, left: Schema, right: Schema, env: Env, l: Row, rs: seq<Row>,
                            at: seq<nat>)
  {
    && Ascends(at) && (forall x :: 0 <= x < |at| ==> at[x] < |rs|)
    && forall j: nat :: j < |rs| ==> (j in at <==> Satisfied(cond, left, right, l, rs[j], env))
  }

  ghost predicate RightPairs(cond: Option<Expr>, left: Schema, right: Schema, env: Env, r: Row, ls: seq<Row>,
                             at: seq<nat>)
  {
    && Ascends(at) && (forall x :: 0 <= x < |at| ==> at[x] < |ls|)
    && forall j: nat :: j < |ls| ==> (j in at <==> Satisfied(cond, left, right, ls[j], r, env))
  }

  /** `out` is `l` with each right row it pairs with, in order; alone, `l` is dropped or padded. */
  ghost predicate LeftRow(padded: bool, cond: Option<Expr>, left: Schema, right: Schema, env: Env, l: Row, rs: seq<Row>,
                          out: seq<Row>)
  {
    exists at ::
      && LeftPairs(cond, left, right, env, l, rs, at)
      && if at == [] && padded then
           |out| == 1 && |l| <= |out[0]| && out[0][..|l|] == l && AllNull(out[0][|l|..], |right|)
         else
           |out| == |at| && forall x :: 0 <= x < |at| ==> out[x] == l + rs[at[x]]
  }

  /** `out` is `r` behind each left row it pairs with, in order; alone, `r` stands behind NULLs. */
  ghost predicate RightRow(cond: Option<Expr>, left: Schema, right: Schema, env: Env, r: Row, ls: seq<Row>,
                           out: seq<Row>)
  {
    exists at ::
      && RightPairs(cond, left, right, env, r, ls, at)
      && if at == [] then
           |out| == 1 && |out[0]| == |left| + |r| && AllNull(out[0][..|left|], |left|) && out[0][|left|..] == r
         else
           |out| == |at| && forall x :: 0 <= x < |at| ==> out[x] == ls[at[x]] + r
  }

  /** `cuts` divides `total` rows into `n` consecutive blocks. */
  predicate Divides(cuts: seq<nat>, n: nat, total: nat) {
    |cuts| == n + 1 && cuts[0] == 0 && cuts[n] == total && forall i, j :: 0 <= i < j <= n ==> cuts[i] <= cuts[j]
  }

  function Block(rows: seq<Row>, cuts: seq<nat>, n: nat, i: nat): seq<Row>
    requires Divides(cuts, n, |rows|) && i < n
  {
    rows[cuts[i]..cuts[i + 1]]
  }

  /** Cross, inner and left joins: one block per left row. */
  ghost predicate LeftBlocks(padded: bool, cond: Option<Expr>, left: Schema, right: Schema, env: Env, ls: seq<Row>,
                             rs: seq<Row>, rows: seq<Row>, cuts: seq<nat>)
  {
    && Divides(cuts, |ls|, |rows|)
    && forall i :: 0 <= i < |ls| ==> LeftRow(padded, cond, left, right, env, ls[i], rs, Block(rows, cuts, |ls|, i))
  }

  /** Right joins: one block per right row. */
  ghost predicate RightBlocks(cond: Option<Expr>, left: Schema, right: Schema, env: Env, ls: seq<Row>, rs: seq<Row>,
                              rows: seq<Row>, cuts: seq<nat>)
  {
    && Divides(cuts, |rs|, |rows|)
    && forall i :: 0 <= i < |rs| ==> RightRow(cond, left, right, env, rs[i], ls, Block(rows, cuts, |rs|, i))
  }

  ghost predicate JoinResult(kind: Kind, cond: Option<Expr>, left: Schema, right: Schema, env: Env, ls: seq<Row>,
                             rs: seq<Row>, rows: seq<Row>)
  {
    match kind
    case Cross => exists cuts :: LeftBlocks(false, cond, left, right, env, ls, rs, rows, cuts)
    case Inner => exists cuts :: LeftBlocks(false, cond, left, right, env, ls, rs, rows, cuts)
    case Left => exists cuts :: LeftBlocks(true, cond, left, right, env, ls, rs, rows, cuts)
    case Right => exists cuts :: RightBlocks(cond, left, right, env, ls, rs, rows, cuts)
  }

  // ------------------------------------------------------------------ one driving row

  /** `at` are the positions of the accepted partners among the first `n`. */
  ghost predicate Accepted(plan: Plan, p: Row, others: seq<Row>, n: nat, at: seq<nat>)
    requires n <= |others|
  {
    && Ascends(at) && (forall x :: 0 <= x < |at| ==> at[x] < n)
    && forall j: nat :: j < n ==> (j in at <==> Accepts(plan, Combine(plan, p, others[j])))
  }

  ghost predicate Lists(plan: Plan, p: Row, others: seq<Row>, at: seq<nat>, out: seq<Row>) {
    |out| == |at| && forall x :: 0 <= x < |at| ==> at[x] < |others| && out[x] == Combine(plan, p, others[at[x]])
  }

  lemma {:induction false} Picked(plan: Plan, p: Row, others: seq<Row>, n: nat) returns (at: seq<nat>)
    requires n <= |others|
    ensures Accepted(plan, p, others, n, at) && Lists(plan, p, others, at, MatchesOf(plan, p, others[..n]))
  {
    hide Accepts, Combine, MatchesOf;
    if n == 0 {
      at := [];
      MatchesNone(plan, p);
      assert others[..0] == [];
    } else {
      var before := Picked(plan, p, others, n - 1);
      MatchesNext(plan, p, others, n - 1);
      at := before + if Accepts(plan, Combine(plan, p, others[n - 1])) then [n - 1] else [];
      PickedOne(plan, p, others, n, before);
    }
  }

  lemma PickedOne(plan: Plan, p: Row, others: seq<Row>, n: nat, before: seq<nat>)
    requires 0 < n <= |others| && Accepted(plan, p, others, n - 1, before)
    ensures var ok := Accepts(plan, Combine(plan, p, others[n - 1]));
            Accepted(plan, p, others, n, before + if ok then [n - 1] else [])
  {
    hide Accepts, Combine;
    assert forall x :: 0 <= x < |before| ==> before[x] in before;
    assert n - 1 !in before;
  }

  lemma LeftRowIs(kind: Kind, cond: Option<Expr>, left: Schema, right: Schema, env: Env, l: Row, rs: seq<Row>)
    requires !kind.Right?
    ensures LeftRow(kind.Left?, cond, left, right, env, l, rs, RowsFor(PlanFor(kind, cond, left, right, env), l, rs))
  {
    hide Holds, MatchesOf;
    var plan := PlanFor(kind, cond, left, right, env);
    var at := Picked(plan, l, rs, |rs|);
    assert rs[..|rs|] == rs;
    assert LeftPairs(cond, left, right, env, l, rs, at);
    assert (l + Nulls(|right|))[|l|..] == Nulls(|right|);
  }

  lemma RightRowIs(cond: Option<Expr>, left: Schema, right: Schema, env: Env, r: Row, ls: seq<Row>)
    ensures RightRow(cond, left, right, env, r, ls, RowsFor(PlanFor(Right, cond, left, right, env), r, ls))
  {
    hide Holds, MatchesOf;
    var plan := PlanFor(Right, cond, left, right, env);
    var at := Picked(plan, r, ls, |ls|);
    assert ls[..|ls|] == ls;
    assert RightPairs(cond, left, right, env, r, ls, at);
    assert (Nulls(|left|) + r)[..|left|] == Nulls(|left|);
  }

  // ------------------------------------------------------------------ all driving rows

  lemma {:induction false} Blocks(plan: Plan, ps: seq<Row>, others: seq<Row>) returns (cuts: seq<nat>)
    ensures Divides(cuts, |ps|, |Joined(plan, ps, others)|)
    ensures forall i :: 0 <= i < |ps| ==>
              Block(Joined(plan, ps, others), cuts, |ps|, i) == RowsFor(plan, ps[i], others)
    decreases |ps|
  {
    hide RowsFor;
    if ps == [] {
      cuts := [0];
    } else {
      var n := |ps| - 1;
      var rest := Joined(plan, ps[..n], others);
      var before := Blocks(plan, ps[..n], others);
      var all := Joined(plan, ps, others);
      cuts := before + [|all|];
      forall i | 0 <= i < |ps|
        ensures Block(all, cuts, |ps|, i) == RowsFor(plan, ps[i], others)
      {
        if i < n {
          assert Block(all, cuts, |ps|, i) == Block(rest, before, n, i);
        } else {
          assert all[|rest|..] == RowsFor(plan, ps[n], others);
        }
      }
    }
  }

  lemma LeftMeans(kind: Kind, cond: Option<Expr>, left: Schema, right: Schema, env: Env, ls: seq<Row>, rs: seq<Row>)
    returns (cuts: seq<nat>)
    requires !kind.Right?
    ensures LeftBlocks(kind.Left?, cond, left, right, env, ls, rs,
                       Joined(PlanFor(kind, cond, left, right, env), ls, rs), cuts)
  {
    hide RowsFor, LeftRow, Joined, PlanFor, Block;
    cuts := Blocks(PlanFor(kind, cond, left, right, env), ls, rs);
    forall i | 0 <= i < |ls|
      ensures LeftRow(kind.Left?, cond, left, right, env, ls[i], rs,
                      RowsFor(PlanFor(kind, cond, left, right, env), ls[i], rs))
    {
      LeftRowIs(kind, cond, left, right, env, ls[i], rs);
    }
  }

  lemma RightMeans(cond: Option<Expr>, left: Schema, right: Schema, env: Env, ls: seq<Row>, rs: seq<Row>)
    returns (cuts: seq<nat>)
    ensures RightBlocks(cond, left, right, env, ls, rs, Joined(PlanFor(Right, cond, left, right, env), rs, ls), cuts)
  {
    hide RowsFor, RightRow, Joined, PlanFor, Block;
    cuts := Blocks(PlanFor(Right, cond, left, right, env), rs, ls);
    forall i | 0 <= i < |rs|
      ensures RightRow(cond, left, right, env, rs[i], ls, RowsFor(PlanFor(Right, cond, left, right, env), rs[i], ls))
    {
      RightRowIs(cond, left, right, env, rs[i], ls);
    }
  }

  /** The rows of the row-by-row definition are what the kind of join promises. */
  lemma JoinedMeans(kind: Kind, cond: Option<Expr>, left: Schema, right: Schema, env: Env, ls: seq<Row>, rs: seq<Row>)
    ensures var plan := PlanFor(kind, cond, left, right, env);
            JoinResult(kind, cond, left, right, env, ls, rs,
                       if kind.Right? then Joined(plan, rs, ls) else Joined(plan, ls, rs))
  {
    hide LeftBlocks, RightBlocks, Joined, PlanFor;
    if kind.Right? {
      var cuts := RightMeans(cond, left, right, env, ls, rs);
    } else {
      var cuts := LeftMeans(kind, cond, left, right, env, ls, rs);
    }
  }

  /** The nested loop over the two sides, the preserved one outside. */
  method RunNestedLoop(kind: Kind, cond: Option<Expr>, left: Schema, right: Schema, ls: seq<Row>, rs: seq<Row>,
                       env: Env)
    returns (rows: seq<Row>)
    ensures JoinResult(kind, cond, left, right, env, ls, rs, rows)
  {
    var plan := PlanFor(kind, cond, left, right, env);
    hide JoinResult, Joined, PlanFor;
    JoinedMeans(kind, cond, left, right, env, ls, rs);
    if kind.Right? {
      rows := NestedLoop(plan, rs, ls);
    } else {
      rows := NestedLoop(plan, ls, rs);
    }
  }
}
