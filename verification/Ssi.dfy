/**
 Serializable conflict tracking: the table-granularity rw-antidependency graph
 of serializable transactions, and what committing through it guarantees.
 */
module Ssi {
  import opened Graphs

  type Table = string

  function At<K>(m: map<K, set<Node>>, k: K): set<Node> {
    if k in m then m[k] else {}
  }

  ghost function OutEdges(out: map<Node, set<Node>>): Edges {
    set r, w | r in out && w in out[r] :: (r, w)
  }

  function AddEdgesTo(out: map<Node, set<Node>>, sources: set<Node>, id: Node): map<Node, set<Node>> {
    map r | r in out.Keys + sources :: if r in sources then At(out, r) + {id} else At(out, r)
  }

  function Without(m: map<Table, set<Node>>, id: Node): map<Table, set<Node>> {
    map table | table in m && m[table] - {id} != {} :: m[table] - {id}
  }

  /** The tracker's shared state; an edge `r -> w` says `r` read a table that `w` wrote. */
  datatype Tracker = Tracker(
    active: set<Node>,
    readers: map<Table, set<Node>>,
    writers: map<Table, set<Node>>,
    out: map<Node, set<Node>>
  ) {
    function Begin(id: Node): Tracker {
      this.(active := active + {id})
    }

    /** `id` read `table`: one edge to every other open writer of it. */
    function NoteRead(id: Node, table: Table): Tracker {
      if id !in active then this
      else
        var targets := At(writers, table) - {id};
        this.(readers := readers[table := At(readers, table) + {id}],
              out := if targets == {} then out else out[id := At(out, id) + targets])
    }

    /** `id` wrote `table`: one edge from every other open reader of it. */
    function NoteWrite(id: Node, table: Table): Tracker {
      if id !in active then this
      else
        this.(writers := writers[table := At(writers, table) + {id}],
              out := AddEdgesTo(out, At(readers, table) - {id}, id))
    }

    function Forget(id: Node): Tracker {
      this.(active := active - {id}, readers := Without(readers, id), writers := Without(writers, id))
    }

    function ClearIfIdle(): Tracker {
      if active == {} then this.(out := map[]) else this
    }

    /** Edges of a committed transaction stay until no transaction is open. */
    function Commit(id: Node): Tracker {
      Forget(id).ClearIfIdle()
    }

    /** Edges that touch an aborted transaction go at once. */
    function Abort(id: Node): Tracker {
      Forget(id).(out := map r | r in out && r != id :: out[r] - {id}).ClearIfIdle()
    }
  }

  const EMPTY: Tracker := Tracker({}, map[], map[], map[])

  // ------------------------------------------------------------------ the tracker

  class SsiTracker {
    var active: set<Node>
    var readers: map<Table, set<Node>>
    var writers: map<Table, set<Node>>
    var out: map<Node, set<Node>>

    ghost function View(): Tracker
      reads this
    {
      Tracker(active, readers, writers, out)
    }

    constructor ()
      ensures View() == EMPTY
    {
      active, readers, writers, out := {}, map[], map[], map[];
    }

    method Begin(id: Node)
      modifies this
      ensures View() == old(View()).Begin(id)
    {
      active := active + {id};
    }

    method NoteRead(id: Node, table: Table)
      modifies this
      ensures View() == old(View()).NoteRead(id, table)
    {
      if id !in active {
        return;
      }
      readers := readers[table := At(readers, table) + {id}];
      if table in writers {
        var targets := writers[table] - {id};
        if targets != {} {
          out := out[id := At(out, id) + targets];
        }
      }
    }

    method NoteWrite(id: Node, table: Table)
      modifies this
      ensures View() == old(View()).NoteWrite(id, table)
    {
      if id !in active {
        return;
      }
      writers := writers[table := At(writers, table) + {id}];
      var todo := At(readers, table) - {id};
      ghost var done: set<Node> := {};
      assert out == AddEdgesTo(old(out), {}, id);
      while todo != {}
        invariant done !! todo && done + todo == At(old(readers), table) - {id}
        invariant out == AddEdgesTo(old(out), done, id)
        invariant active == old(active) && readers == old(readers)
        invariant writers == old(writers)[table := At(old(writers), table) + {id}]
        decreases todo
      {
        var r :| r in todo;
        out := out[r := At(out, r) + {id}];
        todo, done := todo - {r}, done + {r};
      }
    }

    method Forget(id: Node)
      modifies this
      ensures View() == old(View()).Forget(id)
    {
      active := active - {id};
      readers := Without(readers, id);
      writers := Without(writers, id);
    }

    method Commit(id: Node)
      modifies this
      ensures View() == old(View()).Commit(id)
    {
      Forget(id);
      if active == {} {
        out := map[];
      }
    }

    method Abort(id: Node)
      modifies this
      ensures View() == old(View()).Abort(id)
    {
      Forget(id);
      out := out - {id};
      out := map r | r in out :: out[r] - {id};
      if active == {} {
        out := map[];
      }
    }

    /** Worklist search: true exactly when `id` reaches itself. */
    method HasCycleThrough(id: Node) returns (found: bool)
      ensures found <==> OnCycle(OutEdges(out), id)
    {
      hide Frontier, OnCycle;
      FrontierStart(out, id);
      var stack, seen := [id], {};
      while stack != []
        invariant Frontier(out, id, stack, seen)
        decreases |Targets(out) - seen|, |stack|
      {
        var cur, rest := stack[|stack| - 1], stack[..|stack| - 1];
        ghost var stack0, seen0 := stack, seen;
        stack := rest;
        if cur in out {
          var hit;
          hit, stack, seen := PushUnseen(out[cur], id, rest, seen);
          if hit {
            FrontierHit(out, id, stack0, seen0);
            return true;
          }
        }
        FrontierStep(out, id, stack0, seen0, stack, seen);
      }
      FrontierEmpty(out, id, seen);
      return false;
    }

    /** One node's successors: stop at `id`, stack those met for the first time. */
    static method PushUnseen(nexts: set<Node>, id: Node, stack0: seq<Node>, seen0: set<Node>)
      returns (hit: bool, stack: seq<Node>, seen: set<Node>)
      ensures hit <==> id in nexts
      ensures !hit ==> seen == seen0 + nexts
      ensures !hit ==> forall n :: n in stack <==> n in stack0 || n in nexts - seen0
      ensures seen == seen0 ==> stack == stack0
    {
      stack, seen := stack0, seen0;
      var todo := nexts;
      while todo != {}
        invariant todo <= nexts && id !in nexts - todo
        invariant seen == seen0 + (nexts - todo)
        invariant forall n :: n in stack <==> n in stack0 || n in nexts - todo - seen0
        invariant seen == seen0 ==> stack == stack0
        decreases todo
      {
        var next :| next in todo;
        todo := todo - {next};
        if next == id {
          return true, stack0, seen0;
        }
        if next !in seen {
          seen := seen + {next};
          stack := stack + [next];
        }
      }
      return false, stack, seen;
    }
  }

  ghost predicate Reaches(edges: Edges, from: Node, to: Node) {
    from == to || exists p :: Walk(edges, p) && p[0] == from && p[|p| - 1] == to
  }

  ghost predicate Expanded(out: map<Node, set<Node>>, n: Node, id: Node, seen: set<Node>) {
    forall w :: w in At(out, n) ==> w != id && w in seen
  }

  lemma ExtendWalk(edges: Edges, from: Node, mid: Node, to: Node)
    requires Reaches(edges, from, mid) && (mid, to) in edges
    ensures exists p :: Walk(edges, p) && |p| >= 2 && p[0] == from && p[|p| - 1] == to
  {
    var p := if from == mid then [from] else var q :| Walk(edges, q) && q[0] == from && q[|q| - 1] == mid; q;
    var q := p + [to];
    forall i: nat | i + 1 < |q|
      ensures Hop(edges, q, i)
    {
      if i + 1 < |p| {
        assert Hop(edges, p, i);
      }
    }
    assert Walk(edges, q);
  }

  ghost function Targets(out: map<Node, set<Node>>): set<Node> {
    set r, w | r in out && w in out[r] :: w
  }

  /** The worklist invariant: all met nodes are reachable, all popped ones are expanded. */
  ghost predicate Frontier(out: map<Node, set<Node>>, id: Node, stack: seq<Node>, seen: set<Node>) {
    && seen <= Targets(out)
    && (forall n :: n in stack || n in seen ==> Reaches(OutEdges(out), id, n))
    && (forall n :: n == id || n in seen ==> n in stack || Expanded(out, n, id, seen))
  }

  lemma FrontierStart(out: map<Node, set<Node>>, id: Node)
    ensures Frontier(out, id, [id], {})
  {
  }

  lemma FrontierHit(out: map<Node, set<Node>>, id: Node, stack: seq<Node>, seen: set<Node>)
    requires Frontier(out, id, stack, seen) && stack != []
    requires id in At(out, stack[|stack| - 1])
    ensures OnCycle(OutEdges(out), id)
  {
    var cur := stack[|stack| - 1];
    assert (cur, id) in OutEdges(out);
    CloseWalk(OutEdges(out), id, cur);
  }

  lemma ReachesNext(out: map<Node, set<Node>>, id: Node, cur: Node)
    requires Reaches(OutEdges(out), id, cur)
    ensures forall n :: n in At(out, cur) ==> n in Targets(out) && Reaches(OutEdges(out), id, n)
  {
    forall n | n in At(out, cur)
      ensures n in Targets(out) && Reaches(OutEdges(out), id, n)
    {
      assert (cur, n) in OutEdges(out);
      ExtendWalk(OutEdges(out), id, cur, n);
    }
  }

  lemma FrontierStep(out: map<Node, set<Node>>, id: Node,
                     stack: seq<Node>, seen: set<Node>, stack': seq<Node>, seen': set<Node>)
    requires Frontier(out, id, stack, seen) && stack != []
    requires var nexts := At(out, stack[|stack| - 1]);
             && id !in nexts && seen' == seen + nexts
             && forall n :: n in stack' <==> n in stack[..|stack| - 1] || n in nexts - seen
    ensures Frontier(out, id, stack', seen')
    ensures seen' == seen || |Targets(out) - seen'| < |Targets(out) - seen|
  {
    hide Reaches;
    var cur, rest := stack[|stack| - 1], stack[..|stack| - 1];
    assert stack == rest + [cur];
    ReachesNext(out, id, cur);
    forall n | n == id || n in seen'
      ensures n in stack' || Expanded(out, n, id, seen')
    {
      if n == cur {
        assert Expanded(out, n, id, seen');
      } else if n == id || n in seen {
        assert n in rest || Expanded(out, n, id, seen);
      }
    }
    if seen' != seen {
      SetShrinks(Targets(out) - seen, Targets(out) - seen');
    }
  }

  lemma FrontierEmpty(out: map<Node, set<Node>>, id: Node, seen: set<Node>)
    requires Frontier(out, id, [], seen)
    ensures !OnCycle(OutEdges(out), id)
  {
    ClosedSetExcludesCycle(OutEdges(out), id, seen + {id});
  }

  lemma CloseWalk(edges: Edges, id: Node, cur: Node)
    requires Reaches(edges, id, cur) && (cur, id) in edges
    ensures OnCycle(edges, id)
  {
    ExtendWalk(edges, id, cur, id);
    var p :| Walk(edges, p) && |p| >= 2 && p[0] == id && p[|p| - 1] == id;
    assert Cycle(edges, p);
  }

  lemma SetShrinks(big: set<Node>, small: set<Node>)
    requires small < big
    ensures |small| < |big|
  {
    var x :| x in big && x !in small;
    assert small <= big - {x};
    SubsetSize(small, big - {x});
  }

  lemma {:induction false} SubsetSize(small: set<Node>, big: set<Node>)
    requires small <= big
    ensures |small| <= |big|
  {
    if small != {} {
      var x :| x in small;
      SubsetSize(small - {x}, big - {x});
    }
  }
}
