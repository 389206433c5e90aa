/** The work plan of an investigation: a patch is accepted only if its collection stays a closed
    acyclic dependency graph (src/model_investigation.hpp, investigation_plan). */
module Planning {
  import opened Common

  const MAX_PATCH := 32
  const MAX_DEPENDENCIES := 64
  const MAX_ROWS := 1024
  const MAX_PRIORITY := 10

  datatype Status = Open | Supported | Contradicted | Blocked | Superseded

  datatype Task = Task(id: nat, status: Status, deps: seq<nat>, priority: int)

  datatype Collection = Goals | Tasks | Summaries | Hypotheses

  datatype Plan = Plan(revision: nat, planned: bool, active: Option<nat>,
                       goals: seq<Task>, tasks: seq<Task>, summaries: seq<Task>, hypotheses: seq<Task>)

  /** `fits`: every text of the patch and the whole new state are within their byte limits. */
  datatype Patch = Patch(expected: nat, collection: Collection, records: seq<Task>, active: Option<nat>, fits: bool)

  function Rows(p: Plan, c: Collection): seq<Task>
  {
    match c
    case Goals => p.goals
    case Tasks => p.tasks
    case Summaries => p.summaries
    case Hypotheses => p.hypotheses
  }

  function WithRows(p: Plan, c: Collection, rows: seq<Task>): Plan
  {
    match c
    case Goals => p.(goals := rows)
    case Tasks => p.(tasks := rows)
    case Summaries => p.(summaries := rows)
    case Hypotheses => p.(hypotheses := rows)
  }

  /* ---------- the dependency graph ---------- */

  predicate HasId(rows: seq<Task>, id: nat) { exists i :: 0 <= i < |rows| && rows[i].id == id }

  ghost predicate UniqueIds(rows: seq<Task>)
  {
    forall i, j :: 0 <= i < j < |rows| ==> rows[i].id != rows[j].id
  }

  /** Some row `a` depends on `b`. */
  predicate Edge(rows: seq<Task>, a: nat, b: nat)
  {
    exists i :: 0 <= i < |rows| && rows[i].id == a && b in rows[i].deps
  }

  ghost predicate Closed(rows: seq<Task>)
  {
    forall a, b :: Edge(rows, a, b) ==> HasId(rows, b)
  }

  predicate Walk(rows: seq<Task>, c: seq<nat>)
    decreases |c|
  {
    c != [] && (|c| > 1 ==> Edge(rows, c[0], c[1]) && Walk(rows, c[1..]))
  }

  ghost predicate Acyclic(rows: seq<Task>)
  {
    forall c :: Walk(rows, c) && |c| > 1 ==> c[0] != c[|c| - 1]
  }

  ghost predicate Sortable(rows: seq<Task>) { Closed(rows) && Acyclic(rows) }

  /** Every identifier in `order` has its dependencies before it. */
  ghost predicate Topological(rows: seq<Task>, order: seq<nat>)
  {
    forall k, b :: 0 <= k < |order| && Edge(rows, order[k], b) ==> b in order[..k]
  }

  lemma {:induction false} WalkStaysBelow(rows: seq<Task>, order: seq<nat>, c: seq<nat>, k: nat)
    requires Topological(rows, order) && Distinct(order) && Walk(rows, c) && |c| > 1 && k < |order| && order[k] == c[0]
    ensures c[|c| - 1] in order[..k]
    decreases |c|
  {
    assert c[1] in order[..k];
    var m :| 0 <= m < k && order[m] == c[1];
    if |c| > 2 {
      WalkStaysBelow(rows, order, c[1..], m);
      assert c[1..][|c[1..]| - 1] == c[|c| - 1];
      var j :| 0 <= j < m && order[..m][j] == c[|c| - 1];
      assert order[..k][j] == c[|c| - 1];
    }
  }

  lemma ExtendOrder(rows: seq<Task>, order: seq<nat>, id: nat)
    requires Topological(rows, order) && Distinct(order) && id !in order
    requires forall b :: Edge(rows, id, b) ==> b in order
    ensures Topological(rows, order + [id]) && Distinct(order + [id])
  {
    hide Edge;
    var next := order + [id];
    forall k, b | 0 <= k < |next| && Edge(rows, next[k], b) ensures b in next[..k]
    {
      if k < |order| {
        assert next[..k] == order[..k];
      } else {
        assert next[..k] == order;
      }
    }
  }

  /** An order that covers every row makes the graph closed and acyclic. */
  lemma OrderedIsSortable(rows: seq<Task>, order: seq<nat>)
    requires Topological(rows, order) && Distinct(order)
    requires forall i :: 0 <= i < |rows| ==> rows[i].id in order
    requires forall k :: 0 <= k < |order| ==> HasId(rows, order[k])
    ensures Sortable(rows)
  {
    forall a, b | Edge(rows, a, b) ensures HasId(rows, b)
    {
      var k :| 0 <= k < |order| && order[k] == a;
      assert b in order[..k];
      var m :| 0 <= m < k && order[..k][m] == b;
      assert order[m] == b;
    }
    forall c | Walk(rows, c) && |c| > 1 ensures c[0] != c[|c| - 1]
    {
      assert Edge(rows, c[0], c[1]);
      var k :| 0 <= k < |order| && order[k] == c[0];
      WalkStaysBelow(rows, order, c, k);
      var j :| 0 <= j < k && order[..k][j] == c[|c| - 1];
    }
  }

  lemma {:induction false} WalkJoin(rows: seq<Task>, c: seq<nat>, b: nat)
    requires Walk(rows, c) && Edge(rows, c[|c| - 1], b)
    ensures Walk(rows, c + [b])
    decreases |c|
  {
    if |c| > 1 {
      assert (c + [b])[1..] == c[1..] + [b];
      WalkJoin(rows, c[1..], b);
    } else {
      assert (c + [b])[1..] == [b];
    }
  }

  lemma {:induction false} WalkDrop(rows: seq<Task>, c: seq<nat>, j: nat)
    requires Walk(rows, c) && j < |c|
    ensures Walk(rows, c[j..])
    decreases j
  {
    if j > 0 {
      assert c[1..][j - 1..] == c[j..];
      WalkDrop(rows, c[1..], j - 1);
    } else {
      assert c[j..] == c;
    }
  }

  lemma {:induction false} WalkTake(rows: seq<Task>, c: seq<nat>, n: nat)
    requires Walk(rows, c) && 0 < n <= |c|
    ensures Walk(rows, c[..n])
    decreases n
  {
    if n > 1 {
      assert c[..n][1..] == c[1..][..n - 1];
      WalkTake(rows, c[1..], n - 1);
    }
  }

  /** A walk that visits an identifier twice contains a cycle. */
  lemma RevisitIsCycle(rows: seq<Task>, c: seq<nat>, i: nat, j: nat)
    requires Walk(rows, c) && i < j < |c| && c[i] == c[j]
    ensures !Acyclic(rows)
  {
    WalkDrop(rows, c, i);
    WalkTake(rows, c[i..], j - i + 1);
    var d := c[i..][..j - i + 1];
    assert Walk(rows, d) && |d| > 1 && d[0] == c[i] && d[|d| - 1] == c[j];
  }

  lemma NotClosed(rows: seq<Task>, a: nat, b: nat)
    requires Edge(rows, a, b) && !HasId(rows, b)
    ensures !Closed(rows)
  {
  }

  lemma EdgesOf(rows: seq<Task>, i: nat)
    requires UniqueIds(rows) && i < |rows|
    ensures forall b :: Edge(rows, rows[i].id, b) <==> b in rows[i].deps
  {
  }

  /* ---------- the depth-first check ---------- */

  datatype Verdict = Fine | Cyclic | Missing

  method FindRow(rows: seq<Task>, id: nat) returns (i: nat)
    ensures i <= |rows| && (i < |rows| ==> rows[i].id == id) && forall j :: 0 <= j < i ==> rows[j].id != id
  {
    i := 0;
    while i < |rows| && rows[i].id != id
      invariant i <= |rows| && forall j :: 0 <= j < i ==> rows[j].id != id
    {
      i := i + 1;
    }
  }

  ghost function Ids(rows: seq<Task>): set<nat> { set t | t in rows :: t.id }

  class DepthFirst {
    const rows: seq<Task>
    var visiting: set<nat>
    var visited: set<nat>
    ghost var order: seq<nat>

    constructor (rows: seq<Task>)
      ensures this.rows == rows && visiting == {} && visited == {} && order == []
    {
      this.rows := rows;
      visiting, visited, order := {}, {}, [];
    }

    /** Visited identifiers are rows, listed in `order` after their dependencies. */
    ghost predicate Finished()
      reads this
    {
      && (forall x :: x in visited <==> x in order) && Distinct(order) && Topological(rows, order)
      && (forall k :: 0 <= k < |order| ==> HasId(rows, order[k]))
      && visiting * visited == {} && visiting <= Ids(rows)
    }

    /** The identifiers being visited form a walk that ends at a row depending on `id`. */
    ghost predicate OnPath(path: seq<nat>, id: nat)
      reads this
    {
      && (forall x :: x in visiting <==> x in path)
      && (path != [] ==> Walk(rows, path) && Edge(rows, path[|path| - 1], id))
    }

    method Visit(id: nat, ghost path: seq<nat>) returns (v: Verdict)
      requires UniqueIds(rows) && Finished() && OnPath(path, id) && (path == [] ==> HasId(rows, id))
      modifies this
      ensures v.Fine? ==> Finished() && visiting == old(visiting) && old(visited) <= visited && id in visited
      ensures v.Missing? ==> !Closed(rows)
      ensures v.Cyclic? ==> !Acyclic(rows)
      decreases Ids(rows) - visiting
    {
      hide Topological, Closed, Acyclic;
      if id in visited { return Fine; }
      if id in visiting {
        ghost var j :| 0 <= j < |path| && path[j] == id;
        WalkJoin(rows, path, id);
        RevisitIsCycle(rows, path + [id], j, |path|);
        return Cyclic;
      }
      visiting := visiting + {id};
      var i := FindRow(rows, id);
      if i == |rows| {
        NotClosed(rows, path[|path| - 1], id);
        return Missing;
      }
      assert rows[i] in rows && id in Ids(rows);
      var deps := rows[i].deps;
      if path != [] { WalkJoin(rows, path, id); }
      for n := 0 to |deps|
        invariant Finished() && visiting == old(visiting) + {id} && old(visited) <= visited && id !in visited
        invariant forall m :: 0 <= m < n ==> deps[m] in visited
      {
        assert Edge(rows, id, deps[n]);
        v := Visit(deps[n], path + [id]);
        if !v.Fine? { return; }
      }
      visiting := visiting - {id};
      visited := visited + {id};
      EdgesOf(rows, i);
      ExtendOrder(rows, order, id);
      order := order + [id];
      return Fine;
    }
  }

  /** The check accepts exactly the closed and acyclic collections. */
  method CheckOrder(rows: seq<Task>) returns (v: Verdict)
    requires UniqueIds(rows)
    ensures v.Fine? <==> Sortable(rows)
    ensures v.Missing? ==> !Closed(rows)
    ensures v.Cyclic? ==> !Acyclic(rows)
  {
    var dfs := new DepthFirst(rows);
    for i := 0 to |rows|
      invariant dfs.rows == rows && dfs.Finished() && dfs.visiting == {}
      invariant forall j :: 0 <= j < i ==> rows[j].id in dfs.visited
    {
      v := dfs.Visit(rows[i].id, []);
      if !v.Fine? { return; }
    }
    OrderedIsSortable(rows, dfs.order);
    return Fine;
  }
}
