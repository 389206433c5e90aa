/** Saving a plan and drawing the work queue from it (src/model_investigation.hpp). */
module WorkQueue {
  import opened Common
  import opened Planning

  const QUEUE := 8
  const MAX_DEPENDENT_SCORE := 10

  /* ---------- saving a patch ---------- */

  predicate ValidTask(t: Task) { 0 <= t.priority <= MAX_PRIORITY && |t.deps| <= MAX_DEPENDENCIES }

  /** The first row with the identifier, or the number of rows. */
  function IndexOf(rows: seq<Task>, id: nat): (i: nat)
    ensures i <= |rows| && (i < |rows| ==> rows[i].id == id) && forall j :: 0 <= j < i ==> rows[j].id != id
  {
    if rows == [] then 0 else if rows[0].id == id then 0 else
      assert forall j :: 0 < j < |rows| ==> rows[j] == rows[1..][j - 1];
      1 + IndexOf(rows[1..], id)
  }

  /** Replace the row with the same identifier, or add one. */
  function Upsert(rows: seq<Task>, t: Task): Option<seq<Task>>
  {
    var i := IndexOf(rows, t.id);
    if !ValidTask(t) then None
    else if i < |rows| then Some(rows[i := t])
    else if |rows| >= MAX_ROWS then None
    else Some(rows + [t])
  }

  function UpsertAll(rows: seq<Task>, ts: seq<Task>): Option<seq<Task>>
    decreases |ts|
  {
    if ts == [] then Some(rows)
    else
      var front := UpsertAll(rows, ts[..|ts| - 1]);
      if front.None? then None else Upsert(front.value, ts[|ts| - 1])
  }

  predicate KnownActive(p: Plan, active: Option<nat>)
  {
    active.Some? ==> HasId(p.tasks, active.value) || HasId(p.goals, active.value)
  }

  /** investigation_plan; `None` is an exception. */
  ghost function Saved(p: Plan, patch: Patch): Option<Plan>
  {
    var rows := UpsertAll(Rows(p, patch.collection), patch.records);
    if patch.expected != p.revision || |patch.records| > MAX_PATCH || !patch.fits || rows.None? || !Sortable(rows.value)
       || !KnownActive(WithRows(p, patch.collection, rows.value), patch.active) then None
    else
      var next := WithRows(p, patch.collection, rows.value);
      Some(next.(planned := true, revision := p.revision + 1, active := if patch.active.Some? then patch.active else p.active))
  }

  method FoundId(rows: seq<Task>, id: nat) returns (found: bool)
    ensures found == HasId(rows, id)
  {
    var i := FindRow(rows, id);
    return i < |rows|;
  }

  lemma IndexIsFirst(rows: seq<Task>, id: nat, i: nat)
    requires i <= |rows| && (i < |rows| ==> rows[i].id == id) && forall j :: 0 <= j < i ==> rows[j].id != id
    ensures IndexOf(rows, id) == i
  {
  }

  lemma {:induction false} UpsertAllFails(rows: seq<Task>, ts: seq<Task>, n: nat)
    requires n <= |ts| && UpsertAll(rows, ts[..n]).None?
    ensures UpsertAll(rows, ts).None?
    decreases |ts|
  {
    if n < |ts| {
      assert ts[..|ts| - 1][..n] == ts[..n];
      UpsertAllFails(rows, ts[..|ts| - 1], n);
    } else {
      assert ts[..n] == ts;
    }
  }

  lemma {:induction false} UpsertAllUnique(rows: seq<Task>, ts: seq<Task>)
    requires UniqueIds(rows) && UpsertAll(rows, ts).Some?
    ensures UniqueIds(UpsertAll(rows, ts).value)
    decreases |ts|
  {
    if ts != [] {
      UpsertAllUnique(rows, ts[..|ts| - 1]);
    }
  }

  /** The stored plan: every collection is a closed acyclic graph over distinct identifiers. */
  ghost predicate Good(p: Plan)
  {
    forall c :: UniqueIds(Rows(p, c)) && Sortable(Rows(p, c))
  }

  class Investigation {
    var plan: Plan

    constructor ()
      ensures plan == Initial()
    {
      plan := Initial();
    }

    /** The patched rows of one collection, on a copy. */
    method Patched(rows: seq<Task>, records: seq<Task>) returns (next: Option<seq<Task>>)
      ensures next == UpsertAll(rows, records)
    {
      var copy := rows;
      for n := 0 to |records|
        invariant UpsertAll(rows, records[..n]) == Some(copy)
      {
        assert records[..n + 1][..n] == records[..n];
        var t := records[n];
        var i := FindRow(copy, t.id);
        IndexIsFirst(copy, t.id, i);
        if t.priority < 0 || t.priority > MAX_PRIORITY || |t.deps| > MAX_DEPENDENCIES || (i == |copy| && |copy| >= MAX_ROWS) {
          UpsertAllFails(rows, records, n + 1);
          return None;
        }
        copy := if i == |copy| then copy + [t] else copy[i := t];
      }
      assert records[..|records|] == records;
      return Some(copy);
    }

    /** The patch is saved whole, or nothing changes. */
    method SavePlan(patch: Patch) returns (ok: bool)
      requires Good(plan)
      modifies this
      ensures ok == Saved(old(plan), patch).Some?
      ensures plan == if ok then Saved(old(plan), patch).value else old(plan)
      ensures Good(plan)
    {
      if patch.expected != plan.revision || |patch.records| > MAX_PATCH { return false; }
      var rows := Patched(Rows(plan, patch.collection), patch.records);
      if rows.None? { return false; }
      assert UniqueIds(Rows(plan, patch.collection));
      UpsertAllUnique(Rows(plan, patch.collection), patch.records);
      var order := CheckOrder(rows.value);
      if !order.Fine? { return false; }
      var next := WithRows(plan, patch.collection, rows.value);
      if patch.active.Some? {
        var task := FoundId(next.tasks, patch.active.value);
        var goal := FoundId(next.goals, patch.active.value);
        if !task && !goal { return false; }
        next := next.(active := patch.active);
      }
      next := next.(planned := true, revision := plan.revision + 1);
      if !patch.fits { return false; }
      SavedGood(plan, patch);
      plan := next;
      return true;
    }
  }

  /** investigation_state: five open goals and nothing else. */
  function Initial(): Plan
  {
    Plan(0, false, None, seq(5, i requires 0 <= i < 5 => Task(i, Open, [], 5)), [], [], [])
  }

  lemma SavedGood(p: Plan, patch: Patch)
    requires Good(p) && Saved(p, patch).Some?
    ensures Good(Saved(p, patch).value)
  {
    hide Sortable, UniqueIds, UpsertAll;
    var p' := Saved(p, patch).value;
    assert UniqueIds(Rows(p, patch.collection));
    UpsertAllUnique(Rows(p, patch.collection), patch.records);
    forall c ensures UniqueIds(Rows(p', c)) && Sortable(Rows(p', c))
    {
      assert UniqueIds(Rows(p, c)) && Sortable(Rows(p, c));
    }
  }

  lemma InitialGood()
    ensures Good(Initial())
  {
  }

  /* ---------- the queue ---------- */

  datatype Item = Item(task: Task, score: int)

  function Candidates(p: Plan): seq<Task> { if p.tasks == [] then p.goals else p.tasks }

  predicate SupportedRow(rows: seq<Task>, id: nat)
  {
    exists i :: 0 <= i < |rows| && rows[i].id == id && rows[i].status.Supported?
  }

  /** Open, with every dependency supported. */
  predicate Ready(rows: seq<Task>, t: Task)
  {
    t.status.Open? && forall n :: 0 <= n < |t.deps| ==> SupportedRow(rows, t.deps[n])
  }

  /** Open rows that depend on the identifier. */
  function Dependents(rows: seq<Task>, id: nat): nat
  {
    if rows == [] then 0
    else
      var last := rows[|rows| - 1];
      Dependents(rows[..|rows| - 1], id) + if last.status.Open? && id in last.deps then 1 else 0
  }

  function Score(rows: seq<Task>, t: Task): int
  {
    var n := Dependents(rows, t.id);
    t.priority + if n < MAX_DEPENDENT_SCORE then n else MAX_DEPENDENT_SCORE
  }

  /** The ready rows among the first `n`, in stored order. */
  function ReadyItems(rows: seq<Task>, n: nat): seq<Item>
    requires n <= |rows|
  {
    if n == 0 then []
    else ReadyItems(rows, n - 1) + if Ready(rows, rows[n - 1]) then [Item(rows[n - 1], Score(rows, rows[n - 1]))] else []
  }

  /** Insert behind every item of at least the same score. */
  function Place(s: seq<Item>, x: Item): seq<Item>
  {
    if s != [] && s[|s| - 1].score < x.score then Place(s[..|s| - 1], x) + [s[|s| - 1]] else s + [x]
  }

  /** std::stable_sort by falling score. */
  function StableSort(s: seq<Item>): seq<Item>
  {
    if s == [] then [] else Place(StableSort(s[..|s| - 1]), s[|s| - 1])
  }

  function Drawn(rows: seq<Task>): seq<Item>
  {
    var sorted := StableSort(ReadyItems(rows, |rows|));
    if |sorted| > QUEUE then sorted[..QUEUE] else sorted
  }

  ghost predicate Falling(s: seq<Item>)
  {
    forall i, j :: 0 <= i < j < |s| ==> s[i].score >= s[j].score
  }

  function OfScore(s: seq<Item>, v: int): seq<Item>
  {
    if s == [] then [] else OfScore(s[..|s| - 1], v) + if s[|s| - 1].score == v then [s[|s| - 1]] else []
  }

  lemma {:induction false} PlaceItems(s: seq<Item>, x: Item)
    ensures |Place(s, x)| == |s| + 1
    ensures forall y :: y in Place(s, x) ==> y in s || y == x
    decreases |s|
  {
    if s != [] && s[|s| - 1].score < x.score { PlaceItems(s[..|s| - 1], x); }
  }

  lemma FallingBound(s: seq<Item>, y: Item)
    requires Falling(s) && s != [] && y in s
    ensures y.score >= s[|s| - 1].score
  {
    var k :| 0 <= k < |s| && s[k] == y;
  }

  lemma AppendFalling(r: seq<Item>, last: Item)
    requires Falling(r) && forall y :: y in r ==> y.score >= last.score
    ensures Falling(r + [last])
  {
    var t := r + [last];
    forall i, j | 0 <= i < j < |t| ensures t[i].score >= t[j].score
    {
      if j == |r| { assert t[i] in r; }
    }
  }

  lemma {:induction false} PlaceFalling(s: seq<Item>, x: Item)
    requires Falling(s)
    ensures Falling(Place(s, x))
    decreases |s|
  {
    if s != [] && s[|s| - 1].score < x.score {
      var front, last := s[..|s| - 1], s[|s| - 1];
      PlaceFalling(front, x);
      PlaceItems(front, x);
      forall y | y in Place(front, x) ensures y.score >= last.score
      {
        if y != x { FallingBound(s, y); }
      }
      AppendFalling(Place(front, x), last);
    } else {
      forall y | y in s ensures y.score >= x.score { FallingBound(s, y); }
      AppendFalling(s, x);
    }
  }

  lemma {:induction false} PlaceStable(s: seq<Item>, x: Item, v: int)
    ensures OfScore(Place(s, x), v) == OfScore(s, v) + if x.score == v then [x] else []
    decreases |s|
  {
    if s != [] && s[|s| - 1].score < x.score {
      PlaceStable(s[..|s| - 1], x, v);
    }
  }

  /** The sort orders by falling score, keeps every item, and keeps equal scores in their order. */
  lemma {:induction false} SortIsStable(s: seq<Item>, v: int)
    ensures Falling(StableSort(s)) && |StableSort(s)| == |s| && OfScore(StableSort(s), v) == OfScore(s, v)
    decreases |s|
  {
    if s != [] {
      SortIsStable(s[..|s| - 1], v);
      PlaceItems(StableSort(s[..|s| - 1]), s[|s| - 1]);
      PlaceFalling(StableSort(s[..|s| - 1]), s[|s| - 1]);
      PlaceStable(StableSort(s[..|s| - 1]), s[|s| - 1], v);
    }
  }

  method CountDependents(rows: seq<Task>, id: nat) returns (n: nat)
    ensures n == Dependents(rows, id)
  {
    n := 0;
    for i := 0 to |rows|
      invariant n == Dependents(rows[..i], id)
    {
      assert rows[..i + 1][..i] == rows[..i];
      if rows[i].status.Open? && id in rows[i].deps { n := n + 1; }
    }
    assert rows[..|rows|] == rows;
  }

  method IsReady(rows: seq<Task>, t: Task) returns (ready: bool)
    requires UniqueIds(rows)
    ensures ready == Ready(rows, t)
  {
    if !t.status.Open? { return false; }
    ready := true;
    for n := 0 to |t.deps|
      invariant ready == forall m :: 0 <= m < n ==> SupportedRow(rows, t.deps[m])
    {
      var i := FindRow(rows, t.deps[n]);
      if i == |rows| || !rows[i].status.Supported? { ready := false; }
    }
  }

  lemma NextItem(rows: seq<Task>, i: nat)
    requires i < |rows|
    ensures ReadyItems(rows, i + 1) ==
              ReadyItems(rows, i) + if Ready(rows, rows[i]) then [Item(rows[i], Score(rows, rows[i]))] else []
  {
  }

  lemma NoItems(rows: seq<Task>)
    ensures ReadyItems(rows, 0) == []
  {
  }

  method Queue(p: Plan) returns (total: nat, queue: seq<Item>)
    requires UniqueIds(Candidates(p))
    ensures total == |ReadyItems(Candidates(p), |Candidates(p)|)| && queue == Drawn(Candidates(p))
    ensures p.tasks != [] ==> queue == Drawn(p.tasks)
    ensures p.tasks == [] ==> queue == Drawn(p.goals)
  {
    hide ReadyItems, StableSort, OfScore, Falling, Ready, Dependents;
    var rows := Candidates(p);
    var items: seq<Item> := [];
    NoItems(rows);
    for i := 0 to |rows|
      invariant items == ReadyItems(rows, i)
    {
      var ready := IsReady(rows, rows[i]);
      NextItem(rows, i);
      if ready {
        var dependents := CountDependents(rows, rows[i].id);
        items := items + [Item(rows[i], rows[i].priority + if dependents < MAX_DEPENDENT_SCORE then dependents else MAX_DEPENDENT_SCORE)];
      }
    }
    ghost var sorted := StableSort(items);
    queue := StableSort(items);
    total := |queue|;
    SortIsStable(items, 0);
    while |queue| > QUEUE
      invariant |queue| <= |sorted| && queue == sorted[..|queue|]
      invariant |queue| == |sorted| || |queue| >= QUEUE
    {
      queue := queue[..|queue| - 1];
    }
  }

  /* ---------- there is always work ---------- */

  lemma {:induction false} Pigeonhole(c: seq<nat>, s: set<nat>)
    requires Distinct(c) && forall i :: 0 <= i < |c| ==> c[i] in s
    ensures |c| <= |s|
    decreases |c|
  {
    if c != [] { Pigeonhole(c[..|c| - 1], s - {c[|c| - 1]}); }
  }

  predicate Inside(rows: seq<Task>, s: set<nat>, x: nat) { exists y :: y in s && Edge(rows, x, y) }

  /** Where every member of `s` depends on a member of `s`, walks of any length stay in `s`. */
  lemma {:induction false} LongWalk(rows: seq<Task>, s: set<nat>, a: nat, n: nat) returns (c: seq<nat>)
    requires a in s && forall x :: x in s ==> Inside(rows, s, x)
    ensures |c| == n + 1 && Walk(rows, c) && forall i :: 0 <= i < |c| ==> c[i] in s
    decreases n
  {
    hide Edge, Inside;
    if n == 0 {
      c := [a];
    } else {
      var d := LongWalk(rows, s, a, n - 1);
      var y := Next(rows, s, d[|d| - 1]);
      WalkJoin(rows, d, y);
      c := d + [y];
    }
  }

  lemma Next(rows: seq<Task>, s: set<nat>, x: nat) returns (y: nat)
    requires Inside(rows, s, x)
    ensures y in s && Edge(rows, x, y)
  {
    y :| y in s && Edge(rows, x, y);
  }

  /** A nonempty set of identifiers in an acyclic graph has a member without edges inside the set. */
  lemma HasSink(rows: seq<Task>, s: set<nat>, a: nat)
    requires Acyclic(rows) && a in s
    ensures exists x :: x in s && !Inside(rows, s, x)
  {
    hide Inside, Acyclic, Walk;
    if forall x :: x in s ==> Inside(rows, s, x) {
      var c := LongWalk(rows, s, a, |s|);
      if Distinct(c) {
        Pigeonhole(c, s);
      } else {
        var i, j :| 0 <= i < j < |c| && c[i] == c[j];
        RevisitIsCycle(rows, c, i, j);
      }
    }
  }

  lemma {:induction false} ReadyIsListed(rows: seq<Task>, n: nat, i: nat)
    requires i < n <= |rows| && Ready(rows, rows[i])
    ensures ReadyItems(rows, n) != []
    decreases n
  {
    if i < n - 1 { ReadyIsListed(rows, n - 1, i); }
  }

  /** While rows are only open or supported and one is open, the queue offers work. */
  lemma QueueNotEmpty(rows: seq<Task>, a: nat)
    requires UniqueIds(rows) && Sortable(rows)
    requires forall i :: 0 <= i < |rows| ==> rows[i].status.Open? || rows[i].status.Supported?
    requires a < |rows| && rows[a].status.Open?
    ensures Drawn(rows) != []
  {
    var s := set t | t in rows && t.status.Open? :: t.id;
    assert rows[a] in rows;
    assert rows[a].id in s;
    HasSink(rows, s, rows[a].id);
    var x :| x in s && !Inside(rows, s, x);
    var t :| t in rows && t.status.Open? && t.id == x;
    var i :| 0 <= i < |rows| && rows[i] == t;
    forall n | 0 <= n < |t.deps| ensures SupportedRow(rows, t.deps[n])
    {
      assert Edge(rows, x, t.deps[n]);
      assert HasId(rows, t.deps[n]);
      var j :| 0 <= j < |rows| && rows[j].id == t.deps[n];
      assert rows[j] in rows;
    }
    ReadyIsListed(rows, |rows|, i);
    SortIsStable(ReadyItems(rows, |rows|), 0);
  }
}
