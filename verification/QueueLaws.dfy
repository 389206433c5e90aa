/** What a saved plan holds and what the queue draws from it, told without the functions that compute
    them (src/model_investigation.hpp, investigation_plan and investigation_queue). */
module QueueLaws {
  import opened Common
  import opened Planning
  import opened WorkQueue

  /* ---------- what a patch stores ---------- */

  /** Record `k` is the last one of the patch for its identifier. */
  predicate LastFor(ts: seq<Task>, k: nat, id: nat)
  {
    k < |ts| && ts[k].id == id && forall j :: k < j < |ts| ==> ts[j].id != id
  }

  /** The patched collection: old rows keep their places, each holding the last record for its
      identifier if the patch has one; rows for new identifiers come behind. */
  ghost predicate Patches(rows: seq<Task>, ts: seq<Task>, next: seq<Task>)
  {
    && |rows| <= |next| && UniqueIds(next)
    && (forall i :: 0 <= i < |rows| ==> next[i].id == rows[i].id)
    && (forall id :: HasId(next, id) <==> HasId(rows, id) || HasId(ts, id))
    && (forall i: nat, k: nat :: i < |next| && LastFor(ts, k, next[i].id) ==> next[i] == ts[k])
    && (forall i :: 0 <= i < |rows| && !HasId(ts, rows[i].id) ==> next[i] == rows[i])
  }

  lemma UpsertPatches(rows: seq<Task>, ts: seq<Task>, mid: seq<Task>, t: Task)
    requires Patches(rows, ts, mid) && Upsert(mid, t).Some?
    ensures Patches(rows, ts + [t], Upsert(mid, t).value)
  {
    var next, more := Upsert(mid, t).value, ts + [t];
    var p := IndexOf(mid, t.id);
    assert more[|ts|] == t && forall k :: 0 <= k < |ts| ==> more[k] == ts[k];
    forall id ensures HasId(more, id) <==> HasId(ts, id) || id == t.id {}
    if p < |mid| {
      assert next == mid[p := t];
      forall id ensures HasId(next, id) <==> HasId(mid, id)
      {
        if HasId(mid, id) {
          var i :| 0 <= i < |mid| && mid[i].id == id;
          assert next[i].id == id;
        }
      }
      assert mid[p].id == t.id;
    } else {
      assert next == mid + [t] && next[|mid|] == t;
      forall id ensures HasId(next, id) <==> HasId(mid, id) || id == t.id
      {
        if HasId(mid, id) {
          var i :| 0 <= i < |mid| && mid[i].id == id;
          assert next[i].id == id;
        }
      }
      assert !HasId(mid, t.id);
    }
    hide HasId, Upsert;
    forall i: nat, k: nat | i < |next| && LastFor(more, k, next[i].id) ensures next[i] == more[k]
    {
      if next[i].id == t.id { assert k == |ts|; } else { assert LastFor(ts, k, next[i].id); }
    }
  }

  lemma {:induction false} UpsertAllPatches(rows: seq<Task>, ts: seq<Task>)
    requires UniqueIds(rows) && UpsertAll(rows, ts).Some?
    ensures Patches(rows, ts, UpsertAll(rows, ts).value)
    decreases |ts|
  {
    hide Upsert, Patches;
    if ts == [] {
      NoPatch(rows);
    } else {
      UpsertAllPatches(rows, ts[..|ts| - 1]);
      assert ts == ts[..|ts| - 1] + [ts[|ts| - 1]];
      UpsertPatches(rows, ts[..|ts| - 1], UpsertAll(rows, ts[..|ts| - 1]).value, ts[|ts| - 1]);
    }
  }

  lemma NoPatch(rows: seq<Task>)
    requires UniqueIds(rows)
    ensures Patches(rows, [], rows)
  {
  }

  /** A saved patch changes only its collection, as its records say, and raises the revision. */
  lemma SavedPatches(p: Plan, patch: Patch)
    requires Good(p) && Saved(p, patch).Some?
    ensures var p' := Saved(p, patch).value;
            && Patches(Rows(p, patch.collection), patch.records, Rows(p', patch.collection))
            && (forall c :: c != patch.collection ==> Rows(p', c) == Rows(p, c))
            && p'.revision == p.revision + 1 && p'.planned && p'.active == (if patch.active.Some? then patch.active else p.active)
            && patch.expected == p.revision && |patch.records| <= 32 && patch.fits
            && (patch.active.Some? ==> HasId(p'.tasks, patch.active.value) || HasId(p'.goals, patch.active.value))
            && (forall k :: 0 <= k < |patch.records| ==> 0 <= patch.records[k].priority <= 10 && |patch.records[k].deps| <= 64)
  {
    hide Sortable, Patches, UniqueIds, HasId, UpsertAll;
    assert UniqueIds(Rows(p, patch.collection));
    UpsertAllPatches(Rows(p, patch.collection), patch.records);
    UpsertAllValid(Rows(p, patch.collection), patch.records);
  }

  /** A patch is saved exactly when it continues the current revision, keeps its limits, leaves its
      collection closed and acyclic, and names a saved task or goal as active, if any. */
  lemma SavedExactly(p: Plan, patch: Patch)
    requires Good(p) && |Rows(p, patch.collection)| <= 1024
    ensures Saved(p, patch).Some? <==>
              && patch.expected == p.revision && |patch.records| <= 32 && patch.fits && InBounds(patch.records)
              && |Rows(p, patch.collection)| + |NewIds(Rows(p, patch.collection), patch.records)| <= 1024
              && (exists next :: Patches(Rows(p, patch.collection), patch.records, next) && Acceptable(p, patch, next))
  {
    hide Sortable, Patches, UniqueIds, HasId, UpsertAll, NewIds, InBounds;
    var rows := Rows(p, patch.collection);
    assert UniqueIds(rows);
    StoredExactly(rows, patch.records);
    if UpsertAll(rows, patch.records).Some? {
      UpsertAllPatches(rows, patch.records);
      var next := UpsertAll(rows, patch.records).value;
      forall other | Patches(rows, patch.records, other) ensures Acceptable(p, patch, other) <==> Acceptable(p, patch, next)
      {
        SameRows(rows, patch.records, next, other);
        SameAcceptable(p, patch, next, other);
      }
      KnownIs(p, patch, next);
    }
  }

  /** The patched collection is closed and acyclic, and the active row, if named, is a task or a goal. */
  ghost predicate Acceptable(p: Plan, patch: Patch, next: seq<Task>)
  {
    && Closed(next) && Acyclic(next)
    && (patch.active.Some? ==>
          || HasId(if patch.collection == Tasks then next else p.tasks, patch.active.value)
          || HasId(if patch.collection == Goals then next else p.goals, patch.active.value))
  }

  lemma KnownIs(p: Plan, patch: Patch, next: seq<Task>)
    ensures Acceptable(p, patch, next) <==> Sortable(next) && KnownActive(WithRows(p, patch.collection, next), patch.active)
  {
    hide HasId, Closed, Acyclic;
  }

  /** A patch determines its rows up to the order of the new ones. */
  lemma SameRows(rows: seq<Task>, ts: seq<Task>, a: seq<Task>, b: seq<Task>)
    requires Patches(rows, ts, a) && Patches(rows, ts, b)
    ensures forall t :: t in a <==> t in b
  {
    forall t | t in a ensures t in b { RowIn(rows, ts, a, b, t); }
    forall t | t in b ensures t in a { RowIn(rows, ts, b, a, t); }
  }

  lemma RowIn(rows: seq<Task>, ts: seq<Task>, a: seq<Task>, b: seq<Task>, t: Task)
    requires Patches(rows, ts, a) && Patches(rows, ts, b) && t in a
    ensures t in b
  {
    var i :| 0 <= i < |a| && a[i] == t;
    assert HasId(a, t.id);
    var j :| 0 <= j < |b| && b[j].id == t.id;
    if HasId(ts, t.id) {
      var k := LastOne(ts, t.id);
      assert LastFor(ts, k, a[i].id) && LastFor(ts, k, b[j].id);
      assert a[i] == ts[k] && b[j] == ts[k];
    } else {
      assert HasId(rows, t.id);
      var m :| 0 <= m < |rows| && rows[m].id == t.id;
      assert a[m] == rows[m] && b[m] == rows[m];
      assert m == i && m == j;
    }
  }

  lemma {:induction false} LastOne(ts: seq<Task>, id: nat) returns (k: nat)
    requires HasId(ts, id)
    ensures LastFor(ts, k, id)
    decreases |ts|
  {
    var front := ts[..|ts| - 1];
    if ts[|ts| - 1].id == id {
      k := |ts| - 1;
    } else {
      var i :| 0 <= i < |ts| && ts[i].id == id;
      assert front[i].id == id;
      k := LastOne(front, id);
    }
  }

  lemma SameAcceptable(p: Plan, patch: Patch, a: seq<Task>, b: seq<Task>)
    requires forall t :: t in a <==> t in b
    ensures Acceptable(p, patch, a) <==> Acceptable(p, patch, b)
  {
    SameGraph(a, b);
    SameGraph(b, a);
    hide HasId, Edge;
    forall c | Walk(a, c) ensures Walk(b, c) { SameWalk(a, b, c); }
    forall c | Walk(b, c) ensures Walk(a, c) { SameWalk(b, a, c); }
    hide Walk;
  }

  lemma SameGraph(a: seq<Task>, b: seq<Task>)
    requires forall t :: t in a ==> t in b
    ensures forall id :: HasId(a, id) ==> HasId(b, id)
    ensures forall x, y :: Edge(a, x, y) ==> Edge(b, x, y)
  {
    forall id | HasId(a, id) ensures HasId(b, id)
    {
      var i :| 0 <= i < |a| && a[i].id == id;
      assert a[i] in b;
    }
    forall x, y | Edge(a, x, y) ensures Edge(b, x, y)
    {
      var i :| 0 <= i < |a| && a[i].id == x && y in a[i].deps;
      assert a[i] in b;
    }
  }

  lemma {:induction false} SameWalk(a: seq<Task>, b: seq<Task>, c: seq<nat>)
    requires Walk(a, c) && forall x, y :: Edge(a, x, y) ==> Edge(b, x, y)
    ensures Walk(b, c)
    decreases |c|
  {
    hide Edge;
    if |c| > 1 { SameWalk(a, b, c[1..]); }
  }

  lemma {:induction false} UpsertAllValid(rows: seq<Task>, ts: seq<Task>)
    requires UpsertAll(rows, ts).Some?
    ensures forall k :: 0 <= k < |ts| ==> 0 <= ts[k].priority <= 10 && |ts[k].deps| <= 64
    decreases |ts|
  {
    if ts != [] { UpsertAllValid(rows, ts[..|ts| - 1]); }
  }

  /** How many rows the collection would have. */
  function NewIds(rows: seq<Task>, ts: seq<Task>): set<nat> { set k | 0 <= k < |ts| && !HasId(rows, ts[k].id) :: ts[k].id }

  /** The records are stored exactly when each is within its bounds and the collection keeps to 1024 rows. */
  lemma {:induction false} StoredExactly(rows: seq<Task>, ts: seq<Task>)
    requires |rows| <= 1024
    ensures UpsertAll(rows, ts).Some? <==>
              InBounds(ts) && |rows| + |NewIds(rows, ts)| <= 1024
    ensures UpsertAll(rows, ts).Some? ==> |UpsertAll(rows, ts).value| == |rows| + |NewIds(rows, ts)|
    ensures UpsertAll(rows, ts).Some? ==> forall id :: HasId(UpsertAll(rows, ts).value, id) <==> HasId(rows, id) || HasId(ts, id)
    decreases |ts|
  {
    hide Upsert, HasId, NewIds, InBounds;
    if ts == [] {
      NoneNew(rows);
    } else {
      var front, t := ts[..|ts| - 1], ts[|ts| - 1];
      assert ts == front + [t];
      StoredExactly(rows, front);
      NewIdsMore(rows, front, t);
      BoundsMore(front, t);
      HasMore(front, t);
      if UpsertAll(rows, front).Some? { UpsertRows(UpsertAll(rows, front).value, t); }
    }
  }

  predicate InBounds(ts: seq<Task>) { forall k :: 0 <= k < |ts| ==> 0 <= ts[k].priority <= 10 && |ts[k].deps| <= 64 }

  lemma BoundsMore(front: seq<Task>, t: Task)
    ensures InBounds(front + [t]) <==> InBounds(front) && 0 <= t.priority <= 10 && |t.deps| <= 64
  {
    var ts := front + [t];
    assert ts[|front|] == t && forall k :: 0 <= k < |front| ==> ts[k] == front[k];
  }

  lemma NoneNew(rows: seq<Task>)
    ensures InBounds([]) && NewIds(rows, []) == {} && forall id :: !HasId([], id)
  {
  }

  lemma NewIdsMore(rows: seq<Task>, front: seq<Task>, t: Task)
    ensures NewIds(rows, front + [t]) == if HasId(rows, t.id) then NewIds(rows, front) else NewIds(rows, front) + {t.id}
    ensures |NewIds(rows, front + [t])| == |NewIds(rows, front)| + if HasId(rows, t.id) || HasId(front, t.id) then 0 else 1
  {
    var ts := front + [t];
    hide HasId;
    assert ts[|front|] == t && forall k :: 0 <= k < |front| ==> ts[k] == front[k];
    assert HasId(front, t.id) <==> exists k :: 0 <= k < |front| && front[k].id == t.id by { HasIs(front, t.id); }
    forall id ensures id in NewIds(rows, ts) <==> id in NewIds(rows, front) || (id == t.id && !HasId(rows, t.id))
    {
      if id in NewIds(rows, front) {
        var k :| 0 <= k < |front| && !HasId(rows, front[k].id) && front[k].id == id;
        assert ts[k].id == id;
      }
    }
    assert t.id in NewIds(rows, front) <==> HasId(front, t.id) && !HasId(rows, t.id);
    if t.id in NewIds(rows, front) { assert NewIds(rows, front) + {t.id} == NewIds(rows, front); }
  }

  lemma HasIs(rows: seq<Task>, id: nat)
    ensures HasId(rows, id) <==> exists k :: 0 <= k < |rows| && rows[k].id == id
  {
  }

  lemma HasMore(rows: seq<Task>, t: Task)
    ensures forall id :: HasId(rows + [t], id) <==> HasId(rows, id) || id == t.id
  {
    var more := rows + [t];
    assert more[|rows|] == t && forall k :: 0 <= k < |rows| ==> more[k] == rows[k];
  }

  lemma UpsertRows(rows: seq<Task>, t: Task)
    ensures Upsert(rows, t).Some? <==> 0 <= t.priority <= 10 && |t.deps| <= 64 && (HasId(rows, t.id) || |rows| < 1024)
    ensures Upsert(rows, t).Some? ==> |Upsert(rows, t).value| == |rows| + (if HasId(rows, t.id) then 0 else 1)
    ensures Upsert(rows, t).Some? ==> forall id :: HasId(Upsert(rows, t).value, id) <==> HasId(rows, id) || id == t.id
  {
    var p := IndexOf(rows, t.id);
    assert p < |rows| <==> HasId(rows, t.id);
    if Upsert(rows, t).Some? {
      if p < |rows| {
        forall id ensures HasId(rows[p := t], id) <==> HasId(rows, id)
        {
          if HasId(rows, id) {
            var i :| 0 <= i < |rows| && rows[i].id == id;
            assert rows[p := t][i].id == id;
          }
        }
      } else {
        HasMore(rows, t);
      }
    }
  }

  /* ---------- what the queue holds ---------- */

  /** The open rows that depend on the identifier. */
  function Waiting(rows: seq<Task>, id: nat): set<nat>
  {
    set i | 0 <= i < |rows| && rows[i].status == Open && id in rows[i].deps
  }

  lemma {:induction false} DependentsExactly(rows: seq<Task>, id: nat)
    ensures Dependents(rows, id) == |Waiting(rows, id)|
    decreases |rows|
  {
    if rows != [] {
      var front, n := rows[..|rows| - 1], |rows| - 1;
      DependentsExactly(front, id);
      hide Waiting;
      WaitingMore(front, rows[n], id);
      assert rows == front + [rows[n]];
    }
  }

  lemma WaitingMore(front: seq<Task>, t: Task, id: nat)
    ensures |front| !in Waiting(front, id)
    ensures Waiting(front + [t], id) == Waiting(front, id) + if t.status == Open && id in t.deps then {|front|} else {}
  {
    var rows := front + [t];
    assert rows[|front|] == t && forall i :: 0 <= i < |front| ==> rows[i] == front[i];
  }

  /** Open, and each dependency names a supported row. */
  predicate IsReady(rows: seq<Task>, t: Task)
  {
    t.status == Open && forall n :: 0 <= n < |t.deps| ==> SupportedAt(rows, t.deps[n])
  }

  predicate SupportedAt(rows: seq<Task>, id: nat) { exists i :: 0 <= i < |rows| && rows[i].id == id && rows[i].status == Supported }

  /** The row's priority, plus one for each open row that waits for it, up to ten. */
  predicate Scored(rows: seq<Task>, x: Item)
  {
    x.score == x.task.priority + (if |Waiting(rows, x.task.id)| <= 10 then |Waiting(rows, x.task.id)| else 10)
  }

  /** `idx` lists the ready rows among the first `n` in stored order. */
  ghost predicate ReadyAt(rows: seq<Task>, n: nat, idx: seq<nat>)
    requires n <= |rows|
  {
    && (forall k :: 0 <= k < |idx| ==> idx[k] < n && IsReady(rows, rows[idx[k]]))
    && (forall j, k :: 0 <= j < k < |idx| ==> idx[j] < idx[k])
    && (forall i :: 0 <= i < n && IsReady(rows, rows[i]) ==> i in idx)
  }

  lemma ReadySame(rows: seq<Task>, t: Task)
    ensures Ready(rows, t) <==> IsReady(rows, t)
  {
    forall n | 0 <= n < |t.deps|
      ensures SupportedRow(rows, t.deps[n]) <==> SupportedAt(rows, t.deps[n]) {}
    hide SupportedRow, SupportedAt;
  }

  /** The items are those rows, each with its score. */
  ghost predicate ItemsOf(rows: seq<Task>, idx: seq<nat>, items: seq<Item>)
  {
    |items| == |idx| && forall k :: 0 <= k < |idx| ==> idx[k] < |rows| && items[k].task == rows[idx[k]] && Scored(rows, items[k])
  }

  lemma ReadyMore(rows: seq<Task>, n: nat, idx: seq<nat>)
    requires 0 < n <= |rows| && ReadyAt(rows, n - 1, idx)
    ensures ReadyAt(rows, n, if IsReady(rows, rows[n - 1]) then idx + [n - 1] else idx)
  {
    hide IsReady;
    if IsReady(rows, rows[n - 1]) {
      var more := idx + [n - 1];
      forall k | 0 <= k < |more| ensures more[k] < n && IsReady(rows, rows[more[k]])
      {
        if k < |idx| { assert more[k] == idx[k]; }
      }
      forall j, k | 0 <= j < k < |more| ensures more[j] < more[k]
      {
        assert more[j] == idx[j];
        if k < |idx| { assert more[k] == idx[k]; }
      }
      forall i | 0 <= i < n && IsReady(rows, rows[i]) ensures i in more { InMore(idx, n - 1, i); }
    }
  }

  lemma InMore(idx: seq<nat>, x: nat, i: nat)
    ensures i in idx + [x] <==> i in idx || i == x
  {
  }

  /** The items to rank are exactly the ready rows, each with its score, in stored order. */
  lemma {:induction false} ItemsExactly(rows: seq<Task>, n: nat) returns (idx: seq<nat>)
    requires n <= |rows|
    ensures ReadyAt(rows, n, idx) && ItemsOf(rows, idx, ReadyItems(rows, n))
    decreases n
  {
    hide Ready, IsReady, ReadyAt, ItemsOf, Score;
    if n == 0 {
      idx := [];
      NoneReady(rows);
    } else {
      var was := ItemsExactly(rows, n - 1);
      ReadySame(rows, rows[n - 1]);
      ReadyMore(rows, n, was);
      ItemsMore(rows, was, ReadyItems(rows, n - 1), n - 1);
      idx := if IsReady(rows, rows[n - 1]) then was + [n - 1] else was;
      assert ReadyItems(rows, n - 1) + [] == ReadyItems(rows, n - 1);
    }
  }

  lemma ItemsMore(rows: seq<Task>, idx: seq<nat>, items: seq<Item>, i: nat)
    requires i < |rows| && ItemsOf(rows, idx, items)
    ensures ItemsOf(rows, idx + [i], items + [Item(rows[i], Score(rows, rows[i]))])
  {
    DependentsExactly(rows, rows[i].id);
    hide Waiting, Dependents;
    assert Scored(rows, Item(rows[i], Score(rows, rows[i])));
    hide Scored, Score;
  }

  lemma NoneReady(rows: seq<Task>)
    ensures ReadyAt(rows, 0, []) && ItemsOf(rows, [], [])
  {
  }

  /** The queue offers the best of the ready rows: no ready row that is left out has a higher score
      than one that is offered, and each offered one is ready and scored. */
  lemma DrawnBest(rows: seq<Task>, x: Item, y: Item)
    requires x in Drawn(rows) && y in StableSort(ReadyItems(rows, |rows|)) && y !in Drawn(rows)
    ensures x.score >= y.score && |Drawn(rows)| == 8
  {
    var sorted := StableSort(ReadyItems(rows, |rows|));
    SortIsStable(ReadyItems(rows, |rows|), 0);
    var i :| 0 <= i < |Drawn(rows)| && Drawn(rows)[i] == x;
    var j :| 0 <= j < |sorted| && sorted[j] == y;
    assert forall k :: 0 <= k < |Drawn(rows)| ==> sorted[k] in Drawn(rows);
    assert j >= |Drawn(rows)|;
  }
}
