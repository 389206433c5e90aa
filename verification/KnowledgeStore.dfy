/** The knowledge tables updated in place, and the impact search over them (src/knowledge.cpp). */
module KnowledgeStore {
  import opened Common
  import opened Knowledge
  import opened Impact

  const PAGE := 201
  const MAX_LIMIT := 200

  ghost predicate Sorted(q: seq<Id>)
  {
    forall i, j :: 0 <= i < j < |q| ==> q[i] < q[j]
  }

  /** The first PAGE identifiers, in order, whose head depends on `src`. */
  ghost predicate IsPage(s: Store, src: Source, q: seq<Id>)
  {
    && Sorted(q) && |q| <= 201 && (forall x :: x in q ==> DependsOn(s, x, src))
    && (forall x :: DependsOn(s, x, src) && x !in q ==> |q| == 201 && forall y :: y in q ==> y < x)
  }

  method InsertSorted(q: seq<Id>, x: Id) returns (r: seq<Id>)
    requires Sorted(q)
    ensures Sorted(r) && forall y :: y in r <==> y in q || y == x
  {
    var i := 0;
    while i < |q| && q[i] < x
      invariant i <= |q| && forall j :: 0 <= j < i ==> q[j] < x
    {
      i := i + 1;
    }
    if i < |q| && q[i] == x { return q; }
    r := q[..i] + [x] + q[i..];
  }

  method UsesSource(e: Entry, src: Source) returns (found: bool)
    ensures found == Uses(e, src)
  {
    for n := 0 to |e.deps|
      invariant forall m :: 0 <= m < n ==> e.deps[m].source != src
    {
      if e.deps[n].source == src { return true; }
    }
    return false;
  }

  class Tables {
    var records: seq<Entry>
    var heads: map<Id, nat>

    ghost function Value(): Store
      reads this
    {
      Store(records, heads)
    }

    constructor ()
      ensures Value() == EMPTY
    {
      records, heads := [], map[];
    }

    method ResolveAsks(env: Env, self: Id, asks: seq<Ask>) returns (resolved: Option<seq<Dep>>)
      ensures resolved == ResolveAll(Value(), env, self, asks)
    {
      hide Resolve;
      var deps: seq<Dep> := [];
      for n := 0 to |asks|
        invariant ResolveAll(Value(), env, self, asks[..n]) == Some(deps)
      {
        assert asks[..n + 1][..n] == asks[..n];
        var d := Resolve(Store(records, heads), env, asks[n]);
        if d.None? || d.value.source == Source(Record, self) {
          ResolveFails(Value(), env, self, asks, n + 1);
          return None;
        }
        if d.value !in deps { deps := deps + [d.value]; }
      }
      assert asks[..|asks|] == asks;
      return Some(deps);
    }

    method PutRecord(env: Env, p: Proposal) returns (ok: bool)
      modifies this
      ensures ok == Put(old(Value()), env, p).Some?
      ensures Value() == if ok then Put(old(Value()), env, p).value else old(Value())
    {
      var actual := if p.id in heads then heads[p.id] else 0;
      if p.expected != actual { return false; }
      if |p.dependencies| > MAX_REFS || |p.support| > MAX_REFS || |p.counter| > MAX_REFS { return false; }
      var deps := ResolveAsks(env, p.id, AllAsks(p));
      if deps.None? || |deps.value| > MAX_REFS { return false; }
      records := records + [Entry(p.id, actual + 1, deps.value)];
      heads := heads[p.id := actual + 1];
      return true;
    }

    /** One page of the reverse dependency query. */
    method Query(src: Source) returns (q: seq<Id>)
      requires WellFormed(Value())
      ensures IsPage(Value(), src, q)
    {
      q := [];
      for k := 0 to |records|
        invariant Sorted(q)
        invariant forall x :: x in q <==> exists m: nat :: m < k && HeadAt(Value(), m, x) && Uses(records[m], src)
      {
        var e := records[k];
        if heads[e.id] == e.revision {
          var found := UsesSource(e, src);
          if found { q := InsertSorted(q, e.id); }
        }
      }
      assert forall x :: x in q <==> DependsOn(Value(), x, src);
      if |q| > PAGE { q := q[..PAGE]; }
    }

    /** Impact: a complete answer is exactly the reverse closure, although each query is truncated. */
    method Search(src: Source, limit: nat) returns (rows: seq<Id>, partial: bool)
      requires WellFormed(Value()) && 0 < limit <= MAX_LIMIT
      ensures Distinct(rows) && |rows| <= limit && forall x :: x in rows ==> Impacted(Value(), src, x)
      ensures partial == (|rows| == limit)
      ensures !partial ==> forall x :: x in rows <==> Impacted(Value(), src, x)
    {
      hide DependsOn, Impacted, Keyed, Headed, Backward;
      rows := [];
      var todo := [src];
      var seen: set<Id> := {};
      var pos := 0;
      while pos < |todo| && |rows| < limit
        invariant pos <= |todo| && Distinct(rows) && |rows| <= limit
        invariant |todo| == |rows| + 1 && todo[0] == src
        invariant forall k :: 0 <= k < |rows| ==> todo[k + 1] == Source(Record, rows[k])
        invariant forall x :: x in seen <==> x in rows
        invariant forall x :: x in rows ==> Impacted(Value(), src, x)
        invariant |rows| < limit ==> forall k, x :: 0 <= k < pos && DependsOn(Value(), x, todo[k]) ==> x in rows
        decreases limit - |rows|, |todo| - pos
      {
        var page := Query(todo[pos]);
        ghost var was, queue := rows, todo;
        var i := 0;
        while i < |page| && |rows| < limit
          invariant i <= |page| && Distinct(rows) && |was| <= |rows| <= limit && was <= rows
          invariant pos < |todo| == |rows| + 1 && todo[0] == src && queue <= todo
          invariant forall k :: 0 <= k < |rows| ==> todo[k + 1] == Source(Record, rows[k])
          invariant forall x :: x in seen <==> x in rows
          invariant forall x :: x in rows ==> Impacted(Value(), src, x)
          invariant forall j :: 0 <= j < i ==> page[j] in rows
        {
          var next := page[i];
          if next !in seen {
            FromQueue(Value(), src, todo, rows, pos, next);
            seen := seen + {next};
            todo := todo + [Source(Record, next)];
            rows := rows + [next];
          }
          i := i + 1;
        }
        if |rows| < limit {
          WholePage(Value(), todo[pos], page, rows);
          assert forall k :: 0 <= k < pos ==> todo[k] == queue[k];
          assert forall x :: x in was ==> x in rows;
        }
        pos := pos + 1;
      }
      partial := |rows| == limit;
      if !partial {
        ClosureFound(Value(), src, todo, rows);
      }
    }
  }

  /** Rows that contain every dependent of every queued source are the whole closure. */
  lemma ClosureFound(s: Store, src: Source, todo: seq<Source>, rows: seq<Id>)
    requires |todo| == |rows| + 1 && todo[0] == src && forall k :: 0 <= k < |rows| ==> todo[k + 1] == Source(Record, rows[k])
    requires forall k, x :: 0 <= k < |todo| && DependsOn(s, x, todo[k]) ==> x in rows
    ensures forall x :: Impacted(s, src, x) ==> x in rows
  {
    hide DependsOn;
    forall y, z | y in rows && DependsOn(s, z, Source(Record, y)) ensures z in rows
    {
      var k :| 0 <= k < |rows| && rows[k] == y;
      assert todo[k + 1] == Source(Record, y);
    }
    forall x | Impacted(s, src, x) ensures x in rows
    {
      var p :| Hops(s, src, p) && p[|p| - 1] == x;
      ClosedContains(s, src, rows, p);
    }
  }

  /** A dependent of a queued source is in the closure. */
  lemma FromQueue(s: Store, src: Source, todo: seq<Source>, rows: seq<Id>, pos: nat, x: Id)
    requires pos < |todo| == |rows| + 1 && todo[0] == src && DependsOn(s, x, todo[pos])
    requires forall k :: 0 <= k < |rows| ==> todo[k + 1] == Source(Record, rows[k])
    requires forall y :: y in rows ==> Impacted(s, src, y)
    ensures Impacted(s, src, x)
  {
    if pos == 0 {
      ImpactedFirst(s, src, x);
    } else {
      assert todo[pos - 1 + 1] == Source(Record, rows[pos - 1]);
      ImpactedStep(s, src, rows[pos - 1], x);
    }
  }

  function Members(q: seq<Id>): set<Id> { set x | x in q }

  /** A page whose identifiers are all among fewer than PAGE rows was not truncated. */
  lemma WholePage(s: Store, src: Source, page: seq<Id>, rows: seq<Id>)
    requires IsPage(s, src, page) && |rows| < PAGE && forall j :: 0 <= j < |page| ==> page[j] in rows
    ensures forall x :: DependsOn(s, x, src) ==> x in rows
  {
    hide DependsOn;
    if |page| == PAGE {
      MembersOf(page);
      MembersOf(rows);
      CardinalityAtMost(Members(page), Members(rows));
    }
  }

  lemma MembersStep(front: seq<Id>, last: Id)
    ensures Members(front + [last]) == Members(front) + {last}
  {
  }

  lemma {:induction false} MembersOf(q: seq<Id>)
    ensures |Members(q)| <= |q| && (Sorted(q) ==> |Members(q)| == |q|)
    decreases |q|
  {
    if q != [] {
      var front, last := q[..|q| - 1], q[|q| - 1];
      assert q == front + [last];
      MembersStep(front, last);
      MembersOf(front);
      if Sorted(q) {
        forall x | x in Members(front) ensures x != last { LastGreatest(q, x); }
        assert last !in Members(front);
      }
      hide Members;
      assert |Members(front) + {last}| <= |Members(front)| + 1;
    }
  }

  lemma LastGreatest(q: seq<Id>, x: Id)
    requires q != [] && Sorted(q) && x in q[..|q| - 1]
    ensures x < q[|q| - 1]
  {
    var i :| 0 <= i < |q| - 1 && q[i] == x;
  }

  lemma {:induction false} CardinalityAtMost(a: set<Id>, b: set<Id>)
    requires a <= b
    ensures |a| <= |b|
    decreases |a|
  {
    if a != {} {
      var x :| x in a;
      CardinalityAtMost(a - {x}, b - {x});
    }
  }

  lemma {:induction false} ResolveFails(s: Store, env: Env, self: Id, asks: seq<Ask>, n: nat)
    requires n <= |asks| && ResolveAll(s, env, self, asks[..n]).None?
    ensures ResolveAll(s, env, self, asks).None?
    decreases |asks|
  {
    if n < |asks| {
      assert asks[..|asks| - 1][..n] == asks[..n];
      ResolveFails(s, env, self, asks[..|asks| - 1], n);
    } else {
      assert asks[..n] == asks;
    }
  }
}
