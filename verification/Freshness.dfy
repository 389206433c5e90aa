/** The bounded freshness search (src/knowledge.cpp, Freshness::check and decorated). */
module Freshness {
  import opened Knowledge

  const MAX_DEPTH := 32
  const MAX_VISITS := 4096
  const MAX_REASONS := 64

  datatype Reason =
    | Revised(dep: Dep)
    | Upstream(dep: Dep, upstream: seq<Reason>)
    | ArtifactUnavailable(dep: Dep)
    | RuntimeChanged(dep: Dep)
    | RuntimeMissing(dep: Dep)
    | AnalysisSuperseded(dep: Dep)
    | ProgramEdited(dep: Dep)
    | TraversalLimit
    | DependencyCycle
    | RecordSuperseded

  datatype Verdict = Current | Stale | Unknown

  /** What is wrong with a dependency that is not a record. */
  function LeafReasons(env: Env, d: Dep): seq<Reason>
  {
    match d.source.kind
    case Artifact => if d.source.id in env.files then [] else [ArtifactUnavailable(d)]
    case Observation => RuntimeReasons(env, d)
    case Epoch => RuntimeReasons(env, d)
    case _ => (if d.pin in env.current then [] else [AnalysisSuperseded(d)]) + (if d.pin in env.edited then [ProgramEdited(d)] else [])
  }

  function RuntimeReasons(env: Env, d: Dep): seq<Reason>
  {
    if d.source !in env.pins then [RuntimeMissing(d)] else if env.pins[d.source] != d.pin then [RuntimeChanged(d)] else []
  }

  /* ---------- the unbounded meaning ---------- */

  /** All that is wrong with the first `n` dependencies of entry `i`, without any limit. */
  ghost function Reasons(s: Store, env: Env, i: nat, n: nat): seq<Reason>
    requires WellFormed(s) && i < |s.log| && n <= |s.log[i].deps|
    decreases i, n
  {
    if n == 0 then [] else Reasons(s, env, i, n - 1) + DepReasons(s, env, i, n - 1)
  }

  ghost function DepReasons(s: Store, env: Env, i: nat, n: nat): seq<Reason>
    requires WellFormed(s) && i < |s.log| && n < |s.log[i].deps|
    decreases i, n, 0
  {
    var d := s.log[i].deps[n];
    if !d.source.kind.Record? then LeafReasons(env, d)
    else
      var k := Pinned(s, i, n);
      var up := Reasons(s, env, k, |s.log[k].deps|);
      (if Head(s, d.source.id) != d.pin then [Revised(d)] else []) + (if up == [] then [] else [Upstream(d, up)])
  }

  ghost function AllReasons(s: Store, env: Env, i: nat): seq<Reason>
    requires WellFormed(s) && i < |s.log|
  {
    Reasons(s, env, i, |s.log[i].deps|)
  }

  /** A source other than a record is as it was: an artifact's file exists, runtime evidence resolves
      to the same pin, and any other pin is a current analysis of a program not edited since. */
  predicate LeafInOrder(env: Env, d: Dep)
  {
    && (d.source.kind.Artifact? ==> d.source.id in env.files)
    && (d.source.kind.Observation? || d.source.kind.Epoch? ==> d.source in env.pins && env.pins[d.source] == d.pin)
    && (d.source.kind.Entity? || d.source.kind.EvidenceRef? || d.source.kind.RevisionRef? ==>
          d.pin in env.current && d.pin !in env.edited)
  }

  /** A dependency is in order: a pinned record is the head, any other source is as it was. */
  ghost predicate InOrder(s: Store, env: Env, d: Dep)
  {
    if d.source.kind.Record? then d.source.id in s.heads && s.heads[d.source.id] == d.pin else LeafInOrder(env, d)
  }

  /** Which reason each violated condition gives. */
  ghost predicate LeafReason(env: Env, d: Dep, r: Reason)
  {
    || (d.source.kind.Artifact? && d.source.id !in env.files && r == ArtifactUnavailable(d))
    || ((d.source.kind.Observation? || d.source.kind.Epoch?) && d.source !in env.pins && r == RuntimeMissing(d))
    || ((d.source.kind.Observation? || d.source.kind.Epoch?) && d.source in env.pins && env.pins[d.source] != d.pin && r == RuntimeChanged(d))
    || ((d.source.kind.Entity? || d.source.kind.EvidenceRef? || d.source.kind.RevisionRef?)
        && ((d.pin !in env.current && r == AnalysisSuperseded(d)) || (d.pin in env.edited && r == ProgramEdited(d))))
  }

  /** The reasons for a leaf are exactly those, each once. */
  lemma LeafExact(env: Env, d: Dep)
    requires !d.source.kind.Record?
    ensures forall r :: r in LeafReasons(env, d) <==> LeafReason(env, d, r)
    ensures LeafReasons(env, d) == [] <==> LeafInOrder(env, d)
    ensures forall i, j :: 0 <= i < j < |LeafReasons(env, d)| ==> LeafReasons(env, d)[i] != LeafReasons(env, d)[j]
  {
  }

  /** What a search reports of a dependency of entry `i`: a moved head, what is wrong upstream, or
      what is wrong with a leaf. */
  ghost predicate Reported(s: Store, env: Env, i: nat, n: nat, r: Reason)
    requires WellFormed(s) && i < |s.log| && n < |s.log[i].deps|
  {
    var d := s.log[i].deps[n];
    if !d.source.kind.Record? then LeafReason(env, d, r)
    else
      var k := Pinned(s, i, n);
      || (r == Revised(d) && !(d.source.id in s.heads && s.heads[d.source.id] == d.pin))
      || (r == Upstream(d, AllReasons(s, env, k)) && !Fresh(s, env, k))
  }

  /** The reasons of an entry are exactly those of its dependencies. */
  lemma {:induction false} ReasonsExact(s: Store, env: Env, i: nat, n: nat, r: Reason)
    requires WellFormed(s) && i < |s.log| && n <= |s.log[i].deps|
    ensures r in Reasons(s, env, i, n) <==> exists m :: 0 <= m < n && Reported(s, env, i, m, r)
    decreases n
  {
    hide DepReasons, Reported, WellFormed;
    if n > 0 {
      ReasonsExact(s, env, i, n - 1, r);
      DepExact(s, env, i, n - 1, r);
      InSum(Reasons(s, env, i, n - 1), DepReasons(s, env, i, n - 1), r);
    }
  }

  lemma InSum(a: seq<Reason>, b: seq<Reason>, r: Reason)
    ensures r in a + b <==> r in a || r in b
  {
  }

  lemma DepExact(s: Store, env: Env, i: nat, n: nat, r: Reason)
    requires WellFormed(s) && i < |s.log| && n < |s.log[i].deps|
    ensures r in DepReasons(s, env, i, n) <==> Reported(s, env, i, n, r)
  {
    hide WellFormed, Fresh;
    if s.log[i].deps[n].source.kind.Record? {
      FreshExact(s, env, Pinned(s, i, n));
      HeadOfPin(s, i, n);
    } else {
      LeafExact(env, s.log[i].deps[n]);
    }
  }

  /** What the answer lists: what is reported of a dependency, and that the entry is not the head. */
  ghost predicate Explains(s: Store, env: Env, i: nat, r: Reason)
    requires WellFormed(s) && i < |s.log|
  {
    || (exists m :: 0 <= m < |s.log[i].deps| && Reported(s, env, i, m, r))
    || (r.RecordSuperseded? && s.heads[s.log[i].id] != s.log[i].revision)
  }

  lemma ReasonsExplain(s: Store, env: Env, i: nat)
    requires WellFormed(s) && i < |s.log|
    ensures forall r :: r in AllReasons(s, env, i) + (if Head(s, s.log[i].id) != s.log[i].revision then [RecordSuperseded] else [])
                        <==> Explains(s, env, i, r)
  {
    assert s.log[i].id in s.heads;
    hide Reasons, Reported, WellFormed;
    forall r ensures r in AllReasons(s, env, i) <==> exists m :: 0 <= m < |s.log[i].deps| && Reported(s, env, i, m, r)
    {
      ReasonsExact(s, env, i, |s.log[i].deps|, r);
    }
  }

  lemma HeadOfPin(s: Store, i: nat, n: nat)
    requires WellFormed(s) && i < |s.log| && n < |s.log[i].deps| && s.log[i].deps[n].source.kind.Record?
    ensures s.log[i].deps[n].source.id in s.heads
  {
    var k := Pinned(s, i, n);
  }

  ghost predicate EntryInOrder(s: Store, env: Env, i: nat)
    requires i < |s.log|
  {
    forall n :: 0 <= n < |s.log[i].deps| ==> InOrder(s, env, s.log[i].deps[n])
  }

  /** Every entry in reach of `i` along pins, `i` included, has all its dependencies in order. */
  ghost predicate Fresh(s: Store, env: Env, i: nat)
    requires i < |s.log|
  {
    forall c :: Chain(s, c) && c[0] == i && c[|c| - 1] < |s.log| ==> EntryInOrder(s, env, c[|c| - 1])
  }

  /** Current: nothing in reach has moved on, and the entry itself is the head. */
  ghost predicate IsCurrent(s: Store, env: Env, i: nat)
    requires i < |s.log|
  {
    Fresh(s, env, i) && s.log[i].id in s.heads && s.heads[s.log[i].id] == s.log[i].revision
  }

  lemma {:induction false} NoReasons(s: Store, env: Env, i: nat, n: nat)
    requires WellFormed(s) && i < |s.log| && n <= |s.log[i].deps|
    ensures Reasons(s, env, i, n) == [] <==> forall m :: 0 <= m < n ==> DepReasons(s, env, i, m) == []
    decreases n
  {
    hide WellFormed, DepReasons;
    if n > 0 {
      NoReasons(s, env, i, n - 1);
      assert |Reasons(s, env, i, n)| == |Reasons(s, env, i, n - 1)| + |DepReasons(s, env, i, n - 1)|;
    }
  }

  lemma PinsIsPinned(s: Store, i: nat, k: nat) returns (n: nat)
    requires WellFormed(s) && Pins(s, i, k)
    ensures n < |s.log[i].deps| && s.log[i].deps[n].source.kind.Record? && Pinned(s, i, n) == k
  {
    hide Headed, Backward;
    n :| 0 <= n < |s.log[i].deps| && s.log[i].deps[n].source.kind.Record? && Is(s.log[k], s.log[i].deps[n].source.id, s.log[i].deps[n].pin);
  }

  /** The recursion finds nothing exactly when everything in reach is in order. */
  lemma {:induction false} FreshExact(s: Store, env: Env, i: nat)
    requires WellFormed(s) && i < |s.log|
    ensures AllReasons(s, env, i) == [] <==> Fresh(s, env, i)
    decreases i, 1
  {
    NoReasons(s, env, i, |s.log[i].deps|);
    if AllReasons(s, env, i) == [] {
      forall n | 0 <= n < |s.log[i].deps| ensures InOrder(s, env, s.log[i].deps[n])
      {
        assert DepReasons(s, env, i, n) == [];
        DepInOrder(s, env, i, n);
      }
      forall c | Chain(s, c) && c[0] == i && c[|c| - 1] < |s.log| ensures EntryInOrder(s, env, c[|c| - 1])
      {
        ChainInOrder(s, env, i, c);
      }
    }
    if Fresh(s, env, i) {
      assert Chain(s, [i]) && [i][|[i]| - 1] == i;
      forall n | 0 <= n < |s.log[i].deps| ensures DepReasons(s, env, i, n) == [] { FreshDep(s, env, i, n); }
    }
  }

  lemma DepInOrder(s: Store, env: Env, i: nat, n: nat)
    requires WellFormed(s) && i < |s.log| && n < |s.log[i].deps| && DepReasons(s, env, i, n) == []
    ensures InOrder(s, env, s.log[i].deps[n])
  {
    hide WellFormed;
    if s.log[i].deps[n].source.kind.Record? { HeadOfPin(s, i, n); } else { LeafExact(env, s.log[i].deps[n]); }
  }

  lemma ChainInOrder(s: Store, env: Env, i: nat, c: seq<nat>)
    requires WellFormed(s) && i < |s.log| && AllReasons(s, env, i) == [] && EntryInOrder(s, env, i)
    requires Chain(s, c) && c[0] == i && c[|c| - 1] < |s.log|
    ensures EntryInOrder(s, env, c[|c| - 1])
    decreases i, 0
  {
    hide WellFormed, EntryInOrder, Pins;
    if |c| > 1 {
      NoReasons(s, env, i, |s.log[i].deps|);
      var n := PinsIsPinned(s, i, c[1]);
      assert DepReasons(s, env, i, n) == [];
      FreshExact(s, env, c[1]);
      assert c[1..][|c[1..]| - 1] == c[|c| - 1];
    }
  }

  lemma FreshDep(s: Store, env: Env, i: nat, n: nat)
    requires WellFormed(s) && i < |s.log| && n < |s.log[i].deps| && Fresh(s, env, i)
    ensures DepReasons(s, env, i, n) == []
    decreases i, 0
  {
    hide Keyed, Headed, Backward;
    assert Chain(s, [i]) && [i][|[i]| - 1] == i;
    assert InOrder(s, env, s.log[i].deps[n]);
    if s.log[i].deps[n].source.kind.Record? {
      var k := Pinned(s, i, n);
      assert Pins(s, i, k);
      forall c | Chain(s, c) && c[0] == k && c[|c| - 1] < |s.log| ensures EntryInOrder(s, env, c[|c| - 1])
      {
        assert ([i] + c)[1..] == c;
        assert Chain(s, [i] + c) && ([i] + c)[|[i] + c| - 1] == c[|c| - 1];
      }
      FreshExact(s, env, k);
    }
  }

  /* ---------- what the traversal spends ---------- */

  /** Calls of check made below entry `i` for its first `n` dependencies. */
  ghost function Visits(s: Store, i: nat, n: nat): nat
    requires WellFormed(s) && i < |s.log| && n <= |s.log[i].deps|
    decreases i, n
  {
    if n == 0 then 0
    else if !s.log[i].deps[n - 1].source.kind.Record? then Visits(s, i, n - 1)
    else var k := Pinned(s, i, n - 1); Visits(s, i, n - 1) + 1 + Visits(s, k, |s.log[k].deps|)
  }

  /** The longest chain of pins below entry `i` through its first `n` dependencies. */
  ghost function Height(s: Store, i: nat, n: nat): nat
    requires WellFormed(s) && i < |s.log| && n <= |s.log[i].deps|
    decreases i, n
  {
    if n == 0 then 0
    else if !s.log[i].deps[n - 1].source.kind.Record? then Height(s, i, n - 1)
    else
      var k := Pinned(s, i, n - 1);
      var h := 1 + Height(s, k, |s.log[k].deps|);
      if h > Height(s, i, n - 1) then h else Height(s, i, n - 1)
  }

  /** No entry met on the way collects as many as 64 reasons. */
  ghost predicate Few(s: Store, env: Env, i: nat, n: nat)
    requires WellFormed(s) && i < |s.log| && n <= |s.log[i].deps|
    decreases i, n
  {
    && |Reasons(s, env, i, n)| < 64
    && (n > 0 ==>
      && Few(s, env, i, n - 1)
      && (s.log[i].deps[n - 1].source.kind.Record? ==>
            var k := Pinned(s, i, n - 1);
            Few(s, env, k, |s.log[k].deps|)))
  }

  /** The first `n` dependencies of `i` can be searched within all limits, after `v` visits, at `depth`. */
  ghost predicate Within(s: Store, env: Env, i: nat, n: nat, v: nat, depth: nat)
    requires WellFormed(s) && i < |s.log| && n <= |s.log[i].deps|
  {
    v + 1 + Visits(s, i, n) <= 4096 && depth + Height(s, i, n) <= 32 && Few(s, env, i, n)
  }

  ghost predicate Searchable(s: Store, env: Env, i: nat)
    requires WellFormed(s) && i < |s.log|
  {
    Within(s, env, i, |s.log[i].deps|, 0, 0)
  }

  /** One more dependency: its own subtree must fit in what is left, and the reasons stay few. */
  lemma WithinStep(s: Store, env: Env, i: nat, n: nat, v: nat, depth: nat)
    requires WellFormed(s) && i < |s.log| && n < |s.log[i].deps|
    ensures Within(s, env, i, n + 1, v, depth) <==>
              && Within(s, env, i, n, v, depth) && |Reasons(s, env, i, n + 1)| < MAX_REASONS
              && (s.log[i].deps[n].source.kind.Record? ==>
                    var k := Pinned(s, i, n);
                    Within(s, env, k, |s.log[k].deps|, v + 1 + Visits(s, i, n), depth + 1))
  {
    hide WellFormed, Reasons;
  }

  lemma WithinNone(s: Store, env: Env, i: nat, v: nat, depth: nat)
    requires WellFormed(s) && i < |s.log|
    ensures Within(s, env, i, 0, v, depth) <==> v + 1 <= MAX_VISITS && depth <= MAX_DEPTH
    ensures Reasons(s, env, i, 0) == [] && Visits(s, i, 0) == 0
  {
  }

  lemma Unfold(s: Store, env: Env, i: nat, n: nat)
    requires WellFormed(s) && i < |s.log| && n < |s.log[i].deps|
    ensures var d := s.log[i].deps[n];
            if d.source.kind.Record? then
              var k := Pinned(s, i, n);
              && Reasons(s, env, i, n + 1) == Reasons(s, env, i, n) + (if Head(s, d.source.id) != d.pin then [Revised(d)] else [])
                   + (if AllReasons(s, env, k) == [] then [] else [Upstream(d, AllReasons(s, env, k))])
              && Visits(s, i, n + 1) == Visits(s, i, n) + 1 + Visits(s, k, |s.log[k].deps|)
            else Reasons(s, env, i, n + 1) == Reasons(s, env, i, n) + LeafReasons(env, d) && Visits(s, i, n + 1) == Visits(s, i, n)
  {
    hide WellFormed;
  }

  lemma {:induction false} WithinMonotone(s: Store, env: Env, i: nat, n: nat, m: nat, v: nat, depth: nat)
    requires WellFormed(s) && i < |s.log| && n <= m <= |s.log[i].deps| && Within(s, env, i, m, v, depth)
    ensures Within(s, env, i, n, v, depth)
    decreases m - n
  {
    if n < m {
      WithinStep(s, env, i, m - 1, v, depth);
      WithinMonotone(s, env, i, n, m - 1, v, depth);
    }
  }

  /* ---------- the search ---------- */

  class Search {
    const s: Store
    const env: Env
    var visited: nat
    var bounded: bool
    var active: set<(Id, nat)>

    constructor (s: Store, env: Env)
      ensures this.s == s && this.env == env && visited == 0 && !bounded && active == {}
    {
      this.s, this.env := s, env;
      visited, bounded, active := 0, false, {};
    }

    /** Everything on the path to entry `i` was stored after it. */
    ghost predicate Above(i: nat)
      requires i < |s.log|
      reads this
    {
      forall a :: a in active ==> exists k :: i < k < |s.log| && Is(s.log[k], a.0, a.1)
    }

    method Load(id: Id, revision: nat, ghost k: nat) returns (i: nat)
      requires WellFormed(s) && k < |s.log| && Is(s.log[k], id, revision)
      ensures i == k
    {
      i := 0;
      while !(s.log[i].id == id && s.log[i].revision == revision)
        invariant i <= k
        decreases k - i
      {
        i := i + 1;
      }
    }

    /** Either every limit held, and the answer is exact, or the search says that it was bounded.
        The cycle test never succeeds. */
    method Check(i: nat, depth: nat) returns (reasons: seq<Reason>)
      requires WellFormed(s) && i < |s.log| && Above(i)
      modifies this
      ensures active == old(active)
      ensures bounded == (old(bounded) || !Within(s, env, i, |s.log[i].deps|, old(visited), depth))
      ensures Within(s, env, i, |s.log[i].deps|, old(visited), depth) ==>
                reasons == AllReasons(s, env, i) && visited == old(visited) + 1 + Visits(s, i, |s.log[i].deps|)
      ensures Within(s, env, i, |s.log[i].deps|, old(visited), depth) ==> (reasons == [] <==> Fresh(s, env, i))
      decreases i
    {
      hide Within, Fresh, Reasons, Visits, LeafReasons, Head, Backward;
      FreshExact(s, env, i);
      WithinNone(s, env, i, visited, depth);
      if Within(s, env, i, |s.log[i].deps|, visited, depth) { WithinMonotone(s, env, i, 0, |s.log[i].deps|, visited, depth); }
      reasons := [];
      if depth > MAX_DEPTH { bounded := true; return [TraversalLimit]; }
      visited := visited + 1;
      if visited > MAX_VISITS { bounded := true; return [TraversalLimit]; }
      var key := (s.log[i].id, s.log[i].revision);
      if key in active {
        assert false;
      }
      active := active + {key};
      var deps := s.log[i].deps;
      var n := 0;
      while n < |deps|
        invariant n <= |deps| && active == old(active) + {key}
        invariant bounded == (old(bounded) || !Within(s, env, i, n, old(visited), depth))
        invariant Within(s, env, i, n, old(visited), depth) ==>
                    reasons == Reasons(s, env, i, n) && visited == old(visited) + 1 + Visits(s, i, n)
      {
        var d := deps[n];
        WithinStep(s, env, i, n, old(visited), depth);
        Unfold(s, env, i, n);
        if d.source.kind.Record? {
          if Head(s, d.source.id) != d.pin { reasons := reasons + [Revised(d)]; }
          var k := Load(d.source.id, d.pin, Pinned(s, i, n));
          var upstream := Check(k, depth + 1);
          if upstream != [] { reasons := reasons + [Upstream(d, upstream)]; }
        } else {
          reasons := reasons + LeafReasons(env, d);
        }
        n := n + 1;
        if |reasons| >= MAX_REASONS {
          bounded := true;
          if Within(s, env, i, |deps|, old(visited), depth) { WithinMonotone(s, env, i, n, |deps|, old(visited), depth); }
          break;
        }
      }
      active := active - {key};
    }

    /** decorated: the verdict is exact, except that "unknown" is answered precisely when some limit
        of the search would be passed. */
    method Decorate(i: nat) returns (verdict: Verdict, reasons: seq<Reason>)
      requires WellFormed(s) && i < |s.log| && visited == 0 && !bounded && active == {}
      modifies this
      ensures verdict == Unknown <==> !Searchable(s, env, i)
      ensures verdict == Current <==> Searchable(s, env, i) && IsCurrent(s, env, i)
      ensures Searchable(s, env, i) ==>
                reasons == AllReasons(s, env, i) + if Head(s, s.log[i].id) != s.log[i].revision then [RecordSuperseded] else []
      ensures Searchable(s, env, i) ==> forall r :: r in reasons <==> Explains(s, env, i, r)
    {
      reasons := Check(i, 0);
      assert s.log[i].id in s.heads;
      if Searchable(s, env, i) { ReasonsExplain(s, env, i); }
      if Head(s, s.log[i].id) != s.log[i].revision { reasons := reasons + [RecordSuperseded]; }
      verdict := if bounded then Unknown else if reasons == [] then Current else Stale;
    }
  }
}
