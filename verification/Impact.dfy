/** Reverse dependencies, and what publishing a new revision does to everything else
    (src/knowledge.cpp, impact). */
module Impact {
  import opened Common
  import opened Knowledge
  import opened Freshness

  ghost predicate HeadAt(s: Store, k: nat, id: Id)
  {
    k < |s.log| && id in s.heads && Is(s.log[k], id, s.heads[id])
  }

  predicate Uses(e: Entry, src: Source) { exists n :: 0 <= n < |e.deps| && e.deps[n].source == src }

  /** The head revision of `x` has a dependency on `src`, whatever its pin. */
  ghost predicate DependsOn(s: Store, x: Id, src: Source)
  {
    exists k: nat :: HeadAt(s, k, x) && Uses(s.log[k], src)
  }

  /** Each identifier's head depends on the one before it, the first on `src`. */
  ghost predicate Hops(s: Store, src: Source, p: seq<Id>)
    decreases |p|
  {
    && p != []
    && if |p| == 1 then DependsOn(s, p[0], src)
       else DependsOn(s, p[|p| - 1], Source(Record, p[|p| - 2])) && Hops(s, src, p[..|p| - 1])
  }

  /** `x` is in the reverse closure of `src`. */
  ghost predicate Impacted(s: Store, src: Source, x: Id)
  {
    exists p :: Hops(s, src, p) && p[|p| - 1] == x
  }

  lemma ImpactedStep(s: Store, src: Source, x: Id, y: Id)
    requires Impacted(s, src, x) && DependsOn(s, y, Source(Record, x))
    ensures Impacted(s, src, y)
  {
    var p :| Hops(s, src, p) && p[|p| - 1] == x;
    assert (p + [y])[..|p|] == p;
    assert Hops(s, src, p + [y]);
  }

  lemma ImpactedFirst(s: Store, src: Source, x: Id)
    requires DependsOn(s, x, src)
    ensures Impacted(s, src, x)
  {
    assert Hops(s, src, [x]);
  }

  /** A set that contains every dependent of `src` and of its own members contains the closure. */
  lemma {:induction false} ClosedContains(s: Store, src: Source, rows: seq<Id>, p: seq<Id>)
    requires forall x :: DependsOn(s, x, src) ==> x in rows
    requires forall x, y :: x in rows && DependsOn(s, y, Source(Record, x)) ==> y in rows
    requires Hops(s, src, p)
    ensures p[|p| - 1] in rows
    decreases |p|
  {
    if |p| > 1 { ClosedContains(s, src, rows, p[..|p| - 1]); }
  }

  /* ---------- a new revision of `x` ---------- */

  /** Chains from an old entry are the same after a publication. */
  lemma {:induction false} SameChains(s: Store, s': Store, c: seq<nat>)
    requires WellFormed(s) && WellFormed(s') && s.log <= s'.log && c != [] && c[0] < |s.log|
    ensures Chain(s, c) <==> Chain(s', c)
    ensures Chain(s, c) ==> c[|c| - 1] < |s.log|
    decreases |c|
  {
    hide Keyed, Headed, Backward;
    if |c| > 1 {
      if Pins(s', c[0], c[1]) { PinsGoBack(s', c[0], c[1]); }
      if Pins(s, c[0], c[1]) { PinsGoBack(s, c[0], c[1]); }
      if c[1] < |s.log| { SameChains(s, s', c[1..]); }
    }
  }

  /** An old entry stays in order exactly when it does not use the republished record. */
  lemma SameOrder(s: Store, env: Env, env': Env, p: Proposal, i: nat)
    requires WellFormed(s) && Put(s, env', p).Some? && i < |s.log|
    ensures EntryInOrder(Put(s, env', p).value, env, i) <==> EntryInOrder(s, env, i) && !Uses(s.log[i], Source(Record, p.id))
  {
    hide LeafReasons, ResolveAll;
    var s' := Put(s, env', p).value;
    var e := s.log[i];
    assert s'.log[i] == e;
    forall n | 0 <= n < |e.deps|
      ensures InOrder(s', env, e.deps[n]) <==> InOrder(s, env, e.deps[n]) && e.deps[n].source != Source(Record, p.id)
    {
      if e.deps[n].source == Source(Record, p.id) {
        var k := Pinned(s, i, n);
        assert s.log[k].revision <= s.heads[p.id];
      }
    }
    if EntryInOrder(s', env, i) {
      forall n | 0 <= n < |e.deps| ensures InOrder(s, env, e.deps[n]) && e.deps[n].source != Source(Record, p.id)
      {
        assert InOrder(s', env, e.deps[n]);
      }
    }
    if EntryInOrder(s, env, i) && !Uses(e, Source(Record, p.id)) {
      forall n | 0 <= n < |e.deps| ensures InOrder(s', env, e.deps[n])
      {
        assert InOrder(s, env, e.deps[n]);
      }
    }
  }

  lemma FreshBelow(s: Store, env: Env, i: nat, k: nat)
    requires i < |s.log| && Fresh(s, env, i) && Pins(s, i, k)
    ensures Fresh(s, env, k)
  {
    forall c | Chain(s, c) && c[0] == k && c[|c| - 1] < |s.log| ensures EntryInOrder(s, env, c[|c| - 1])
    {
      assert ([i] + c)[1..] == c;
      assert Chain(s, [i] + c) && ([i] + c)[|[i] + c| - 1] == c[|c| - 1];
    }
  }

  lemma FreshHere(s: Store, env: Env, i: nat)
    requires i < |s.log| && Fresh(s, env, i)
    ensures EntryInOrder(s, env, i)
  {
    assert Chain(s, [i]) && [i][|[i]| - 1] == i;
  }

  /** From a fresh head, a chain that reaches a user of `src` is a path of hops from `src`. */
  lemma {:induction false} ChainImpacts(s: Store, env: Env, src: Source, k: nat, r: Id, c: seq<nat>)
    requires WellFormed(s) && HeadAt(s, k, r) && Fresh(s, env, k)
    requires Chain(s, c) && c[0] == k && c[|c| - 1] < |s.log| && Uses(s.log[c[|c| - 1]], src)
    ensures Impacted(s, src, r)
    decreases |c|
  {
    hide Keyed, Backward, Fresh, Impacted, Uses, LeafReasons;
    if |c| == 1 {
      assert DependsOn(s, r, src);
      ImpactedFirst(s, src, r);
    } else {
      FreshHere(s, env, k);
      FreshBelow(s, env, k, c[1]);
      var n := HeadPinned(s, env, k, c[1]);
      var q := s.log[k].deps[n].source.id;
      assert c[1..][|c[1..]| - 1] == c[|c| - 1];
      ChainImpacts(s, env, src, c[1], q, c[1..]);
      assert Uses(s.log[k], Source(Record, q)) by { UsesAt(s.log[k], n); }
      assert DependsOn(s, r, Source(Record, q));
      ImpactedStep(s, src, q, r);
    }
  }

  lemma UsesAt(e: Entry, n: nat)
    requires n < |e.deps|
    ensures Uses(e, e.deps[n].source)
  {
  }

  /** What an entry in order pins is a head. */
  lemma HeadPinned(s: Store, env: Env, i: nat, k: nat) returns (n: nat)
    requires WellFormed(s) && Pins(s, i, k) && EntryInOrder(s, env, i)
    ensures n < |s.log[i].deps| && s.log[i].deps[n].source.kind.Record? && HeadAt(s, k, s.log[i].deps[n].source.id)
  {
    n := PinsIsPinned(s, i, k);
    assert InOrder(s, env, s.log[i].deps[n]);
  }

  lemma DependsAtHead(s: Store, r: Id, src: Source, k: nat)
    requires WellFormed(s) && HeadAt(s, k, r) && DependsOn(s, r, src)
    ensures Uses(s.log[k], src)
  {
    hide Headed, Backward, Uses;
    var m: nat :| HeadAt(s, m, r) && Uses(s.log[m], src);
  }

  /** An entry in order that uses record `q` pins the head of `q`. */
  lemma UsesHead(s: Store, env: Env, k: nat, q: Id) returns (j: nat)
    requires WellFormed(s) && k < |s.log| && EntryInOrder(s, env, k) && Uses(s.log[k], Source(Record, q))
    ensures Pins(s, k, j) && HeadAt(s, j, q)
  {
    hide Keyed;
    var n :| 0 <= n < |s.log[k].deps| && s.log[k].deps[n].source == Source(Record, q);
    assert InOrder(s, env, s.log[k].deps[n]);
    j := Pinned(s, k, n);
    assert s.log[k].deps[n].pin >= 1;
  }

  lemma SamePins(s: Store, s': Store, i: nat, k: nat)
    requires s.log <= s'.log && Pins(s, i, k)
    ensures Pins(s', i, k)
  {
  }

  /** If the old head `k` of `r` is still fresh afterwards, no path of hops leads from `x` to `r`. */
  lemma {:induction false} NoHops(s: Store, s': Store, env: Env, env': Env, p: Proposal, k: nat, r: Id, path: seq<Id>)
    requires WellFormed(s) && Put(s, env', p) == Some(s') && HeadAt(s, k, r) && s.log <= s'.log && Fresh(s', env, k)
    requires path != [] && path[|path| - 1] == r
    ensures !Hops(s, Source(Record, p.id), path)
    decreases |path|
  {
    hide WellFormed, Fresh, LeafReasons, Put, Uses, Pins, EntryInOrder, DependsOn;
    if Hops(s, Source(Record, p.id), path) {
      FreshHere(s', env, k);
      SameOrder(s, env, env', p, k);
      if |path| == 1 {
        DependsAtHead(s, r, Source(Record, p.id), k);
      } else {
        var q := path[|path| - 2];
        DependsAtHead(s, r, Source(Record, q), k);
        var j := UsesHead(s, env, k, q);
        SamePins(s, s', k, j);
        FreshBelow(s', env, k, j);
        NoHops(s, s', env, env', p, j, q, path[..|path| - 1]);
      }
    }
  }

  /** Publishing a new revision of one record makes exactly the current members of its reverse
      closure non-current: every other head is as current as it was. */
  lemma PublicationImpact(s: Store, env: Env, env': Env, p: Proposal, r: Id, k: nat)
    requires WellFormed(s) && Put(s, env', p).Some? && r != p.id && HeadAt(s, k, r)
    ensures IsCurrent(Put(s, env', p).value, env, k) <==> IsCurrent(s, env, k) && !Impacted(s, Source(Record, p.id), r)
  {
    var s', src := Put(s, env', p).value, Source(Record, p.id);
    PutWellFormed(s, env', p);
    assert Head(s', r) == Head(s, r) && s'.log[k] == s.log[k] && s.log <= s'.log;
    hide Keyed, Headed, Backward, EntryInOrder, Put, Uses;
    if IsCurrent(s', env, k) {
      forall c | Chain(s, c) && c[0] == k && c[|c| - 1] < |s.log| ensures EntryInOrder(s, env, c[|c| - 1])
      {
        SameChains(s, s', c);
        SameOrder(s, env, env', p, c[|c| - 1]);
      }
      forall path | Hops(s, src, path) && path[|path| - 1] == r ensures false
      {
        NoHops(s, s', env, env', p, k, r, path);
      }
    }
    if IsCurrent(s, env, k) && !Impacted(s, src, r) {
      forall c | Chain(s', c) && c[0] == k && c[|c| - 1] < |s'.log| ensures EntryInOrder(s', env, c[|c| - 1])
      {
        SameChains(s, s', c);
        SameOrder(s, env, env', p, c[|c| - 1]);
        if Uses(s.log[c[|c| - 1]], src) { ChainImpacts(s, env, src, k, r, c); }
      }
    }
  }
}
