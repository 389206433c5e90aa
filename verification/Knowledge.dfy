/** The append-only knowledge store: records, revisions and pinned dependencies of one project
    (src/knowledge.cpp). */
module Knowledge {
  import opened Common

  type Id = nat

  const MAX_REFS := 128

  datatype Kind = Record | Artifact | Entity | EvidenceRef | RevisionRef | Observation | Epoch

  datatype Source = Source(kind: Kind, id: Id)

  /** A dependency as stored: `pin` is a record revision, or what the source resolved to. */
  datatype Dep = Dep(source: Source, pin: nat)

  /** A dependency as requested: a caller may state the pin it expects. */
  datatype Ask = Ask(source: Source, pin: Option<nat>)

  datatype Entry = Entry(id: Id, revision: nat, deps: seq<Dep>)

  /** `log` is the record table in insertion order; `heads` the current revision of each identifier. */
  datatype Store = Store(log: seq<Entry>, heads: map<Id, nat>)

  /** Everything outside the store: what each other source resolves to now (absent when it is unknown
      or corrupt), stored artifact files, current analysis revisions, and revisions whose live
      program has been edited since. */
  datatype Env = Env(pins: map<Source, nat>, files: set<Id>, current: set<nat>, edited: set<nat>)

  datatype Proposal = Proposal(id: Id, expected: nat, dependencies: seq<Ask>, support: seq<Id>, counter: seq<Id>, scope: seq<Ask>)

  const EMPTY := Store([], map[])

  /* ---------- publishing ---------- */

  function Head(s: Store, id: Id): nat { if id in s.heads then s.heads[id] else 0 }

  /** resolve: the pin a dependency gets now, unless the caller expected another. */
  function Resolve(s: Store, env: Env, a: Ask): Option<Dep>
  {
    var pin := if a.source.kind.Record? then (if a.source.id in s.heads then Some(s.heads[a.source.id]) else None)
               else if a.source in env.pins then Some(env.pins[a.source]) else None;
    if pin.None? || (a.pin.Some? && a.pin != pin) then None else Some(Dep(a.source, pin.value))
  }

  /** All dependencies, each once; depending on one's own identifier is an error. */
  function ResolveAll(s: Store, env: Env, self: Id, asks: seq<Ask>): Option<seq<Dep>>
    decreases |asks|
  {
    if asks == [] then Some([])
    else
      var front := ResolveAll(s, env, self, asks[..|asks| - 1]);
      var d := Resolve(s, env, asks[|asks| - 1]);
      if front.None? || d.None? || d.value.source == Source(Record, self) then None
      else if d.value in front.value then front else Some(front.value + [d.value])
  }

  function EvidenceAsks(ids: seq<Id>): seq<Ask>
  {
    seq(|ids|, i requires 0 <= i < |ids| => Ask(Source(EvidenceRef, ids[i]), None))
  }

  function AllAsks(p: Proposal): seq<Ask>
  {
    p.dependencies + EvidenceAsks(p.support) + EvidenceAsks(p.counter) + p.scope
  }

  /** knowledge_put. */
  function Put(s: Store, env: Env, p: Proposal): Option<Store>
  {
    if p.expected != Head(s, p.id) || |p.dependencies| > MAX_REFS || |p.support| > MAX_REFS || |p.counter| > MAX_REFS then None
    else
      var deps := ResolveAll(s, env, p.id, AllAsks(p));
      if deps.None? || |deps.value| > MAX_REFS then None
      else Some(Store(s.log + [Entry(p.id, p.expected + 1, deps.value)], s.heads[p.id := p.expected + 1]))
  }

  /** The store after a sequence of attempted publications, each in its own environment. */
  function Published(ps: seq<(Env, Proposal)>): Store
    decreases |ps|
  {
    if ps == [] then EMPTY
    else
      var before := Published(ps[..|ps| - 1]);
      var after := Put(before, ps[|ps| - 1].0, ps[|ps| - 1].1);
      if after.Some? then after.value else before
  }

  /* ---------- reachable stores have acyclic pins ---------- */

  predicate Is(e: Entry, id: Id, revision: nat) { e.id == id && e.revision == revision }

  /** The pinned revision was stored before entry `i`. */
  predicate PinnedBefore(log: seq<Entry>, i: nat, d: Dep)
    requires i <= |log|
  {
    d.source.kind.Record? ==> exists k :: 0 <= k < i && Is(log[k], d.source.id, d.pin)
  }

  /** (id, revision) is a key of the record table. */
  ghost predicate Keyed(s: Store)
  {
    forall i, j :: 0 <= i < j < |s.log| ==> !(s.log[i].id == s.log[j].id && s.log[i].revision == s.log[j].revision)
  }

  /** A head is the newest stored revision of its identifier. */
  ghost predicate Headed(s: Store)
  {
    && (forall i :: 0 <= i < |s.log| ==> s.log[i].id in s.heads && 1 <= s.log[i].revision <= s.heads[s.log[i].id])
    && (forall id :: id in s.heads ==> exists k :: 0 <= k < |s.log| && Is(s.log[k], id, s.heads[id]))
  }

  ghost predicate Backward(s: Store)
  {
    forall i, n :: 0 <= i < |s.log| && 0 <= n < |s.log[i].deps| ==> PinnedBefore(s.log, i, s.log[i].deps[n])
  }

  ghost predicate WellFormed(s: Store)
  {
    Keyed(s) && Headed(s) && Backward(s)
  }

  lemma {:induction false} ResolvedPins(s: Store, env: Env, self: Id, asks: seq<Ask>)
    requires WellFormed(s) && ResolveAll(s, env, self, asks).Some?
    ensures var ds := ResolveAll(s, env, self, asks).value;
            forall n :: 0 <= n < |ds| ==>
              PinnedBefore(s.log, |s.log|, ds[n]) && ds[n].source != Source(Record, self)
              && (ds[n].source.kind.Record? ==> ds[n].source.id in s.heads && s.heads[ds[n].source.id] == ds[n].pin)
    decreases |asks|
  {
    if asks != [] { ResolvedPins(s, env, self, asks[..|asks| - 1]); }
  }

  lemma PutHeaded(s: Store, env: Env, p: Proposal)
    requires Keyed(s) && Headed(s) && Put(s, env, p).Some?
    ensures Keyed(Put(s, env, p).value) && Headed(Put(s, env, p).value)
  {
    hide ResolveAll;
    var s' := Put(s, env, p).value;
    assert Is(s'.log[|s.log|], p.id, p.expected + 1);
    forall id | id in s'.heads ensures exists k :: 0 <= k < |s'.log| && Is(s'.log[k], id, s'.heads[id])
    {
      if id != p.id {
        var k :| 0 <= k < |s.log| && Is(s.log[k], id, s.heads[id]);
        assert Is(s'.log[k], id, s'.heads[id]);
      }
    }
  }

  lemma PutBackward(s: Store, env: Env, p: Proposal)
    requires WellFormed(s) && Put(s, env, p).Some?
    ensures Backward(Put(s, env, p).value)
  {
    hide ResolveAll, Keyed, Headed;
    var s' := Put(s, env, p).value;
    ResolvedPins(s, env, p.id, AllAsks(p));
    forall i, n | 0 <= i < |s'.log| && 0 <= n < |s'.log[i].deps| ensures PinnedBefore(s'.log, i, s'.log[i].deps[n])
    {
      assert PinnedBefore(s.log, i, s'.log[i].deps[n]);
      SamePinnedBefore(s.log, s'.log, i, s'.log[i].deps[n]);
    }
  }

  lemma SamePinnedBefore(log: seq<Entry>, log': seq<Entry>, i: nat, d: Dep)
    requires i <= |log| && log <= log' && PinnedBefore(log, i, d)
    ensures PinnedBefore(log', i, d)
  {
    if d.source.kind.Record? {
      var k :| 0 <= k < i && Is(log[k], d.source.id, d.pin);
      assert Is(log'[k], d.source.id, d.pin);
    }
  }

  lemma PutWellFormed(s: Store, env: Env, p: Proposal)
    requires WellFormed(s) && Put(s, env, p).Some?
    ensures WellFormed(Put(s, env, p).value)
  {
    hide Put, Keyed, Headed, Backward;
    PutHeaded(s, env, p);
    PutBackward(s, env, p);
  }

  /** In every reachable store pins only point backwards in time, so no chain of pins is a cycle. */
  lemma {:induction false} PublishedWellFormed(ps: seq<(Env, Proposal)>)
    ensures WellFormed(Published(ps))
    decreases |ps|
  {
    hide WellFormed, Put;
    if ps == [] {
      EmptyWellFormed();
    } else {
      PublishedWellFormed(ps[..|ps| - 1]);
      var before := Published(ps[..|ps| - 1]);
      if Put(before, ps[|ps| - 1].0, ps[|ps| - 1].1).Some? { PutWellFormed(before, ps[|ps| - 1].0, ps[|ps| - 1].1); }
    }
  }

  lemma EmptyWellFormed()
    ensures WellFormed(EMPTY)
  {
  }

  /** The entry a pin names. */
  ghost function Pinned(s: Store, i: nat, n: nat): (k: nat)
    requires WellFormed(s) && i < |s.log| && n < |s.log[i].deps| && s.log[i].deps[n].source.kind.Record?
    ensures k < i && Is(s.log[k], s.log[i].deps[n].source.id, s.log[i].deps[n].pin)
  {
    var d := s.log[i].deps[n];
    assert PinnedBefore(s.log, i, d);
    var k :| 0 <= k < i && Is(s.log[k], d.source.id, d.pin);
    k
  }

  /** One entry pins another. */
  ghost predicate Pins(s: Store, i: nat, k: nat)
  {
    && i < |s.log| && k < |s.log|
    && exists n :: 0 <= n < |s.log[i].deps| && s.log[i].deps[n].source.kind.Record? && Is(s.log[k], s.log[i].deps[n].source.id, s.log[i].deps[n].pin)
  }

  /** A chain of pins through the log. */
  ghost predicate Chain(s: Store, c: seq<nat>)
    decreases |c|
  {
    c != [] && (|c| > 1 ==> Pins(s, c[0], c[1]) && Chain(s, c[1..]))
  }

  lemma PinsGoBack(s: Store, i: nat, k: nat)
    requires WellFormed(s) && Pins(s, i, k)
    ensures k < i
  {
    hide Headed, Backward;
    var n :| 0 <= n < |s.log[i].deps| && s.log[i].deps[n].source.kind.Record? && Is(s.log[k], s.log[i].deps[n].source.id, s.log[i].deps[n].pin);
    assert Pinned(s, i, n) == k;
  }

  /** No chain of pins returns to where it started. */
  lemma {:induction false} PinsAcyclic(s: Store, c: seq<nat>)
    requires WellFormed(s) && Chain(s, c) && |c| > 1
    ensures c[|c| - 1] < c[0]
    decreases |c|
  {
    hide WellFormed, Pins;
    PinsGoBack(s, c[0], c[1]);
    if |c| > 2 { PinsAcyclic(s, c[1..]); }
  }

  /* ---------- what a publication stores ---------- */

  /** What a source resolves to when the record is published. */
  predicate ResolvesTo(s: Store, env: Env, source: Source, pin: nat)
  {
    if source.kind.Record? then source.id in s.heads && s.heads[source.id] == pin
    else source in env.pins && env.pins[source] == pin
  }

  predicate AskedIn(asks: seq<Ask>, source: Source) { exists i :: 0 <= i < |asks| && asks[i].source == source }

  /** The request names the source: as a dependency, in its scope, or as evidence for or against. */
  predicate Named(p: Proposal, source: Source)
  {
    || AskedIn(p.dependencies, source) || AskedIn(p.scope, source)
    || (source.kind.EvidenceRef? && (source.id in p.support || source.id in p.counter))
  }

  /** The asks resolve, each to the pin that it states if it states one. */
  ghost predicate AllResolve(s: Store, env: Env, asks: seq<Ask>)
  {
    forall i :: 0 <= i < |asks| ==> Resolvable(s, env, asks[i])
  }

  ghost predicate Resolvable(s: Store, env: Env, a: Ask)
  {
    exists v :: ResolvesTo(s, env, a.source, v) && (a.pin.Some? ==> a.pin.value == v)
  }

  lemma ResolveExact(s: Store, env: Env, a: Ask)
    ensures Resolve(s, env, a).Some? <==> Resolvable(s, env, a)
    ensures Resolve(s, env, a).Some? ==> Resolve(s, env, a).value.source == a.source && ResolvesTo(s, env, a.source, Resolve(s, env, a).value.pin)
  {
    if Resolve(s, env, a).Some? { assert ResolvesTo(s, env, a.source, Resolve(s, env, a).value.pin); }
  }

  /** Every source once, pinned to what it resolves to. */
  ghost predicate Pinning(s: Store, env: Env, ds: seq<Dep>, sources: set<Source>)
  {
    && (forall d :: d in ds <==> d.source in sources && ResolvesTo(s, env, d.source, d.pin))
    && (forall i, j :: 0 <= i < j < |ds| ==> ds[i].source != ds[j].source)
    && |ds| == |sources|
  }

  function Sources(asks: seq<Ask>): set<Source> { set i | 0 <= i < |asks| :: asks[i].source }

  lemma {:induction false} ResolveAllExact(s: Store, env: Env, self: Id, asks: seq<Ask>)
    ensures ResolveAll(s, env, self, asks).Some? <==> AllResolve(s, env, asks) && !AskedIn(asks, Source(Record, self))
    ensures ResolveAll(s, env, self, asks).Some? ==> Pinning(s, env, ResolveAll(s, env, self, asks).value, Sources(asks))
    decreases |asks|
  {
    hide Resolve, ResolvesTo, Resolvable, Pinning, Sources;
    if asks == [] {
      NoPins(s, env);
    } else {
      var front, last := asks[..|asks| - 1], asks[|asks| - 1];
      assert asks == front + [last];
      ResolveAllExact(s, env, self, front);
      ResolveExact(s, env, last);
      AskedMore(front, last, Source(Record, self));
      assert AllResolve(s, env, asks) <==> AllResolve(s, env, front) && Resolvable(s, env, last) by {
        assert forall i :: 0 <= i < |front| ==> front[i] == asks[i];
      }
      if ResolveAll(s, env, self, asks).Some? {
        PinOneMore(s, env, ResolveAll(s, env, self, front).value, Sources(front), Resolve(s, env, last).value);
        SourcesMore(front, last);
      }
    }
  }

  lemma NoPins(s: Store, env: Env)
    ensures Pinning(s, env, [], Sources([]))
  {
  }

  lemma AskedMore(front: seq<Ask>, last: Ask, source: Source)
    ensures AskedIn(front + [last], source) <==> AskedIn(front, source) || last.source == source
  {
    var asks := front + [last];
    assert asks[|front|] == last && forall i :: 0 <= i < |front| ==> asks[i] == front[i];
  }

  lemma PinOneMore(s: Store, env: Env, ds: seq<Dep>, sources: set<Source>, d: Dep)
    requires Pinning(s, env, ds, sources) && ResolvesTo(s, env, d.source, d.pin)
    ensures Pinning(s, env, if d in ds then ds else ds + [d], sources + {d.source})
  {
    assert forall v :: ResolvesTo(s, env, d.source, v) ==> v == d.pin;
    hide ResolvesTo;
    if d in ds {
      assert sources + {d.source} == sources;
    } else {
      assert d.source !in sources;
      assert forall e :: e in ds + [d] <==> e in ds || e == d;
    }
  }

  lemma SourcesMore(front: seq<Ask>, last: Ask)
    ensures Sources(front + [last]) == Sources(front) + {last.source}
  {
    var asks := front + [last];
    forall x ensures x in Sources(asks) <==> x in Sources(front) || x == last.source
    {
      AskedMore(front, last, x);
      assert x in Sources(asks) <==> AskedIn(asks, x);
      assert x in Sources(front) <==> AskedIn(front, x);
    }
  }

  lemma NamedSources(p: Proposal, x: Source)
    ensures x in Sources(AllAsks(p)) <==> Named(p, x)
  {
    var a, b, c, d := p.dependencies, EvidenceAsks(p.support), EvidenceAsks(p.counter), p.scope;
    EvidenceNamed(p.support, x);
    EvidenceNamed(p.counter, x);
    assert x in Sources(AllAsks(p)) <==> AskedIn(AllAsks(p), x);
    AskedJoin(a, b, x);
    AskedJoin(a + b, c, x);
    AskedJoin(a + b + c, d, x);
  }

  lemma AskedJoin(a: seq<Ask>, b: seq<Ask>, x: Source)
    ensures AskedIn(a + b, x) <==> AskedIn(a, x) || AskedIn(b, x)
  {
    assert forall i :: 0 <= i < |a| ==> (a + b)[i] == a[i];
    assert forall i :: 0 <= i < |b| ==> (a + b)[|a| + i] == b[i];
  }

  lemma EvidenceNamed(ids: seq<Id>, x: Source)
    ensures AskedIn(EvidenceAsks(ids), x) <==> x.kind.EvidenceRef? && x.id in ids
  {
    var asks := EvidenceAsks(ids);
    assert forall i :: 0 <= i < |ids| ==> asks[i].source == Source(EvidenceRef, ids[i]);
    if x.kind.EvidenceRef? && x.id in ids {
      var i :| 0 <= i < |ids| && ids[i] == x.id;
      assert asks[i].source == x;
    }
  }

  /** The sources that a request names. */
  function NamedSet(p: Proposal): set<Source>
  {
    Sources(p.dependencies) + Sources(p.scope) + (set x | x in p.support + p.counter :: Source(EvidenceRef, x))
  }

  lemma NamedSetIs(p: Proposal)
    ensures NamedSet(p) == Sources(AllAsks(p))
  {
    forall x ensures x in NamedSet(p) <==> x in Sources(AllAsks(p))
    {
      NamedSources(p, x);
      InSources(p.dependencies, x);
      InSources(p.scope, x);
    }
  }

  /** A publication appends one record, the next revision, with each named source once, pinned to its
      current value; the head moves to it and everything else stays. */
  lemma PutStores(s: Store, env: Env, p: Proposal)
    requires Put(s, env, p).Some?
    ensures var s' := Put(s, env, p).value;
            && |s'.log| == |s.log| + 1 && s.log <= s'.log && s'.log[|s.log|].id == p.id && s'.log[|s.log|].revision == p.expected + 1
            && s'.heads == s.heads[p.id := p.expected + 1]
            && (forall d :: d in s'.log[|s.log|].deps <==> Named(p, d.source) && ResolvesTo(s, env, d.source, d.pin))
            && (forall i, j :: 0 <= i < j < |s'.log[|s.log|].deps| ==> s'.log[|s.log|].deps[i].source != s'.log[|s.log|].deps[j].source)
            && (forall x :: Named(p, x) ==> exists d :: d in s'.log[|s.log|].deps && d.source == x)
  {
    hide ResolveAll, ResolvesTo, AllAsks, Sources, Named;
    ResolveAllExact(s, env, p.id, AllAsks(p));
    var ds := ResolveAll(s, env, p.id, AllAsks(p)).value;
    forall x ensures x in Sources(AllAsks(p)) <==> Named(p, x) { NamedSources(p, x); }
    forall x | Named(p, x) ensures exists d :: d in ds && d.source == x { SourcePinned(s, env, p.id, AllAsks(p), x); }
  }

  lemma SourcePinned(s: Store, env: Env, self: Id, asks: seq<Ask>, x: Source)
    requires ResolveAll(s, env, self, asks).Some? && x in Sources(asks)
    ensures exists d :: d in ResolveAll(s, env, self, asks).value && d.source == x
  {
    hide Resolve, Pinning, ResolvesTo, Resolvable, AllResolve;
    ResolveAllExact(s, env, self, asks);
    var i :| 0 <= i < |asks| && asks[i].source == x;
    SomePin(s, env, self, asks, i);
  }

  lemma SomePin(s: Store, env: Env, self: Id, asks: seq<Ask>, i: nat)
    requires i < |asks| && ResolveAll(s, env, self, asks).Some? && AllResolve(s, env, asks)
    requires Pinning(s, env, ResolveAll(s, env, self, asks).value, Sources(asks))
    ensures exists d :: d in ResolveAll(s, env, self, asks).value && d.source == asks[i].source
  {
    hide ResolveAll, ResolvesTo;
    assert Resolvable(s, env, asks[i]);
    var v :| ResolvesTo(s, env, asks[i].source, v) && (asks[i].pin.Some? ==> asks[i].pin.value == v);
    assert Dep(asks[i].source, v).source in Sources(asks);
    assert Dep(asks[i].source, v) in ResolveAll(s, env, self, asks).value;
  }

  /** A publication is accepted exactly when it continues the current revision, keeps the limits, does
      not depend on itself, every reference resolves, and to the pin that it states if it states one. */
  lemma PutExactly(s: Store, env: Env, p: Proposal)
    ensures Put(s, env, p).Some? <==>
              && p.expected == (if p.id in s.heads then s.heads[p.id] else 0)
              && |p.dependencies| <= 128 && |p.support| <= 128 && |p.counter| <= 128 && |NamedSet(p)| <= 128
              && !Named(p, Source(Record, p.id)) && AllResolve(s, env, p.dependencies) && AllResolve(s, env, p.scope)
              && (forall x :: x in p.support || x in p.counter ==> Source(EvidenceRef, x) in env.pins)
  {
    hide ResolveAll, ResolvesTo, AllResolve, AllAsks, Sources, Named, NamedSet;
    ResolveAllExact(s, env, p.id, AllAsks(p));
    NamedSources(p, Source(Record, p.id));
    NamedSetIs(p);
    AsksResolve(s, env, p);
    assert Source(Record, p.id) in Sources(AllAsks(p)) <==> AskedIn(AllAsks(p), Source(Record, p.id)) by { InSources(AllAsks(p), Source(Record, p.id)); }
  }

  lemma AsksResolve(s: Store, env: Env, p: Proposal)
    ensures AllResolve(s, env, AllAsks(p)) <==>
              && AllResolve(s, env, p.dependencies) && AllResolve(s, env, p.scope)
              && (forall x :: x in p.support || x in p.counter ==> Source(EvidenceRef, x) in env.pins)
  {
    hide AllResolve;
    var a, b, c, d := p.dependencies, EvidenceAsks(p.support), EvidenceAsks(p.counter), p.scope;
    ResolveJoin(s, env, a, b);
    ResolveJoin(s, env, a + b, c);
    ResolveJoin(s, env, a + b + c, d);
    EvidenceResolves(s, env, p.support);
    EvidenceResolves(s, env, p.counter);
  }

  lemma ResolveJoin(s: Store, env: Env, a: seq<Ask>, b: seq<Ask>)
    ensures AllResolve(s, env, a + b) <==> AllResolve(s, env, a) && AllResolve(s, env, b)
  {
    hide Resolvable;
    assert forall i :: 0 <= i < |a| ==> (a + b)[i] == a[i];
    assert forall i :: 0 <= i < |b| ==> (a + b)[|a| + i] == b[i];
  }

  lemma EvidenceResolves(s: Store, env: Env, ids: seq<Id>)
    ensures AllResolve(s, env, EvidenceAsks(ids)) <==> forall x :: x in ids ==> Source(EvidenceRef, x) in env.pins
  {
    var asks := EvidenceAsks(ids);
    forall i | 0 <= i < |ids| ensures Resolvable(s, env, asks[i]) <==> Source(EvidenceRef, ids[i]) in env.pins
    {
      if Source(EvidenceRef, ids[i]) in env.pins { assert ResolvesTo(s, env, asks[i].source, env.pins[Source(EvidenceRef, ids[i])]); }
    }
    if AllResolve(s, env, asks) {
      forall x | x in ids ensures Source(EvidenceRef, x) in env.pins
      {
        var i :| 0 <= i < |ids| && ids[i] == x;
        assert Resolvable(s, env, asks[i]);
      }
    }
  }

  lemma InSources(asks: seq<Ask>, x: Source)
    ensures x in Sources(asks) <==> AskedIn(asks, x)
  {
  }
}
