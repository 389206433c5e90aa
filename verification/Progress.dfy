/** Accounting for evidence and the guard against repeated queries (src/model_investigation.hpp,
    investigation_guard and investigation_observe), over whole runs of the controller loop. */
module Progress {
  import opened Common
  import opened Planning
  import opened WorkQueue

  type Query = nat
  type Mark = nat

  const ALLOWANCE := 2
  const MAX_OBSERVATIONS := 4096

  datatype Kind = Analyze | Retrieve | PageState | EditPlan | Other

  /** A saved decision; `query` identifies what it asks, whatever its budget. */
  datatype Decision = Decision(kind: Kind, query: Query)

  /** `usable`: verified native evidence without an error; `fits`: storage is left for the record. */
  datatype Feedback = Feedback(usable: bool, mark: Mark, contradicted: bool, fits: bool)

  datatype State = State(plan: Plan, counts: map<Query, nat>, seen: map<Query, seq<Mark>>, idle: nat,
                         observations: nat, last: int)

  predicate IsQuery(k: Kind) { k.Analyze? || k.Retrieve? }

  function Count(s: State, q: Query): nat { if q in s.counts then s.counts[q] else 0 }

  function Seen(s: State, q: Query): seq<Mark> { if q in s.seen then s.seen[q] else [] }

  /** investigation_guard does not throw. */
  predicate Passes(s: State, d: Decision) { IsQuery(d.kind) ==> Count(s, d.query) < ALLOWANCE }

  function Reopened(rows: seq<Task>): (r: seq<Task>)
    ensures |r| == |rows|
    ensures forall i :: 0 <= i < |rows| ==> r[i] == if rows[i].status.Supported? then rows[i].(status := Open) else rows[i]
  {
    seq(|rows|, i requires 0 <= i < |rows| => if rows[i].status.Supported? then rows[i].(status := Open) else rows[i])
  }

  function ReopenedPlan(p: Plan): Plan
  {
    p.(hypotheses := Reopened(p.hypotheses), tasks := Reopened(p.tasks), goals := Reopened(p.goals))
  }

  predicate Novel(s: State, d: Decision, f: Feedback)
  {
    IsQuery(d.kind) && f.usable && f.mark !in Seen(s, d.query)
  }

  /** The query's own counters. */
  function Counted(s: State, d: Decision, f: Feedback): State
  {
    if !IsQuery(d.kind) then s
    else if Novel(s, d, f) then s.(seen := s.seen[d.query := Seen(s, d.query) + [f.mark]], counts := s.counts[d.query := 0])
    else s.(counts := s.counts[d.query := Count(s, d.query) + 1])
  }

  /** investigation_observe: the state it leaves, and whether it returned normally. */
  function Observe(s: State, d: Decision, f: Feedback, generation: int): (State, bool)
  {
    if s.last == generation then (s, true)
    else
      var s1 := Counted(s, d, f).(last := generation);
      var s2 := if f.contradicted then s1.(plan := ReopenedPlan(s1.plan)) else s1;
      var s3 := s2.(idle := if Novel(s, d, f) || f.contradicted then 0 else s.idle + 1);
      var recorded := !d.kind.PageState? && !d.kind.EditPlan?;
      if recorded && (s.observations >= MAX_OBSERVATIONS || !f.fits) then (s3, false)
      else
        var s4 := if recorded then s3.(observations := s.observations + 1) else s3;
        (if f.contradicted then s4.(plan := s4.plan.(revision := s4.plan.revision + 1)) else s4, true)
  }

  /** Accounting one generation twice changes nothing. */
  lemma ObserveTwice(s: State, d: Decision, f: Feedback, d': Decision, f': Feedback, generation: int)
    ensures Observe(Observe(s, d, f, generation).0, d', f', generation) == (Observe(s, d, f, generation).0, true)
  {
  }

  class Observer {
    var state: State

    constructor (s: State)
      ensures state == s
    {
      state := s;
    }

    method Reopen(rows: seq<Task>) returns (r: seq<Task>)
      ensures r == Reopened(rows)
    {
      r := rows;
      for i := 0 to |rows|
        invariant |r| == |rows| && (forall j :: 0 <= j < i ==> r[j] == Reopened(rows)[j]) && forall j :: i <= j < |r| ==> r[j] == rows[j]
      {
        if r[i].status.Supported? { r := r[i := r[i].(status := Open)]; }
      }
    }

    method Record(d: Decision, f: Feedback, generation: int) returns (ok: bool)
      modifies this
      ensures (state, ok) == Observe(old(state), d, f, generation)
    {
      if state.last == generation { return true; }
      state := state.(last := generation);
      var novel := false;
      if IsQuery(d.kind) {
        var count := Count(state, d.query);
        var seen := Seen(state, d.query);
        novel := f.usable && f.mark !in seen;
        if novel { state := state.(seen := state.seen[d.query := seen + [f.mark]]); }
        state := state.(counts := state.counts[d.query := if novel then 0 else count + 1]);
      }
      if f.contradicted {
        var hypotheses := Reopen(state.plan.hypotheses);
        var tasks := Reopen(state.plan.tasks);
        var goals := Reopen(state.plan.goals);
        state := state.(plan := state.plan.(hypotheses := hypotheses, tasks := tasks, goals := goals));
        novel := true;
      }
      state := state.(idle := if novel then 0 else state.idle + 1);
      if !d.kind.PageState? && !d.kind.EditPlan? {
        if state.observations >= MAX_OBSERVATIONS || !f.fits { return false; }
        state := state.(observations := state.observations + 1);
      }
      if f.contradicted { state := state.(plan := state.plan.(revision := state.plan.revision + 1)); }
      return true;
    }
  }

  /* ---------- runs ---------- */

  datatype Pending = Pending(generation: int, decision: Decision)

  /** The durable state, plus two logs: the generations in which a query passed the guard, and the
      usable fingerprints it produced. */
  datatype World = World(state: State, pending: Option<Pending>, generation: int,
                         passes: map<Query, set<int>>, marks: map<Query, set<Mark>>)

  datatype Event =
    | Receive(decision: Decision, skipped: nat)  // a provider response; earlier requests may have failed
    | Attempt                                    // the guard is asked, then the process dies
    | Settle(feedback: Feedback)                 // the guard is asked, the outcome is accounted and saved
    | EditWork(patch: Patch)

  function PassesOf(w: World, q: Query): set<int> { if q in w.passes then w.passes[q] else {} }

  function MarksOf(w: World, q: Query): set<Mark> { if q in w.marks then w.marks[q] else {} }

  function Asked(w: World): World
    requires w.pending.Some?
  {
    var p := w.pending.value;
    if IsQuery(p.decision.kind) && Passes(w.state, p.decision)
    then w.(passes := w.passes[p.decision.query := PassesOf(w, p.decision.query) + {p.generation}]) else w
  }

  /** A rejected query runs nothing, so its feedback is an error. */
  function Outcome(w: World, f: Feedback): Feedback
    requires w.pending.Some?
  {
    if Passes(w.state, w.pending.value.decision) then f else f.(usable := false)
  }

  function Accounted(w: World, f: Feedback): World
    requires w.pending.Some?
  {
    var p := w.pending.value;
    var w1 := Asked(w);
    var o := Outcome(w, f);
    var w2 := if IsQuery(p.decision.kind) && o.usable && w.state.last != p.generation
              then w1.(marks := w1.marks[p.decision.query := MarksOf(w, p.decision.query) + {o.mark}]) else w1;
    var r := Observe(w.state, p.decision, o, p.generation);
    w2.(state := r.0, pending := if r.1 then None else w.pending)
  }

  ghost function Apply(w: World, e: Event): World
  {
    match e
    case Receive(d, skipped) =>
      if w.pending.Some? then w
      else w.(generation := w.generation + 1 + skipped, pending := Some(Pending(w.generation + 1 + skipped, d)))
    case Attempt => if w.pending.None? then w else Asked(w)
    case Settle(f) => if w.pending.None? then w else Accounted(w, f)
    case EditWork(patch) =>
      var p := Saved(w.state.plan, patch);
      if p.None? then w else w.(state := w.state.(plan := p.value))
  }

  ghost function Run(w: World, es: seq<Event>): World
    decreases |es|
  {
    if es == [] then w else Run(Apply(w, es[0]), es[1..])
  }

  function Start(): World
  {
    World(State(Initial(), map[], map[], 0, 0, -1), None, 0, map[], map[])
  }

  /* ---------- the bound ---------- */

  /** A pass of the query that has not been accounted yet. */
  predicate InFlight(w: World, q: Query)
  {
    && w.pending.Some? && w.pending.value.decision.query == q && w.pending.value.generation in PassesOf(w, q)
    && w.state.last != w.pending.value.generation
  }

  function Capped(n: nat): nat { if n < ALLOWANCE then n else ALLOWANCE }

  ghost predicate Bounded(w: World, q: Query)
  {
    && (forall p :: p in Seen(w.state, q) <==> p in MarksOf(w, q))
    && |PassesOf(w, q)| <= 2 * |MarksOf(w, q)| + Capped(Count(w.state, q)) + (if InFlight(w, q) then 1 else 0)
    && (InFlight(w, q) ==> Count(w.state, q) < ALLOWANCE)
    && (forall g :: g in PassesOf(w, q) ==> g <= w.generation)
  }

  /** Generations only grow, and a pending query that is accounted already passed before or never will. */
  ghost predicate Ordered(w: World)
  {
    && w.state.last <= w.generation
    && (w.pending.Some? ==>
          && w.pending.value.generation == w.generation
          && (w.state.last == w.generation && IsQuery(w.pending.value.decision.kind) && Passes(w.state, w.pending.value.decision) ==>
                w.generation in PassesOf(w, w.pending.value.decision.query))
          && (forall q :: w.generation in PassesOf(w, q) ==> q == w.pending.value.decision.query && IsQuery(w.pending.value.decision.kind)))
  }

  lemma StepBounded(w: World, e: Event, q: Query)
    requires Ordered(w) && Bounded(w, q)
    ensures Bounded(Apply(w, e), q)
  {
    hide Saved;
    if e.Settle? && w.pending.Some? { SettleBounded(w, e.feedback, q); }
    else if e.Attempt? && w.pending.Some? { AskedBounded(w, q); }
  }

  lemma AskedBounded(w: World, q: Query)
    requires Ordered(w) && Bounded(w, q) && w.pending.Some?
    ensures Bounded(Asked(w), q)
    ensures w.pending.value.decision.query == q && IsQuery(w.pending.value.decision.kind) && Passes(w.state, w.pending.value.decision) ==>
              w.generation in PassesOf(Asked(w), q)
  {
  }

  /** Observe touches only the counters of its own query. */
  lemma ObserveCounts(s: State, d: Decision, f: Feedback, g: int, q: Query)
    ensures var s' := Observe(s, d, f, g).0;
            if s.last == g then s' == s
            else
              && s'.last == g && Seen(s', q) == Seen(Counted(s, d, f), q) && Count(s', q) == Count(Counted(s, d, f), q)
    ensures !(IsQuery(d.kind) && d.query == q) ==> Seen(Counted(s, d, f), q) == Seen(s, q) && Count(Counted(s, d, f), q) == Count(s, q)
  {
    hide Reopened;
  }

  lemma SettleOther(w: World, f: Feedback, q: Query)
    requires Ordered(w) && Bounded(w, q) && w.pending.Some?
    requires w.state.last == w.generation || !(IsQuery(w.pending.value.decision.kind) && w.pending.value.decision.query == q)
    ensures Bounded(Accounted(w, f), q)
  {
    ObserveCounts(w.state, w.pending.value.decision, Outcome(w, f), w.generation, q);
    AskedBounded(w, q);
    hide Observe, Passes;
  }

  /** Asking counts a new generation at most once, and only below the allowance. */
  lemma AskedCount(w: World, q: Query)
    requires Ordered(w) && Bounded(w, q) && w.pending.Some?
    requires w.state.last != w.generation && IsQuery(w.pending.value.decision.kind) && w.pending.value.decision.query == q
    ensures |PassesOf(Asked(w), q)| <= 2 * |MarksOf(w, q)| + Capped(Count(w.state, q)) + if Passes(w.state, w.pending.value.decision) then 1 else 0
    ensures forall g :: g in PassesOf(Asked(w), q) ==> g <= w.generation
  {
    AskedPasses(w, q);
    hide Asked;
  }

  /** The stored counters of the query after its feedback is accounted. */
  lemma OwnCounters(w: World, f: Feedback, q: Query)
    requires w.pending.Some? && w.state.last != w.pending.value.generation
    requires IsQuery(w.pending.value.decision.kind) && w.pending.value.decision.query == q
    ensures var s', d, o := Accounted(w, f).state, w.pending.value.decision, Outcome(w, f);
            && Count(s', q) == (if Novel(w.state, d, o) then 0 else Count(w.state, q) + 1)
            && Seen(s', q) == Seen(w.state, q) + (if Novel(w.state, d, o) then [o.mark] else [])
            && Accounted(w, f).generation == w.generation && PassesOf(Accounted(w, f), q) == PassesOf(Asked(w), q)
  {
    ObserveCounts(w.state, w.pending.value.decision, Outcome(w, f), w.pending.value.generation, q);
    hide Observe;
  }

  lemma SettleOwn(w: World, f: Feedback, q: Query)
    requires Ordered(w) && Bounded(w, q) && w.pending.Some?
    requires w.state.last != w.generation && IsQuery(w.pending.value.decision.kind) && w.pending.value.decision.query == q
    ensures Bounded(Accounted(w, f), q)
  {
    hide Asked, PassesOf, MarksOf, Accounted, Seen, Count, InFlight;
    AskedCount(w, q);
    OwnMarks(w, f, q);
    OwnCounters(w, f, q);
  }

  lemma MarksAfter(w: World, f: Feedback, q: Query)
    requires w.pending.Some? && w.state.last != w.pending.value.generation
    requires IsQuery(w.pending.value.decision.kind) && w.pending.value.decision.query == q
    ensures MarksOf(Accounted(w, f), q) == MarksOf(w, q) + if Outcome(w, f).usable then {Outcome(w, f).mark} else {}
  {
    hide Observe, Passes;
    assert MarksOf(w, q) + {} == MarksOf(w, q);
  }

  lemma Arrived(w: World, f: Feedback, q: Query)
    requires w.pending.Some? && w.state.last != w.pending.value.generation
    ensures !InFlight(Accounted(w, f), q)
  {
    var o := Outcome(w, f);
    ObserveCounts(w.state, w.pending.value.decision, o, w.pending.value.generation, q);
    hide Observe, Asked, PassesOf;
  }

  lemma OwnMarks(w: World, f: Feedback, q: Query)
    requires w.pending.Some? && w.state.last != w.pending.value.generation
    requires IsQuery(w.pending.value.decision.kind) && w.pending.value.decision.query == q
    requires forall p :: p in Seen(w.state, q) <==> p in MarksOf(w, q)
    ensures var w', d, o := Accounted(w, f), w.pending.value.decision, Outcome(w, f);
            && MarksOf(w', q) == MarksOf(w, q) + (if o.usable then {o.mark} else {})
            && |MarksOf(w', q)| == |MarksOf(w, q)| + (if Novel(w.state, d, o) then 1 else 0)
            && !InFlight(w', q)
  {
    hide Accounted, Outcome, MarksOf, Seen, InFlight;
    MarksAfter(w, f, q);
    Arrived(w, f, q);
    var o := Outcome(w, f);
    if o.usable && o.mark in MarksOf(w, q) { assert MarksOf(w, q) + {o.mark} == MarksOf(w, q); }
  }

  lemma SettleBounded(w: World, f: Feedback, q: Query)
    requires Ordered(w) && Bounded(w, q) && w.pending.Some?
    ensures Bounded(Accounted(w, f), q)
  {
    hide Bounded, Observe, Accounted;
    var d := w.pending.value.decision;
    if w.state.last != w.generation && IsQuery(d.kind) && d.query == q { SettleOwn(w, f, q); } else { SettleOther(w, f, q); }
  }

  lemma AskedPasses(w: World, q: Query)
    requires w.pending.Some?
    ensures var d := w.pending.value.decision;
            PassesOf(Asked(w), q) ==
              PassesOf(w, q) + if IsQuery(d.kind) && Passes(w.state, d) && d.query == q then {w.pending.value.generation} else {}
  {
  }

  lemma ReceiveOrdered(w: World, d: Decision, skipped: nat)
    requires Ordered(w) && w.pending.None? && forall q :: Bounded(w, q)
    ensures Ordered(Apply(w, Receive(d, skipped)))
  {
    var w' := Apply(w, Receive(d, skipped));
    forall q ensures w'.generation !in PassesOf(w', q) { assert Bounded(w, q) && PassesOf(w', q) == PassesOf(w, q); }
  }

  lemma SettleOrdered(w: World, f: Feedback)
    requires Ordered(w) && w.pending.Some?
    ensures Ordered(Accounted(w, f))
  {
    var d, w' := w.pending.value.decision, Accounted(w, f);
    ObserveCounts(w.state, d, Outcome(w, f), w.generation, d.query);
    forall q ensures PassesOf(w', q) == PassesOf(Asked(w), q) { }
    forall q | w.generation in PassesOf(w', q) ensures q == d.query && IsQuery(d.kind) { AskedPasses(w, q); }
    AskedPasses(w, d.query);
    hide Observe, Bounded, Asked, PassesOf;
  }

  lemma AttemptOrdered(w: World)
    requires Ordered(w) && w.pending.Some?
    ensures Ordered(Asked(w))
  {
    var d, w' := w.pending.value.decision, Asked(w);
    forall q | w.generation in PassesOf(w', q) ensures q == d.query && IsQuery(d.kind) { AskedPasses(w, q); }
    AskedPasses(w, d.query);
  }

  lemma StepOrdered(w: World, e: Event)
    requires Ordered(w) && forall q :: Bounded(w, q)
    ensures Ordered(Apply(w, e))
  {
    match e {
      case Receive(d, skipped) => if w.pending.None? { ReceiveOrdered(w, d, skipped); }
      case Settle(f) => if w.pending.Some? { SettleOrdered(w, f); }
      case Attempt => if w.pending.Some? { AttemptOrdered(w); }
      case EditWork(patch) => EditOrdered(w, patch);
    }
  }

  lemma EditOrdered(w: World, patch: Patch)
    requires Ordered(w)
    ensures Ordered(Apply(w, EditWork(patch)))
  {
    hide Saved;
    var w' := Apply(w, EditWork(patch));
    assert forall q :: PassesOf(w', q) == PassesOf(w, q);
  }

  lemma {:induction false} RunBounded(w: World, es: seq<Event>)
    requires Ordered(w) && forall q :: Bounded(w, q)
    ensures Ordered(Run(w, es)) && forall q :: Bounded(Run(w, es), q)
    decreases |es|
  {
    hide Ordered, Bounded, Apply;
    if es != [] {
      StepOrdered(w, es[0]);
      forall q ensures Bounded(Apply(w, es[0]), q) { StepBounded(w, es[0], q); }
      RunBounded(Apply(w, es[0]), es[1..]);
    }
  }

  /** In every run, a query passes the guard in at most 2k + 2 generations, where k is the number of
      distinct usable fingerprints it has produced. */
  lemma GuardBound(es: seq<Event>, q: Query)
    ensures |PassesOf(Run(Start(), es), q)| <= 2 * |MarksOf(Run(Start(), es), q)| + 2
  {
    RunBounded(Start(), es);
    assert Bounded(Run(Start(), es), q);
  }

  /* ---------- the plan in every reachable state ---------- */

  lemma ReopenSortable(rows: seq<Task>)
    requires UniqueIds(rows) && Sortable(rows)
    ensures UniqueIds(Reopened(rows)) && Sortable(Reopened(rows))
  {
    var r := Reopened(rows);
    forall a, b ensures Edge(r, a, b) <==> Edge(rows, a, b)
    {
      if Edge(rows, a, b) { var i :| 0 <= i < |rows| && rows[i].id == a && b in rows[i].deps; assert r[i].id == a && b in r[i].deps; }
    }
    forall a, b | Edge(r, a, b) ensures HasId(r, b)
    {
      assert HasId(rows, b);
      var i :| 0 <= i < |rows| && rows[i].id == b;
      assert r[i].id == b;
    }
    forall c | Walk(r, c) && |c| > 1 ensures c[0] != c[|c| - 1] { SameWalks(r, rows, c); }
  }

  lemma {:induction false} SameWalks(r: seq<Task>, rows: seq<Task>, c: seq<nat>)
    requires Walk(r, c) && forall a, b :: Edge(r, a, b) <==> Edge(rows, a, b)
    ensures Walk(rows, c)
    decreases |c|
  {
    if |c| > 1 { SameWalks(r, rows, c[1..]); }
  }

  lemma ReopenGood(p: Plan)
    requires Good(p)
    ensures Good(ReopenedPlan(p))
  {
    hide Sortable, UniqueIds, Reopened;
    forall c ensures UniqueIds(Rows(ReopenedPlan(p), c)) && Sortable(Rows(ReopenedPlan(p), c))
    {
      assert UniqueIds(Rows(p, c)) && Sortable(Rows(p, c));
      ReopenSortable(Rows(p, c));
    }
  }

  /** Observe leaves the plan alone or reopens it. */
  lemma ObservePlan(s: State, d: Decision, f: Feedback, g: int)
    ensures var p := Observe(s, d, f, g).0.plan;
            p == s.plan || p == ReopenedPlan(s.plan).(revision := p.revision)
  {
    hide ReopenedPlan;
  }

  lemma SameRowsGood(p: Plan, p': Plan)
    requires Good(p) && p' == p.(revision := p'.revision)
    ensures Good(p')
  {
    forall c ensures UniqueIds(Rows(p', c)) && Sortable(Rows(p', c)) { assert UniqueIds(Rows(p, c)) && Sortable(Rows(p, c)); }
  }

  lemma StepGood(w: World, e: Event)
    requires Good(w.state.plan)
    ensures Good(Apply(w, e).state.plan)
  {
    hide Good, Saved, Observe;
    if e.EditWork? {
      if Saved(w.state.plan, e.patch).Some? { SavedGood(w.state.plan, e.patch); }
    } else if e.Settle? && w.pending.Some? {
      var o := Outcome(w, e.feedback);
      ObservePlan(w.state, w.pending.value.decision, o, w.pending.value.generation);
      var p := Observe(w.state, w.pending.value.decision, o, w.pending.value.generation).0.plan;
      if p != w.state.plan {
        ReopenGood(w.state.plan);
        SameRowsGood(ReopenedPlan(w.state.plan), p);
      }
    }
  }

  lemma {:induction false} RunGood(w: World, es: seq<Event>)
    requires Good(w.state.plan)
    ensures Good(Run(w, es).state.plan)
    decreases |es|
  {
    hide Good, Apply;
    if es != [] {
      StepGood(w, es[0]);
      RunGood(Apply(w, es[0]), es[1..]);
    }
  }

  /** In every reachable state, while the current rows are only open or supported and one is open,
      the queue offers work: contradictions and edits never deadlock the plan. */
  lemma WorkIsOffered(es: seq<Event>, a: nat)
    requires var rows := Candidates(Run(Start(), es).state.plan);
             && (forall i :: 0 <= i < |rows| ==> rows[i].status.Open? || rows[i].status.Supported?)
             && a < |rows| && rows[a].status.Open?
    ensures Drawn(Candidates(Run(Start(), es).state.plan)) != []
  {
    hide Drawn;
    InitialGood();
    RunGood(Start(), es);
    var p := Run(Start(), es).state.plan;
    assert UniqueIds(Rows(p, Tasks)) && Sortable(Rows(p, Tasks)) && UniqueIds(Rows(p, Goals)) && Sortable(Rows(p, Goals));
    QueueNotEmpty(Candidates(p), a);
  }
}
