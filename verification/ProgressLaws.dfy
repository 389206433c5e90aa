/** What the counters of the repetition guard mean, told from the history of accounted decisions
    (src/model_investigation.hpp, investigation_guard and investigation_observe). */
module ProgressLaws {
  import opened Common
  import opened Planning
  import opened WorkQueue
  import opened Progress

  /** One accounted decision with its feedback. */
  datatype Entry = Entry(decision: Decision, feedback: Feedback, generation: int)

  /** The state after accounting a history, each generation once. */
  function After(s: State, h: seq<Entry>): State
  {
    if h == [] then s
    else var e := h[|h| - 1]; Observe(After(s, h[..|h| - 1]), e.decision, e.feedback, e.generation).0
  }

  predicate Asks(e: Entry, q: Query)
  {
    (e.decision.kind == Analyze || e.decision.kind == Retrieve) && e.decision.query == q
  }

  /** Entry `k` brought usable evidence that no earlier answer to its query had brought. */
  predicate BringsNews(h: seq<Entry>, k: nat, q: Query)
    requires k < |h|
  {
    && Asks(h[k], q) && h[k].feedback.usable
    && forall j :: 0 <= j < k && Asks(h[j], q) && h[j].feedback.usable ==> h[j].feedback.mark != h[k].feedback.mark
  }

  /** How often the query was asked in vain since it last brought news. */
  function InVain(h: seq<Entry>, n: nat, q: Query): nat
    requires n <= |h|
  {
    if n == 0 then 0
    else if !Asks(h[n - 1], q) then InVain(h, n - 1, q)
    else if BringsNews(h, n - 1, q) then 0
    else InVain(h, n - 1, q) + 1
  }

  /** No generation is accounted twice in a row. */
  predicate Advancing(s: State, h: seq<Entry>)
  {
    forall k :: 0 <= k < |h| ==> NewGeneration(s, h, k)
  }

  predicate NewGeneration(s: State, h: seq<Entry>, k: nat)
    requires k < |h|
  {
    h[k].generation != if k == 0 then s.last else h[k - 1].generation
  }

  predicate Untouched(s: State) { s.counts == map[] && s.seen == map[] }

  /** The marks of the usable answers so far. */
  predicate Answered(h: seq<Entry>, n: nat, q: Query, m: Mark)
    requires n <= |h|
  {
    exists j :: 0 <= j < n && Asks(h[j], q) && h[j].feedback.usable && h[j].feedback.mark == m
  }

  lemma InVainFront(h: seq<Entry>, n: nat, q: Query)
    requires n < |h|
    ensures InVain(h[..|h| - 1], n, q) == InVain(h, n, q)
    decreases n
  {
    var front := h[..|h| - 1];
    if n > 0 {
      InVainFront(h, n - 1, q);
      assert front[n - 1] == h[n - 1];
      assert BringsNews(front, n - 1, q) <==> BringsNews(h, n - 1, q) by {
        assert forall j :: 0 <= j < n ==> front[j] == h[j];
      }
    }
  }

  lemma AnsweredFront(h: seq<Entry>, n: nat, q: Query, m: Mark)
    requires n < |h|
    ensures Answered(h[..|h| - 1], n, q, m) <==> Answered(h, n, q, m)
  {
    assert forall j :: 0 <= j < n ==> h[..|h| - 1][j] == h[j];
  }

  lemma AnsweredMore(h: seq<Entry>, q: Query, m: Mark)
    requires h != []
    ensures Answered(h, |h|, q, m) <==>
              Answered(h, |h| - 1, q, m) || (Asks(h[|h| - 1], q) && h[|h| - 1].feedback.usable && h[|h| - 1].feedback.mark == m)
    ensures BringsNews(h, |h| - 1, q) <==>
              Asks(h[|h| - 1], q) && h[|h| - 1].feedback.usable && !Answered(h, |h| - 1, q, h[|h| - 1].feedback.mark)
  {
  }

  lemma StepMeaning(s: State, h: seq<Entry>, q: Query, m: Mark)
    requires h != [] && s.last != h[|h| - 1].generation
    requires Count(s, q) == InVain(h, |h| - 1, q) && (forall x :: x in Seen(s, q) <==> Answered(h, |h| - 1, q, x))
    ensures var e := h[|h| - 1];
            var s' := Observe(s, e.decision, e.feedback, e.generation).0;
            s'.last == e.generation && Count(s', q) == InVain(h, |h|, q) && (m in Seen(s', q) <==> Answered(h, |h|, q, m))
  {
    hide Observe, Answered, BringsNews;
    var e := h[|h| - 1];
    ObserveCounts(s, e.decision, e.feedback, e.generation, q);
    AnsweredMore(h, q, m);
    if Asks(e, q) { CountedHere(s, e.decision, e.feedback); }
  }

  lemma CountedHere(s: State, d: Decision, f: Feedback)
    requires d.kind == Analyze || d.kind == Retrieve
    ensures var s' := Counted(s, d, f);
            && Count(s', d.query) == (if f.usable && f.mark !in Seen(s, d.query) then 0 else Count(s, d.query) + 1)
            && Seen(s', d.query) == Seen(s, d.query) + if f.usable && f.mark !in Seen(s, d.query) then [f.mark] else []
  {
    assert Seen(s, d.query) + [] == Seen(s, d.query);
  }

  lemma AdvancingFront(s: State, h: seq<Entry>)
    requires Advancing(s, h) && h != []
    ensures Advancing(s, h[..|h| - 1])
    ensures h[|h| - 1].generation != if |h| == 1 then s.last else h[..|h| - 1][|h| - 2].generation
  {
    var front := h[..|h| - 1];
    forall k | 0 <= k < |front| ensures NewGeneration(s, front, k) { assert NewGeneration(s, h, k); }
    assert NewGeneration(s, h, |h| - 1);
  }

  /** The counter of a query is the number of times it was asked in vain since it last brought news,
      and its fingerprints are those of all usable answers. */
  lemma {:induction false} CountMeans(s: State, h: seq<Entry>, q: Query)
    requires Untouched(s) && Advancing(s, h)
    ensures Count(After(s, h), q) == InVain(h, |h|, q)
    ensures forall m :: m in Seen(After(s, h), q) <==> Answered(h, |h|, q, m)
    ensures h != [] ==> After(s, h).last == h[|h| - 1].generation
    decreases |h|
  {
    hide Observe, Answered;
    if h == [] {
      NothingAnswered(q);
    } else {
      var front := h[..|h| - 1];
      AdvancingFront(s, h);
      CountMeans(s, front, q);
      InVainFront(h, |front|, q);
      forall m ensures Answered(front, |front|, q, m) <==> Answered(h, |front|, q, m) { AnsweredFront(h, |front|, q, m); }
      assert front == [] ==> After(s, front) == s;
      forall m ensures m in Seen(After(s, h), q) <==> Answered(h, |h|, q, m) { StepMeaning(After(s, front), h, q, m); }
      StepMeaning(After(s, front), h, q, 0);
    }
  }

  lemma NothingAnswered(q: Query)
    ensures forall m :: !Answered([], 0, q, m)
  {
  }

  /** So the guard refuses a query exactly when it was asked in vain twice since it last brought news. */
  lemma GuardExactly(s: State, h: seq<Entry>, d: Decision)
    requires Untouched(s) && Advancing(s, h)
    ensures Passes(After(s, h), d) <==> ((d.kind == Analyze || d.kind == Retrieve) ==> InVain(h, |h|, d.query) < 2)
  {
    CountMeans(s, h, d.query);
  }

  /** A contradiction reopens every supported goal, task and hypothesis, and ends the idle count. */
  lemma ContradictionReopens(s: State, d: Decision, f: Feedback, generation: int)
    requires f.contradicted && s.last != generation
    ensures var s' := Observe(s, d, f, generation).0;
            && s'.idle == 0 && s'.plan.summaries == s.plan.summaries
            && Reopens(s.plan.goals, s'.plan.goals) && Reopens(s.plan.tasks, s'.plan.tasks) && Reopens(s.plan.hypotheses, s'.plan.hypotheses)
  {
  }

  predicate Reopens(rows: seq<Task>, next: seq<Task>)
  {
    |next| == |rows| && forall i :: 0 <= i < |rows| ==> next[i] == if rows[i].status == Supported then rows[i].(status := Open) else rows[i]
  }
}
