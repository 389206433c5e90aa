/** What an investigation has reserved is what its actions ask for (src/harness.cpp, propose). */
module HarnessBudget {
  import opened Common
  import opened Harness
  import opened HarnessRuns

  function Requests(db: Db): (rs: seq<Request>)
    ensures |rs| == |db.rows| && forall i :: 0 <= i < |rs| ==> rs[i] == db.rows[i].action.request
  {
    seq(|db.rows|, i requires 0 <= i < |db.rows| => db.rows[i].action.request)
  }

  function WallSum(rs: seq<Request>): nat
  {
    if rs == [] then 0 else WallSum(rs[..|rs| - 1]) + rs[|rs| - 1].wall
  }

  function OutputSum(rs: seq<Request>): nat
  {
    if rs == [] then 0 else OutputSum(rs[..|rs| - 1]) + rs[|rs| - 1].output
  }

  /** How many requests reserve a derived artifact. */
  function DerivedCount(rs: seq<Request>): nat
  {
    if rs == [] then 0 else DerivedCount(rs[..|rs| - 1]) + if rs[|rs| - 1].derived.Some? then 1 else 0
  }

  function DerivedSum(rs: seq<Request>): nat
  {
    if rs == [] then 0 else DerivedSum(rs[..|rs| - 1]) + if rs[|rs| - 1].derived.Some? then rs[|rs| - 1].derived.value else 0
  }

  function Count(rs: seq<Request>, d: Digest): nat
  {
    if rs == [] then 0 else Count(rs[..|rs| - 1], d) + if rs[|rs| - 1].digest == d then 1 else 0
  }

  /** Each reserved amount is the sum of its own request field. */
  predicate Sums(u: Budget, rs: seq<Request>)
  {
    && u.actions == |rs| && u.wall == WallSum(rs) && u.output == OutputSum(rs)
    && u.derivedCount == DerivedCount(rs) && u.derivedBytes == DerivedSum(rs)
  }

  /** What the requests ask for together stays within the creation budget. */
  predicate Fits(rs: seq<Request>, limits: Budget)
  {
    && |rs| <= limits.actions && WallSum(rs) <= limits.wall && OutputSum(rs) <= limits.output
    && DerivedCount(rs) <= limits.derivedCount && DerivedSum(rs) <= limits.derivedBytes
  }

  ghost predicate DistinctKeys(rs: seq<Request>)
  {
    forall i, j :: 0 <= i < j < |rs| ==> rs[i].key != rs[j].key
  }

  /** The reservation is the exact sum over distinct actions, within the creation budget, and no
      request digest has more than three actions. */
  ghost predicate Accounted(db: Db)
  {
    && Sums(db.reserved, Requests(db)) && Fits(Requests(db), db.limits)
    && DistinctKeys(Requests(db))
    && (forall d :: Count(Requests(db), d) <= MAX_REPEATS)
  }

  lemma {:induction false} RepeatsIsCount(db: Db, n: nat, d: Digest)
    requires n <= |db.rows|
    ensures Repeats(db.rows[..n], d) == Count(Requests(db)[..n], d)
    decreases n
  {
    if n > 0 {
      assert db.rows[..n][..n - 1] == db.rows[..n - 1] && Requests(db)[..n][..n - 1] == Requests(db)[..n - 1];
      RepeatsIsCount(db, n - 1, d);
    }
  }

  lemma ProposeAccounted(db: Db, r: Request, c: Call)
    requires Accounted(db) && Propose(db, r, c).Some?
    ensures Accounted(Propose(db, r, c).value) && Requests(Propose(db, r, c).value) == Requests(db) + [r]
  {
    var db' := Propose(db, r, c).value;
    var rs := Requests(db);
    assert Requests(db') == rs + [r];
    assert (rs + [r])[..|rs|] == rs;
    assert db.rows[..|db.rows|] == db.rows && rs[..|rs|] == rs;
    RepeatsIsCount(db, |db.rows|, r.digest);
    assert forall d :: Count(rs + [r], d) <= MAX_REPEATS;
  }

  /** What a proposal needs besides room in the budget: its caller is the owner, nobody is running, its
      key is new, and neither an uncertain mutation nor three equal requests precede it. */
  predicate Admissible(db: Db, r: Request, c: Call)
  {
    && db.owner == Some(c.token) && c.now < db.ownerDeadline && c.revision == db.revision && !Terminal(db.status)
    && !c.controller && (forall i :: 0 <= i < |db.rows| ==> db.rows[i].runner.None? || db.rows[i].deadline <= c.now)
    && (forall i :: 0 <= i < |db.rows| ==> db.rows[i].action.request.key != r.key)
    && (r.backend.Workbench? ==> forall i :: 0 <= i < |db.rows| && db.rows[i].action.request.digest == r.digest ==>
          db.rows[i].action.result.None? || !db.rows[i].action.result.value.unknown)
    && Count(Requests(db), r.digest) < 3
  }

  /** An admissible proposal is refused exactly when it exceeds a cap of its own or one of the five
      sums would pass its limit. */
  lemma RefusedExactly(db: Db, r: Request, c: Call)
    requires Accounted(db)
    ensures Propose(db, r, c).Some? <==>
              Admissible(db, r, c) && r.wall <= 120000 && r.memory <= 0x8000_0000 && Fits(Requests(db) + [r], db.limits)
  {
    var rs := Requests(db);
    assert (rs + [r])[..|rs|] == rs;
    assert db.rows[..|db.rows|] == db.rows && rs[..|rs|] == rs;
    RepeatsIsCount(db, |db.rows|, r.digest);
  }

  /** Proposing a stored key again charges nothing and adds nothing. */
  lemma ReproposeIsFree(db: Db, r: Request, c: Call)
    requires HasKey(db, r.key)
    ensures Propose(db, r, c).None?
  {
  }

  /** The requests, the reservation and the limits are the same. */
  predicate Kept(db: Db, db': Db)
  {
    && db'.reserved == db.reserved && db'.limits == db.limits && |db'.rows| == |db.rows|
    && (forall i :: 0 <= i < |db.rows| ==> db'.rows[i].action.request == db.rows[i].action.request)
  }

  lemma QuietKept(w: World, e: Event)
    requires IsQuiet(e)
    ensures Kept(w.db, Apply(w, e).db)
  {
    hide HasRunner, Unsettled, CanWork, Terminal;
  }

  lemma ClaimKept(db: Db, i: nat, t: Token, c: Call)
    ensures ClaimRun(db, i, t, c).Some? ==> Kept(db, ClaimRun(db, i, t, c).value)
  {
    hide HasRunner;
  }

  lemma RowKept(db: Db, i: nat, t: Token, local: Action)
    requires i < |db.rows| && local.request == db.rows[i].action.request
    ensures MarkDispatch(db, i, t, local).Some? ==> Kept(db, MarkDispatch(db, i, t, local).value)
    ensures SaveJob(db, i, local).Some? ==> Kept(db, SaveJob(db, i, local).value)
  {
  }

  lemma PublishKept(db: Db, i: nat, t: Token, d: Digest, now: int, o: Outcome)
    ensures Publish(db, i, t, d, now).Some? ==> Kept(db, Publish(db, i, t, d, now).value)
    ensures Settle(db, i, t, o).Some? ==> Kept(db, Settle(db, i, t, o).value)
  {
  }

  /** Every step but a proposal leaves the requests, the reservation and the limits alone. */
  lemma RequestsKept(w: World, e: Event)
    requires Sound(w) && !e.DoPropose?
    ensures Kept(w.db, Apply(w, e).db)
  {
    hide Held, Launches, Exclusive, Published, Marking, Publishing, HasRunner, Unsettled, CanWork, Terminal, ClaimRun,
      MarkDispatch, SaveJob, Publish, Settle, FromRow;
    if IsQuiet(e) {
      QuietKept(w, e);
    } else {
      match e {
        case DoClaimRun(i, t, c) => ClaimKept(w.db, i, t, c);
        case DoMark(t, summary) => if t in w.runners { assert Copy(w, t); RowKept(w.db, w.runners[t].row, t, w.runners[t].local); }
        case DoSaveJob(t) => if t in w.runners { assert Copy(w, t); RowKept(w.db, w.runners[t].row, t, w.runners[t].local); }
        case DoWorkerPublish(t, now) =>
          if t in w.working && w.working[t] < |w.db.rows| {
            PublishKept(w.db, w.working[t], t, w.db.rows[w.working[t]].action.request.digest, now, Outcome(Failed, false));
          }
        case DoSettle(t, admitted) =>
          if t in w.runners && w.runners[t].stage.Decided? {
            var o := w.runners[t].stage.outcome;
            var o' := if o.status.Completed? && !admitted then o.(status := Partial) else o;
            PublishKept(w.db, w.runners[t].row, t, 0, 0, o');
          }
        case _ =>
      }
    }
  }

  lemma StepAccounted(w: World, e: Event)
    requires Sound(w) && Accounted(w.db)
    ensures Accounted(Apply(w, e).db)
  {
    hide Sound, Accounted, Propose;
    if e.DoPropose? {
      if Propose(w.db, e.r, e.c).Some? { ProposeAccounted(w.db, e.r, e.c); }
    } else {
      RequestsKept(w, e);
      KeptAccounted(w.db, Apply(w, e).db);
    }
  }

  lemma KeptAccounted(db: Db, db': Db)
    requires Accounted(db) && Kept(db, db')
    ensures Accounted(db')
  {
    assert Requests(db') == Requests(db);
  }

  lemma {:induction false} RunAccounted(w: World, es: seq<Event>)
    requires Sound(w) && Accounted(w.db)
    ensures Accounted(Run(w, es).db)
    decreases |es|
  {
    hide Sound, Apply, Accounted;
    if es != [] {
      StepSound(w, es[0]);
      StepAccounted(w, es[0]);
      RunAccounted(Apply(w, es[0]), es[1..]);
    }
  }

  /** In every run the reservation equals the sum over the stored actions and stays in budget. */
  lemma ReservationExact(limits: Budget, owner: Token, now: int, es: seq<Event>)
    ensures Accounted(Run(Fresh(limits, owner, now), es).db)
  {
    RunAccounted(Fresh(limits, owner, now), es);
  }
}
