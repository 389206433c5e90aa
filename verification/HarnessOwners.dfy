/** Who may do what to an investigation and for how long: the conditions of each transaction in plain
    terms, and what a live lease of an owner or a runner protects (src/harness.cpp). */
module HarnessOwners {
  import opened Common
  import opened Harness
  import opened HarnessRuns

  /* ---------- when a transaction takes place ---------- */

  predicate LiveOwner(db: Db, token: Token, now: int) { db.owner == Some(token) && now < db.ownerDeadline }

  /** Neither the model controller nor an action runner is at work. */
  predicate Idle(db: Db, c: Call)
  {
    !c.controller && forall i :: 0 <= i < |db.rows| ==> db.rows[i].runner.None? || db.rows[i].deadline <= c.now
  }

  predicate StillOpen(db: Db) { db.status == Ready || db.status == Active || db.status == Waiting }

  predicate AllSettled(db: Db)
  {
    forall i :: 0 <= i < |db.rows| ==>
      db.rows[i].action.status != Proposed && db.rows[i].action.status != Running && db.rows[i].action.status != WaitingForJob
  }

  /** An action can be taken by a runner only for the live owner, on an open idle investigation, and
      unless its result is known; the runner's lease lasts a minute. */
  lemma ClaimRunExactly(db: Db, i: nat, t: Token, c: Call)
    ensures ClaimRun(db, i, t, c).Some? <==>
              && LiveOwner(db, c.token, c.now) && c.revision == db.revision && StillOpen(db) && Idle(db, c) && i < |db.rows|
              && (db.rows[i].action.result.Some? ==> db.rows[i].action.result.value.unknown && db.rows[i].action.publication.Some?)
    ensures ClaimRun(db, i, t, c).Some? ==>
              ClaimRun(db, i, t, c).value ==
                db.(rows := db.rows[i := Row(db.rows[i].action.(status := Running), Some(t), c.now + 60000)], status := Active, revision := db.revision + 1)
  {
  }

  /** Ownership changes hands only when the old lease has run out and nobody is at work. */
  lemma TakeExactly(db: Db, token: Token, c: Call)
    ensures TakeOwnership(db, token, c).Some? <==> c.revision == db.revision && db.ownerDeadline <= c.now && Idle(db, c)
    ensures TakeOwnership(db, token, c).Some? ==>
              TakeOwnership(db, token, c).value == db.(owner := Some(token), ownerDeadline := c.now + 60000, revision := db.revision + 1)
  {
  }

  lemma RenewExactly(db: Db, c: Call)
    ensures Renew(db, c).Some? <==> LiveOwner(db, c.token, c.now)
    ensures Renew(db, c).Some? ==> Renew(db, c).value == db.(ownerDeadline := c.now + 60000)
  {
  }

  /** Cancelling needs only a live owner, also while a runner is at work. */
  lemma CancelExactly(db: Db, c: Call)
    ensures Cancel(db, c).Some? <==> LiveOwner(db, c.token, c.now) && StillOpen(db)
    ensures Cancel(db, c).Some? ==> Cancel(db, c).value == db.(status := CancelledReport, revision := db.revision + 1)
  {
  }

  lemma ReleaseExactly(db: Db, c: Call)
    ensures Release(db, c).Some? <==>
              LiveOwner(db, c.token, c.now) && c.revision == db.revision && Idle(db, c) && (AllSettled(db) || db.status == CancelledReport)
    ensures Release(db, c).Some? ==> Release(db, c).value == db.(owner := None, ownerDeadline := 0, revision := db.revision + 1)
  {
    hide HasRunner;
    IdleIs(db, c);
  }

  lemma IdleIs(db: Db, c: Call)
    ensures HasRunner(db, c.now, c.controller) <==> !Idle(db, c)
  {
  }

  /** A report other than a cancellation needs the live owner of an open idle investigation whose
      actions are all settled. */
  lemma FinishExactly(db: Db, c: Call, report: Status)
    ensures Finish(db, c, report).Some? <==>
              && LiveOwner(db, c.token, c.now) && c.revision == db.revision && Idle(db, c) && StillOpen(db) && AllSettled(db)
              && report != Ready && report != Active && report != Waiting && report != CancelledReport
    ensures Finish(db, c, report).Some? ==> Finish(db, c, report).value == db.(status := report, revision := db.revision + 1)
  {
    hide HasRunner;
    IdleIs(db, c);
  }

  /** A publication commits only for the row's live runner, on a dispatched unpublished mutation with
      the same request. */
  lemma LinkExactly(db: Db, i: nat, t: Token, d: Digest, now: int)
    ensures Publish(db, i, t, d, now).Some? <==>
              && i < |db.rows| && db.rows[i].runner == Some(t) && now < db.rows[i].deadline && db.rows[i].action.request.backend == Workbench
              && db.rows[i].action.request.digest == d && db.rows[i].action.dispatched && db.rows[i].action.publication.None?
    ensures Publish(db, i, t, d, now).Some? ==>
              var db' := Publish(db, i, t, d, now).value;
              && db'.records == db.records + [Some(Origin(i, d))]
              && db' == db.(records := db'.records, rows := db.rows[i := db.rows[i].(action :=
                          db.rows[i].action.(publication := Some(Publication(|db.records|, Origin(i, d)))))])
  {
  }

  /** Settling is the runner's alone: it stores the outcome, frees the row, and keeps a cancellation. */
  lemma SettleExactly(db: Db, i: nat, t: Token, o: Outcome)
    ensures Settle(db, i, t, o).Some? <==> i < |db.rows| && db.rows[i].runner == Some(t)
    ensures Settle(db, i, t, o).Some? ==>
              var db' := Settle(db, i, t, o).value;
              && db'.rows[i].runner.None? && db'.rows[i].action.status == o.status
              && (o.status != WaitingForJob ==> db'.rows[i].action.result == Some(o))
              && (o.status == WaitingForJob ==> db'.rows[i].action.result == db.rows[i].action.result)
              && db'.status == (if db.status == CancelledReport then CancelledReport else if o.status == WaitingForJob then Waiting else Ready)
              && (forall j :: 0 <= j < |db.rows| && j != i ==> db'.rows[j] == db.rows[j]) && |db'.rows| == |db.rows|
  {
  }

  /** A heartbeat extends its own row, and the owner's lease only for the owner it was started by. */
  lemma HeartbeatExactly(db: Db, i: nat, t: Token, token: Token, now: int)
    ensures Heartbeat(db, i, t, token, now).Some? <==> i < |db.rows| && db.rows[i].runner == Some(t)
    ensures Heartbeat(db, i, t, token, now).Some? ==>
              Heartbeat(db, i, t, token, now).value ==
                db.(rows := db.rows[i := db.rows[i].(deadline := now + 60000)],
                    ownerDeadline := if db.owner == Some(token) then now + 60000 else db.ownerDeadline)
  {
  }

  /** The dispatch mark is the runner's alone, whereas the job of a static action is saved by anyone
      who once claimed it. */
  lemma WritesExactly(db: Db, i: nat, t: Token, local: Action)
    ensures MarkDispatch(db, i, t, local).Some? <==> i < |db.rows| && db.rows[i].runner == Some(t)
    ensures SaveJob(db, i, local).Some? <==> i < |db.rows|
    ensures MarkDispatch(db, i, t, local).Some? ==>
              MarkDispatch(db, i, t, local).value == db.(rows := db.rows[i := db.rows[i].(action := local.(dispatched := true))])
    ensures SaveJob(db, i, local).Some? ==> SaveJob(db, i, local).value == db.(rows := db.rows[i := db.rows[i].(action := local.(job := true))])
  {
  }

  /** Checkpoints, reasoning and certification need the live owner of an open idle investigation, and
      certification settled actions. */
  lemma EditExactly(db: Db, c: Call, certify: bool)
    ensures Edit(db, c, certify).Some? <==>
              LiveOwner(db, c.token, c.now) && c.revision == db.revision && Idle(db, c) && StillOpen(db) && (certify ==> AllSettled(db))
    ensures Edit(db, c, certify).Some? ==> Edit(db, c, certify).value == db.(revision := db.revision + 1)
  {
    hide HasRunner;
    IdleIs(db, c);
  }

  /* ---------- leases protect ---------- */

  predicate OwnedUntil(db: Db, token: Token, until: int) { db.owner == Some(token) && until <= db.ownerDeadline }

  /** Others try to take over only before `until`, the owner does not release, and no renewal or
      heartbeat shortens the lease. */
  predicate Respects(e: Event, token: Token, until: int)
  {
    match e
    case DoTakeOwnership(t, c) => c.now < until
    case DoRelease(c) => c.token != token
    case DoRenew(c) => until <= c.now + 60000
    case DoHeartbeat(t, now) => until <= now + 60000
    case _ => true
  }

  lemma StepOwned(w: World, e: Event, token: Token, until: int)
    requires OwnedUntil(w.db, token, until) && Respects(e, token, until)
    ensures OwnedUntil(Apply(w, e).db, token, until)
  {
    hide HasRunner, Unsettled, HasKey, UncertainBefore, Repeats, Affordable, Charged, FromRow, CanWork;
  }

  /** A live owner keeps the investigation until its lease runs out, whatever anyone else does. */
  lemma {:induction false} OwnerKeeps(w: World, es: seq<Event>, token: Token, until: int)
    requires OwnedUntil(w.db, token, until) && forall k :: 0 <= k < |es| ==> Respects(es[k], token, until)
    ensures OwnedUntil(Run(w, es).db, token, until)
    decreases |es|
  {
    hide Apply, OwnedUntil, Respects;
    if es != [] {
      StepOwned(w, es[0], token, until);
      assert forall k :: 0 <= k < |es| - 1 ==> es[1..][k] == es[k + 1];
      OwnerKeeps(Apply(w, es[0]), es[1..], token, until);
    }
  }

  /** The row is held by the runner until at least `until`. */
  predicate RowHeld(w: World, i: nat, t: Token, until: int)
  {
    i < |w.db.rows| && w.db.rows[i].runner == Some(t) && until <= w.db.rows[i].deadline && t in w.used
  }

  /** Claims come before `until`, the runner does not settle, and its heartbeats do not shorten its lease. */
  predicate Spares(e: Event, t: Token, until: int)
  {
    match e
    case DoClaimRun(j, u, c) => c.now < until
    case DoSettle(u, admitted) => u != t
    case DoHeartbeat(u, now) => u == t ==> until <= now + 60000
    case _ => true
  }

  lemma StepHeld(w: World, e: Event, i: nat, t: Token, until: int)
    requires RowHeld(w, i, t, until) && Spares(e, t, until)
    ensures RowHeld(Apply(w, e), i, t, until)
  {
    hide Unsettled, HasKey, UncertainBefore, Repeats, Affordable, Charged, FromRow, CanWork, Terminal, Owned, Finished, Recoverable;
  }

  /** While a runner's lease is live nobody else gets its row, and no other action starts. */
  lemma {:induction false} RunnerKeeps(w: World, es: seq<Event>, i: nat, t: Token, until: int)
    requires RowHeld(w, i, t, until) && forall k :: 0 <= k < |es| ==> Spares(es[k], t, until)
    ensures RowHeld(Run(w, es), i, t, until)
    ensures forall j, u, c: Call :: c.now < until ==> ClaimRun(Run(w, es).db, j, u, c).None?
    decreases |es|
  {
    hide Apply, Spares;
    if es != [] {
      StepHeld(w, es[0], i, t, until);
      assert forall k :: 0 <= k < |es| - 1 ==> es[1..][k] == es[k + 1];
      RunnerKeeps(Apply(w, es[0]), es[1..], i, t, until);
    }
  }

  /** So the runner can settle its row, and its worker can publish, until then. */
  lemma RunnerFinishes(w: World, es: seq<Event>, i: nat, t: Token, until: int, o: Outcome, d: Digest, now: int)
    requires RowHeld(w, i, t, until) && now < until && forall k :: 0 <= k < |es| ==> Spares(es[k], t, until)
    ensures Settle(Run(w, es).db, i, t, o).Some?
    ensures var a := Run(w, es).db.rows[i].action;
            a.dispatched && a.publication.None? && a.request.backend == Workbench && a.request.digest == d ==> Publish(Run(w, es).db, i, t, d, now).Some?
  {
    hide Apply, Run;
    RunnerKeeps(w, es, i, t, until);
  }
}
