/** Runs of the harness: any number of runner and worker processes, owners and crashes, interleaved
    at transaction boundaries, with arbitrary clock readings. */
module HarnessRuns {
  import opened Common
  import opened Harness

  /** Where a runner process stands in run_action: a mutation is marked and then launched, the job
      of a static action is saved once and then executed. */
  datatype Stage = Claimed | Marked | Launched | JobSaved | Decided(outcome: Outcome)

  /** `local` is the runner's copy of the action, taken when it claimed the row. */
  datatype Runner = Runner(row: nat, owner: Token, local: Action, stage: Stage)

  /** Durable tables, live processes, the log of worker launches, and the identifiers drawn so far. */
  datatype World = World(db: Db, runners: map<Token, Runner>, launched: map<Token, nat>, working: map<Token, nat>,
                         launches: seq<nat>, used: set<Token>)

  datatype Event =
    | DoPropose(r: Request, c: Call)
    | DoClaimRun(i: nat, runner: Token, c: Call)
    | DoHeartbeat(runner: Token, now: int)
    | DoResume(runner: Token, summary: ActionStatus)      // a row that was already dispatched
    | DoReject(runner: Token)                             // normalization, preparation or the job throws
    | DoMark(runner: Token, summary: ActionStatus)
    | DoLaunch(runner: Token, available: bool, summary: ActionStatus)
    | DoWorkerStart(runner: Token, now: int)
    | DoWorkerPublish(runner: Token, now: int)
    | DoCollect(runner: Token, summary: ActionStatus)     // the worker process has ended
    | DoSaveJob(runner: Token)
    | DoStaticResult(runner: Token, status: ActionStatus)
    | DoSettle(runner: Token, admitted: bool)
    | DoCrash(runner: Token)
    | DoWorkerCrash(runner: Token)
    | DoTakeOwnership(token: Token, c: Call)
    | DoRenew(c: Call)
    | DoCancel(c: Call)
    | DoRelease(c: Call)
    | DoEdit(c: Call, certify: bool)
    | DoFinish(c: Call, report: Status)
    | DoKnowledge

  function OrElse(w: World, d: Option<Db>): World { if d.None? then w else w.(db := d.value) }

  /** What is reported when only the stored row can tell what a dispatched mutation did. */
  function FromRow(db: Db, i: nat, a: Action, summary: ActionStatus): Outcome
  {
    if Recoverable(db, i, a) && !Open(summary) then Outcome(summary, false) else Outcome(Interrupted, true)
  }

  function Moved(w: World, t: Token, s: Stage): World
    requires t in w.runners
  {
    w.(runners := w.runners[t := w.runners[t].(stage := s)])
  }

  /** One atomic step. An event that its process cannot take leaves the world as it is. */
  function Apply(w: World, e: Event): World
  {
    match e
    case DoPropose(r, c) => OrElse(w, Propose(w.db, r, c))
    case DoClaimRun(i, t, c) =>
      var d := ClaimRun(w.db, i, t, c);
      if d.None? || t in w.used then w
      else w.(db := d.value, used := w.used + {t},
              runners := w.runners[t := Runner(i, c.token, d.value.rows[i].action, Claimed)])
    case DoHeartbeat(t, now) =>
      if t !in w.runners then w else OrElse(w, Heartbeat(w.db, w.runners[t].row, t, w.runners[t].owner, now))
    case DoResume(t, summary) =>
      if t !in w.runners || !w.runners[t].stage.Claimed? || !w.runners[t].local.request.backend.Workbench?
         || !w.runners[t].local.dispatched then w
      else Moved(w, t, Decided(FromRow(w.db, w.runners[t].row, w.runners[t].local, summary)))
    case DoReject(t) =>
      if t !in w.runners || !(w.runners[t].stage.Claimed? || w.runners[t].stage.JobSaved?) || w.runners[t].local.dispatched then w
      else Moved(w, t, Decided(Outcome(Failed, false)))
    case DoMark(t, summary) =>
      if t !in w.runners || !w.runners[t].stage.Claimed? || !w.runners[t].local.request.backend.Workbench?
         || w.runners[t].local.dispatched then w
      else MarkStep(w, t, summary)
    case DoLaunch(t, available, summary) =>
      if t !in w.runners || !w.runners[t].stage.Marked? then w else LaunchStep(w, t, available, summary)
    case DoWorkerStart(t, now) =>
      if t !in w.launched || w.db.rows == [] || !CanWork(w.db, w.launched[t], t, now) then w
      else w.(working := w.working[t := w.launched[t]], launched := w.launched - {t})
    case DoWorkerPublish(t, now) =>
      if t !in w.working || w.working[t] >= |w.db.rows| then w
      else OrElse(w, Publish(w.db, w.working[t], t, w.db.rows[w.working[t]].action.request.digest, now))
    case DoCollect(t, summary) =>
      if t !in w.runners || !w.runners[t].stage.Launched? || w.runners[t].row >= |w.db.rows| then w
      else Moved(w, t, Decided(FromRow(w.db, w.runners[t].row, w.db.rows[w.runners[t].row].action, summary)))
    case DoSaveJob(t) =>
      if t !in w.runners || !w.runners[t].stage.Claimed? || !w.runners[t].local.request.backend.Static? then w
      else OrElse(Moved(w, t, JobSaved), SaveJob(w.db, w.runners[t].row, w.runners[t].local))
    case DoStaticResult(t, status) =>
      if t !in w.runners || !w.runners[t].stage.JobSaved? || !w.runners[t].local.request.backend.Static?
         || status.Proposed? || status.Running? then w
      else Moved(w, t, Decided(Outcome(status, false)))
    case DoSettle(t, admitted) =>
      if t !in w.runners || !w.runners[t].stage.Decided? then w else SettleStep(w, t, admitted)
    case DoCrash(t) => w.(runners := w.runners - {t})
    case DoWorkerCrash(t) => w.(launched := w.launched - {t}, working := w.working - {t})
    case DoTakeOwnership(token, c) => OrElse(w, TakeOwnership(w.db, token, c))
    case DoRenew(c) => OrElse(w, Renew(w.db, c))
    case DoCancel(c) => OrElse(w, Cancel(w.db, c))
    case DoRelease(c) => OrElse(w, Release(w.db, c))
    case DoEdit(c, certify) => OrElse(w, Edit(w.db, c, certify))
    case DoFinish(c, report) => OrElse(w, Finish(w.db, c, report))
    case DoKnowledge => w.(db := PutKnowledge(w.db))
  }

  /** The dispatch transaction; losing the row is an exception after the local copy was marked. */
  function MarkStep(w: World, t: Token, summary: ActionStatus): World
    requires t in w.runners
  {
    var r := w.runners[t];
    if r.row >= |w.db.rows| then w
    else if w.db.status.CancelledReport? then Moved(w, t, Decided(Outcome(Cancelled, false)))
    else
      var d := MarkDispatch(w.db, r.row, t, r.local);
      if d.None? then Moved(w, t, Decided(FromRow(w.db, r.row, w.db.rows[r.row].action, summary)))
      else Moved(w.(db := d.value), t, Marked)
  }

  function LaunchStep(w: World, t: Token, available: bool, summary: ActionStatus): World
    requires t in w.runners
  {
    var r := w.runners[t];
    if r.row >= |w.db.rows| then w
    else if !available then Moved(w, t, Decided(FromRow(w.db, r.row, w.db.rows[r.row].action, summary)))
    else Moved(w.(launched := w.launched[t := r.row], launches := w.launches + [r.row]), t, Launched)
  }

  /** A completed outcome whose derived artifact is not admitted is only partial. */
  function SettleStep(w: World, t: Token, admitted: bool): World
    requires t in w.runners && w.runners[t].stage.Decided?
  {
    var o := w.runners[t].stage.outcome;
    var o' := if o.status.Completed? && !admitted then o.(status := Partial) else o;
    OrElse(w.(runners := w.runners - {t}), Settle(w.db, w.runners[t].row, t, o'))
  }

  /** harness_workbench_worker's own checks before it executes. */
  predicate CanWork(db: Db, i: nat, t: Token, now: int)
  {
    && i < |db.rows| && db.rows[i].runner == Some(t) && db.rows[i].deadline > now && !db.status.CancelledReport?
    && db.rows[i].action.dispatched && db.rows[i].action.publication.None?
  }

  function Run(w: World, es: seq<Event>): World
    decreases |es|
  {
    if es == [] then w else Run(Apply(w, es[0]), es[1..])
  }

  function Fresh(limits: Budget, owner: Token, now: int): World
  {
    World(Created(limits, owner, now), map[], map[], map[], [], {})
  }

  /* ---------- what every run keeps ---------- */

  /** Each runner's copy belongs to its row and was taken while the row was running. */
  ghost predicate Copy(w: World, t: Token)
    requires t in w.runners
  {
    var r := w.runners[t];
    && t in w.used && r.row < |w.db.rows| && r.local.status.Running?
    && r.local.request == w.db.rows[r.row].action.request
  }

  ghost predicate Copies(w: World)
  {
    && (forall t :: t in w.runners ==> Copy(w, t))
    && (forall t :: t in w.launched ==> w.launched[t] in w.launches)
    && (forall t :: t in w.working ==> w.working[t] in w.launches)
  }

  /** A row held by a runner is running, and a final status other than cancelled leaves no runner. */
  ghost predicate Held(db: Db)
  {
    && (forall i :: 0 <= i < |db.rows| && db.rows[i].runner.Some? ==> db.rows[i].action.status.Running?)
    && (Terminal(db.status) && !db.status.CancelledReport? ==> forall i :: 0 <= i < |db.rows| ==> db.rows[i].runner.None?)
  }

  /** Only workbench rows are dispatched, launches are of dispatched rows, publications of launched ones. */
  ghost predicate Launches(w: World)
  {
    && (forall i :: 0 <= i < |w.db.rows| && w.db.rows[i].action.dispatched ==> w.db.rows[i].action.request.backend.Workbench?)
    && (forall k :: 0 <= k < |w.launches| ==> w.launches[k] < |w.db.rows| && w.db.rows[w.launches[k]].action.dispatched)
    && Distinct(w.launches)
    && (forall i :: 0 <= i < |w.db.rows| && w.db.rows[i].action.publication.Some? ==> i in w.launches)
  }

  /** A runner about to launch is the only one, on a row never launched; a runner that may still
      mark its row holds an undispatched one. */
  ghost predicate Marking(w: World, t: Token)
    requires t in w.runners && w.runners[t].row < |w.db.rows|
  {
    var r := w.runners[t];
    var row := w.db.rows[r.row];
    && (r.local.dispatched ==> row.action.dispatched)
    && (r.stage.Marked? || r.stage.Launched? ==> row.action.dispatched)
    && (r.stage.Marked? ==> r.row !in w.launches)
    && (r.stage.Claimed? && !r.local.dispatched && row.runner == Some(t) ==> !row.action.dispatched)
  }

  ghost predicate Exclusive(w: World)
  {
    forall t, u :: t in w.runners && u in w.runners && w.runners[t].stage.Marked? && w.runners[u].stage.Marked? && t != u
      ==> w.runners[t].row != w.runners[u].row
  }

  /** A published row points at the one record of its origin, and a completed mutation is published. */
  ghost predicate Published(db: Db)
  {
    && (forall i :: 0 <= i < |db.rows| && db.rows[i].action.publication.Some? ==>
          db.rows[i].action.dispatched && Recoverable(db, i, db.rows[i].action))
    && (forall k :: 0 <= k < |db.records| && db.records[k].Some? ==>
          db.records[k].value.action < |db.rows|
          && db.rows[db.records[k].value.action].action.publication == Some(Publication(k, db.records[k].value)))
    && (forall i :: 0 <= i < |db.rows| && db.rows[i].action.request.backend.Workbench? && db.rows[i].action.status.Completed? ==>
          db.rows[i].action.publication.Some?)
  }

  ghost predicate Publishing(w: World, t: Token)
    requires t in w.runners && w.runners[t].row < |w.db.rows|
  {
    var r := w.runners[t];
    var row := w.db.rows[r.row];
    && (r.local.publication.Some? ==> row.action.publication == r.local.publication && r.local.dispatched)
    && (r.stage.Decided? && r.stage.outcome.status.Completed? && r.local.request.backend.Workbench? ==>
          row.action.publication.Some?)
  }

  ghost predicate Sound(w: World)
  {
    && Copies(w) && Held(w.db) && Launches(w) && Exclusive(w) && Published(w.db)
    && (forall t :: t in w.runners ==> Marking(w, t) && Publishing(w, t))
  }

  /* ---------- the kinds of step ---------- */

  /** Owner operations, heartbeats, outside knowledge and worker bookkeeping. */
  ghost predicate Quiet(w: World, w': World)
  {
    && |w'.db.rows| == |w.db.rows| && w'.runners == w.runners && w'.launches == w.launches && w'.used == w.used
    && (forall i :: 0 <= i < |w.db.rows| ==> w'.db.rows[i].action == w.db.rows[i].action && w'.db.rows[i].runner == w.db.rows[i].runner)
    && (w'.db.records == w.db.records || w'.db.records == w.db.records + [None])
    && (forall t :: t in w'.launched ==> t in w.launched && w'.launched[t] == w.launched[t])
    && (forall t :: t in w'.working ==> (t in w.working && w'.working[t] == w.working[t]) || (t in w.launched && w'.working[t] == w.launched[t]))
    && (w'.db.status == w.db.status || (!Terminal(w.db.status) && (w'.db.status.CancelledReport? || (Terminal(w'.db.status) && !Unsettled(w.db)))))
  }

  lemma QuietTables(w: World, w': World)
    requires Held(w.db) && Published(w.db) && Launches(w) && Quiet(w, w')
    ensures Held(w'.db) && Published(w'.db) && Launches(w')
    ensures Terminal(w.db.status) ==> w'.db.status == w.db.status
  {
    assert forall i :: 0 <= i < |w.db.rows| && Open(w.db.rows[i].action.status) ==> Unsettled(w.db);
  }

  lemma QuietSound(w: World, w': World)
    requires Sound(w) && Quiet(w, w')
    ensures Sound(w')
    ensures Terminal(w.db.status) ==> w'.db.status == w.db.status
  {
    hide Held, Published, Launches;
    QuietTables(w, w');
    forall u | u in w'.runners ensures Copy(w', u) && Marking(w', u) && Publishing(w', u)
    {
      assert Copy(w, u) && Marking(w, u) && Publishing(w, u);
    }
  }

  /** A runner has decided its outcome. */
  lemma DecidedSound(w: World, t: Token, o: Outcome)
    requires Sound(w) && t in w.runners
    requires o.status.Completed? && w.runners[t].local.request.backend.Workbench? ==>
               w.db.rows[w.runners[t].row].action.publication.Some?
    ensures Sound(Moved(w, t, Decided(o)))
  {
    var w' := Moved(w, t, Decided(o));
    forall u | u in w'.runners ensures Copy(w', u) && Marking(w', u) && Publishing(w', u)
    {
      assert Copy(w, u) && Marking(w, u) && Publishing(w, u);
    }
  }

  lemma RemovedSound(w: World, t: Token)
    requires Sound(w)
    ensures Sound(w.(runners := w.runners - {t}))
  {
    var w' := w.(runners := w.runners - {t});
    forall u | u in w'.runners ensures Copy(w', u) && Marking(w', u) && Publishing(w', u)
    {
      assert Copy(w, u) && Marking(w, u) && Publishing(w, u);
    }
  }

  lemma ProposeSound(w: World, r: Request, c: Call)
    requires Sound(w) && Propose(w.db, r, c).Some?
    ensures Sound(w.(db := Propose(w.db, r, c).value))
  {
    var w' := w.(db := Propose(w.db, r, c).value);
    forall u | u in w'.runners ensures Copy(w', u) && Marking(w', u) && Publishing(w', u)
    {
      assert Copy(w, u) && Marking(w, u) && Publishing(w, u);
    }
  }

  lemma ClaimTables(db: Db, i: nat, t: Token, c: Call)
    requires Held(db) && Published(db) && ClaimRun(db, i, t, c).Some?
    ensures Held(ClaimRun(db, i, t, c).value) && Published(ClaimRun(db, i, t, c).value)
  {
  }

  lemma ClaimLaunches(w: World, i: nat, t: Token, c: Call)
    requires Launches(w) && ClaimRun(w.db, i, t, c).Some? && t !in w.used
    ensures Launches(Apply(w, DoClaimRun(i, t, c)))
  {
  }

  lemma ClaimSound(w: World, i: nat, t: Token, c: Call)
    requires Sound(w) && ClaimRun(w.db, i, t, c).Some? && t !in w.used
    ensures Sound(Apply(w, DoClaimRun(i, t, c)))
  {
    hide Held, Published, Launches;
    var w' := Apply(w, DoClaimRun(i, t, c));
    ClaimTables(w.db, i, t, c);
    ClaimLaunches(w, i, t, c);
    ClaimRunners(w, i, t, c);
  }

  lemma ClaimRunners(w: World, i: nat, t: Token, c: Call)
    requires Sound(w) && ClaimRun(w.db, i, t, c).Some? && t !in w.used
    ensures var w' := Apply(w, DoClaimRun(i, t, c));
            forall u :: u in w'.runners ==> Copy(w', u) && Marking(w', u) && Publishing(w', u)
  {
    hide Held, Published, Exclusive;
    var w' := Apply(w, DoClaimRun(i, t, c));
    forall u | u in w'.runners ensures Copy(w', u) && Marking(w', u) && Publishing(w', u)
    {
      if u in w.runners { assert Copy(w, u) && Marking(w, u) && Publishing(w, u); }
    }
  }

  lemma MarkTables(db: Db, i: nat, t: Token, local: Action)
    requires Held(db) && Published(db) && MarkDispatch(db, i, t, local).Some?
    requires local.status.Running? && local.request == db.rows[i].action.request
    requires db.rows[i].action.publication.None? && local.publication.None?
    ensures Held(MarkDispatch(db, i, t, local).value) && Published(MarkDispatch(db, i, t, local).value)
  {
  }

  lemma MarkSound(w: World, t: Token)
    requires Sound(w) && t in w.runners && w.runners[t].stage.Claimed? && !w.runners[t].local.dispatched
    requires w.runners[t].local.request.backend.Workbench?
    requires MarkDispatch(w.db, w.runners[t].row, t, w.runners[t].local).Some?
    ensures Sound(Moved(w.(db := MarkDispatch(w.db, w.runners[t].row, t, w.runners[t].local).value), t, Marked))
  {
    hide Held, Published;
    var i := w.runners[t].row;
    var w' := Moved(w.(db := MarkDispatch(w.db, i, t, w.runners[t].local).value), t, Marked);
    assert Copy(w, t) && Marking(w, t) && Publishing(w, t);
    assert !w.db.rows[i].action.dispatched && i !in w.launches;
    MarkTables(w.db, i, t, w.runners[t].local);
    forall u | u in w'.runners ensures Copy(w', u) && Marking(w', u) && Publishing(w', u)
    {
      assert Copy(w, u) && Marking(w, u) && Publishing(w, u);
    }
  }

  lemma LaunchSound(w: World, t: Token)
    requires Sound(w) && t in w.runners && w.runners[t].stage.Marked?
    ensures var i := w.runners[t].row;
            Sound(Moved(w.(launched := w.launched[t := i], launches := w.launches + [i]), t, Launched))
  {
    var i := w.runners[t].row;
    var w' := Moved(w.(launched := w.launched[t := i], launches := w.launches + [i]), t, Launched);
    assert Copy(w, t) && Marking(w, t) && Publishing(w, t);
    forall u | u in w'.runners ensures Copy(w', u) && Marking(w', u) && Publishing(w', u)
    {
      assert Copy(w, u) && Marking(w, u) && Publishing(w, u);
    }
  }

  lemma PublishSound(w: World, i: nat, t: Token, now: int)
    requires Sound(w) && i < |w.db.rows| && i in w.launches && Publish(w.db, i, t, w.db.rows[i].action.request.digest, now).Some?
    ensures Sound(w.(db := Publish(w.db, i, t, w.db.rows[i].action.request.digest, now).value))
  {
    var w' := w.(db := Publish(w.db, i, t, w.db.rows[i].action.request.digest, now).value);
    forall u | u in w'.runners ensures Copy(w', u) && Marking(w', u) && Publishing(w', u)
    {
      assert Copy(w, u) && Marking(w, u) && Publishing(w, u);
    }
  }

  lemma SaveJobSound(w: World, t: Token)
    requires Sound(w) && t in w.runners && w.runners[t].local.request.backend.Static?
    ensures SaveJob(w.db, w.runners[t].row, w.runners[t].local).Some?
    ensures Sound(Moved(w.(db := SaveJob(w.db, w.runners[t].row, w.runners[t].local).value), t, JobSaved))
  {
    var w' := Moved(w.(db := SaveJob(w.db, w.runners[t].row, w.runners[t].local).value), t, JobSaved);
    assert Copy(w, t) && Marking(w, t) && Publishing(w, t);
    forall u | u in w'.runners ensures Copy(w', u) && Marking(w', u) && Publishing(w', u)
    {
      assert Copy(w, u) && Marking(w, u) && Publishing(w, u);
    }
  }

  lemma SettleTables(db: Db, i: nat, t: Token, o: Outcome)
    requires Held(db) && Published(db) && Settle(db, i, t, o).Some?
    requires o.status.Completed? && db.rows[i].action.request.backend.Workbench? ==> db.rows[i].action.publication.Some?
    ensures Held(Settle(db, i, t, o).value) && Published(Settle(db, i, t, o).value)
    ensures Terminal(db.status) ==> Settle(db, i, t, o).value.status == db.status
  {
  }

  lemma SettleSound(w: World, i: nat, t: Token, o: Outcome)
    requires Sound(w) && t !in w.runners && Settle(w.db, i, t, o).Some?
    requires o.status.Completed? && w.db.rows[i].action.request.backend.Workbench? ==> w.db.rows[i].action.publication.Some?
    ensures Sound(w.(db := Settle(w.db, i, t, o).value))
    ensures Terminal(w.db.status) ==> Settle(w.db, i, t, o).value.status == w.db.status
  {
    hide Held, Published;
    var w' := w.(db := Settle(w.db, i, t, o).value);
    SettleTables(w.db, i, t, o);
    forall u | u in w'.runners ensures Copy(w', u) && Marking(w', u) && Publishing(w', u)
    {
      assert Copy(w, u) && Marking(w, u) && Publishing(w, u);
    }
  }

  /* ---------- every step, every run ---------- */

  lemma RecoverableHasRecord(w: World, t: Token, a: Action, summary: ActionStatus)
    requires Sound(w) && t in w.runners
    requires a == w.runners[t].local || a == w.db.rows[w.runners[t].row].action
    ensures w.runners[t].row < |w.db.rows|
    ensures FromRow(w.db, w.runners[t].row, a, summary).status.Completed? ==>
              w.db.rows[w.runners[t].row].action.publication.Some?
  {
    assert Copy(w, t) && Publishing(w, t);
  }

  /** Owner operations, heartbeats and worker bookkeeping change no action and no runner. */
  predicate IsQuiet(e: Event)
  {
    e.DoHeartbeat? || e.DoWorkerStart? || e.DoWorkerCrash? || e.DoTakeOwnership? || e.DoRenew? || e.DoCancel?
    || e.DoRelease? || e.DoEdit? || e.DoFinish? || e.DoKnowledge?
  }

  lemma BeatEffect(w: World, e: Event)
    requires e.DoHeartbeat? || e.DoWorkerStart? || e.DoWorkerCrash?
    ensures Quiet(w, Apply(w, e))
  {
    hide HasRunner, Unsettled, Owned, MarkStep, LaunchStep, SettleStep, FromRow, Propose, ClaimRun, Publish;
  }

  lemma LeaseEffect(w: World, e: Event)
    requires e.DoTakeOwnership? || e.DoRenew? || e.DoRelease?
    ensures Quiet(w, Apply(w, e))
  {
    hide HasRunner, Unsettled, Owned, CanWork, MarkStep, LaunchStep, SettleStep, FromRow, Propose, ClaimRun, Publish;
  }

  lemma ReportEffect(w: World, e: Event)
    requires e.DoCancel? || e.DoEdit? || e.DoFinish? || e.DoKnowledge?
    ensures Quiet(w, Apply(w, e))
  {
    hide HasRunner, Owned, CanWork, MarkStep, LaunchStep, SettleStep, FromRow, Propose, ClaimRun, Publish, Unsettled;
  }

  lemma QuietEffect(w: World, e: Event)
    requires IsQuiet(e)
    ensures Quiet(w, Apply(w, e))
  {
    hide Quiet, Apply;
    if e.DoHeartbeat? || e.DoWorkerStart? || e.DoWorkerCrash? { BeatEffect(w, e); }
    else if e.DoTakeOwnership? || e.DoRenew? || e.DoRelease? { LeaseEffect(w, e); }
    else { ReportEffect(w, e); }
  }

  lemma MarkStepSound(w: World, t: Token, summary: ActionStatus)
    requires Sound(w) && t in w.runners && w.runners[t].stage.Claimed? && !w.runners[t].local.dispatched
    requires w.runners[t].local.request.backend.Workbench?
    ensures Sound(MarkStep(w, t, summary)) && MarkStep(w, t, summary).db.status == w.db.status
  {
    hide Sound;
    assert w.runners[t].row < |w.db.rows| by { RowExists(w, t); }
    var r := w.runners[t];
    RecoverableHasRecord(w, t, w.db.rows[r.row].action, summary);
    if w.db.status.CancelledReport? {
      DecidedSound(w, t, Outcome(Cancelled, false));
    } else if MarkDispatch(w.db, r.row, t, r.local).None? {
      DecidedSound(w, t, FromRow(w.db, r.row, w.db.rows[r.row].action, summary));
    } else {
      MarkSound(w, t);
    }
  }

  lemma RowExists(w: World, t: Token)
    requires Sound(w) && t in w.runners
    ensures w.runners[t].row < |w.db.rows|
  {
    assert Copy(w, t);
  }

  lemma WorkerRow(w: World, t: Token)
    requires Sound(w) && t in w.working
    ensures w.working[t] in w.launches && w.working[t] < |w.db.rows|
  {
  }

  lemma LaunchStepSound(w: World, t: Token, available: bool, summary: ActionStatus)
    requires Sound(w) && t in w.runners && w.runners[t].stage.Marked?
    ensures Sound(LaunchStep(w, t, available, summary)) && LaunchStep(w, t, available, summary).db == w.db
  {
    hide Sound;
    RowExists(w, t);
    if available {
      LaunchSound(w, t);
    } else {
      RecoverableHasRecord(w, t, w.db.rows[w.runners[t].row].action, summary);
      DecidedSound(w, t, FromRow(w.db, w.runners[t].row, w.db.rows[w.runners[t].row].action, summary));
    }
  }

  lemma SettleStepSound(w: World, t: Token, admitted: bool)
    requires Sound(w) && t in w.runners && w.runners[t].stage.Decided?
    ensures Sound(SettleStep(w, t, admitted))
    ensures Terminal(w.db.status) ==> SettleStep(w, t, admitted).db.status == w.db.status
  {
    var i, o := w.runners[t].row, w.runners[t].stage.outcome;
    assert Copy(w, t) && Publishing(w, t);
    hide Sound;
    var o' := if o.status.Completed? && !admitted then o.(status := Partial) else o;
    var w1 := w.(runners := w.runners - {t});
    RemovedSound(w, t);
    if Settle(w.db, i, t, o').Some? { SettleSound(w1, i, t, o'); }
  }

  /** Every step keeps the invariant, and every terminal status is absorbing: also a runner whose
      lease expired long ago cannot change it. */
  lemma StepSound(w: World, e: Event)
    requires Sound(w)
    ensures Sound(Apply(w, e))
    ensures Terminal(w.db.status) ==> Apply(w, e).db.status == w.db.status
  {
    hide Sound, Quiet, Propose, ClaimRun, Publish, SaveJob, Settle, FromRow, MarkStep, LaunchStep, SettleStep, CanWork, Heartbeat, TakeOwnership,
      Renew, Cancel, Release, Edit, Finish, PutKnowledge;
    if IsQuiet(e) {
      QuietEffect(w, e);
      QuietSound(w, Apply(w, e));
    } else {
      match e {
        case DoPropose(r, c) => if Propose(w.db, r, c).Some? { ProposeSound(w, r, c); ProposeStatus(w.db, r, c); }
        case DoClaimRun(i, t, c) => if ClaimRun(w.db, i, t, c).Some? && t !in w.used { ClaimSound(w, i, t, c); ClaimStatus(w.db, i, t, c); }
        case DoResume(t, summary) =>
          if t in w.runners {
            RecoverableHasRecord(w, t, w.runners[t].local, summary);
            DecidedSound(w, t, FromRow(w.db, w.runners[t].row, w.runners[t].local, summary));
          }
        case DoReject(t) => if t in w.runners { DecidedSound(w, t, Outcome(Failed, false)); }
        case DoMark(t, summary) => if Apply(w, e) != w { MarkStepSound(w, t, summary); }
        case DoLaunch(t, available, summary) => if Apply(w, e) != w { LaunchStepSound(w, t, available, summary); }
        case DoWorkerPublish(t, now) =>
          if Apply(w, e) != w {
            WorkerRow(w, t);
            PublishSound(w, w.working[t], t, now);
            PublishStatus(w.db, w.working[t], t, w.db.rows[w.working[t]].action.request.digest, now);
          }
        case DoCollect(t, summary) =>
          if Apply(w, e) != w {
            RecoverableHasRecord(w, t, w.db.rows[w.runners[t].row].action, summary);
            DecidedSound(w, t, FromRow(w.db, w.runners[t].row, w.db.rows[w.runners[t].row].action, summary));
          }
        case DoSaveJob(t) => if Apply(w, e) != w { SaveJobSound(w, t); SaveJobStatus(w.db, w.runners[t].row, w.runners[t].local); }
        case DoStaticResult(t, status) => if Apply(w, e) != w { DecidedSound(w, t, Outcome(status, false)); }
        case DoSettle(t, admitted) => if Apply(w, e) != w { SettleStepSound(w, t, admitted); }
        case DoCrash(t) => RemovedSound(w, t);
        case _ =>
      }
    }
  }

  lemma ProposeStatus(db: Db, r: Request, c: Call)
    requires Propose(db, r, c).Some?
    ensures Propose(db, r, c).value.status == db.status
  {
  }

  lemma ClaimStatus(db: Db, i: nat, t: Token, c: Call)
    requires ClaimRun(db, i, t, c).Some?
    ensures !Terminal(db.status)
  {
  }

  lemma PublishStatus(db: Db, i: nat, t: Token, d: Digest, now: int)
    requires Publish(db, i, t, d, now).Some?
    ensures Publish(db, i, t, d, now).value.status == db.status
  {
  }

  lemma SaveJobStatus(db: Db, i: nat, local: Action)
    requires SaveJob(db, i, local).Some?
    ensures SaveJob(db, i, local).value.status == db.status
  {
  }

  lemma {:induction false} RunSound(w: World, es: seq<Event>)
    requires Sound(w)
    ensures Sound(Run(w, es))
    ensures Terminal(w.db.status) ==> Run(w, es).db.status == w.db.status
    decreases |es|
  {
    hide Sound, Apply;
    if es != [] {
      StepSound(w, es[0]);
      RunSound(Apply(w, es[0]), es[1..]);
    }
  }

  /* ---------- the theorems ---------- */

  /** No action's mutation is ever launched twice, under any interleaving of runners, expired
      leases, takeovers and crashes. */
  lemma LaunchedOnce(limits: Budget, owner: Token, now: int, es: seq<Event>)
    ensures Distinct(Run(Fresh(limits, owner, now), es).launches)
  {
    RunSound(Fresh(limits, owner, now), es);
  }

  predicate OriginOf(db: Db, k: nat, i: nat)
  {
    k < |db.records| && db.records[k].Some? && db.records[k].value.action == i
  }

  /** A workbench action is completed only with a committed record of exactly its own origin, and
      that record is the only one any run ever commits for the action. */
  lemma CompletedIsPublished(limits: Budget, owner: Token, now: int, es: seq<Event>, i: nat)
    requires var db := Run(Fresh(limits, owner, now), es).db;
             i < |db.rows| && db.rows[i].action.request.backend.Workbench? && db.rows[i].action.status.Completed?
    ensures var db := Run(Fresh(limits, owner, now), es).db;
            && i in Run(Fresh(limits, owner, now), es).launches
            && (exists k :: 0 <= k < |db.records| && db.records[k] == Some(Origin(i, db.rows[i].action.request.digest)))
            && (forall m, k :: 0 <= m < |db.records| && 0 <= k < |db.records| && OriginOf(db, m, i) && OriginOf(db, k, i) ==> m == k)
  {
    var w := Run(Fresh(limits, owner, now), es);
    RunSound(Fresh(limits, owner, now), es);
    var p := w.db.rows[i].action.publication.value;
    assert w.db.records[p.record] == Some(Origin(i, w.db.rows[i].action.request.digest));
  }

  /** A terminal report status never changes again, whatever happens afterwards. */
  lemma TerminalIsFinal(limits: Budget, owner: Token, now: int, es: seq<Event>, later: seq<Event>)
    requires Terminal(Run(Fresh(limits, owner, now), es).db.status)
    ensures Run(Run(Fresh(limits, owner, now), es), later).db.status == Run(Fresh(limits, owner, now), es).db.status
  {
    RunSound(Fresh(limits, owner, now), es);
    RunSound(Run(Fresh(limits, owner, now), es), later);
  }

  /* ---------- publications are permanent ---------- */

  /** Every published row still points at the same record, and the record log only grew. */
  ghost predicate Retained(db: Db, db': Db)
  {
    && |db.rows| <= |db'.rows| && db.records <= db'.records
    && (forall i :: 0 <= i < |db.rows| && db.rows[i].action.publication.Some? ==>
          db'.rows[i].action.publication == db.rows[i].action.publication)
  }

  lemma TransactionsRetain(db: Db, i: nat, t: Token, c: Call, r: Request, o: Outcome)
    ensures Propose(db, r, c).Some? ==> Retained(db, Propose(db, r, c).value)
    ensures ClaimRun(db, i, t, c).Some? ==> Retained(db, ClaimRun(db, i, t, c).value)
    ensures Settle(db, i, t, o).Some? ==> Retained(db, Settle(db, i, t, o).value)
  {
    hide HasRunner, HasKey, Terminal, UncertainBefore, Repeats, Affordable, Charged, Owned;
  }

  lemma PublishRetains(db: Db, i: nat, t: Token, d: Digest, now: int)
    ensures Publish(db, i, t, d, now).Some? ==> Retained(db, Publish(db, i, t, d, now).value)
  {
  }

  /** Overwriting a row from a runner's copy loses nothing, because such a row is unpublished. */
  lemma MarkRetains(w: World, t: Token, summary: ActionStatus)
    requires Sound(w) && t in w.runners && w.runners[t].stage.Claimed? && !w.runners[t].local.dispatched
    ensures Retained(w.db, MarkStep(w, t, summary).db)
  {
    hide FromRow;
    assert Copy(w, t) && Marking(w, t) && Publishing(w, t);
  }

  lemma SaveJobRetains(w: World, t: Token)
    requires Sound(w) && t in w.runners && w.runners[t].local.request.backend.Static?
    ensures var d := SaveJob(w.db, w.runners[t].row, w.runners[t].local); d.Some? && Retained(w.db, d.value)
  {
    assert Copy(w, t) && Marking(w, t) && Publishing(w, t);
  }

  lemma StepRetains(w: World, e: Event)
    requires Sound(w)
    ensures Retained(w.db, Apply(w, e).db)
  {
    hide Sound, Propose, ClaimRun, Publish, Settle, MarkDispatch, SaveJob, HasRunner, Unsettled, CanWork, Terminal, FromRow;
    if IsQuiet(e) {
      QuietEffect(w, e);
    } else {
      match e {
        case DoPropose(r, c) => TransactionsRetain(w.db, 0, 0, c, r, Outcome(Failed, false));
        case DoClaimRun(i, t, c) => TransactionsRetain(w.db, i, t, c, Request(0, 0, 0, Static, 0, 0, 0, None), Outcome(Failed, false));
        case DoMark(t, summary) => if Apply(w, e) != w { MarkRetains(w, t, summary); }
        case DoSaveJob(t) => if Apply(w, e) != w { SaveJobRetains(w, t); }
        case DoWorkerPublish(t, now) =>
          if t in w.working && w.working[t] < |w.db.rows| {
            PublishRetains(w.db, w.working[t], t, w.db.rows[w.working[t]].action.request.digest, now);
          }
        case DoSettle(t, admitted) =>
          if Apply(w, e) != w {
            var o := w.runners[t].stage.outcome;
            var o' := if o.status.Completed? && !admitted then o.(status := Partial) else o;
            TransactionsRetain(w.db, w.runners[t].row, t, Call(0, 0, 0, false), Request(0, 0, 0, Static, 0, 0, 0, None), o');
          }
        case _ =>
      }
    }
  }

  lemma RetainedChain(a: Db, b: Db, c: Db)
    requires Retained(a, b) && Retained(b, c)
    ensures Retained(a, c)
  {
  }

  /** Once committed, a publication is part of its action for the rest of every run. */
  lemma {:induction false} PublicationIsPermanent(w: World, es: seq<Event>)
    requires Sound(w)
    ensures Retained(w.db, Run(w, es).db)
    decreases |es|
  {
    hide Sound, Apply, Retained;
    if es == [] {
      RetainedSelf(w.db);
    } else {
      StepSound(w, es[0]);
      StepRetains(w, es[0]);
      PublicationIsPermanent(Apply(w, es[0]), es[1..]);
      RetainedChain(w.db, Apply(w, es[0]).db, Run(w, es).db);
    }
  }

  lemma RetainedSelf(db: Db)
    ensures Retained(db, db)
  {
  }
}
