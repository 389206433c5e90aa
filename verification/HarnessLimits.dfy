/** When a settled action becomes unsettled again. Saving the job of a static action is not guarded
    by the runner, so a runner that lost its row long ago can still put back its running copy. */
module HarnessLimits {
  import opened Common
  import opened Harness
  import opened HarnessRuns

  /** A live process that has not yet saved the job of its static action. */
  predicate MaySaveJob(w: World, t: Token)
  {
    t in w.runners && w.runners[t].stage.Claimed? && w.runners[t].local.request.backend.Static?
  }

  ghost predicate Reopens(w: World, i: nat)
  {
    exists es :: var db := Run(w, es).db; i < |db.rows| && Open(db.rows[i].action.status)
  }

  ghost predicate Contradicted(w: World) { exists es :: Unsettled(Run(w, es).db) }

  /* ---------- one run ---------- */

  const STATIC_REQUEST := Request(0, 0, 0, Static, 0, 0, 0, None)
  const ONE_ACTION := Budget(1, 0, 0, 0, 0)

  /** Runner 1 claims the action and stalls past its lease, the owner still renewing its own; runner
      2 takes the row over and settles it, and the owner reports the answer. */
  const TAKEN_OVER: seq<Event> := [
    DoPropose(STATIC_REQUEST, Call(0, 1, 0, false)),
    DoClaimRun(0, 1, Call(0, 2, 0, false)),
    DoRenew(Call(0, 3, LEASE_MS - 1, false)),
    DoClaimRun(0, 2, Call(0, 3, LEASE_MS, false)),
    DoSaveJob(2),
    DoStaticResult(2, Completed),
    DoSettle(2, true),
    DoFinish(Call(0, 5, LEASE_MS, false), Answered)]

  lemma RunCons(w: World, es: seq<Event>, k: nat)
    requires k < |es|
    ensures Run(w, es[k..]) == Run(Apply(w, es[k]), es[k + 1..])
  {
    hide Apply;
    assert es[k..][1..] == es[k + 1..];
  }

  const COPY := Action(STATIC_REQUEST, Running, false, None, None, false)

  /** Runner 1 holds the row, and the owner's lease outlives the runner's. */
  ghost predicate Stalled(w: World)
  {
    && w.db.rows == [Row(COPY, Some(1), LEASE_MS)] && w.runners == map[1 := Runner(0, 0, COPY, Claimed)]
    && w.db.status == Active && w.db.revision == 3 && w.used == {1}
    && w.db.owner == Some(0) && w.db.ownerDeadline == 2 * LEASE_MS - 1
  }

  /** Runner 2 has settled the row while runner 1 is still alive. */
  ghost predicate Replaced(w: World)
  {
    && w.db.rows == [Row(COPY.(job := true, status := Completed, result := Some(Outcome(Completed, false))), None, 0)]
    && w.runners == map[1 := Runner(0, 0, COPY, Claimed)] && w.db.status == Ready && w.db.revision == 5
    && w.db.owner == Some(0) && w.db.ownerDeadline == 2 * LEASE_MS - 1
  }

  lemma FirstSteps() returns (w: World)
    ensures Run(Fresh(ONE_ACTION, 0, 0), TAKEN_OVER) == Run(w, TAKEN_OVER[3..]) && Stalled(w)
  {
    hide Run, MarkStep, LaunchStep, SettleStep, CanWork, FromRow, Publish;
    var w0 := Fresh(ONE_ACTION, 0, 0);
    assert TAKEN_OVER[0..] == TAKEN_OVER;
    RunCons(w0, TAKEN_OVER, 0);
    var w1 := Apply(w0, TAKEN_OVER[0]);
    RunCons(w1, TAKEN_OVER, 1);
    var w2 := Apply(w1, TAKEN_OVER[1]);
    RunCons(w2, TAKEN_OVER, 2);
    w := Apply(w2, TAKEN_OVER[2]);
  }

  lemma SecondClaim(w3: World) returns (w: World)
    requires Stalled(w3)
    ensures Run(w3, TAKEN_OVER[3..]) == Run(w, TAKEN_OVER[4..])
    ensures w == w3.(db := w3.db.(rows := [Row(COPY, Some(2), 2 * LEASE_MS)], revision := 4),
                     used := {1, 2}, runners := map[1 := Runner(0, 0, COPY, Claimed), 2 := Runner(0, 0, COPY, Claimed)])
  {
    hide Run, MarkStep, LaunchStep, CanWork, FromRow, Publish;
    RunCons(w3, TAKEN_OVER, 3);
    w := Apply(w3, TAKEN_OVER[3]);
  }

  lemma SecondSave(w3: World) returns (w: World)
    requires Stalled(w3)
    ensures Run(w3, TAKEN_OVER[3..]) == Run(w, TAKEN_OVER[5..])
    ensures w == w3.(db := w3.db.(rows := [Row(COPY.(job := true), Some(2), 2 * LEASE_MS)], revision := 4),
                     used := {1, 2}, runners := map[1 := Runner(0, 0, COPY, Claimed), 2 := Runner(0, 0, COPY, JobSaved)])
  {
    hide Run, MarkStep, LaunchStep, SettleStep, CanWork, FromRow, Publish, ClaimRun, Propose;
    var w4 := SecondClaim(w3);
    RunCons(w4, TAKEN_OVER, 4);
    w := Apply(w4, TAKEN_OVER[4]);
  }

  lemma Replacement(w3: World) returns (w: World)
    requires Stalled(w3)
    ensures Run(w3, TAKEN_OVER[3..]) == Run(w, TAKEN_OVER[7..]) && Replaced(w)
  {
    hide Run, MarkStep, LaunchStep, CanWork, FromRow, Publish, ClaimRun, Propose;
    var w5 := SecondSave(w3);
    RunCons(w5, TAKEN_OVER, 5);
    var w6 := Apply(w5, TAKEN_OVER[5]);
    RunCons(w6, TAKEN_OVER, 6);
    w := Apply(w6, TAKEN_OVER[6]);
    assert w.runners.Keys == {1};
  }

  lemma Reported(w7: World) returns (w: World)
    requires Replaced(w7)
    ensures Run(w7, TAKEN_OVER[7..]) == w && w == w7.(db := w7.db.(status := Answered, revision := 6))
  {
    hide Run, MarkStep, LaunchStep, SettleStep, CanWork, FromRow, Publish, ClaimRun, Propose;
    RunCons(w7, TAKEN_OVER, 7);
    w := Apply(w7, TAKEN_OVER[7]);
    RunNone(w, TAKEN_OVER[8..]);
  }

  /** Every action was settled when the answer was reported, and then runner 1 saves its job. */
  lemma LateSave()
    ensures var w := Run(Fresh(ONE_ACTION, 0, 0), TAKEN_OVER);
            && w.db.status == Answered && !Unsettled(w.db)
            && Apply(w, DoSaveJob(1)).db.status == Answered && Unsettled(Apply(w, DoSaveJob(1)).db)
  {
    hide Run, Stalled, MarkStep, LaunchStep, SettleStep, CanWork, FromRow, Publish, ClaimRun, Propose, Finish;
    var w3 := FirstSteps();
    var w7 := Replacement(w3);
    var w8 := Reported(w7);
    assert Open(Apply(w8, DoSaveJob(1)).db.rows[0].action.status);
  }

  lemma RunNone(w: World, es: seq<Event>)
    requires es == []
    ensures Run(w, es) == w
  {
  }

  /* ---------- exactly when ---------- */

  /** A settled row without a runner, after a final report, that no live process can put back. */
  ghost predicate Closed(w: World, i: nat)
  {
    && Terminal(w.db.status) && i < |w.db.rows|
    && !Open(w.db.rows[i].action.status) && w.db.rows[i].runner.None?
    && (forall t :: MaySaveJob(w, t) ==> w.runners[t].row != i)
  }

  /** A step that leaves the row alone and starts no static runner. */
  ghost predicate Aside(w: World, w': World, i: nat)
    requires i < |w.db.rows|
  {
    && w'.db.status == w.db.status && |w'.db.rows| == |w.db.rows|
    && w'.db.rows[i].runner == w.db.rows[i].runner && w'.db.rows[i].action.status == w.db.rows[i].action.status
    && (forall t :: MaySaveJob(w', t) ==> MaySaveJob(w, t) && w'.runners[t].row == w.runners[t].row)
  }

  lemma RunnerAside(w: World, e: Event, i: nat)
    requires Held(w.db) && Closed(w, i) && (e.DoMark? || e.DoLaunch? || e.DoSettle?)
    ensures Aside(w, Apply(w, e), i)
  {
    hide HasRunner, Unsettled, CanWork, FromRow, Quiet;
  }

  lemma OtherAside(w: World, e: Event, i: nat)
    requires Closed(w, i) && !IsQuiet(e) && !e.DoMark? && !e.DoLaunch? && !e.DoSettle?
    ensures Aside(w, Apply(w, e), i)
  {
    hide HasRunner, Unsettled, HasKey, UncertainBefore, Repeats, Affordable, Charged, Owned, FromRow, MarkStep, LaunchStep, SettleStep;
  }

  lemma ClosedStep(w: World, e: Event, i: nat)
    requires Held(w.db) && Closed(w, i)
    ensures Closed(Apply(w, e), i) && |Apply(w, e).db.rows| == |w.db.rows|
  {
    hide Apply;
    if IsQuiet(e) { QuietEffect(w, e); }
    else if e.DoMark? || e.DoLaunch? || e.DoSettle? { RunnerAside(w, e, i); }
    else { OtherAside(w, e, i); }
    assert Aside(w, Apply(w, e), i);
  }

  lemma {:induction false} ClosedRun(w: World, es: seq<Event>, i: nat)
    requires Sound(w) && Closed(w, i)
    ensures Closed(Run(w, es), i) && |Run(w, es).db.rows| == |w.db.rows|
    decreases |es|
  {
    hide Closed, Apply, Sound, Held;
    if es != [] {
      StepSound(w, es[0]);
      assert Held(w.db) by { HeldOf(w); }
      ClosedStep(w, es[0], i);
      ClosedRun(Apply(w, es[0]), es[1..], i);
    }
  }

  /** After a final report, also a cancellation, a settled action becomes unsettled in some
      continuation exactly when a live runner that claimed it has not yet saved its static job. */
  lemma SettledReopens(w: World, i: nat)
    requires Sound(w) && Terminal(w.db.status) && i < |w.db.rows| && !Open(w.db.rows[i].action.status)
    ensures Reopens(w, i) <==> exists t :: MaySaveJob(w, t) && w.runners[t].row == i
  {
    if t :| MaySaveJob(w, t) && w.runners[t].row == i {
      hide Sound;
      assert Copy(w, t);
      OneStep(w, DoSaveJob(t));
      var db := Run(w, [DoSaveJob(t)]).db;
      assert i < |db.rows| && Open(db.rows[i].action.status);
    } else {
      assert Closed(w, i);
      forall es ensures var db := Run(w, es).db; !(i < |db.rows| && Open(db.rows[i].action.status))
      {
        ClosedRun(w, es, i);
      }
    }
  }

  lemma HeldOf(w: World)
    requires Sound(w)
    ensures Held(w.db)
  {
  }

  lemma OneStep(w: World, e: Event)
    ensures Run(w, [e]) == Apply(w, e)
  {
    hide Apply;
    assert Run(Apply(w, e), [e][1..]) == Apply(w, e);
  }

  lemma {:induction false} NoNewRows(w: World, es: seq<Event>)
    requires Sound(w) && Terminal(w.db.status)
    ensures |Run(w, es).db.rows| == |w.db.rows|
    decreases |es|
  {
    hide Sound, Apply;
    if es != [] {
      StepSound(w, es[0]);
      RowsKept(w, es[0]);
      NoNewRows(Apply(w, es[0]), es[1..]);
    }
  }

  lemma RowsKept(w: World, e: Event)
    requires Terminal(w.db.status)
    ensures |Apply(w, e).db.rows| == |w.db.rows|
  {
    hide HasRunner, Unsettled, HasKey, UncertainBefore, Repeats, Affordable, Charged, Owned, CanWork, FromRow, Recoverable;
  }

  lemma RowSettled(db: Db, i: nat)
    requires !Unsettled(db) && i < |db.rows|
    ensures !Open(db.rows[i].action.status)
  {
  }

  lemma SomeRowReopens(w: World)
    requires Sound(w) && Terminal(w.db.status)
    ensures Contradicted(w) <==> exists i: nat :: i < |w.db.rows| && Reopens(w, i)
  {
    hide Sound, Apply, Run;
    if i: nat :| i < |w.db.rows| && Reopens(w, i) {
      var es :| var db := Run(w, es).db; i < |db.rows| && Open(db.rows[i].action.status);
      assert Unsettled(Run(w, es).db);
    } else if Contradicted(w) {
      var es :| Unsettled(Run(w, es).db);
      NoNewRows(w, es);
      var db := Run(w, es).db;
      var i: nat :| i < |db.rows| && Open(db.rows[i].action.status);
      assert Reopens(w, i);
    }
  }

  /** So a final report over settled actions can be contradicted exactly in that case. */
  lemma ReportReopens(w: World)
    requires Sound(w) && Terminal(w.db.status) && !Unsettled(w.db)
    ensures Contradicted(w) <==> exists t :: MaySaveJob(w, t)
  {
    hide Sound, Reopens, Contradicted, Unsettled;
    SomeRowReopens(w);
    if t :| MaySaveJob(w, t) {
      RowExists(w, t);
      RowSettled(w.db, w.runners[t].row);
      SettledReopens(w, w.runners[t].row);
    } else if i: nat :| i < |w.db.rows| && Reopens(w, i) {
      RowSettled(w.db, i);
      SettledReopens(w, i);
    }
  }

  /* ---------- one mutation, from proposal to report ---------- */

  const MUTATION := Request(0, 0, 7, Workbench, 0, 0, 0, None)

  const MUTATED: seq<Event> := [
    DoPropose(MUTATION, Call(0, 1, 0, false)),
    DoClaimRun(0, 1, Call(0, 2, 0, false)),
    DoMark(1, Failed),
    DoLaunch(1, true, Failed),
    DoWorkerStart(1, 1),
    DoWorkerPublish(1, 2),
    DoCollect(1, Completed),
    DoSettle(1, true),
    DoFinish(Call(0, 4, 3, false), Answered)]

  /** The row, with what its runner and its worker have done so far. */
  function MutationRow(dispatched: bool, publication: Option<Publication>): Row
  {
    Row(Action(MUTATION, Running, dispatched, publication, None, false), Some(1), LEASE_MS)
  }

  const LINKED := Publication(0, Origin(0, 7))

  /** The investigation while the mutation runs. */
  ghost predicate Underway(w: World, row: Row, stage: Stage)
  {
    && w.db == Created(ONE_ACTION, 0, 0).(status := Active, revision := 3, reserved := ONE_ACTION, rows := [row])
    && w.runners == map[1 := Runner(0, 0, MutationRow(false, None).action, stage)] && w.working == map[]
  }

  lemma Claiming() returns (w: World)
    ensures Run(Fresh(ONE_ACTION, 0, 0), MUTATED) == Run(w, MUTATED[2..])
    ensures Underway(w, MutationRow(false, None), Claimed) && w.launched == map[] && w.launches == []
  {
    hide Run, SettleStep, CanWork, FromRow, Publish, MarkStep, LaunchStep;
    var w0 := Fresh(ONE_ACTION, 0, 0);
    assert MUTATED[0..] == MUTATED;
    RunCons(w0, MUTATED, 0);
    var w1 := Apply(w0, MUTATED[0]);
    RunCons(w1, MUTATED, 1);
    w := Apply(w1, MUTATED[1]);
  }

  lemma Dispatching(w2: World) returns (w: World)
    requires Underway(w2, MutationRow(false, None), Claimed) && w2.launched == map[] && w2.launches == []
    ensures Run(w2, MUTATED[2..]) == Run(w, MUTATED[4..])
    ensures Underway(w, MutationRow(true, None), Launched) && w.launched == map[1 := 0] && w.launches == [0]
  {
    hide Run, SettleStep, CanWork, FromRow, Publish, ClaimRun, Propose;
    RunCons(w2, MUTATED, 2);
    var w3 := Apply(w2, MUTATED[2]);
    RunCons(w3, MUTATED, 3);
    w := Apply(w3, MUTATED[3]);
  }

  lemma Starting(w4: World) returns (w: World)
    requires Underway(w4, MutationRow(true, None), Launched) && w4.launched == map[1 := 0]
    ensures Run(w4, MUTATED[4..]) == Run(w, MUTATED[5..]) && w == w4.(launched := map[], working := map[1 := 0])
  {
    hide Run, SettleStep, MarkStep, LaunchStep, ClaimRun, Propose, Publish, FromRow;
    RunCons(w4, MUTATED, 4);
    w := Apply(w4, MUTATED[4]);
    assert w.launched.Keys == {};
  }

  lemma Working(w4: World) returns (w: World)
    requires Underway(w4, MutationRow(true, None), Launched) && w4.launched == map[1 := 0]
    ensures Run(w4, MUTATED[4..]) == Run(w, MUTATED[7..]) && w.launches == w4.launches
    ensures w.db == w4.db.(rows := [MutationRow(true, Some(LINKED))], records := [Some(Origin(0, 7))])
    ensures w.runners == map[1 := Runner(0, 0, MutationRow(false, None).action, Decided(Outcome(Completed, false)))]
  {
    hide Run, SettleStep, MarkStep, LaunchStep, ClaimRun, Propose, CanWork;
    var w5 := Starting(w4);
    RunCons(w5, MUTATED, 5);
    var w6 := Apply(w5, MUTATED[5]);
    RunCons(w6, MUTATED, 6);
    w := Apply(w6, MUTATED[6]);
  }

  /** A mutation runs once, is published, completes, and the answer is reported. */
  lemma MutationCompletes()
    ensures var w := Run(Fresh(ONE_ACTION, 0, 0), MUTATED);
            && w.db.status == Answered && w.launches == [0] && w.db.records == [Some(Origin(0, 7))]
            && w.db.rows == [Row(Action(MUTATION, Completed, true, Some(LINKED), Some(Outcome(Completed, false)), false), None, 0)]
  {
    hide Run, MarkStep, LaunchStep, CanWork, FromRow, Publish, ClaimRun, Propose;
    var w2 := Claiming();
    var w4 := Dispatching(w2);
    var w7 := Working(w4);
    RunCons(w7, MUTATED, 7);
    var w8 := Apply(w7, MUTATED[7]);
    RunCons(w8, MUTATED, 8);
    var w9 := Apply(w8, MUTATED[8]);
    RunNone(w9, MUTATED[9..]);
  }
}
