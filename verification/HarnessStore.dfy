/** The harness transactions as they are written: queries are loops over the action table, and the
    investigation and action rows are updated in place (src/harness.cpp). */
module HarnessStore {
  import opened Common
  import opened Harness

  class Store {
    var status: Status
    var revision: nat
    var owner: Option<Token>
    var ownerDeadline: int
    var limits: Budget
    var reserved: Budget
    var rows: seq<Row>
    var records: seq<Option<Origin>>

    ghost function Value(): Db
      reads this
    {
      Db(status, revision, owner, ownerDeadline, limits, reserved, rows, records)
    }

    /** The stored state after a transaction: committed, or rolled back. */
    ghost predicate After(before: Db, d: Option<Db>, ok: bool)
      reads this
    {
      ok == d.Some? && Value() == if d.Some? then d.value else before
    }

    constructor (limits: Budget, token: Token, now: int)
      ensures Value() == Created(limits, token, now)
    {
      status, revision, owner, ownerDeadline := Ready, 1, Some(token), now + LEASE_MS;
      this.limits, reserved, rows, records := limits, Budget(0, 0, 0, 0, 0), [], [];
    }

    /* ---------- queries ---------- */

    method Running(now: int, controller: bool) returns (found: bool)
      ensures found == HasRunner(Value(), now, controller)
    {
      if controller { return true; }
      for i := 0 to |rows|
        invariant forall j :: 0 <= j < i ==> !(rows[j].runner.Some? && rows[j].deadline > now)
      {
        if rows[i].runner.Some? && rows[i].deadline > now { return true; }
      }
      return false;
    }

    method FindUnsettled() returns (found: bool)
      ensures found == Unsettled(Value())
    {
      for i := 0 to |rows|
        invariant forall j :: 0 <= j < i ==> !Open(rows[j].action.status)
      {
        if Open(rows[i].action.status) { return true; }
      }
      return false;
    }

    method FindKey(key: nat) returns (found: bool)
      ensures found == HasKey(Value(), key)
    {
      for i := 0 to |rows|
        invariant forall j :: 0 <= j < i ==> rows[j].action.request.key != key
      {
        if rows[i].action.request.key == key { return true; }
      }
      return false;
    }

    method FindUncertain(d: Digest) returns (found: bool)
      ensures found == UncertainBefore(Value(), d)
    {
      for i := 0 to |rows|
        invariant forall j :: 0 <= j < i ==> !(rows[j].action.request.digest == d && UnknownOutcome(rows[j].action))
      {
        if rows[i].action.request.digest == d && UnknownOutcome(rows[i].action) { return true; }
      }
      return false;
    }

    method CountRepeats(d: Digest) returns (n: nat)
      ensures n == Repeats(Value().rows, d)
    {
      n := 0;
      for i := 0 to |rows|
        invariant n == Repeats(rows[..i], d)
      {
        assert rows[..i + 1][..i] == rows[..i];
        if rows[i].action.request.digest == d { n := n + 1; }
      }
      assert rows[..|rows|] == rows;
    }

    /* ---------- action execution ---------- */

    method StartAction(i: nat, runner: Token, c: Call) returns (ok: bool)
      modifies this
      ensures After(old(Value()), ClaimRun(old(Value()), i, runner, c), ok)
    {
      if i >= |rows| || owner != Some(c.token) || ownerDeadline <= c.now { return false; }
      if Finished(rows[i].action) || Terminal(status) { return false; }
      var busy := Running(c.now, c.controller);
      if busy || c.revision != revision { return false; }
      rows := rows[i := Row(rows[i].action.(status := ActionStatus.Running), Some(runner), c.now + LEASE_MS)];
      status := Active;
      revision := revision + 1;
      return true;
    }

    method Beat(i: nat, runner: Token, token: Token, now: int) returns (ok: bool)
      modifies this
      ensures After(old(Value()), Heartbeat(old(Value()), i, runner, token, now), ok)
    {
      if i >= |rows| || rows[i].runner != Some(runner) { return false; }
      rows := rows[i := rows[i].(deadline := now + LEASE_MS)];
      if owner == Some(token) { ownerDeadline := now + LEASE_MS; }
      return true;
    }

    method Dispatch(i: nat, runner: Token, local: Action) returns (ok: bool)
      modifies this
      ensures After(old(Value()), MarkDispatch(old(Value()), i, runner, local), ok)
    {
      if i >= |rows| || rows[i].runner != Some(runner) { return false; }
      rows := rows[i := rows[i].(action := local.(dispatched := true))];
      return true;
    }

    method SaveAction(i: nat, local: Action) returns (ok: bool)
      modifies this
      ensures After(old(Value()), SaveJob(old(Value()), i, local), ok)
    {
      if i >= |rows| { return false; }
      rows := rows[i := rows[i].(action := local.(job := true))];
      return true;
    }

    method LinkPublication(i: nat, runner: Token, digest: Digest, now: int) returns (ok: bool)
      modifies this
      ensures After(old(Value()), Publish(old(Value()), i, runner, digest, now), ok)
    {
      if i >= |rows| || rows[i].runner != Some(runner) || rows[i].deadline <= now { return false; }
      var a := rows[i].action;
      if a.request.digest != digest || !a.dispatched || a.publication.Some? || !a.request.backend.Workbench? { return false; }
      var origin := Origin(i, digest);
      a := a.(publication := Some(Publication(|records|, origin)));
      records := records + [Some(origin)];
      rows := rows[i := rows[i].(action := a)];
      return true;
    }

    method SettleAction(i: nat, runner: Token, o: Outcome) returns (ok: bool)
      modifies this
      ensures After(old(Value()), Settle(old(Value()), i, runner, o), ok)
    {
      if i >= |rows| || rows[i].runner != Some(runner) { return false; }
      var a := rows[i].action.(status := o.status);
      if !o.status.WaitingForJob? { a := a.(result := Some(o)); }
      rows := rows[i := Row(a, None, 0)];
      if !status.CancelledReport? { status := if o.status.WaitingForJob? then Waiting else Ready; }
      revision := revision + 1;
      return true;
    }

    /* ---------- owner operations ---------- */

    method Claim(token: Token, c: Call) returns (ok: bool)
      modifies this
      ensures After(old(Value()), TakeOwnership(old(Value()), token, c), ok)
    {
      if c.revision != revision { return false; }
      var busy := Running(c.now, c.controller);
      if ownerDeadline > c.now || busy { return false; }
      owner, ownerDeadline := Some(token), c.now + LEASE_MS;
      revision := revision + 1;
      return true;
    }

    method RenewLease(c: Call) returns (ok: bool)
      modifies this
      ensures After(old(Value()), Renew(old(Value()), c), ok)
    {
      if owner != Some(c.token) || ownerDeadline <= c.now { return false; }
      ownerDeadline := c.now + LEASE_MS;
      return true;
    }

    method CancelInvestigation(c: Call) returns (ok: bool)
      modifies this
      ensures After(old(Value()), Cancel(old(Value()), c), ok)
    {
      if owner != Some(c.token) || ownerDeadline <= c.now || Terminal(status) { return false; }
      status := CancelledReport;
      revision := revision + 1;
      return true;
    }

    method ReleaseOwner(c: Call) returns (ok: bool)
      modifies this
      ensures After(old(Value()), Release(old(Value()), c), ok)
    {
      if owner != Some(c.token) || ownerDeadline <= c.now || c.revision != revision { return false; }
      var busy := Running(c.now, c.controller);
      if busy { return false; }
      var pending := FindUnsettled();
      if pending && !status.CancelledReport? { return false; }
      owner, ownerDeadline := None, 0;
      revision := revision + 1;
      return true;
    }

    method FinishInvestigation(c: Call, report: Status) returns (ok: bool)
      modifies this
      ensures After(old(Value()), Finish(old(Value()), c, report), ok)
    {
      if owner != Some(c.token) || ownerDeadline <= c.now || c.revision != revision { return false; }
      var busy := Running(c.now, c.controller);
      if busy || Terminal(status) { return false; }
      var pending := FindUnsettled();
      if pending || !Terminal(report) || report.CancelledReport? { return false; }
      status := report;
      revision := revision + 1;
      return true;
    }

    /** The reservation is charged on a copy while the checks still run, and stored with the action. */
    method ProposeAction(r: Request, c: Call) returns (ok: bool)
      modifies this
      ensures After(old(Value()), Propose(old(Value()), r, c), ok)
    {
      if owner != Some(c.token) || ownerDeadline <= c.now { return false; }
      var busy := Running(c.now, c.controller);
      if busy || Terminal(status) { return false; }
      var known := FindKey(r.key);
      if known || c.revision != revision { return false; }
      if r.backend.Workbench? {
        var unknown := FindUncertain(r.digest);
        if unknown { return false; }
      }
      var repeats := CountRepeats(r.digest);
      if repeats >= MAX_REPEATS { return false; }
      var used := reserved;
      if r.derived.Some? {
        used := used.(derivedCount := used.derivedCount + 1, derivedBytes := used.derivedBytes + r.derived.value);
        if used.derivedCount > limits.derivedCount || used.derivedBytes > limits.derivedBytes { return false; }
      }
      if r.wall > MAX_WALL_MS || r.memory > MAX_MEMORY || used.actions >= limits.actions
         || used.wall + r.wall > limits.wall || used.output + r.output > limits.output { return false; }
      used := used.(wall := used.wall + r.wall, output := used.output + r.output, actions := used.actions + 1);
      reserved := used;
      rows := rows + [Row(Action(r, Proposed, false, None, None, false), None, 0)];
      revision := revision + 1;
      return true;
    }
  }
}
