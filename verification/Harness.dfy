/** The investigation tables and their transactions (src/harness.cpp, src/workbench_publication.hpp).
    Each function is one transaction; `None` is an exception or a return that changes nothing. */
module Harness {
  import opened Common

  type Token = nat
  type Digest = nat

  const LEASE_MS := 60000
  const MAX_WALL_MS := 120000
  const MAX_MEMORY := 0x8000_0000
  const MAX_REPEATS := 3

  datatype Backend = Workbench | Static

  /** A normalized request with its idempotency key; `derived` is a derived-artifact reservation in bytes. */
  datatype Request = Request(key: nat, proposal: nat, digest: Digest, backend: Backend,
                             wall: nat, output: nat, memory: nat, derived: Option<nat>)

  datatype ActionStatus = Proposed | Running | WaitingForJob | Completed | Partial | Interrupted | Failed | Cancelled

  datatype Outcome = Outcome(status: ActionStatus, unknown: bool)

  /** Identifies the action and request that a knowledge record was published for. */
  datatype Origin = Origin(action: nat, digest: Digest)

  datatype Publication = Publication(record: nat, origin: Origin)

  datatype Action = Action(request: Request, status: ActionStatus, dispatched: bool,
                           publication: Option<Publication>, result: Option<Outcome>, job: bool)

  datatype Row = Row(action: Action, runner: Option<Token>, deadline: int)

  datatype Status = Ready | Active | Waiting
    | Answered | PartialReport | BudgetExhausted | Unsupported | EnvironmentUnavailable
    | Contradictory | CapabilityBlocked | FailedReport | CancelledReport

  datatype Budget = Budget(actions: nat, wall: nat, output: nat, derivedCount: nat, derivedBytes: nat)

  /** One investigation, its actions in insertion order, and the knowledge log with the origin of
      each record (`None` for records published outside a harness action). */
  datatype Db = Db(status: Status, revision: nat, owner: Option<Token>, ownerDeadline: int,
                   limits: Budget, reserved: Budget, rows: seq<Row>, records: seq<Option<Origin>>)

  predicate Terminal(s: Status) { !s.Ready? && !s.Active? && !s.Waiting? }

  predicate Open(s: ActionStatus) { s.Proposed? || s.Running? || s.WaitingForJob? }

  predicate Owned(db: Db, token: Token, now: int) { db.owner == Some(token) && db.ownerDeadline > now }

  /** `running`: the model controller, or a live action runner. */
  predicate HasRunner(db: Db, now: int, controller: bool)
  {
    controller || exists i :: 0 <= i < |db.rows| && db.rows[i].runner.Some? && db.rows[i].deadline > now
  }

  predicate Unsettled(db: Db) { exists i :: 0 <= i < |db.rows| && Open(db.rows[i].action.status) }

  function Saved(db: Db): Db { db.(revision := db.revision + 1) }

  /** The caller's view of an investigation when it asks for a transaction. */
  datatype Call = Call(token: Token, revision: nat, now: int, controller: bool)

  /* ---------- action execution ---------- */

  predicate Finished(a: Action)
  {
    a.result.Some? && !(a.result.value.unknown && a.publication.Some?)
  }

  /** run_action, first transaction: take the row for `runner`. */
  function ClaimRun(db: Db, i: nat, runner: Token, c: Call): Option<Db>
  {
    if i >= |db.rows| || !Owned(db, c.token, c.now) || Finished(db.rows[i].action) || Terminal(db.status)
       || HasRunner(db, c.now, c.controller) || c.revision != db.revision then None
    else
      var a := db.rows[i].action.(status := Running);
      Some(Saved(db.(rows := db.rows[i := Row(a, Some(runner), c.now + LEASE_MS)], status := Active)))
  }

  /** The execution heartbeat extends the runner's row and its owner's lease. */
  function Heartbeat(db: Db, i: nat, runner: Token, token: Token, now: int): Option<Db>
  {
    if i >= |db.rows| || db.rows[i].runner != Some(runner) then None
    else
      var d := db.(rows := db.rows[i := db.rows[i].(deadline := now + LEASE_MS)]);
      Some(if d.owner == Some(token) then d.(ownerDeadline := now + LEASE_MS) else d)
  }

  /** Marking a workbench action as dispatched, guarded by the runner. */
  function MarkDispatch(db: Db, i: nat, runner: Token, local: Action): Option<Db>
  {
    if i >= |db.rows| || db.rows[i].runner != Some(runner) then None
    else Some(db.(rows := db.rows[i := db.rows[i].(action := local.(dispatched := true))]))
  }

  /** Saving the job of a static action: not guarded by the runner. */
  function SaveJob(db: Db, i: nat, local: Action): Option<Db>
  {
    if i >= |db.rows| then None
    else Some(db.(rows := db.rows[i := db.rows[i].(action := local.(job := true))]))
  }

  /** A worker's knowledge publication: the record and the action's pointer commit together. */
  function Publish(db: Db, i: nat, runner: Token, digest: Digest, now: int): Option<Db>
  {
    if i >= |db.rows| || db.rows[i].runner != Some(runner) || db.rows[i].deadline <= now
       || db.rows[i].action.request.digest != digest || !db.rows[i].action.dispatched
       || db.rows[i].action.publication.Some? || !db.rows[i].action.request.backend.Workbench? then None
    else
      var p := Publication(|db.records|, Origin(i, digest));
      Some(db.(records := db.records + [Some(p.origin)],
               rows := db.rows[i := db.rows[i].(action := db.rows[i].action.(publication := Some(p)))]))
  }

  /** recover_harness_publication: the exact committed record of this action. */
  predicate Recoverable(db: Db, i: nat, a: Action)
  {
    && a.publication.Some? && a.publication.value.origin == Origin(i, a.request.digest) && a.request.backend.Workbench?
    && a.publication.value.record < |db.records|
    && db.records[a.publication.value.record] == Some(a.publication.value.origin)
  }

  /** run_action, last transaction: record the outcome and give the row up, guarded by the runner. */
  function Settle(db: Db, i: nat, runner: Token, o: Outcome): Option<Db>
  {
    if i >= |db.rows| || db.rows[i].runner != Some(runner) then None
    else
      var a := db.rows[i].action.(status := o.status);
      var b := if o.status.WaitingForJob? then a else a.(result := Some(o));
      var d := db.(rows := db.rows[i := Row(b, None, 0)]);
      Some(Saved(if d.status.CancelledReport? then d else d.(status := if o.status.WaitingForJob? then Waiting else Ready)))
  }

  /* ---------- owner operations ---------- */

  /** claim: a new owner after the old lease ran out. */
  function TakeOwnership(db: Db, token: Token, c: Call): Option<Db>
  {
    if c.revision != db.revision || db.ownerDeadline > c.now || HasRunner(db, c.now, c.controller) then None
    else Some(Saved(db.(owner := Some(token), ownerDeadline := c.now + LEASE_MS)))
  }

  function Renew(db: Db, c: Call): Option<Db>
  {
    if !Owned(db, c.token, c.now) then None else Some(db.(ownerDeadline := c.now + LEASE_MS))
  }

  function Cancel(db: Db, c: Call): Option<Db>
  {
    if !Owned(db, c.token, c.now) || Terminal(db.status) then None
    else Some(Saved(db.(status := CancelledReport)))
  }

  /** release and transfer. */
  function Release(db: Db, c: Call): Option<Db>
  {
    if !Owned(db, c.token, c.now) || c.revision != db.revision || HasRunner(db, c.now, c.controller)
       || (Unsettled(db) && !db.status.CancelledReport?) then None
    else Some(Saved(db.(owner := None, ownerDeadline := 0)))
  }

  /** checkpoint, reason and harness_certify change only parts of the record outside this model. */
  function Edit(db: Db, c: Call, certify: bool): Option<Db>
  {
    if !Owned(db, c.token, c.now) || c.revision != db.revision || HasRunner(db, c.now, c.controller)
       || Terminal(db.status) || (certify && Unsettled(db)) then None
    else Some(Saved(db))
  }

  function Finish(db: Db, c: Call, status: Status): Option<Db>
  {
    if !Owned(db, c.token, c.now) || c.revision != db.revision || HasRunner(db, c.now, c.controller)
       || Terminal(db.status) || Unsettled(db) || !Terminal(status) || status.CancelledReport? then None
    else Some(Saved(db.(status := status)))
  }

  /* ---------- proposals ---------- */

  predicate HasKey(db: Db, key: nat) { exists i :: 0 <= i < |db.rows| && db.rows[i].action.request.key == key }

  /** How many stored actions carry the request digest `d`. */
  function Repeats(rows: seq<Row>, d: Digest): nat
  {
    if rows == [] then 0
    else Repeats(rows[..|rows| - 1], d) + if rows[|rows| - 1].action.request.digest == d then 1 else 0
  }

  predicate UnknownOutcome(a: Action) { a.result.Some? && a.result.value.unknown }

  predicate UncertainBefore(db: Db, d: Digest)
  {
    exists i :: 0 <= i < |db.rows| && db.rows[i].action.request.digest == d && UnknownOutcome(db.rows[i].action)
  }

  function Charged(used: Budget, r: Request): Budget
  {
    var u := used.(actions := used.actions + 1, wall := used.wall + r.wall, output := used.output + r.output);
    if r.derived.None? then u
    else u.(derivedCount := used.derivedCount + 1, derivedBytes := used.derivedBytes + r.derived.value)
  }

  predicate Affordable(db: Db, r: Request)
  {
    var u := Charged(db.reserved, r);
    && (r.derived.Some? ==> u.derivedCount <= db.limits.derivedCount && u.derivedBytes <= db.limits.derivedBytes)
    && r.wall <= MAX_WALL_MS && r.memory <= MAX_MEMORY && db.reserved.actions < db.limits.actions
    && u.wall <= db.limits.wall && u.output <= db.limits.output
  }

  /** propose: a stored key never changes anything; a new one is charged once. */
  function Propose(db: Db, r: Request, c: Call): Option<Db>
  {
    if !Owned(db, c.token, c.now) || HasRunner(db, c.now, c.controller) || Terminal(db.status) || HasKey(db, r.key)
       || c.revision != db.revision || (r.backend.Workbench? && UncertainBefore(db, r.digest))
       || Repeats(db.rows, r.digest) >= MAX_REPEATS || !Affordable(db, r) then None
    else
      var a := Action(r, Proposed, false, None, None, false);
      Some(Saved(db.(reserved := Charged(db.reserved, r), rows := db.rows + [Row(a, None, 0)])))
  }

  /** A knowledge record published by anyone outside a harness action. */
  function PutKnowledge(db: Db): Db { db.(records := db.records + [None]) }

  function Created(limits: Budget, owner: Token, now: int): Db
  {
    Db(Ready, 1, Some(owner), now + LEASE_MS, limits, Budget(0, 0, 0, 0, 0), [], [])
  }
}
