/** Runs of the job tables: any number of workers, clients and recoveries, with arbitrary arguments
    and arbitrary clock readings, interleaved at transaction boundaries. */
module JobRuns {
  import opened Common
  import opened StaticIndex
  import opened Jobs

  datatype Step =
    | DoStart(t: Target, r: Request, key: Option<nat>, id: JobId, revision: nat)
    | DoClaim(project: nat, id: JobId, token: Token, now: int)
    | DoHeartbeat(id: JobId, token: Token, now: int)
    | DoRecover(ids: seq<JobId>, project: nat, now: int)
    | DoPublish(t: Target, h: Held, backend: nat, status: JobStatus, native: Native, now: int)
    | DoReindex(project: nat, intact: bool)

  function OrElse(db: Db, d: Option<Db>): Db { if d.Some? then d.value else db }

  ghost function Apply(n: Normalizer, db: Db, s: Step): Db
  {
    match s
    case DoStart(t, r, key, id, revision) =>
      var x := Start(db, t, r, key, id, revision); if x.Some? then x.value.0 else db
    case DoClaim(project, id, token, now) => OrElse(db, Claim(db, project, id, token, now))
    case DoHeartbeat(id, token, now) => OrElse(db, Heartbeat(db, id, token, now))
    case DoRecover(ids, project, now) => if Lists(ids, Expired(db, project, now)) then InterruptAll(db, ids) else db
    case DoPublish(t, h, backend, status, native, now) =>
      var x := Publish(n, db, t, h, backend, status, native, now); if x.Some? then x.value.0 else db
    case DoReindex(project, intact) => OrElse(db, RebuildIndex(n, db, project, intact))
  }

  ghost function Run(n: Normalizer, db: Db, ss: seq<Step>): Db
    decreases |ss|
  {
    if ss == [] then db else Run(n, Apply(n, db, ss[0]), ss[1..])
  }

  /* ---------- what every run keeps ---------- */

  /** The events of one job, oldest first. */
  function Trace(events: seq<Event>, id: JobId): seq<JobStatus>
  {
    if events == [] then []
    else
      var front := Trace(events[..|events| - 1], id);
      if events[|events| - 1].job == id then front + [events[|events| - 1].kind] else front
  }

  /** The only event histories a job can have: queued, then started at most once, then one final
      status, in step with the stored status. */
  predicate LifeCycle(job: Job, trace: seq<JobStatus>)
  {
    match job.status
    case Queued => trace == [Queued]
    case Running => trace == [Queued, Running]
    case s => trace == [Queued, s] || trace == [Queued, Running, s]
  }

  ghost predicate JobSound(db: Db, j: JobId)
    requires j in db.jobs
  {
    var job := db.jobs[j];
    && LifeCycle(job, Trace(db.events, j))
    && (job.status.Running? <==> j in db.leases)
    && (job.result.Some? ==> job.status == job.result.value.status && Final(job.status))
  }

  /** Each piece of evidence is the result of one job, with that job's own revision. */
  ghost predicate EvidenceSound(db: Db)
  {
    && (forall j :: j in db.jobs && db.jobs[j].result.Some? ==>
          db.jobs[j].result.value.evidence < |db.evidence| && db.evidence[db.jobs[j].result.value.evidence].job == j)
    && (forall k :: 0 <= k < |db.evidence| ==>
          var j := db.evidence[k].job;
          j in db.jobs && db.jobs[j].result == Some(Envelope(db.evidence[k].status, k))
          && db.evidence[k].revision == db.jobs[j].revision && db.evidence[k].project == db.jobs[j].project)
  }

  ghost predicate Unique(db: Db)
  {
    forall i, j :: i in db.jobs && j in db.jobs && db.jobs[i].revision == db.jobs[j].revision ==> i == j
  }

  ghost predicate KeysSound(db: Db)
  {
    forall k :: k in db.keys ==>
      db.keys[k].job in db.jobs && db.jobs[db.keys[k].job].request == db.keys[k].request
      && db.jobs[db.keys[k].job].project == k.project
  }

  ghost predicate Living(db: Db)
  {
    && (forall j :: j in db.jobs ==> JobSound(db, j))
    && (forall j :: j in db.leases ==> j in db.jobs)
    && (forall k :: 0 <= k < |db.events| ==> db.events[k].job in db.jobs)
  }

  ghost predicate Sound(n: Normalizer, db: Db)
  {
    Living(db) && EvidenceSound(db) && Unique(db) && KeysSound(db) && db.index == Fold(n, db.evidence)
  }

  /** How one state may follow another: jobs are never deleted or re-identified, a final job never
      changes at all, and evidence, events and idempotency keys are only added. */
  ghost predicate Advances(db: Db, db': Db)
  {
    && (forall j :: j in db.jobs ==> j in db'.jobs && JobAdvances(db.jobs[j], db'.jobs[j]))
    && (forall k :: k in db.keys ==> k in db'.keys && db'.keys[k] == db.keys[k])
    && db.events <= db'.events && db.evidence <= db'.evidence
  }

  function Rank(s: JobStatus): nat { if s.Queued? then 0 else if s.Running? then 1 else 2 }

  predicate JobAdvances(a: Job, b: Job)
  {
    && b == a.(status := b.status, result := b.result) && Rank(a.status) <= Rank(b.status)
    && (Final(a.status) ==> b == a)
  }

  lemma TraceStep(events: seq<Event>, e: Event, id: JobId)
    ensures Trace(events + [e], id) == if e.job == id then Trace(events, id) + [e.kind] else Trace(events, id)
  {
    assert (events + [e])[..|events|] == events;
  }

  lemma {:induction false} NoTrace(events: seq<Event>, id: JobId)
    requires forall k :: 0 <= k < |events| ==> events[k].job != id
    ensures Trace(events, id) == []
    decreases |events|
  {
    if events != [] { NoTrace(events[..|events| - 1], id); }
  }

  /* ---------- one transaction at a time ---------- */

  /** Only job `id` changed, with one more event, of kind `kind`. */
  ghost predicate Touches(db: Db, db': Db, id: JobId, kind: JobStatus)
  {
    && id in db'.jobs && db'.events == db.events + [Event(id, kind)]
    && (forall j :: j != id ==> (j in db'.jobs <==> j in db.jobs) && (j in db'.leases <==> j in db.leases))
    && (forall j :: j != id && j in db.jobs ==> db'.jobs[j] == db.jobs[j])
  }

  lemma TouchLiving(db: Db, db': Db, id: JobId, kind: JobStatus)
    requires Living(db) && Touches(db, db', id, kind)
    requires LifeCycle(db'.jobs[id], Trace(db.events, id) + [kind])
    requires db'.jobs[id].status.Running? <==> id in db'.leases
    requires db'.jobs[id].result.Some? ==> db'.jobs[id].status == db'.jobs[id].result.value.status && Final(db'.jobs[id].status)
    ensures Living(db')
  {
    hide LifeCycle, Trace;
    forall j | j in db'.jobs ensures JobSound(db', j)
    {
      TraceStep(db.events, Event(id, kind), j);
      if j != id { assert JobSound(db, j); }
    }
  }

  /** Jobs keep identity, request and result, and the evidence is the same. */
  ghost predicate SameResults(db: Db, db': Db)
  {
    && db'.evidence == db.evidence && db'.index == db.index && db'.keys == db.keys
    && (forall j :: j in db'.jobs <==> j in db.jobs)
    && (forall j :: j in db.jobs ==> db'.jobs[j] == db.jobs[j].(status := db'.jobs[j].status))
  }

  lemma SameResultsSound(db: Db, db': Db)
    requires SameResults(db, db')
    ensures EvidenceSound(db) ==> EvidenceSound(db')
    ensures Unique(db) ==> Unique(db')
    ensures KeysSound(db) ==> KeysSound(db')
  {
  }

  lemma EnqueueLiving(db: Db, t: Target, r: Request, key: Option<nat>, id: JobId, revision: nat)
    requires Living(db) && Enqueue(db, t, r, key, id, revision).Some?
    ensures Living(Enqueue(db, t, r, key, id, revision).value)
  {
    hide Trace;
    NoTrace(db.events, id);
    TouchLiving(db, Enqueue(db, t, r, key, id, revision).value, id, Queued);
  }

  lemma EnqueueTables(db: Db, t: Target, r: Request, key: Option<nat>, id: JobId, revision: nat)
    requires Enqueue(db, t, r, key, id, revision).Some?
    requires key.Some? ==> KeyId(t.project, key.value) !in db.keys
    ensures var db' := Enqueue(db, t, r, key, id, revision).value;
            && (EvidenceSound(db) ==> EvidenceSound(db')) && (Unique(db) ==> Unique(db'))
            && (KeysSound(db) ==> KeysSound(db')) && Advances(db, db')
  {
  }

  lemma EnqueueSound(n: Normalizer, db: Db, t: Target, r: Request, key: Option<nat>, id: JobId, revision: nat)
    requires Sound(n, db) && Enqueue(db, t, r, key, id, revision).Some?
    requires key.Some? ==> KeyId(t.project, key.value) !in db.keys
    ensures Sound(n, Enqueue(db, t, r, key, id, revision).value)
    ensures Advances(db, Enqueue(db, t, r, key, id, revision).value)
  {
    hide Fold, Living, EvidenceSound, Unique, KeysSound, Advances;
    EnqueueLiving(db, t, r, key, id, revision);
    EnqueueTables(db, t, r, key, id, revision);
  }

  lemma ClaimSound(n: Normalizer, db: Db, project: nat, id: JobId, token: Token, now: int)
    requires Sound(n, db) && Claim(db, project, id, token, now).Some?
    ensures Sound(n, Claim(db, project, id, token, now).value)
    ensures Advances(db, Claim(db, project, id, token, now).value)
  {
    hide Fold, Trace, EvidenceSound, Unique, KeysSound;
    var db' := Claim(db, project, id, token, now).value;
    assert JobSound(db, id);
    TouchLiving(db, db', id, Running);
    SameResultsSound(db, db');
  }

  lemma HeartbeatSound(n: Normalizer, db: Db, id: JobId, token: Token, now: int)
    requires Sound(n, db) && Heartbeat(db, id, token, now).Some?
    ensures Sound(n, Heartbeat(db, id, token, now).value)
    ensures Advances(db, Heartbeat(db, id, token, now).value)
  {
    hide Fold, Trace;
    var db' := Heartbeat(db, id, token, now).value;
    forall j | j in db'.jobs ensures JobSound(db', j) { assert JobSound(db, j); }
  }

  lemma InterruptSound(n: Normalizer, db: Db, id: JobId)
    requires Sound(n, db) && id in db.jobs && db.jobs[id].status.Running?
    ensures Sound(n, Interrupt(db, id)) && Advances(db, Interrupt(db, id))
  {
    hide Fold, Trace, EvidenceSound, Unique, KeysSound;
    var db' := Interrupt(db, id);
    assert JobSound(db, id);
    TouchLiving(db, db', id, Interrupted);
    SameResultsSound(db, db');
  }

  lemma {:induction false} InterruptAllSound(n: Normalizer, db: Db, ids: seq<JobId>)
    requires Sound(n, db) && Distinct(ids) && forall j :: j in ids ==> j in db.jobs && db.jobs[j].status.Running?
    ensures Sound(n, InterruptAll(db, ids)) && Advances(db, InterruptAll(db, ids))
    ensures forall j :: j in db.jobs && j !in ids ==> j in InterruptAll(db, ids).jobs && InterruptAll(db, ids).jobs[j] == db.jobs[j]
    decreases |ids|
  {
    hide Sound, Living, EvidenceSound, Unique, KeysSound, Fold;
    if ids != [] {
      var front, last := ids[..|ids| - 1], ids[|ids| - 1];
      assert last in ids && last !in front;
      InterruptAllSound(n, db, front);
      InterruptSound(n, InterruptAll(db, front), last);
    }
  }

  /** Publication other than the replay of a stored result. */
  ghost predicate Publishes(n: Normalizer, db: Db, t: Target, h: Held, backend: nat, status: JobStatus, native: Native, now: int)
  {
    h.id in db.jobs && db.jobs[h.id].result.None? && Publish(n, db, t, h, backend, status, native, now).Some?
  }

  lemma PublishLiving(n: Normalizer, db: Db, t: Target, h: Held, backend: nat, status: JobStatus, native: Native, now: int)
    requires Living(db) && Publishes(n, db, t, h, backend, status, native, now)
    ensures Living(Publish(n, db, t, h, backend, status, native, now).value.0)
  {
    hide Trace, Persist;
    assert JobSound(db, h.id);
    TouchLiving(db, Publish(n, db, t, h, backend, status, native, now).value.0, h.id, status);
  }

  lemma PublishEvidence(n: Normalizer, db: Db, t: Target, h: Held, backend: nat, status: JobStatus, native: Native, now: int)
    requires EvidenceSound(db) && Publishes(n, db, t, h, backend, status, native, now)
    ensures EvidenceSound(Publish(n, db, t, h, backend, status, native, now).value.0)
  {
    hide Persist;
  }

  lemma PublishTables(n: Normalizer, db: Db, t: Target, h: Held, backend: nat, status: JobStatus, native: Native, now: int)
    requires Unique(db) && KeysSound(db) && db.index == Fold(n, db.evidence) && Publishes(n, db, t, h, backend, status, native, now)
    ensures var db' := Publish(n, db, t, h, backend, status, native, now).value.0;
            Unique(db') && KeysSound(db') && Advances(db, db') && db'.index == Fold(n, db'.evidence)
  {
    hide Persist;
    var db' := Publish(n, db, t, h, backend, status, native, now).value.0;
    assert db'.evidence[..|db.evidence|] == db.evidence;
  }

  lemma PublishSound(n: Normalizer, db: Db, t: Target, h: Held, backend: nat, status: JobStatus, native: Native, now: int)
    requires Sound(n, db) && Publish(n, db, t, h, backend, status, native, now).Some?
    ensures var db' := Publish(n, db, t, h, backend, status, native, now).value.0; Sound(n, db') && Advances(db, db')
  {
    hide Living, EvidenceSound, Unique, KeysSound, Fold, Persist, Advances;
    if db.jobs[h.id].result.Some? {
      AdvancesSelf(db);
    } else {
      PublishLiving(n, db, t, h, backend, status, native, now);
      PublishEvidence(n, db, t, h, backend, status, native, now);
      PublishTables(n, db, t, h, backend, status, native, now);
    }
  }

  lemma ReindexSound(n: Normalizer, db: Db, project: nat, intact: bool)
    requires Sound(n, db)
    ensures RebuildIndex(n, db, project, intact).Some? ==> RebuildIndex(n, db, project, intact).value == db
  {
    ReindexIsIdentity(n, db.evidence, project);
  }

  lemma AdvancesSelf(db: Db)
    ensures Advances(db, db)
  {
  }

  lemma AdvancesChain(a: Db, b: Db, c: Db)
    requires Advances(a, b) && Advances(b, c)
    ensures Advances(a, c)
  {
    forall j | j in a.jobs ensures j in c.jobs && JobAdvances(a.jobs[j], c.jobs[j])
    {
      assert JobAdvances(a.jobs[j], b.jobs[j]) && JobAdvances(b.jobs[j], c.jobs[j]);
    }
  }

  lemma StepSound(n: Normalizer, db: Db, s: Step)
    requires Sound(n, db)
    ensures Sound(n, Apply(n, db, s)) && Advances(db, Apply(n, db, s))
  {
    hide Sound, Advances, Enqueue, Claim, Heartbeat, Publish, RebuildIndex, Lists;
    AdvancesSelf(db);
    match s {
      case DoStart(t, r, key, id, revision) =>
        if !(key.Some? && KeyId(t.project, key.value) in db.keys) && Enqueue(db, t, r, key, id, revision).Some? {
          EnqueueSound(n, db, t, r, key, id, revision);
        }
      case DoClaim(project, id, token, now) => if Claim(db, project, id, token, now).Some? { ClaimSound(n, db, project, id, token, now); }
      case DoHeartbeat(id, token, now) => if Heartbeat(db, id, token, now).Some? { HeartbeatSound(n, db, id, token, now); }
      case DoRecover(ids, project, now) => RecoverSound(n, db, ids, project, now);
      case DoPublish(t, h, backend, status, native, now) =>
        if Publish(n, db, t, h, backend, status, native, now).Some? { PublishSound(n, db, t, h, backend, status, native, now); }
      case DoReindex(project, intact) => ReindexSound(n, db, project, intact);
    }
  }

  lemma RecoverSound(n: Normalizer, db: Db, ids: seq<JobId>, project: nat, now: int)
    requires Sound(n, db)
    ensures Lists(ids, Expired(db, project, now)) ==> Sound(n, InterruptAll(db, ids)) && Advances(db, InterruptAll(db, ids))
  {
    hide Sound, Advances;
    if Lists(ids, Expired(db, project, now)) { InterruptAllSound(n, db, ids); }
  }

  lemma {:induction false} RunSound(n: Normalizer, db: Db, ss: seq<Step>)
    requires Sound(n, db)
    ensures Sound(n, Run(n, db, ss)) && Advances(db, Run(n, db, ss))
    decreases |ss|
  {
    hide Sound, Advances, Apply;
    AdvancesSelf(db);
    if ss != [] {
      StepSound(n, db, ss[0]);
      RunSound(n, Apply(n, db, ss[0]), ss[1..]);
      AdvancesChain(db, Apply(n, db, ss[0]), Run(n, db, ss));
    }
  }

  lemma FreshSound(n: Normalizer)
    ensures Sound(n, FRESH)
  {
  }

  /* ---------- the theorems ---------- */

  /** In every run a job is started at most once, a job is running exactly while its lease row
      exists, and the index equals the fold of the evidence log, reindexed or not. */
  lemma JobsAreSound(n: Normalizer, ss: seq<Step>)
    ensures var db := Run(n, FRESH, ss);
            && (forall j :: j in db.jobs ==> LifeCycle(db.jobs[j], Trace(db.events, j)) && (db.jobs[j].status.Running? <==> j in db.leases))
            && db.index == Fold(n, db.evidence)
  {
    FreshSound(n);
    RunSound(n, FRESH, ss);
    forall j | j in Run(n, FRESH, ss).jobs
      ensures LifeCycle(Run(n, FRESH, ss).jobs[j], Trace(Run(n, FRESH, ss).events, j))
      ensures Run(n, FRESH, ss).jobs[j].status.Running? <==> j in Run(n, FRESH, ss).leases
    {
      assert JobSound(Run(n, FRESH, ss), j);
    }
  }

  /** A job publishes at most one piece of evidence, and what it published never changes. */
  lemma OneResult(n: Normalizer, ss: seq<Step>, later: seq<Step>)
    ensures var db, db' := Run(n, FRESH, ss), Run(n, Run(n, FRESH, ss), later);
            && (forall j :: j in db.jobs && db.jobs[j].result.Some? ==> j in db'.jobs && db'.jobs[j] == db.jobs[j])
            && (forall k, m :: 0 <= k < |db'.evidence| && 0 <= m < |db'.evidence| && k != m ==>
                  db'.evidence[k].job != db'.evidence[m].job && db'.evidence[k].revision != db'.evidence[m].revision)
  {
    var db := Run(n, FRESH, ss);
    FreshSound(n);
    RunSound(n, FRESH, ss);
    RunSound(n, db, later);
    forall j | j in db.jobs && db.jobs[j].result.Some? ensures j in Run(n, db, later).jobs && Run(n, db, later).jobs[j] == db.jobs[j]
    {
      assert JobSound(db, j) && JobAdvances(db.jobs[j], Run(n, db, later).jobs[j]);
    }
  }

  /** A started job is published only by the holder of its one lease, while that lease is live. */
  lemma OwnerPublishes(n: Normalizer, ss: seq<Step>, t: Target, h: Held, backend: nat, status: JobStatus, native: Native, now: int)
    requires var db := Run(n, FRESH, ss);
             Publishes(n, db, t, h, backend, status, native, now) && Running in Trace(db.events, h.id)
    ensures var db := Run(n, FRESH, ss);
            h.id in db.leases && h.token == Some(db.leases[h.id].token) && now <= db.leases[h.id].deadline
  {
    hide EvidenceSound, Unique, KeysSound, Fold, Trace, Persist;
    FreshSound(n);
    RunSound(n, FRESH, ss);
    assert JobSound(Run(n, FRESH, ss), h.id);
  }

  /** A recovered job (final, without a result) can never be published by anyone, at any later time. */
  lemma RecoveredNeverPublishes(n: Normalizer, ss: seq<Step>, later: seq<Step>, t: Target, h: Held, backend: nat,
                                status: JobStatus, native: Native, now: int)
    requires var db := Run(n, FRESH, ss); h.id in db.jobs && Final(db.jobs[h.id].status) && db.jobs[h.id].result.None?
    ensures var db' := Run(n, Run(n, FRESH, ss), later);
            && Publish(n, db', t, h, backend, status, native, now).None?
            && (forall k :: 0 <= k < |db'.evidence| ==> db'.evidence[k].job != h.id)
  {
    var db := Run(n, FRESH, ss);
    FreshSound(n);
    RunSound(n, FRESH, ss);
    RunSound(n, db, later);
    assert JobAdvances(db.jobs[h.id], Run(n, db, later).jobs[h.id]);
  }

  /** Starting again with the same key and request returns the first job, at any later time, and
      with another request is an error. */
  lemma StartIsIdempotent(n: Normalizer, ss: seq<Step>, later: seq<Step>, t: Target, r: Request, key: nat, id: JobId, revision: nat,
                          r': Request, id': JobId, revision': nat)
    requires Start(Run(n, FRESH, ss), t, r, Some(key), id, revision).Some?
    ensures var started := Start(Run(n, FRESH, ss), t, r, Some(key), id, revision).value;
            var db := Run(n, started.0, later);
            && Start(db, t, r, Some(key), id', revision') == Some((db, started.1))
            && (r' != r ==> Start(db, t, r', Some(key), id', revision').None?)
            && started.1 in db.jobs && db.jobs[started.1].request == r
  {
    hide Living, EvidenceSound, Unique, Fold;
    var db := Run(n, FRESH, ss);
    var started := Start(db, t, r, Some(key), id, revision).value;
    FreshSound(n);
    RunSound(n, FRESH, ss);
    assert Apply(n, db, DoStart(t, r, Some(key), id, revision)) == started.0;
    StepSound(n, db, DoStart(t, r, Some(key), id, revision));
    RunSound(n, started.0, later);
    assert KeyId(t.project, key) in started.0.keys && started.0.keys[KeyId(t.project, key)] == KeyRow(r, started.1);
  }
}
