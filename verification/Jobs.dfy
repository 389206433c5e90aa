/** Jobs, leases and publication as transactions on the job tables (src/core.cpp). `None` is an
    exception, which rolls the transaction back. */
module Jobs {
  import opened Common
  import opened StaticIndex

  type JobId = nat
  type Token = nat

  const LEASE_MS := 30000

  /** A request and the fields of it that publication compares. */
  datatype Request = Request(digest: nat, backend: nat, artifact: nat)

  datatype Target = Target(project: nat, id: nat, artifact: nat)

  datatype Envelope = Envelope(status: JobStatus, evidence: nat)

  datatype Job = Job(project: nat, target: nat, revision: nat, status: JobStatus, request: Request, result: Option<Envelope>)

  datatype Lease = Lease(token: Token, deadline: int)

  datatype Event = Event(job: JobId, kind: JobStatus)

  datatype KeyRow = KeyRow(request: Request, job: JobId)

  datatype KeyId = KeyId(project: nat, key: nat)

  datatype Db = Db(jobs: map<JobId, Job>, leases: map<JobId, Lease>, keys: map<KeyId, KeyRow>,
                   events: seq<Event>, evidence: seq<Evidence>, index: Index)

  const FRESH := Db(map[], map[], map[], [], [], EMPTY)

  predicate Final(s: JobStatus) { !s.Queued? && !s.Running? }

  /** The job row and the lease token as the publishing process holds them. */
  datatype Held = Held(id: JobId, revision: nat, request: Request, token: Option<Token>)

  /* ---------- transactions ---------- */

  /** The rows that start_job inserts: identifiers and revisions are unique columns. */
  function Enqueue(db: Db, t: Target, r: Request, key: Option<nat>, id: JobId, revision: nat): Option<Db>
  {
    if id in db.jobs || exists j :: j in db.jobs && db.jobs[j].revision == revision then None
    else
      Some(db.(jobs := db.jobs[id := Job(t.project, t.id, revision, Queued, r, None)],
               keys := if key.None? then db.keys else db.keys[KeyId(t.project, key.value) := KeyRow(r, id)],
               events := db.events + [Event(id, Queued)]))
  }

  /** start_job: the job, and the state it leaves. */
  function Start(db: Db, t: Target, r: Request, key: Option<nat>, id: JobId, revision: nat): Option<(Db, JobId)>
  {
    if key.Some? && KeyId(t.project, key.value) in db.keys then
      var prior := db.keys[KeyId(t.project, key.value)];
      if prior.request == r then Some((db, prior.job)) else None
    else
      var d := Enqueue(db, t, r, key, id, revision);
      if d.None? then None else Some((d.value, id))
  }

  function Claim(db: Db, project: nat, id: JobId, token: Token, now: int): Option<Db>
  {
    if id !in db.jobs || db.jobs[id].project != project || Final(db.jobs[id].status) || id in db.leases then None
    else
      Some(db.(leases := db.leases[id := Lease(token, now + LEASE_MS)],
               jobs := db.jobs[id := db.jobs[id].(status := Running)],
               events := db.events + [Event(id, Running)]))
  }

  function Heartbeat(db: Db, id: JobId, token: Token, now: int): Option<Db>
  {
    if id !in db.leases || db.leases[id].token != token then None
    else Some(db.(leases := db.leases[id := Lease(token, now + LEASE_MS)]))
  }

  /** Running jobs of the project whose lease is absent or expired. */
  function Expired(db: Db, project: nat, now: int): set<JobId>
  {
    set j | j in db.jobs && db.jobs[j].project == project && db.jobs[j].status.Running?
            && (j !in db.leases || db.leases[j].deadline < now)
  }

  function Interrupt(db: Db, id: JobId): Db
  {
    if id !in db.jobs then db
    else db.(jobs := db.jobs[id := db.jobs[id].(status := Interrupted)], events := db.events + [Event(id, Interrupted)],
             leases := db.leases - {id})
  }

  function InterruptAll(db: Db, ids: seq<JobId>): Db
    decreases |ids|
  {
    if ids == [] then db else Interrupt(InterruptAll(db, ids[..|ids| - 1]), ids[|ids| - 1])
  }

  /** `ids` lists the selected jobs once each, in whatever order the query returned them. */
  ghost predicate Lists(ids: seq<JobId>, s: set<JobId>)
  {
    Distinct(ids) && forall j :: j in ids <==> j in s
  }

  predicate SameIdentity(db: Db, t: Target, h: Held, backend: nat)
  {
    && h.id in db.jobs && db.jobs[h.id].project == t.project && db.jobs[h.id].target == t.id
    && db.jobs[h.id].revision == h.revision && db.jobs[h.id].request == h.request
    && h.request.backend == backend && h.request.artifact == t.artifact
  }

  function EvidenceOf(t: Target, h: Held, backend: nat, status: JobStatus, native: Native): Evidence
  {
    Evidence(h.id, t.project, t.artifact, backend, h.revision, status, h.request.digest, native)
  }

  /** publish_result: `contract` is the result contract's list of statuses. */
  function Publish(n: Normalizer, db: Db, t: Target, h: Held, backend: nat, status: JobStatus, native: Native, now: int):
    Option<(Db, Envelope)>
  {
    if !SameIdentity(db, t, h, backend) then None
    else if db.jobs[h.id].result.Some? then Some((db, db.jobs[h.id].result.value))
    else if Final(db.jobs[h.id].status) then None
    else if h.id in db.leases && (Some(db.leases[h.id].token) != h.token || db.leases[h.id].deadline < now) then None
    else if !Final(status) then None
    else
      var e := EvidenceOf(t, h, backend, status, native);
      var v := Envelope(status, |db.evidence|);
      Some((Db(db.jobs[h.id := db.jobs[h.id].(status := status, result := Some(v))], db.leases - {h.id}, db.keys,
               db.events + [Event(h.id, status)], db.evidence + [e], Persist(n, db.index, e)), v))
  }

  /** reindex: `intact` when every raw object of the project still has its hash. */
  function RebuildIndex(n: Normalizer, db: Db, project: nat, intact: bool): Option<Db>
  {
    if !intact then None else Some(db.(index := Reindex(n, db.index, db.evidence, project)))
  }
}
