/** Who holds a job and for how long: what recovery takes away, and what a live lease protects
    (src/core.cpp, claim_job, heartbeat, recover_jobs and publish_result). */
module JobLeases {
  import opened Common
  import opened StaticIndex
  import opened Jobs
  import opened JobRuns

  /** The job is running in the project, and nobody's lease on it is live at `now`. */
  predicate Abandoned(db: Db, project: nat, now: int, j: JobId)
  {
    && j in db.jobs && db.jobs[j].project == project && db.jobs[j].status == Running
    && (j in db.leases ==> db.leases[j].deadline < now)
  }

  /** The abandoned jobs are interrupted and lose their lease; every other job keeps its row and its
      lease, and nothing else changes but for the events. */
  ghost predicate Recovered(db: Db, db': Db, project: nat, now: int)
  {
    && db'.jobs.Keys == db.jobs.Keys && db'.keys == db.keys && db'.evidence == db.evidence && db'.index == db.index
    && db.events <= db'.events
    && (forall j :: Abandoned(db, project, now, j) ==> db'.jobs[j] == db.jobs[j].(status := Interrupted) && j !in db'.leases)
    && (forall j :: j in db.jobs && !Abandoned(db, project, now, j) ==> db'.jobs[j] == db.jobs[j])
    && (forall j :: !Abandoned(db, project, now, j) ==> (j in db'.leases <==> j in db.leases))
    && (forall j :: j in db.leases && !Abandoned(db, project, now, j) ==> db'.leases[j] == db.leases[j])
  }

  /** What interrupting a list of jobs does to the tables. */
  ghost predicate Interrupts(db: Db, db': Db, ids: seq<JobId>)
  {
    && db'.jobs.Keys == db.jobs.Keys && db'.keys == db.keys && db'.evidence == db.evidence && db'.index == db.index
    && db.events <= db'.events
    && (forall j :: j in db.jobs ==> db'.jobs[j] == if j in ids then db.jobs[j].(status := Interrupted) else db.jobs[j])
    && (forall j :: j in db'.leases <==> j in db.leases && (j !in ids || j !in db.jobs))
    && (forall j :: j in db'.leases ==> db'.leases[j] == db.leases[j])
  }

  lemma {:induction false} InterruptAllExactly(db: Db, ids: seq<JobId>)
    ensures Interrupts(db, InterruptAll(db, ids), ids)
    decreases |ids|
  {
    if ids != [] {
      var front, last := ids[..|ids| - 1], ids[|ids| - 1];
      InterruptAllExactly(db, front);
      assert forall j :: j in ids <==> j in front || j == last;
    }
  }

  lemma RecoverExactly(db: Db, ids: seq<JobId>, project: nat, now: int)
    requires Lists(ids, Expired(db, project, now))
    ensures forall j :: j in ids <==> Abandoned(db, project, now, j)
    ensures Recovered(db, InterruptAll(db, ids), project, now)
  {
    InterruptAllExactly(db, ids);
    assert forall j :: j in ids <==> Abandoned(db, project, now, j);
    hide InterruptAll, Expired;
  }

  /* ---------- a live lease protects its job ---------- */

  /** The job is running, and its lease belongs to `token` until at least `until`. */
  predicate HeldBy(db: Db, j: JobId, token: Token, until: int)
  {
    && j in db.jobs && db.jobs[j].status == Running && db.jobs[j].result.None?
    && j in db.leases && db.leases[j].token == token && until <= db.leases[j].deadline
  }

  /** Recoveries come no later than `until`, the holder's own heartbeats do not shorten its lease, and
      the holder has not published yet. */
  predicate Before(s: Step, j: JobId, token: Token, until: int)
  {
    match s
    case DoRecover(ids, project, now) => now <= until
    case DoHeartbeat(id, t, now) => id == j && t == token ==> until <= now + 30000
    case DoPublish(t, h, backend, status, native, now) => h.id == j ==> h.token != Some(token)
    case _ => true
  }

  lemma StepHeld(n: Normalizer, db: Db, s: Step, j: JobId, token: Token, until: int)
    requires Sound(n, db) && HeldBy(db, j, token, until) && Before(s, j, token, until)
    ensures HeldBy(Apply(n, db, s), j, token, until)
  {
    hide Sound, Persist, Expired, RebuildIndex, InterruptAll;
    if s.DoRecover? {
      if Lists(s.ids, Expired(db, s.project, s.now)) { RecoverExactly(db, s.ids, s.project, s.now); }
    } else if s.DoReindex? {
      ReindexSound(n, db, s.project, s.intact);
    }
  }

  /** Whatever other processes do, a job stays with the holder of a lease until the lease runs out. */
  lemma {:induction false} LeaseProtects(n: Normalizer, db: Db, ss: seq<Step>, j: JobId, token: Token, until: int)
    requires Sound(n, db) && HeldBy(db, j, token, until)
    requires forall k :: 0 <= k < |ss| ==> Before(ss[k], j, token, until)
    ensures HeldBy(Run(n, db, ss), j, token, until)
    decreases |ss|
  {
    hide Sound, Apply, HeldBy, Before;
    if ss != [] {
      StepHeld(n, db, ss[0], j, token, until);
      StepSound(n, db, ss[0]);
      assert forall k :: 0 <= k < |ss| - 1 ==> ss[1..][k] == ss[k + 1];
      LeaseProtects(n, Apply(n, db, ss[0]), ss[1..], j, token, until);
    }
  }

  /** The evidence, the final row and the freed lease that a publication leaves. */
  ghost predicate PublishedAs(db: Db, db': Db, t: Target, h: Held, backend: nat, status: JobStatus, native: Native)
  {
    && h.id in db.jobs && |db'.evidence| == |db.evidence| + 1 && db.evidence <= db'.evidence
    && db'.evidence[|db.evidence|] == Evidence(h.id, t.project, t.artifact, backend, h.revision, status, h.request.digest, native)
    && db'.jobs == db.jobs[h.id := db.jobs[h.id].(status := status, result := Some(Envelope(status, |db.evidence|)))]
    && h.id !in db'.leases && db'.leases == map j | j in db.leases && j != h.id :: db.leases[j]
  }

  /** The process that holds the job's own row. */
  predicate Holds(db: Db, t: Target, h: Held, backend: nat)
  {
    && h.id in db.jobs && db.jobs[h.id].project == t.project && db.jobs[h.id].target == t.id && db.jobs[h.id].revision == h.revision
    && db.jobs[h.id].request == h.request && h.request.backend == backend && h.request.artifact == t.artifact
  }

  /** A result is published exactly when the publisher names the job's own row, target, request and
      backend, the job is not final, its lease, if any, is the publisher's and live, and the status is
      a final one of the contract; afterwards the stored result is only returned. */
  lemma PublishExactly(n: Normalizer, db: Db, t: Target, h: Held, backend: nat, status: JobStatus, native: Native, now: int)
    ensures Publish(n, db, t, h, backend, status, native, now).Some? <==>
              && Holds(db, t, h, backend)
              && (db.jobs[h.id].result.Some? ||
                  (!Final(db.jobs[h.id].status) && Final(status)
                   && (h.id in db.leases ==> h.token == Some(db.leases[h.id].token) && now <= db.leases[h.id].deadline)))
    ensures Publish(n, db, t, h, backend, status, native, now).Some? ==>
              var x := Publish(n, db, t, h, backend, status, native, now).value;
              && x.0.jobs[h.id].result == Some(x.1)
              && if db.jobs[h.id].result.Some? then x.0 == db else PublishedAs(db, x.0, t, h, backend, status, native)
  {
    hide Persist;
  }

  /** So a holder whose lease is live when recovery runs, and whatever else happens before it runs
      out, can still publish. */
  lemma HolderPublishes(n: Normalizer, db: Db, ss: seq<Step>, t: Target, h: Held, backend: nat, status: JobStatus, native: Native,
                        token: Token, until: int, now: int)
    requires Sound(n, db) && HeldBy(db, h.id, token, until) && h.token == Some(token) && now <= until && Final(status)
    requires Holds(db, t, h, backend)
    requires forall k :: 0 <= k < |ss| ==> Before(ss[k], h.id, token, until)
    ensures Publish(n, Run(n, db, ss), t, h, backend, status, native, now).Some?
    ensures PublishedAs(Run(n, db, ss), Publish(n, Run(n, db, ss), t, h, backend, status, native, now).value.0, t, h, backend, status, native)
  {
    hide Run, Publish, PublishedAs, LifeCycle, Living, EvidenceSound, Unique, KeysSound, Fold;
    LeaseProtects(n, db, ss, h.id, token, until);
    RunSound(n, db, ss);
    assert JobAdvances(db.jobs[h.id], Run(n, db, ss).jobs[h.id]);
    PublishExactly(n, Run(n, db, ss), t, h, backend, status, native, now);
  }

  /** Claiming: exactly a queued or running job of the project that nobody has a lease on, expired or
      not; the lease lasts thirty seconds. */
  lemma ClaimExactly(db: Db, project: nat, id: JobId, token: Token, now: int)
    ensures Claim(db, project, id, token, now).Some? <==>
              id in db.jobs && db.jobs[id].project == project && (db.jobs[id].status == Queued || db.jobs[id].status == Running) && id !in db.leases
    ensures Claim(db, project, id, token, now).Some? ==>
              Claim(db, project, id, token, now).value.leases == db.leases[id := Lease(token, now + 30000)]
              && Claim(db, project, id, token, now).value.jobs == db.jobs[id := db.jobs[id].(status := Running)]
  {
  }

  lemma HeartbeatExactly(db: Db, id: JobId, token: Token, now: int)
    ensures Heartbeat(db, id, token, now).Some? <==> id in db.leases && db.leases[id].token == token
    ensures Heartbeat(db, id, token, now).Some? ==> Heartbeat(db, id, token, now).value == db.(leases := db.leases[id := Lease(token, now + 30000)])
  {
  }

  /** In every reachable state a new job can be claimed and then published by its worker. */
  lemma JobCompletes(n: Normalizer, ss: seq<Step>, t: Target, r: Request, key: Option<nat>, id: JobId, revision: nat, token: Token,
                     status: JobStatus, native: Native, now: int, later: int)
    requires var db := Run(n, FRESH, ss);
             id !in db.jobs && (forall j :: j in db.jobs ==> db.jobs[j].revision != revision)
             && (key.Some? ==> KeyId(t.project, key.value) !in db.keys)
    requires Final(status) && later <= now + 30000 && r.artifact == t.artifact
    ensures var db := Run(n, FRESH, ss);
            Start(db, t, r, key, id, revision).Some? && Start(db, t, r, key, id, revision).value.1 == id
    ensures var d1 := Start(Run(n, FRESH, ss), t, r, key, id, revision).value.0;
            Claim(d1, t.project, id, token, now).Some?
    ensures var d2 := Claim(Start(Run(n, FRESH, ss), t, r, key, id, revision).value.0, t.project, id, token, now).value;
            var x := Publish(n, d2, t, Held(id, revision, r, Some(token)), r.backend, status, native, later);
            x.Some? && PublishedAs(d2, x.value.0, t, Held(id, revision, r, Some(token)), r.backend, status, native)
  {
    hide Run, Living, EvidenceSound, Unique, KeysSound, Fold, Publish, PublishedAs;
    FreshSound(n);
    RunSound(n, FRESH, ss);
    var db := Run(n, FRESH, ss);
    assert id !in db.leases by { LeasesHaveJobs(db, id); }
    var d1 := Start(db, t, r, key, id, revision).value.0;
    var d2 := Claim(d1, t.project, id, token, now).value;
    PublishExactly(n, d2, t, Held(id, revision, r, Some(token)), r.backend, status, native, later);
  }

  lemma LeasesHaveJobs(db: Db, id: JobId)
    requires Living(db) && id !in db.jobs
    ensures id !in db.leases
  {
  }
}
