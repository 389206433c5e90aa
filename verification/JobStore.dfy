/** The job store as it is written: tables updated in place, one statement at a time (src/core.cpp). */
module JobStore {
  import opened Common
  import opened StaticIndex
  import Jobs
  import JobLeases

  class ProjectStore {
    const normalizer: Normalizer
    var jobs: map<Jobs.JobId, Jobs.Job>
    var leases: map<Jobs.JobId, Jobs.Lease>
    var keys: map<Jobs.KeyId, Jobs.KeyRow>
    var events: seq<Jobs.Event>
    var evidence: seq<Evidence>
    var rows: map<Key, Row>
    var layouts: map<Place, seq<Layout>>
    var heads: map<Scope, nat>

    ghost function Tables(): Index
      reads this
    {
      Index(rows, layouts, heads)
    }

    ghost function Value(): Jobs.Db
      reads this
    {
      Jobs.Db(jobs, leases, keys, events, evidence, Tables())
    }

    ghost predicate After(before: Jobs.Db, d: Option<Jobs.Db>, ok: bool)
      reads this
    {
      ok == d.Some? && Value() == if d.Some? then d.value else before
    }

    constructor (n: Normalizer)
      ensures normalizer == n && Value() == Jobs.FRESH
    {
      normalizer := n;
      jobs, leases, keys, events, evidence := map[], map[], map[], [], [];
      rows, layouts, heads := map[], map[], map[];
    }

    /* ---------- jobs ---------- */

    method RevisionTaken(revision: nat) returns (taken: bool)
      ensures taken == exists j :: j in jobs && jobs[j].revision == revision
    {
      var todo := jobs.Keys;
      while todo != {}
        invariant todo <= jobs.Keys && forall j :: j in jobs && j !in todo ==> jobs[j].revision != revision
        decreases |todo|
      {
        var j :| j in todo;
        if jobs[j].revision == revision { return true; }
        todo := todo - {j};
      }
      return false;
    }

    method StartJob(t: Jobs.Target, r: Jobs.Request, key: Option<nat>, id: Jobs.JobId, revision: nat)
      returns (job: Option<Jobs.JobId>)
      modifies this
      ensures match Jobs.Start(old(Value()), t, r, key, id, revision)
              case None => job.None? && Value() == old(Value())
              case Some(x) => job == Some(x.1) && Value() == x.0
    {
      if key.Some? && Jobs.KeyId(t.project, key.value) in keys {
        var prior := keys[Jobs.KeyId(t.project, key.value)];
        return if prior.request == r then Some(prior.job) else None;
      }
      var taken := RevisionTaken(revision);
      if id in jobs || taken { return None; }
      jobs := jobs[id := Jobs.Job(t.project, t.id, revision, Queued, r, None)];
      if key.Some? { keys := keys[Jobs.KeyId(t.project, key.value) := Jobs.KeyRow(r, id)]; }
      events := events + [Jobs.Event(id, Queued)];
      return Some(id);
    }

    method ClaimJob(project: nat, id: Jobs.JobId, token: Jobs.Token, now: int) returns (ok: bool)
      modifies this
      ensures After(old(Value()), Jobs.Claim(old(Value()), project, id, token, now), ok)
    {
      if id !in jobs || jobs[id].project != project { return false; }
      if !jobs[id].status.Queued? && !jobs[id].status.Running? { return false; }
      if id in leases { return false; }
      leases := leases[id := Jobs.Lease(token, now + Jobs.LEASE_MS)];
      jobs := jobs[id := jobs[id].(status := Running)];
      events := events + [Jobs.Event(id, Running)];
      return true;
    }

    method Heartbeat(id: Jobs.JobId, token: Jobs.Token, now: int) returns (ok: bool)
      modifies this
      ensures After(old(Value()), Jobs.Heartbeat(old(Value()), id, token, now), ok)
    {
      if id !in leases || leases[id].token != token { return false; }
      leases := leases[id := Jobs.Lease(token, now + Jobs.LEASE_MS)];
      return true;
    }

    /** The jobs the recovery query selects, in some order. */
    method SelectExpired(project: nat, now: int) returns (ids: seq<Jobs.JobId>)
      ensures Jobs.Lists(ids, Jobs.Expired(Value(), project, now))
      ensures forall j :: j in ids <==> JobLeases.Abandoned(Value(), project, now, j)
    {
      ids := [];
      var todo := jobs.Keys;
      while todo != {}
        invariant todo <= jobs.Keys && Distinct(ids)
        invariant forall j :: j in ids <==> j in Jobs.Expired(Value(), project, now) && j !in todo
        decreases |todo|
      {
        var j :| j in todo;
        todo := todo - {j};
        if jobs[j].project == project && jobs[j].status.Running? && (j !in leases || leases[j].deadline < now) {
          ids := ids + [j];
        }
      }
    }

    method RecoverJobs(project: nat, now: int) returns (ids: seq<Jobs.JobId>)
      modifies this
      ensures Jobs.Lists(ids, Jobs.Expired(old(Value()), project, now))
      ensures Value() == Jobs.InterruptAll(old(Value()), ids)
      ensures JobLeases.Recovered(old(Value()), Value(), project, now)
      ensures forall j :: j in ids <==> JobLeases.Abandoned(old(Value()), project, now, j)
    {
      ids := SelectExpired(project, now);
      for i := 0 to |ids|
        invariant Value() == Jobs.InterruptAll(old(Value()), ids[..i])
        invariant forall j :: j in old(jobs) ==> j in jobs
      {
        assert ids[..i + 1][..i] == ids[..i];
        var id := ids[i];
        assert id in ids;
        jobs := jobs[id := jobs[id].(status := Interrupted)];
        events := events + [Jobs.Event(id, Interrupted)];
        leases := leases - {id};
      }
      assert ids[..|ids|] == ids;
      JobLeases.RecoverExactly(old(Value()), ids, project, now);
    }

    method PublishResult(t: Jobs.Target, h: Jobs.Held, backend: nat, status: JobStatus, native: Native, now: int)
      returns (envelope: Option<Jobs.Envelope>)
      modifies this
      ensures match Jobs.Publish(normalizer, old(Value()), t, h, backend, status, native, now)
              case None => envelope.None? && Value() == old(Value())
              case Some(x) => envelope == Some(x.1) && Value() == x.0
    {
      hide Persist;
      if h.id !in jobs || jobs[h.id].project != t.project || jobs[h.id].target != t.id || jobs[h.id].revision != h.revision
         || jobs[h.id].request != h.request || h.request.backend != backend || h.request.artifact != t.artifact { return None; }
      if jobs[h.id].result.Some? { return jobs[h.id].result; }
      if !jobs[h.id].status.Queued? && !jobs[h.id].status.Running? { return None; }
      if h.id in leases && (Some(leases[h.id].token) != h.token || leases[h.id].deadline < now) { return None; }
      if status.Queued? || status.Running? { return None; }
      var v := Jobs.Envelope(status, |evidence|);
      var e := Jobs.EvidenceOf(t, h, backend, status, native);
      evidence := evidence + [e];
      PersistIndex(e);
      jobs := jobs[h.id := jobs[h.id].(status := status, result := Some(v))];
      events := events + [Jobs.Event(h.id, status)];
      leases := leases - {h.id};
      return Some(v);
    }

    /* ---------- the derived index ---------- */

    method PersistIndex(e: Evidence)
      modifies this`rows, this`layouts, this`heads
      ensures Tables() == Persist(normalizer, old(Tables()), e)
    {
      var place := Place(e.project, e.artifact);
      var newest: Option<Layout> := None;
      if place in layouts && layouts[place] != [] { newest := Some(layouts[place][|layouts[place]| - 1]); }
      var records := normalizer.rows(e, newest);
      for i := 0 to |records|
        invariant rows == InsertAll(old(rows), e.project, records[..i])
        invariant layouts == old(layouts) && heads == old(heads)
      {
        assert records[..i + 1][..i] == records[..i];
        if records[i].key !in rows { rows := rows[records[i].key := Row(e.project, records[i].content)]; }
      }
      assert records[..|records|] == records;
      if e.status.Completed? || e.status.Partial? {
        if e.native.layout.Some? { SaveLayout(place, Layout(e.revision, e.native.layout.value)); }
        heads := heads[Scope(e.project, normalizer.scope(e)) := e.revision];
      }
    }

    /** INSERT OR IGNORE on the key (project, artifact, revision). */
    method SaveLayout(place: Place, l: Layout)
      modifies this`layouts
      ensures layouts == old(layouts)[place := AddLayout(LayoutsAt(old(layouts), place), l)]
    {
      var ls := LayoutsAt(layouts, place);
      var i := 0;
      while i < |ls| && ls[i].revision != l.revision
        invariant i <= |ls| && forall j :: 0 <= j < i ==> ls[j].revision != l.revision
      {
        i := i + 1;
      }
      layouts := layouts[place := if i < |ls| then ls else ls + [l]];
    }

    method DeleteProject(p: nat)
      modifies this`rows, this`layouts, this`heads
      ensures Tables() == Deleted(old(Tables()), p)
    {
      rows := map k | k in rows && rows[k].project != p :: rows[k];
      heads := map s | s in heads && s.project != p :: heads[s];
      layouts := map q | q in layouts && q.project != p :: layouts[q];
    }

    method ReindexProject(p: nat, intact: bool) returns (ok: bool)
      modifies this`rows, this`layouts, this`heads
      ensures After(old(Value()), Jobs.RebuildIndex(normalizer, old(Value()), p, intact), ok)
    {
      if !intact { return false; }
      DeleteProject(p);
      ghost var start := Tables();
      for i := 0 to |evidence|
        invariant Tables() == Replay(normalizer, start, evidence[..i], p)
      {
        assert evidence[..i + 1][..i] == evidence[..i];
        if evidence[i].project == p { PersistIndex(evidence[i]); }
      }
      assert evidence[..|evidence|] == evidence;
      return true;
    }
  }
}
