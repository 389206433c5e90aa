/** The derived static index over the evidence log (src/core.cpp, persist_index and reindex). */
module StaticIndex {
  import opened Common

  datatype JobStatus = Queued | Running
    | Completed | Partial | Failed | Cancelled | Timeout | Unavailable | InvalidRequest | NotFound | Interrupted

  /** A backend's answer; `layout` is its program record when that has segments. */
  datatype Native = Native(raw: nat, layout: Option<nat>)

  datatype Evidence = Evidence(job: nat, project: nat, artifact: nat, backend: nat, revision: nat,
                               status: JobStatus, request: nat, native: Native)

  datatype Table = Revisions | Entities | Relations | Claims

  /** A primary key: the tables' identifiers are global, not per project. */
  datatype Key = Key(table: Table, id: nat)

  datatype Record = Record(key: Key, content: nat)

  datatype Row = Row(project: nat, content: nat)

  datatype Layout = Layout(revision: nat, program: nat)

  datatype Place = Place(project: nat, artifact: nat)

  datatype Scope = Scope(project: nat, hash: nat)

  /** `rows` are normalize_static's records for one answer under the newest layout of its artifact,
      preceded by the revision row; `scope` hashes the query that was answered. */
  datatype Normalizer = Normalizer(rows: (Evidence, Option<Layout>) -> seq<Record>, scope: Evidence -> nat)

  datatype Index = Index(rows: map<Key, Row>, layouts: map<Place, seq<Layout>>, heads: map<Scope, nat>)

  const EMPTY := Index(map[], map[], map[])

  predicate Authoritative(s: JobStatus) { s.Completed? || s.Partial? }

  function LayoutsAt(layouts: map<Place, seq<Layout>>, p: Place): seq<Layout>
  {
    if p in layouts then layouts[p] else []
  }

  /** The last stored layout of the artifact, ORDER BY rowid DESC. */
  function Newest(ix: Index, p: Place): Option<Layout>
  {
    var ls := LayoutsAt(ix.layouts, p);
    if ls == [] then None else Some(ls[|ls| - 1])
  }

  /** INSERT OR IGNORE. */
  function Insert(rows: map<Key, Row>, project: nat, r: Record): map<Key, Row>
  {
    if r.key in rows then rows else rows[r.key := Row(project, r.content)]
  }

  function InsertAll(rows: map<Key, Row>, project: nat, rs: seq<Record>): map<Key, Row>
    decreases |rs|
  {
    if rs == [] then rows else Insert(InsertAll(rows, project, rs[..|rs| - 1]), project, rs[|rs| - 1])
  }

  function AddLayout(ls: seq<Layout>, l: Layout): seq<Layout>
  {
    if exists i :: 0 <= i < |ls| && ls[i].revision == l.revision then ls else ls + [l]
  }

  function WithLayout(layouts: map<Place, seq<Layout>>, e: Evidence): map<Place, seq<Layout>>
  {
    var place := Place(e.project, e.artifact);
    if e.native.layout.None? then layouts
    else layouts[place := AddLayout(LayoutsAt(layouts, place), Layout(e.revision, e.native.layout.value))]
  }

  /** A failed retry is not new knowledge: it adds its rows, but neither a layout nor a head. */
  function Persist(n: Normalizer, ix: Index, e: Evidence): Index
  {
    var rows := InsertAll(ix.rows, e.project, n.rows(e, Newest(ix, Place(e.project, e.artifact))));
    if !Authoritative(e.status) then ix.(rows := rows)
    else Index(rows, WithLayout(ix.layouts, e), ix.heads[Scope(e.project, n.scope(e)) := e.revision])
  }

  /** The index that results from persisting the whole log in order. */
  function Fold(n: Normalizer, log: seq<Evidence>): Index
  {
    if log == [] then EMPTY else Persist(n, Fold(n, log[..|log| - 1]), log[|log| - 1])
  }

  /** DELETE ... WHERE project = p, on every derived table. */
  function Deleted(ix: Index, p: nat): Index
  {
    Index(map k | k in ix.rows && ix.rows[k].project != p :: ix.rows[k],
          map q | q in ix.layouts && q.project != p :: ix.layouts[q],
          map s | s in ix.heads && s.project != p :: ix.heads[s])
  }

  /** Persisting one project's entries of the log, in log order. */
  function Replay(n: Normalizer, ix: Index, log: seq<Evidence>, p: nat): Index
  {
    if log == [] then ix
    else
      var before := Replay(n, ix, log[..|log| - 1], p);
      if log[|log| - 1].project == p then Persist(n, before, log[|log| - 1]) else before
  }

  function Reindex(n: Normalizer, ix: Index, log: seq<Evidence>, p: nat): Index
  {
    Replay(n, Deleted(ix, p), log, p)
  }

  /* ---------- rows are first come, first served ---------- */

  lemma {:induction false} InsertAllKeeps(rows: map<Key, Row>, p: nat, rs: seq<Record>)
    ensures forall k :: k in rows ==> k in InsertAll(rows, p, rs) && InsertAll(rows, p, rs)[k] == rows[k]
    ensures forall k :: k in InsertAll(rows, p, rs) && k !in rows ==> InsertAll(rows, p, rs)[k].project == p
    decreases |rs|
  {
    if rs != [] { InsertAllKeeps(rows, p, rs[..|rs| - 1]); }
  }

  lemma {:induction false} FoldKeeps(n: Normalizer, log: seq<Evidence>, m: nat)
    requires m <= |log|
    ensures forall k :: k in Fold(n, log[..m]).rows ==> k in Fold(n, log).rows && Fold(n, log).rows[k] == Fold(n, log[..m]).rows[k]
    decreases |log|
  {
    if m == |log| {
      assert log[..m] == log;
    } else {
      var e := log[|log| - 1];
      var ix := Fold(n, log[..|log| - 1]);
      assert log[..|log| - 1][..m] == log[..m];
      FoldKeeps(n, log[..|log| - 1], m);
      InsertAllKeeps(ix.rows, e.project, n.rows(e, Newest(ix, Place(e.project, e.artifact))));
    }
  }

  /* ---------- reindex rebuilds exactly the incremental index ---------- */

  /** `r` is `s` with every row of other projects already as in `final`: what a replay of project
      `p` has rebuilt when incremental maintenance had reached `s`. */
  ghost predicate Rebuilt(r: map<Key, Row>, s: map<Key, Row>, final: map<Key, Row>, p: nat)
  {
    forall k ::
      && (k in r <==> (k in final && final[k].project != p) || (k in s && s[k].project == p))
      && (k in r ==> k in final && r[k] == final[k])
  }

  ghost predicate Submap(a: map<Key, Row>, b: map<Key, Row>)
  {
    forall k :: k in a ==> k in b && a[k] == b[k]
  }

  lemma InsertRebuilt(r: map<Key, Row>, s: map<Key, Row>, final: map<Key, Row>, p: nat, c: Record)
    requires Rebuilt(r, s, final, p) && Submap(Insert(s, p, c), final)
    ensures Rebuilt(Insert(r, p, c), Insert(s, p, c), final, p)
  {
    assert c.key in Insert(s, p, c);
  }

  lemma {:induction false} InsertAllRebuilt(r: map<Key, Row>, s: map<Key, Row>, final: map<Key, Row>, p: nat, rs: seq<Record>)
    requires Rebuilt(r, s, final, p) && Submap(InsertAll(s, p, rs), final)
    ensures Rebuilt(InsertAll(r, p, rs), InsertAll(s, p, rs), final, p)
    decreases |rs|
  {
    hide Rebuilt, Submap;
    if rs != [] {
      var s1 := InsertAll(s, p, rs[..|rs| - 1]);
      assert Submap(s1, final) by { InsertSubmap(s1, p, rs[|rs| - 1], final); }
      InsertAllRebuilt(r, s, final, p, rs[..|rs| - 1]);
      InsertRebuilt(InsertAll(r, p, rs[..|rs| - 1]), s1, final, p, rs[|rs| - 1]);
    }
  }

  lemma InsertSubmap(s: map<Key, Row>, p: nat, c: Record, final: map<Key, Row>)
    requires Submap(Insert(s, p, c), final)
    ensures Submap(s, final)
  {
    assert forall k :: k in s ==> k in Insert(s, p, c) && Insert(s, p, c)[k] == s[k];
  }

  /** Layouts and heads of project `p` agree with the incremental index, those of others with `final`. */
  ghost predicate SamePlaces(r: Index, s: Index, final: Index, p: nat)
  {
    && (forall q: Place :: LayoutsAt(r.layouts, q) == LayoutsAt(if q.project == p then s.layouts else final.layouts, q))
    && (forall q: Place :: q in r.layouts <==> q in (if q.project == p then s.layouts else final.layouts))
    && (forall h: Scope :: HeadAt(r.heads, h) == HeadAt(if h.project == p then s.heads else final.heads, h))
  }

  function HeadAt(heads: map<Scope, nat>, h: Scope): Option<nat>
  {
    if h in heads then Some(heads[h]) else None
  }

  lemma DeletedRebuilt(final: Index, p: nat)
    ensures Rebuilt(Deleted(final, p).rows, map[], final.rows, p) && SamePlaces(Deleted(final, p), EMPTY, final, p)
  {
  }

  lemma {:induction false} ReplayRebuilds(n: Normalizer, log: seq<Evidence>, p: nat, m: nat)
    requires m <= |log|
    ensures var r, s, final := Replay(n, Deleted(Fold(n, log), p), log[..m], p), Fold(n, log[..m]), Fold(n, log);
            Rebuilt(r.rows, s.rows, final.rows, p) && SamePlaces(r, s, final, p)
    decreases m
  {
    hide Rebuilt, SamePlaces, Persist, Deleted;
    var final := Fold(n, log);
    if m == 0 {
      assert log[..m] == [];
      DeletedRebuilt(final, p);
    } else {
      var e := log[m - 1];
      assert log[..m][..m - 1] == log[..m - 1] && log[..m][m - 1] == e;
      ReplayRebuilds(n, log, p, m - 1);
      FoldKeeps(n, log, m);
      var r, s := Replay(n, Deleted(final, p), log[..m - 1], p), Fold(n, log[..m - 1]);
      PersistRows(n, r, s, final, p, e);
      PersistPlaces(n, r, s, final, p, e);
    }
  }

  lemma PersistRows(n: Normalizer, r: Index, s: Index, final: Index, p: nat, e: Evidence)
    requires Rebuilt(r.rows, s.rows, final.rows, p) && SamePlaces(r, s, final, p)
    requires Submap(Persist(n, s, e).rows, final.rows)
    ensures Rebuilt((if e.project == p then Persist(n, r, e) else r).rows, Persist(n, s, e).rows, final.rows, p)
  {
    var place := Place(e.project, e.artifact);
    var rs := n.rows(e, Newest(s, place));
    assert Persist(n, s, e).rows == InsertAll(s.rows, e.project, rs);
    if e.project == p {
      assert Newest(r, place) == Newest(s, place);
      assert Persist(n, r, e).rows == InsertAll(r.rows, p, rs);
      hide Rebuilt, Persist, SamePlaces, InsertAll;
      InsertAllRebuilt(r.rows, s.rows, final.rows, p, rs);
    } else {
      hide Persist, SamePlaces, InsertAll;
      InsertAllKeeps(s.rows, e.project, rs);
    }
  }

  lemma WithLayoutAt(layouts: map<Place, seq<Layout>>, e: Evidence, q: Place)
    ensures var hit := e.native.layout.Some? && q == Place(e.project, e.artifact);
            && (q in WithLayout(layouts, e) <==> q in layouts || hit)
            && LayoutsAt(WithLayout(layouts, e), q) ==
                 if hit then AddLayout(LayoutsAt(layouts, q), Layout(e.revision, e.native.layout.value)) else LayoutsAt(layouts, q)
  {
    hide AddLayout;
  }

  lemma PersistLayouts(n: Normalizer, r: Index, s: Index, final: Index, p: nat, e: Evidence, q: Place)
    requires SamePlaces(r, s, final, p)
    ensures var r', s' := if e.project == p then Persist(n, r, e) else r, Persist(n, s, e);
            && LayoutsAt(r'.layouts, q) == LayoutsAt(if q.project == p then s'.layouts else final.layouts, q)
            && (q in r'.layouts <==> q in (if q.project == p then s'.layouts else final.layouts))
  {
    hide InsertAll, AddLayout, WithLayout, LayoutsAt;
    assert LayoutsAt(r.layouts, q) == LayoutsAt(if q.project == p then s.layouts else final.layouts, q);
    WithLayoutAt(r.layouts, e, q);
    WithLayoutAt(s.layouts, e, q);
  }

  lemma PersistPlaces(n: Normalizer, r: Index, s: Index, final: Index, p: nat, e: Evidence)
    requires SamePlaces(r, s, final, p)
    ensures SamePlaces(if e.project == p then Persist(n, r, e) else r, Persist(n, s, e), final, p)
  {
    hide InsertAll, WithLayout, LayoutsAt;
    var r', s' := if e.project == p then Persist(n, r, e) else r, Persist(n, s, e);
    forall q: Place
      ensures LayoutsAt(r'.layouts, q) == LayoutsAt(if q.project == p then s'.layouts else final.layouts, q)
      ensures q in r'.layouts <==> q in (if q.project == p then s'.layouts else final.layouts)
    {
      PersistLayouts(n, r, s, final, p, e, q);
    }
    forall h: Scope ensures HeadAt(r'.heads, h) == HeadAt(if h.project == p then s'.heads else final.heads, h)
    {
      assert HeadAt(r.heads, h) == HeadAt(if h.project == p then s.heads else final.heads, h);
    }
  }

  /** Deleting a project's derived rows and replaying its evidence gives back exactly the index. */
  lemma ReindexIsIdentity(n: Normalizer, log: seq<Evidence>, p: nat)
    ensures Reindex(n, Fold(n, log), log, p) == Fold(n, log)
  {
    hide Fold, Replay, Persist;
    var r, s := Reindex(n, Fold(n, log), log, p), Fold(n, log);
    ReplayRebuilds(n, log, p, |log|);
    assert log[..|log|] == log;
    assert r.rows == s.rows;
    forall q | q in r.layouts || q in s.layouts ensures q in r.layouts && q in s.layouts && r.layouts[q] == s.layouts[q]
    {
      assert LayoutsAt(r.layouts, q) == LayoutsAt(s.layouts, q);
    }
    assert r.layouts == s.layouts;
    forall h | h in r.heads || h in s.heads ensures h in r.heads && h in s.heads && r.heads[h] == s.heads[h]
    {
      assert HeadAt(r.heads, h) == HeadAt(s.heads, h);
    }
    assert r.heads == s.heads;
  }

  /* ---------- heads ---------- */

  /** Entry `i` is the last authoritative answer to the query `s` in the log. */
  ghost predicate LastAnswer(n: Normalizer, log: seq<Evidence>, s: Scope, i: nat)
  {
    && i < |log| && Answers(n, log[i], s)
    && (forall j :: i < j < |log| ==> !Answers(n, log[j], s))
  }

  predicate Answers(n: Normalizer, e: Evidence, s: Scope)
  {
    (e.status == Completed || e.status == Partial) && e.project == s.project && n.scope(e) == s.hash
  }

  /** A scope has a head exactly when it was answered. */
  lemma {:induction false} HeadIffAnswered(n: Normalizer, log: seq<Evidence>, s: Scope)
    ensures s in Fold(n, log).heads <==> exists i :: 0 <= i < |log| && Answers(n, log[i], s)
    decreases |log|
  {
    hide InsertAll;
    if log != [] {
      var front, e := log[..|log| - 1], log[|log| - 1];
      HeadIffAnswered(n, front, s);
      assert forall i :: 0 <= i < |front| ==> front[i] == log[i];
      if s in Fold(n, log).heads && s !in Fold(n, front).heads { assert Answers(n, log[|log| - 1], s); }
    }
  }

  /** The head is the revision of the last answer: a failed retry never hides an earlier one. */
  lemma {:induction false} HeadIsLastAnswer(n: Normalizer, log: seq<Evidence>, s: Scope, i: nat)
    requires LastAnswer(n, log, s, i)
    ensures s in Fold(n, log).heads && Fold(n, log).heads[s] == log[i].revision
    decreases |log|
  {
    hide InsertAll;
    var front := log[..|log| - 1];
    if i < |front| {
      assert !Answers(n, log[|log| - 1], s);
      assert forall j :: 0 <= j < |front| ==> front[j] == log[j];
      HeadIsLastAnswer(n, front, s, i);
    }
  }

  /* ---------- layouts and rows ---------- */

  /** The entry brings a program layout for the artifact: only a completed or partial answer does. */
  predicate Maps(e: Evidence, p: Place)
  {
    (e.status == Completed || e.status == Partial) && e.project == p.project && e.artifact == p.artifact && e.native.layout.Some?
  }

  /** Its layout is stored: the first one that its revision brings for the artifact. */
  ghost predicate Stores(log: seq<Evidence>, j: nat, p: Place)
  {
    && j < |log| && Maps(log[j], p)
    && forall i :: 0 <= i < j && Maps(log[i], p) ==> log[i].revision != log[j].revision
  }

  ghost predicate HasRevision(ls: seq<Layout>, revision: nat) { exists i :: 0 <= i < |ls| && ls[i].revision == revision }

  ghost predicate Mapped(log: seq<Evidence>, p: Place, revision: nat)
  {
    exists j :: 0 <= j < |log| && Maps(log[j], p) && log[j].revision == revision
  }

  lemma PersistLayout(n: Normalizer, ix: Index, e: Evidence, p: Place)
    ensures LayoutsAt(Persist(n, ix, e).layouts, p) ==
              if Maps(e, p) then AddLayout(LayoutsAt(ix.layouts, p), Layout(e.revision, e.native.layout.value)) else LayoutsAt(ix.layouts, p)
  {
    hide InsertAll, AddLayout;
  }

  ghost predicate LastStored(log: seq<Evidence>, p: Place, j: nat)
  {
    Stores(log, j, p) && forall i: nat :: i > j ==> !Stores(log, i, p)
  }

  /** The last of `ls` is what the last storing entry of the log brought. */
  ghost predicate LastOf(log: seq<Evidence>, p: Place, ls: seq<Layout>)
  {
    && (ls == [] <==> forall j: nat :: !Stores(log, j, p))
    && (forall j: nat :: LastStored(log, p, j) && ls != [] ==> ls[|ls| - 1] == Layout(log[j].revision, log[j].native.layout.value))
    && (ls != [] ==> exists j: nat :: LastStored(log, p, j))
  }

  lemma {:induction false} LayoutsExactly(n: Normalizer, log: seq<Evidence>, p: Place)
    ensures forall r :: HasRevision(LayoutsAt(Fold(n, log).layouts, p), r) <==> Mapped(log, p, r)
    ensures LastOf(log, p, LayoutsAt(Fold(n, log).layouts, p))
    decreases |log|
  {
    if log != [] {
      var front, e := log[..|log| - 1], log[|log| - 1];
      LayoutsExactly(n, front, p);
      PersistLayout(n, Fold(n, front), e, p);
      hide LayoutsAt, Persist, Maps, Mapped, HasRevision, LastOf;
      LayoutStep(log, p, LayoutsAt(Fold(n, front).layouts, p), LayoutsAt(Fold(n, log).layouts, p));
    }
  }

  /** An answer is normalized under the layout that the last storing entry for its artifact brought. */
  lemma NewestExactly(n: Normalizer, log: seq<Evidence>, p: Place)
    ensures Newest(Fold(n, log), p).None? <==> forall j: nat :: !Stores(log, j, p)
    ensures forall j: nat :: LastStored(log, p, j) ==>
              Newest(Fold(n, log), p) == Some(Layout(log[j].revision, log[j].native.layout.value))
  {
    hide Fold, Stores;
    LayoutsExactly(n, log, p);
  }

  lemma StoresFront(log: seq<Evidence>, p: Place)
    requires log != []
    ensures forall j: nat :: j < |log| - 1 ==> (Stores(log, j, p) <==> Stores(log[..|log| - 1], j, p))
    ensures forall r :: Mapped(log, p, r) <==> Mapped(log[..|log| - 1], p, r) || (Maps(log[|log| - 1], p) && log[|log| - 1].revision == r)
  {
    hide Maps;
    var front := log[..|log| - 1];
    assert forall j :: 0 <= j < |front| ==> front[j] == log[j];
    forall r ensures Mapped(log, p, r) <==> Mapped(front, p, r) || (Maps(log[|front|], p) && log[|front|].revision == r)
    {
      if Mapped(front, p, r) {
        var j :| 0 <= j < |front| && Maps(front[j], p) && front[j].revision == r;
        assert Maps(log[j], p) && log[j].revision == r;
      }
    }
  }

  lemma LayoutStep(log: seq<Evidence>, p: Place, ls: seq<Layout>, ls': seq<Layout>)
    requires log != [] && (forall r :: HasRevision(ls, r) <==> Mapped(log[..|log| - 1], p, r)) && LastOf(log[..|log| - 1], p, ls)
    requires var e := log[|log| - 1];
             ls' == if Maps(e, p) then AddLayout(ls, Layout(e.revision, e.native.layout.value)) else ls
    ensures (forall r :: HasRevision(ls', r) <==> Mapped(log, p, r)) && LastOf(log, p, ls')
  {
    var front, last := log[..|log| - 1], |log| - 1;
    var e := log[last];
    StoresFront(log, p);
    StoresLast(log, front, p);
    if Maps(e, p) && !HasRevision(ls, e.revision) {
      var l := Layout(e.revision, e.native.layout.value);
      assert ls' == ls + [l];
      RevisionMore(ls, l);
      hide Maps, Mapped, Stores, HasRevision;
      assert LastStored(log, p, last);
    } else {
      assert ls' == ls;
      hide Maps, Mapped, HasRevision, Stores;
      assert forall j: nat :: Stores(log, j, p) <==> Stores(front, j, p);
      forall j: nat ensures LastStored(log, p, j) <==> LastStored(front, p, j) {}
      assert forall j: nat :: Stores(front, j, p) ==> front[j] == log[j] by { StoredInside(front, p, log); }
    }
  }

  lemma StoredInside(front: seq<Evidence>, p: Place, log: seq<Evidence>)
    requires front <= log
    ensures forall j: nat :: Stores(front, j, p) ==> j < |front| && front[j] == log[j]
  {
  }

  lemma StoresLast(log: seq<Evidence>, front: seq<Evidence>, p: Place)
    requires log != [] && front == log[..|log| - 1]
    ensures Stores(log, |front|, p) <==> Maps(log[|front|], p) && !Mapped(front, p, log[|front|].revision)
    ensures forall j: nat :: j >= |log| ==> !Stores(log, j, p)
    ensures forall j: nat :: j >= |front| ==> !Stores(front, j, p)
  {
    hide Maps;
    assert forall j :: 0 <= j < |front| ==> front[j] == log[j];
  }

  lemma RevisionMore(ls: seq<Layout>, l: Layout)
    ensures forall r :: HasRevision(ls + [l], r) <==> HasRevision(ls, r) || r == l.revision
  {
    var ls' := ls + [l];
    assert ls'[|ls|] == l && forall i :: 0 <= i < |ls| ==> ls'[i] == ls[i];
  }

  /** Record `m` of entry `i`, normalized under the layout that was newest before that entry, has the key. */
  ghost predicate Offers(n: Normalizer, log: seq<Evidence>, i: nat, m: nat, k: Key)
  {
    i < |log| && m < |Offered(n, log, i)| && Offered(n, log, i)[m].key == k
  }

  function Offered(n: Normalizer, log: seq<Evidence>, i: nat): seq<Record>
    requires i < |log|
  {
    n.rows(log[i], Newest(Fold(n, log[..i]), Place(log[i].project, log[i].artifact)))
  }

  lemma {:induction false} InsertAllExactly(rows: map<Key, Row>, p: nat, rs: seq<Record>, k: Key)
    ensures k in InsertAll(rows, p, rs) <==> k in rows || exists m :: 0 <= m < |rs| && rs[m].key == k
    ensures k in rows ==> InsertAll(rows, p, rs)[k] == rows[k]
    ensures forall m :: 0 <= m < |rs| && rs[m].key == k && k !in rows && (forall j :: 0 <= j < m ==> rs[j].key != k) ==>
              InsertAll(rows, p, rs)[k] == Row(p, rs[m].content)
    decreases |rs|
  {
    if rs != [] {
      var front := rs[..|rs| - 1];
      InsertAllExactly(rows, p, front, k);
      assert forall j :: 0 <= j < |front| ==> front[j] == rs[j];
    }
  }

  /** The first record of all that has the key. */
  ghost predicate FirstOffer(n: Normalizer, log: seq<Evidence>, i: nat, m: nat, k: Key)
  {
    Offers(n, log, i, m, k) && forall j: nat, q: nat :: Offers(n, log, j, q, k) ==> i < j || (i == j && m <= q)
  }

  /** A row exists exactly when some entry offered its key, and it is the first record that did, in
      the project of that entry. */
  ghost predicate RowOf(n: Normalizer, log: seq<Evidence>, k: Key, rows: map<Key, Row>)
  {
    && (k in rows <==> exists i: nat, m: nat :: Offers(n, log, i, m, k))
    && (forall i: nat, m: nat :: FirstOffer(n, log, i, m, k) && k in rows ==>
          rows[k] == Row(log[i].project, Offered(n, log, i)[m].content))
  }

  lemma {:induction false} RowsExactly(n: Normalizer, log: seq<Evidence>, k: Key)
    ensures RowOf(n, log, k, Fold(n, log).rows)
    decreases |log|
  {
    if log != [] {
      var front, last := log[..|log| - 1], |log| - 1;
      RowsExactly(n, front, k);
      InsertAllExactly(Fold(n, front).rows, log[last].project, Offered(n, log, last), k);
      assert Fold(n, log).rows == InsertAll(Fold(n, front).rows, log[last].project, Offered(n, log, last));
      hide Fold, RowOf;
      RowStep(n, log, k, Fold(n, front).rows);
    }
  }

  lemma RowStep(n: Normalizer, log: seq<Evidence>, k: Key, rows: map<Key, Row>)
    requires log != [] && RowOf(n, log[..|log| - 1], k, rows)
    ensures RowOf(n, log, k, InsertAll(rows, log[|log| - 1].project, Offered(n, log, |log| - 1)))
  {
    var front, last := log[..|log| - 1], |log| - 1;
    OffersFront(n, log, front, k);
    InsertAllExactly(rows, log[last].project, Offered(n, log, last), k);
    if k in rows {
      KnownKey(n, log, front, k, rows, InsertAll(rows, log[last].project, Offered(n, log, last)));
    } else {
      NewKey(n, log, front, k, rows, InsertAll(rows, log[last].project, Offered(n, log, last)));
    }
  }

  lemma KnownKey(n: Normalizer, log: seq<Evidence>, front: seq<Evidence>, k: Key, rows: map<Key, Row>, rows': map<Key, Row>)
    requires |log| == |front| + 1 && RowOf(n, front, k, rows) && k in rows && k in rows' && rows'[k] == rows[k]
    requires forall i: nat, m: nat :: Offers(n, front, i, m, k) ==> i < |front| && Offers(n, log, i, m, k)
    requires forall i: nat, m: nat :: Offers(n, log, i, m, k) && i < |front| ==> Offers(n, front, i, m, k)
    requires forall i: nat, m: nat :: Offers(n, log, i, m, k) ==> i < |log|
    requires forall i :: 0 <= i < |front| ==> Offered(n, log, i) == Offered(n, front, i) && log[i] == front[i]
    ensures RowOf(n, log, k, rows')
  {
    hide Offers, Offered;
    var i: nat, m: nat :| Offers(n, front, i, m, k);
    assert Offers(n, log, i, m, k);
    forall j: nat, q: nat | FirstOffer(n, log, j, q, k) ensures j < |front| && FirstOffer(n, front, j, q, k)
    {
      assert Offers(n, log, j, q, k);
      assert j <= i;
    }
  }

  lemma NewKey(n: Normalizer, log: seq<Evidence>, front: seq<Evidence>, k: Key, rows: map<Key, Row>, rows': map<Key, Row>)
    requires |log| == |front| + 1 && RowOf(n, front, k, rows) && k !in rows
    requires forall i: nat, m: nat :: Offers(n, log, i, m, k) && i < |front| ==> Offers(n, front, i, m, k)
    requires forall i: nat, m: nat :: Offers(n, log, i, m, k) ==> i < |log|
    requires var rs := Offered(n, log, |front|);
             && (k in rows' <==> exists m :: 0 <= m < |rs| && rs[m].key == k)
             && (forall m :: 0 <= m < |rs| && rs[m].key == k && (forall j :: 0 <= j < m ==> rs[j].key != k) ==>
                   k in rows' && rows'[k] == Row(log[|front|].project, rs[m].content))
    ensures RowOf(n, log, k, rows')
  {
    var rs, last := Offered(n, log, |front|), |front|;
    assert forall m: nat :: Offers(n, log, last, m, k) <==> m < |rs| && rs[m].key == k;
    hide Offers, Offered;
    forall i: nat, m: nat | Offers(n, log, i, m, k) ensures i == last {}
    if k in rows' {
      var m :| 0 <= m < |rs| && rs[m].key == k;
      assert Offers(n, log, last, m, k);
    }
    forall i: nat, m: nat | FirstOffer(n, log, i, m, k) ensures k in rows' && rows'[k] == Row(log[i].project, rs[m].content)
    {
      assert i == last && Offers(n, log, last, m, k);
      forall j: nat | j < m ensures j < |rs| && rs[j].key != k
      {
        assert !Offers(n, log, last, j, k);
      }
    }
  }

  lemma OffersFront(n: Normalizer, log: seq<Evidence>, front: seq<Evidence>, k: Key)
    requires log != [] && front == log[..|log| - 1]
    ensures forall i: nat, m: nat :: Offers(n, front, i, m, k) ==> i < |front| && Offers(n, log, i, m, k)
    ensures forall i: nat, m: nat :: Offers(n, log, i, m, k) && i < |front| ==> Offers(n, front, i, m, k)
    ensures forall i: nat, m: nat :: Offers(n, log, i, m, k) ==> i < |log|
    ensures forall i :: 0 <= i < |front| ==> Offered(n, log, i) == Offered(n, front, i) && log[i] == front[i]
  {
    hide Fold;
    forall i | 0 <= i < |front| ensures Offered(n, log, i) == Offered(n, front, i)
    {
      assert front[..i] == log[..i] && front[i] == log[i];
    }
    hide Offered;
  }
}
