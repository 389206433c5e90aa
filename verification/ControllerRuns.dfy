/** Runs of the controller: processes enter, save, crash and are taken over in any interleaving. */
module ControllerRuns {
  import opened Common
  import opened Controller

  /** Where a process stands; `request` numbers the reservation it made. */
  datatype Stage =
    | Looping                  // before the loop test
    | Checked                  // past it: the investigation had not ended
    | Reserved(request: nat)   // saved as in flight, not sent
    | Sent(request: nat)
    | Leaving                  // only the final report and the last save remain

  datatype Process = Process(state: State, stage: Stage, archive: nat)

  /** `row` is the live run row; rows deleted by a transfer are kept in `archived`. `reserved` counts
      reservations ever made, `sent` lists the requests handed to the transport, per archive. `over`
      says that the investigation has a final status. */
  datatype World = World(row: Option<Row>, archived: seq<State>, procs: map<Token, Process>, used: set<Token>,
                         reserved: nat, sent: seq<Send>, over: bool)

  datatype Send = Send(request: nat, archive: nat)

  datatype Event =
    | DoEnter(runner: Token, now: int)
    | DoHeartbeat(runner: Token, now: int)
    | DoCheck(runner: Token)                    // the loop test
    | DoBootstrap(runner: Token, now: int)      // a recipe's fixed first decision, without a request
    | DoReserve(runner: Token, now: int)
    | DoContextError(runner: Token, now: int)
    | DoSend(runner: Token)
    | DoResponse(runner: Token, now: int)
    | DoRateLimit(runner: Token, now: int)
    | DoTransportError(runner: Token, now: int)
    | DoContractError(runner: Token, now: int)
    | DoExecute(runner: Token, error: bool, next: bool, now: int)
    | DoStop(runner: Token)                     // cancellation, an exhausted budget, a wait or an exception
    | DoLeave(runner: Token)
    | DoCrash(runner: Token)
    | DoTransfer(now: int)
    | DoEnd                                     // anyone reports or cancels: final, see Harness

  /** Save the new state; a process that lost its row dies of the exception. */
  function Saved(w: World, t: Token, s: State, stage: Stage, now: int): World
    requires t in w.procs
  {
    var r := Persist(w.row, t, s, now);
    if r.None? then w.(procs := w.procs - {t})
    else w.(row := r, procs := w.procs[t := w.procs[t].(state := s, stage := stage)])
  }

  function Apply(p: Profile, w: World, e: Event): World
  {
    match e
    case DoEnter(t, now) =>
      var r := Enter(w.row, t, now);
      if t in w.used || r.None? then w
      else
        var s := r.value.record;
        // An unknown network outcome is never resubmitted: such a run can only report and leave.
        // A record is Ended only after the investigation is, so the loop test would fail.
        var stage := if s.phase.Inflight? || s.phase.Ended? then Leaving else Looping;
        w.(row := r, used := w.used + {t}, procs := w.procs[t := Process(s, stage, |w.archived|)])
    case DoHeartbeat(t, now) =>
      if w.row.None? || w.row.value.runner != Some(t) || t !in w.procs then w
      else w.(row := Some(w.row.value.(deadline := now + LEASE_MS)))
    case DoCheck(t) =>
      if t !in w.procs || !w.procs[t].stage.Looping? || w.over then w
      else w.(procs := w.procs[t := w.procs[t].(stage := Checked)])
    case DoBootstrap(t, now) =>
      if t !in w.procs || !w.procs[t].stage.Checked? then w
      else Saved(w, t, w.procs[t].state.(phase := ResponseSaved), Checked, now)
    case DoReserve(t, now) =>
      if t !in w.procs || !w.procs[t].stage.Checked? || w.procs[t].state.phase.ResponseSaved?
         || w.procs[t].state.generations >= p.maxGenerations then w
      else
        var w' := Saved(w, t, Reserve(p, w.procs[t].state), Reserved(w.reserved), now);
        if t in w'.procs then w'.(reserved := w.reserved + 1) else w'
    case DoContextError(t, now) =>
      if t !in w.procs || !w.procs[t].stage.Reserved? || w.procs[t].state.generations == 0 then w
      else
        Saved(w, t, Refund(p, w.procs[t].state),
              if w.procs[t].state.compaction >= MAX_COMPACTIONS then Leaving else Looping, now)
    case DoSend(t) =>
      if t !in w.procs || !w.procs[t].stage.Reserved? then w
      else
        w.(sent := w.sent + [Send(w.procs[t].stage.request, w.procs[t].archive)],
           procs := w.procs[t := w.procs[t].(stage := Sent(w.procs[t].stage.request))])
    case DoResponse(t, now) =>
      if t !in w.procs || !w.procs[t].stage.Sent? then w
      else Saved(w, t, w.procs[t].state.(phase := ResponseSaved), Checked, now)
    case DoRateLimit(t, now) =>
      if t !in w.procs || !w.procs[t].stage.Sent? then w
      else Saved(w, t, w.procs[t].state.(phase := Ready), Leaving, now)
    case DoTransportError(t, now) =>
      if t !in w.procs || !w.procs[t].stage.Sent? then w
      else Saved(w, t, w.procs[t].state.(phase := Ready), Leaving, now)
    case DoContractError(t, now) =>
      if t !in w.procs || !w.procs[t].stage.Sent? then w
      else
        Saved(w, t, Failed(w.procs[t].state), if w.procs[t].state.repairs + 1 > MAX_REPAIRS then Leaving else Looping, now)
    case DoExecute(t, error, next, now) =>
      if t !in w.procs || !w.procs[t].stage.Checked? || !w.procs[t].state.phase.ResponseSaved? then w
      else Saved(w, t, Executed(w.procs[t].state, error, next), Looping, now)
    case DoStop(t) =>
      if t !in w.procs then w else w.(procs := w.procs[t := w.procs[t].(stage := Leaving)])
    case DoLeave(t) =>
      if t !in w.procs || !w.procs[t].stage.Leaving? then w
      else
        var r := Leave(w.row, t, w.procs[t].state, w.over);
        w.(procs := w.procs - {t}, row := if r.None? then w.row else r)
    case DoCrash(t) => w.(procs := w.procs - {t})
    case DoTransfer(now) =>
      if w.row.None? || Busy(w.row, now) then w
      else w.(row := None, archived := w.archived + [w.row.value.record])
    case DoEnd => w.(over := true)
  }

  function Run(p: Profile, w: World, es: seq<Event>): World
    decreases |es|
  {
    if es == [] then w else Run(p, Apply(p, w, es[0]), es[1..])
  }

  const FRESH := World(None, [], map[], {}, 0, [], false)

  /* ---------- what every run keeps ---------- */

  /** A saved state reserves exactly its generations. */
  predicate Exact(p: Profile, s: State)
  {
    s.generations <= p.maxGenerations && s.tokens == s.generations * p.tokens && s.ms == s.generations * p.ms
  }

  /** The run state of archive `a`: a deleted row, or the live one. */
  function RecordOf(w: World, a: nat): Option<State>
  {
    if a < |w.archived| then Some(w.archived[a]) else if a == |w.archived| && w.row.Some? then Some(w.row.value.record) else None
  }

  function SentIn(sent: seq<Send>, a: nat): nat
  {
    if sent == [] then 0 else SentIn(sent[..|sent| - 1], a) + if sent[|sent| - 1].archive == a then 1 else 0
  }

  /** Processes that saved a reservation in archive `a` and have not sent it yet. */
  function Unsent(w: World, a: nat): set<Token>
  {
    set t | t in w.procs && w.procs[t].archive == a && w.procs[t].stage.Reserved?
  }

  predicate Holds(w: World, t: Token) { w.row.Some? && w.row.value.runner == Some(t) }

  /** The holder of the row has the saved state, and all it may send is counted in it. */
  ghost predicate Holding(w: World, t: Token)
    requires t in w.procs
  {
    && t in w.used && w.procs[t].archive <= |w.archived|
    && (Holds(w, t) ==> w.procs[t].archive == |w.archived| && w.procs[t].state == w.row.value.record)
    && (w.procs[t].stage.Reserved? || w.procs[t].stage.Sent? ==> w.procs[t].state.phase.Inflight? && w.procs[t].state.generations > 0)
    && (w.procs[t].stage.Looping? || w.procs[t].stage.Checked? ==> !w.procs[t].state.phase.Inflight?)
  }

  ghost predicate Counted(p: Profile, w: World, a: nat)
  {
    if RecordOf(w, a).None? then SentIn(w.sent, a) == 0 && Unsent(w, a) == {}
    else Exact(p, RecordOf(w, a).value) && SentIn(w.sent, a) + |Unsent(w, a)| <= RecordOf(w, a).value.generations
  }

  /** Requests are numbered apart: no request is sent twice. */
  ghost predicate Numbered(w: World)
  {
    && (forall k :: 0 <= k < |w.sent| ==> w.sent[k].request < w.reserved)
    && (forall j, k :: 0 <= j < k < |w.sent| ==> w.sent[j].request != w.sent[k].request)
    && (forall t :: t in w.procs && w.procs[t].stage.Reserved? ==>
          w.procs[t].stage.request < w.reserved && forall k :: 0 <= k < |w.sent| ==> w.sent[k].request != w.procs[t].stage.request)
    && (forall t, u :: t in w.procs && u in w.procs && t != u && w.procs[t].stage.Reserved? && w.procs[u].stage.Reserved? ==>
          w.procs[t].stage.request != w.procs[u].stage.request)
  }

  ghost predicate Sound(p: Profile, w: World)
  {
    Holders(w) && (forall a: nat :: Counted(p, w, a)) && Numbered(w)
  }

  ghost predicate Holders(w: World)
  {
    && (forall t :: t in w.procs ==> Holding(w, t))
    && (w.row.Some? && w.row.value.runner.Some? ==> w.row.value.runner.value in w.used)
  }

  /* ---------- the kinds of step ---------- */

  lemma RemovedSound(p: Profile, w: World, t: Token)
    requires Sound(p, w)
    ensures Sound(p, w.(procs := w.procs - {t}))
  {
    hide Exact, SentIn;
    var w' := w.(procs := w.procs - {t});
    forall u | u in w'.procs ensures Holding(w', u) { assert Holding(w, u); }
    forall a: nat ensures Counted(p, w', a)
    {
      assert Counted(p, w, a);
      assert Unsent(w', a) == Unsent(w, a) - {t};
    }
  }

  /** A save by the holder that neither makes nor gives back a reservation. */
  lemma SavedSound(p: Profile, w: World, t: Token, s: State, stage: Stage, now: int)
    requires Sound(p, w) && t in w.procs && !stage.Reserved? && !stage.Sent? && (stage.Looping? || stage.Checked? ==> !s.phase.Inflight?)
    requires s.generations == w.procs[t].state.generations && s.tokens == w.procs[t].state.tokens && s.ms == w.procs[t].state.ms
    ensures Sound(p, Saved(w, t, s, stage, now))
  {
    var w' := Saved(w, t, s, stage, now);
    if Persist(w.row, t, s, now).None? {
      RemovedSound(p, w, t);
    } else {
      hide SentIn;
      assert Holding(w, t);
      forall u | u in w'.procs ensures Holding(w', u) { assert Holding(w, u); }
      forall a: nat ensures Counted(p, w', a)
      {
        assert Counted(p, w, a);
        assert Unsent(w', a) == Unsent(w, a) - {t};
      }
    }
  }

  lemma ReserveCounted(p: Profile, w: World, t: Token, s: State, now: int, a: nat)
    requires Counted(p, w, a) && t in w.procs && Holding(w, t) && !w.procs[t].stage.Reserved? && Persist(w.row, t, s, now).Some?
    requires Exact(p, s) && s.generations == w.procs[t].state.generations + 1
    ensures Counted(p, Saved(w, t, s, Reserved(w.reserved), now).(reserved := w.reserved + 1), a)
  {
    hide Exact, SentIn;
    var w' := Saved(w, t, s, Reserved(w.reserved), now).(reserved := w.reserved + 1);
    assert Unsent(w', a) == Unsent(w, a) + if a == |w.archived| then {t} else {};
  }

  lemma ReserveSound(p: Profile, w: World, t: Token, now: int)
    requires Sound(p, w) && t in w.procs && w.procs[t].stage.Checked? && w.procs[t].state.generations < p.maxGenerations
    ensures var w' := Saved(w, t, Reserve(p, w.procs[t].state), Reserved(w.reserved), now);
            Sound(p, if t in w'.procs then w'.(reserved := w.reserved + 1) else w')
  {
    var s := Reserve(p, w.procs[t].state);
    if Persist(w.row, t, s, now).None? {
      RemovedSound(p, w, t);
    } else {
      hide Exact, Numbered, Counted;
      var w' := Saved(w, t, s, Reserved(w.reserved), now).(reserved := w.reserved + 1);
      assert Holding(w, t);
      assert Exact(p, s) by { HolderExact(p, w, t); }
      forall u | u in w'.procs ensures Holding(w', u) { assert Holding(w, u); }
      forall a: nat ensures Counted(p, w', a) { ReserveCounted(p, w, t, s, now, a); }
    }
  }

  lemma HolderExact(p: Profile, w: World, t: Token)
    requires Sound(p, w) && t in w.procs && Holds(w, t)
    ensures Exact(p, w.procs[t].state)
  {
    hide Exact, Numbered;
    assert Holding(w, t) && Counted(p, w, |w.archived|);
  }

  lemma RefundExact(p: Profile, s: State)
    requires Exact(p, s) && s.generations > 0
    ensures Exact(p, Refund(p, s))
  {
    assert (s.generations - 1) * p.tokens == s.generations * p.tokens - p.tokens;
    assert (s.generations - 1) * p.ms == s.generations * p.ms - p.ms;
  }

  lemma RefundCounted(p: Profile, w: World, t: Token, s: State, stage: Stage, now: int, a: nat)
    requires Counted(p, w, a) && t in w.procs && Holding(w, t) && w.procs[t].stage.Reserved? && Persist(w.row, t, s, now).Some?
    requires Exact(p, s) && w.procs[t].state.generations > 0 && s.generations == w.procs[t].state.generations - 1
    requires stage.Leaving? || stage.Looping?
    ensures Counted(p, Saved(w, t, s, stage, now), a)
  {
    hide Exact, SentIn;
    assert Unsent(Saved(w, t, s, stage, now), a) == Unsent(w, a) - {t};
    if a == |w.archived| { assert t in Unsent(w, a); }
  }

  lemma FewerNumbered(w: World, t: Token, s: State, stage: Stage, now: int)
    requires Numbered(w) && t in w.procs && Persist(w.row, t, s, now).Some? && !stage.Reserved?
    ensures Numbered(Saved(w, t, s, stage, now))
  {
    hide Persist;
  }

  lemma RefundSound(p: Profile, w: World, t: Token, stage: Stage, now: int)
    requires Sound(p, w) && t in w.procs && w.procs[t].stage.Reserved? && w.procs[t].state.generations > 0
    requires stage.Leaving? || stage.Looping?
    ensures Sound(p, Saved(w, t, Refund(p, w.procs[t].state), stage, now))
  {
    var s := Refund(p, w.procs[t].state);
    if Persist(w.row, t, s, now).None? {
      RemovedSound(p, w, t);
    } else {
      hide Exact, Numbered, Counted;
      var w' := Saved(w, t, s, stage, now);
      assert Holding(w, t);
      assert Exact(p, s) by { HolderExact(p, w, t); RefundExact(p, w.procs[t].state); }
      FewerNumbered(w, t, s, stage, now);
      forall u | u in w'.procs ensures Holding(w', u) { assert Holding(w, u); }
      forall a: nat ensures Counted(p, w', a) { RefundCounted(p, w, t, s, stage, now, a); }
    }
  }

  lemma SendNumbered(p: Profile, w: World, t: Token)
    requires Numbered(w) && t in w.procs && w.procs[t].stage.Reserved?
    ensures Numbered(Apply(p, w, DoSend(t)))
  {
    hide Persist, Leave, Enter, Saved, Reserve, Refund, Failed, Executed;
  }

  lemma SendCounted(p: Profile, w: World, t: Token, a: nat)
    requires Counted(p, w, a) && t in w.procs && w.procs[t].stage.Reserved?
    ensures Counted(p, Apply(p, w, DoSend(t)), a)
  {
    hide Exact, Persist, Leave, Enter, Saved, Reserve, Refund, Failed, Executed;
    var w' := Apply(p, w, DoSend(t));
    assert Unsent(w', a) == Unsent(w, a) - {t};
    assert w'.sent[..|w.sent|] == w.sent;
    if a == w.procs[t].archive { assert t in Unsent(w, a); }
  }

  lemma SendSound(p: Profile, w: World, t: Token)
    requires Sound(p, w) && t in w.procs && w.procs[t].stage.Reserved?
    ensures Sound(p, Apply(p, w, DoSend(t)))
  {
    hide Exact, Persist, Leave, Enter, Numbered, Counted, Saved, Reserve, Refund, Failed, Executed;
    var w' := Apply(p, w, DoSend(t));
    assert Holding(w, t);
    SendNumbered(p, w, t);
    forall u | u in w'.procs ensures Holding(w', u) { assert Holding(w, u); }
    forall a: nat ensures Counted(p, w', a) { SendCounted(p, w, t, a); }
  }

  lemma StageSound(p: Profile, w: World, t: Token, stage: Stage)
    requires Sound(p, w) && t in w.procs && (stage.Leaving? || (stage.Checked? && w.procs[t].stage.Looping?))
    ensures Sound(p, w.(procs := w.procs[t := w.procs[t].(stage := stage)]))
  {
    hide Exact, SentIn;
    var w' := w.(procs := w.procs[t := w.procs[t].(stage := stage)]);
    assert Holding(w, t);
    forall u | u in w'.procs ensures Holding(w', u) { assert Holding(w, u); }
    forall a: nat ensures Counted(p, w', a)
    {
      assert Counted(p, w, a);
      assert Unsent(w', a) == Unsent(w, a) - {t};
    }
  }

  lemma LeaveSound(p: Profile, w: World, t: Token)
    requires Sound(p, w) && t in w.procs && w.procs[t].stage.Leaving?
    ensures Sound(p, Apply(p, w, DoLeave(t)))
  {
    hide SentIn;
    var w' := Apply(p, w, DoLeave(t));
    assert Holding(w, t);
    forall u | u in w'.procs ensures Holding(w', u) { assert Holding(w, u); }
    forall a: nat ensures Counted(p, w', a)
    {
      assert Counted(p, w, a);
      assert Unsent(w', a) == Unsent(w, a);
    }
  }

  lemma EnterSound(p: Profile, w: World, t: Token, now: int)
    requires Sound(p, w) && t !in w.used && Enter(w.row, t, now).Some?
    ensures Sound(p, Apply(p, w, DoEnter(t, now)))
  {
    hide SentIn;
    var w' := Apply(p, w, DoEnter(t, now));
    assert t in w.procs ==> Holding(w, t);
    forall u | u in w'.procs ensures Holding(w', u) { if u != t { assert Holding(w, u); } }
    forall a: nat ensures Counted(p, w', a)
    {
      assert Counted(p, w, a);
      assert Unsent(w', a) == Unsent(w, a);
    }
  }

  lemma TransferSound(p: Profile, w: World, now: int)
    requires Sound(p, w)
    ensures Sound(p, Apply(p, w, DoTransfer(now)))
  {
    hide Exact, SentIn;
    var w' := Apply(p, w, DoTransfer(now));
    forall u | u in w'.procs ensures Holding(w', u) { assert Holding(w, u); }
    forall a: nat ensures Counted(p, w', a)
    {
      assert Counted(p, w, a);
      assert Unsent(w', a) == Unsent(w, a);
    }
  }

  lemma HeartbeatSound(p: Profile, w: World, t: Token, now: int)
    requires Sound(p, w)
    ensures Sound(p, Apply(p, w, DoHeartbeat(t, now)))
  {
    hide Exact, SentIn;
    var w' := Apply(p, w, DoHeartbeat(t, now));
    forall u | u in w'.procs ensures Holding(w', u) { assert Holding(w, u); }
    forall a: nat ensures Counted(p, w', a)
    {
      assert Counted(p, w, a);
      assert Unsent(w', a) == Unsent(w, a);
    }
  }

  lemma EndSound(p: Profile, w: World)
    requires Sound(p, w)
    ensures Sound(p, w.(over := true))
  {
    hide Exact, SentIn;
    var w' := w.(over := true);
    forall u | u in w'.procs ensures Holding(w', u) { assert Holding(w, u); }
    forall a: nat ensures Counted(p, w', a)
    {
      assert Counted(p, w, a);
      assert Unsent(w', a) == Unsent(w, a);
    }
  }

  lemma StepSound(p: Profile, w: World, e: Event)
    requires Sound(p, w)
    ensures Sound(p, Apply(p, w, e))
  {
    hide Sound, Saved, Enter, Leave, Persist;
    match e {
      case DoEnter(t, now) => if t !in w.used && Enter(w.row, t, now).Some? { EnterSound(p, w, t, now); }
      case DoHeartbeat(t, now) => HeartbeatSound(p, w, t, now);
      case DoCheck(t) => if t in w.procs && w.procs[t].stage.Looping? { StageSound(p, w, t, Checked); }
      case DoBootstrap(t, now) =>
        if t in w.procs && w.procs[t].stage.Checked? { SavedSound(p, w, t, w.procs[t].state.(phase := ResponseSaved), Checked, now); }
      case DoReserve(t, now) =>
        if t in w.procs && w.procs[t].stage.Checked? && !w.procs[t].state.phase.ResponseSaved?
           && w.procs[t].state.generations < p.maxGenerations { ReserveSound(p, w, t, now); }
      case DoContextError(t, now) =>
        if t in w.procs && w.procs[t].stage.Reserved? && w.procs[t].state.generations > 0 {
          RefundSound(p, w, t, if w.procs[t].state.compaction >= MAX_COMPACTIONS then Leaving else Looping, now);
        }
      case DoSend(t) => if t in w.procs && w.procs[t].stage.Reserved? { SendSound(p, w, t); }
      case DoResponse(t, now) =>
        if t in w.procs && w.procs[t].stage.Sent? { SavedSound(p, w, t, w.procs[t].state.(phase := ResponseSaved), Checked, now); }
      case DoRateLimit(t, now) =>
        if t in w.procs && w.procs[t].stage.Sent? { SavedSound(p, w, t, w.procs[t].state.(phase := Ready), Leaving, now); }
      case DoTransportError(t, now) =>
        if t in w.procs && w.procs[t].stage.Sent? { SavedSound(p, w, t, w.procs[t].state.(phase := Ready), Leaving, now); }
      case DoContractError(t, now) =>
        if t in w.procs && w.procs[t].stage.Sent? {
          SavedSound(p, w, t, Failed(w.procs[t].state), if w.procs[t].state.repairs + 1 > MAX_REPAIRS then Leaving else Looping, now);
        }
      case DoExecute(t, error, next, now) =>
        if t in w.procs && w.procs[t].stage.Checked? && w.procs[t].state.phase.ResponseSaved? {
          SavedSound(p, w, t, Executed(w.procs[t].state, error, next), Looping, now);
        }
      case DoStop(t) => if t in w.procs { StageSound(p, w, t, Leaving); }
      case DoLeave(t) => if t in w.procs && w.procs[t].stage.Leaving? { LeaveSound(p, w, t); }
      case DoCrash(t) => RemovedSound(p, w, t);
      case DoTransfer(now) => TransferSound(p, w, now);
      case DoEnd => EndSound(p, w);
    }
  }

  lemma FreshSound(p: Profile)
    ensures Sound(p, FRESH)
  {
    forall a: nat ensures Counted(p, FRESH, a) { assert Unsent(FRESH, a) == {}; }
  }

  lemma {:induction false} RunSound(p: Profile, w: World, es: seq<Event>)
    requires Sound(p, w)
    ensures Sound(p, Run(p, w, es))
    decreases |es|
  {
    hide Sound, Apply;
    if es != [] {
      StepSound(p, w, es[0]);
      RunSound(p, Apply(p, w, es[0]), es[1..]);
    }
  }

  /** In every run: each saved state reserves exactly its generations, which stay within the
      maximum, and the requests sent for that state never outnumber them; no request is sent twice. */
  lemma RequestsAreReserved(p: Profile, es: seq<Event>, a: nat)
    ensures var w := Run(p, FRESH, es);
            && (RecordOf(w, a).Some? ==> Exact(p, RecordOf(w, a).value) && SentIn(w.sent, a) <= RecordOf(w, a).value.generations)
            && (RecordOf(w, a).None? ==> SentIn(w.sent, a) == 0)
            && (forall j, k :: 0 <= j < k < |w.sent| ==> w.sent[j].request != w.sent[k].request)
  {
    FreshSound(p);
    RunSound(p, FRESH, es);
    assert Counted(p, Run(p, FRESH, es), a);
  }

  /* ---------- a request left in flight ---------- */

  /** The run stopped while a request was in flight: whoever holds the row can only leave. */
  ghost predicate Parked(w: World)
  {
    && w.row.Some? && (w.row.value.record.phase.Inflight? || w.row.value.record.phase.Ended?)
    && (forall t :: t in w.procs && Holds(w, t) ==> w.procs[t].stage.Leaving?)
  }

  predicate NoTransfer(es: seq<Event>) { forall k :: 0 <= k < |es| ==> !es[k].DoTransfer? }

  lemma ParkedStep(p: Profile, w: World, e: Event)
    requires Holders(w) && Parked(w) && !e.DoTransfer?
    ensures Parked(Apply(p, w, e)) && Apply(p, w, e).reserved == w.reserved
  {
    hide Exact, Numbered, Counted, Reserve, Refund, Failed, Executed;
    var w' := Apply(p, w, e);
    assert forall t :: t in w.procs ==> Holding(w, t);
  }

  /** A request left in flight is never reissued: until the run row is deleted by a transfer, no
      process reserves, and so none sends, anything new. */
  lemma {:induction false} NeverReissued(p: Profile, w: World, es: seq<Event>)
    requires Sound(p, w) && Parked(w) && NoTransfer(es)
    ensures Parked(Run(p, w, es)) && Run(p, w, es).reserved == w.reserved
    decreases |es|
  {
    hide Sound, Parked, Apply;
    if es != [] {
      assert Holders(w) by { SoundHolders(p, w); }
      ParkedStep(p, w, es[0]);
      StepSound(p, w, es[0]);
      NeverReissued(p, Apply(p, w, es[0]), es[1..]);
    }
  }

  lemma SoundHolders(p: Profile, w: World)
    requires Sound(p, w)
    ensures Holders(w)
  {
  }

  /** A process that stops or dies between saving its request and saving the outcome leaves the run
      parked: crash, cancellation and takeover are all safe. */
  lemma InterruptedIsParked(p: Profile, w: World, t: Token)
    requires Sound(p, w) && t in w.procs && Holds(w, t) && (w.procs[t].stage.Reserved? || w.procs[t].stage.Sent?)
    ensures Parked(Apply(p, w, DoCrash(t))) && Parked(Apply(p, w, DoStop(t)))
    ensures forall u, now :: u !in w.used && Enter(w.row, u, now).Some? ==> Parked(Apply(p, w, DoEnter(u, now)))
  {
    assert forall u :: u in w.procs ==> Holding(w, u);
  }

  /* ---------- a request whose transport failed ---------- */

  /** The budget is spent and the holder, if any, has nothing to give back. */
  ghost predicate Spent(p: Profile, w: World)
  {
    && w.row.Some? && w.row.value.record.generations >= p.maxGenerations
    && (forall t :: t in w.procs && Holds(w, t) ==> !w.procs[t].stage.Reserved?)
  }

  lemma SpentStep(p: Profile, w: World, e: Event)
    requires Holders(w) && Spent(p, w) && !e.DoTransfer?
    ensures Spent(p, Apply(p, w, e)) && Apply(p, w, e).reserved == w.reserved
  {
    hide Exact, Numbered, Counted;
    assert forall t :: t in w.procs ==> Holding(w, t);
  }

  lemma {:induction false} SpentRun(p: Profile, w: World, es: seq<Event>)
    requires Sound(p, w) && Spent(p, w) && NoTransfer(es)
    ensures Run(p, w, es).reserved == w.reserved
    decreases |es|
  {
    hide Sound, Spent, Apply;
    if es != [] {
      SoundHolders(p, w);
      SpentStep(p, w, es[0]);
      StepSound(p, w, es[0]);
      SpentRun(p, Apply(p, w, es[0]), es[1..]);
    }
  }

  /** The investigation has ended, and no holder has passed the loop test without a decision to execute. */
  ghost predicate Shut(w: World)
  {
    w.over && forall t :: t in w.procs && Holds(w, t) && w.procs[t].stage.Checked? ==> w.procs[t].state.phase.ResponseSaved?
  }

  lemma ShutStep(p: Profile, w: World, e: Event)
    requires Holders(w) && Shut(w)
    ensures Shut(Apply(p, w, e)) && Apply(p, w, e).reserved == w.reserved
  {
    hide Exact, Numbered, Counted;
    assert forall t :: t in w.procs ==> Holding(w, t);
  }

  /** After the end no request is ever reserved again, also after a transfer. */
  lemma {:induction false} EndedIsSilent(p: Profile, w: World, es: seq<Event>)
    requires Sound(p, w) && Shut(w)
    ensures Run(p, w, es).reserved == w.reserved
    decreases |es|
  {
    hide Sound, Shut, Apply;
    if es != [] {
      SoundHolders(p, w);
      ShutStep(p, w, es[0]);
      StepSound(p, w, es[0]);
      EndedIsSilent(p, Apply(p, w, es[0]), es[1..]);
    }
  }

  lemma {:induction false} FreshToken(s: set<Token>) returns (u: Token)
    ensures forall t :: t in s ==> t < u
    decreases |s|
  {
    if s == {} {
      u := 0;
    } else {
      var t :| t in s;
      var v := FreshToken(s - {t});
      u := if t < v then v else t + 1;
      assert forall x :: x in s ==> x == t || x in s - {t};
    }
  }

  /** Some continuation without a transfer reserves, and so may send, another request. */
  ghost predicate MayReissue(p: Profile, w: World)
  {
    exists es :: NoTransfer(es) && Run(p, w, es).reserved > w.reserved
  }

  /** The failed transport is saved as "ready" before the final report is written. If the process
      dies in between, the uncertain request is followed by another one, exactly when generations
      are left and the investigation has not ended meanwhile. */
  lemma TransportErrorMayReissue(p: Profile, w: World, t: Token, now: int)
    requires Sound(p, w) && t in w.procs && Holds(w, t) && w.procs[t].stage.Sent?
    ensures MayReissue(p, Apply(p, w, DoTransportError(t, now))) <==> w.procs[t].state.generations < p.maxGenerations && !w.over
  {
    var w1 := Apply(p, w, DoTransportError(t, now));
    assert Holding(w, t);
    StepSound(p, w, DoTransportError(t, now));
    if w.over {
      hide Sound, Run, Apply;
      assert Shut(w1);
      forall es | NoTransfer(es) ensures Run(p, w1, es).reserved == w1.reserved
      {
        EndedIsSilent(p, w1, es);
      }
    } else if w.procs[t].state.generations < p.maxGenerations {
      var u := FreshToken(w.used);
      Continuation(p, w, t, u, now);
    } else {
      hide Sound, Run, Apply;
      assert Spent(p, w1);
      forall es | NoTransfer(es) ensures Run(p, w1, es).reserved == w1.reserved
      {
        SpentRun(p, w1, es);
      }
    }
  }

  /** Such a run from the beginning: with two generations to spend, the first request may be reissued. */
  lemma ReissueFromFresh(p: Profile, t: Token, now: int)
    requires p.maxGenerations >= 2
    ensures var w := Run(p, FRESH, [DoEnter(t, now), DoCheck(t), DoReserve(t, now), DoSend(t)]);
            && w.sent == [Send(0, 0)] && t in w.procs && w.procs[t].stage.Sent?
            && MayReissue(p, Apply(p, w, DoTransportError(t, now)))
  {
    hide Sound, MayReissue;
    var es := [DoEnter(t, now), DoCheck(t), DoReserve(t, now), DoSend(t)];
    RunFour(p, FRESH, es);
    FreshSound(p);
    RunSound(p, FRESH, es);
    TransportErrorMayReissue(p, Run(p, FRESH, es), t, now);
  }

  /** After the save: the process dies, another enters once the lease ran out, and reserves. */
  lemma Continuation(p: Profile, w: World, t: Token, u: Token, now: int)
    requires Sound(p, w) && t in w.procs && Holds(w, t) && w.procs[t].stage.Sent? && w.procs[t].state.generations < p.maxGenerations
    requires u !in w.used && !w.over
    ensures MayReissue(p, Apply(p, w, DoTransportError(t, now)))
  {
    hide Numbered, Counted;
    assert Holding(w, t);
    assert u in w.procs ==> Holding(w, u);
    var w1 := Apply(p, w, DoTransportError(t, now));
    var later := now + LEASE_MS;
    var w2 := Apply(p, w1, DoCrash(t));
    var w3 := Apply(p, w2, DoEnter(u, later));
    assert w3.procs[u].stage.Looping? && w3.procs[u].state.phase.Ready? && Holds(w3, u);
    var w4 := Apply(p, w3, DoCheck(u));
    var w5 := Apply(p, w4, DoReserve(u, later));
    assert w5.reserved == w1.reserved + 1;
    var es := [DoCrash(t), DoEnter(u, later), DoCheck(u), DoReserve(u, later)];
    RunFour(p, w1, es);
    assert NoTransfer(es);
  }

  lemma RunFour(p: Profile, w: World, es: seq<Event>)
    requires |es| == 4
    ensures Run(p, w, es) == Apply(p, Apply(p, Apply(p, Apply(p, w, es[0]), es[1]), es[2]), es[3])
  {
    hide Apply;
    var w1 := Apply(p, w, es[0]);
    var w2 := Apply(p, w1, es[1]);
    var w3 := Apply(p, w2, es[2]);
    assert es[1..][0] == es[1] && es[2..][0] == es[2] && es[3..][0] == es[3];
    assert es[1..][1..] == es[2..] && es[2..][1..] == es[3..] && es[3..][1..] == [];
    assert Run(p, w3, es[3..]) == Apply(p, w3, es[3]);
    assert Run(p, w2, es[2..]) == Run(p, w3, es[3..]);
    assert Run(p, w1, es[1..]) == Run(p, w2, es[2..]);
  }
}
