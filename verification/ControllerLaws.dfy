/** Who holds the controller's run row and for how long, and what one full generation does
    (src/model_controller.cpp, harness_explore and persist). */
module ControllerLaws {
  import opened Common
  import opened Controller
  import opened ControllerRuns

  /** A process enters exactly when no other lease is live; it keeps the stored record, or begins with
      nothing spent, and gets the row for a minute. */
  lemma EnterExactly(row: Option<Row>, t: Token, now: int)
    ensures Enter(row, t, now).Some? <==> row.None? || row.value.runner.None? || row.value.deadline <= now
    ensures Enter(row, t, now).Some? ==>
              var r := Enter(row, t, now).value;
              && r.runner == Some(t) && r.deadline == now + 60000
              && r.record == if row.Some? then row.value.record else State(Ready, 0, 0, 0, 0, 0)
  {
  }

  lemma PersistExactly(row: Option<Row>, t: Token, s: State, now: int)
    ensures Persist(row, t, s, now).Some? <==> row.Some? && row.value.runner == Some(t)
    ensures Persist(row, t, s, now).Some? ==> Persist(row, t, s, now).value == Row(s, Some(t), now + 60000)
  {
  }

  /** One more generation reserves its rates, and a context error takes exactly that back. */
  lemma ReserveExactly(p: Profile, s: State)
    ensures Reserve(p, s) == State(Inflight, s.generations + 1, s.tokens + p.tokens, s.ms + p.ms, s.repairs, s.compaction)
    ensures Refund(p, Reserve(p, s)) == s.(phase := Ready, compaction := s.compaction + 1)
  {
  }

  predicate HeldUntil(w: World, t: Token, until: int)
  {
    w.row.Some? && w.row.value.runner == Some(t) && until <= w.row.value.deadline && t in w.used
  }

  /** Others enter or transfer before `until`; the holder does not leave, and none of its saves and
      heartbeats shortens its lease. */
  predicate Respects(e: Event, t: Token, until: int)
  {
    match e
    case DoEnter(u, now) => now < until
    case DoTransfer(now) => now < until
    case DoLeave(u) => u != t
    case DoHeartbeat(u, now) => u == t ==> until <= now + 60000
    case DoBootstrap(u, now) => u == t ==> until <= now + 60000
    case DoReserve(u, now) => u == t ==> until <= now + 60000
    case DoContextError(u, now) => u == t ==> until <= now + 60000
    case DoResponse(u, now) => u == t ==> until <= now + 60000
    case DoRateLimit(u, now) => u == t ==> until <= now + 60000
    case DoTransportError(u, now) => u == t ==> until <= now + 60000
    case DoContractError(u, now) => u == t ==> until <= now + 60000
    case DoExecute(u, error, next, now) => u == t ==> until <= now + 60000
    case _ => true
  }

  lemma StepHeld(p: Profile, w: World, e: Event, t: Token, until: int)
    requires HeldUntil(w, t, until) && Respects(e, t, until)
    ensures HeldUntil(Apply(p, w, e), t, until)
  {
    hide Reserve, Refund, Failed, Executed;
  }

  /** The holder of a live lease keeps the row until the lease runs out, whatever other processes do. */
  lemma {:induction false} HolderKeeps(p: Profile, w: World, es: seq<Event>, t: Token, until: int)
    requires HeldUntil(w, t, until) && forall k :: 0 <= k < |es| ==> Respects(es[k], t, until)
    ensures HeldUntil(Run(p, w, es), t, until)
    ensures forall u, now :: now < until ==> Enter(Run(p, w, es).row, u, now).None?
    decreases |es|
  {
    hide Apply, Respects;
    if es != [] {
      StepHeld(p, w, es[0], t, until);
      assert forall k :: 0 <= k < |es| - 1 ==> es[1..][k] == es[k + 1];
      HolderKeeps(p, Apply(p, w, es[0]), es[1..], t, until);
    }
  }

  /** A holder that is ready, with a generation left in an open investigation. */
  predicate ReadyToAsk(p: Profile, w: World, t: Token)
  {
    && t in w.procs && w.procs[t].stage == Looping && w.procs[t].state.phase == Ready && Holds(w, t) && !w.over
    && w.procs[t].state.generations < p.maxGenerations
  }

  /** It can always ask, receive and execute: one request is sent, one generation is spent, and it is
      back at the loop test with its result saved. */
  lemma GenerationCompletes(p: Profile, w: World, t: Token, now: int)
    requires ReadyToAsk(p, w, t)
    ensures var s := w.procs[t].state;
            var w' := Apply(p, Apply(p, Apply(p, Apply(p, Apply(p, w, DoCheck(t)), DoReserve(t, now)), DoSend(t)), DoResponse(t, now)),
                            DoExecute(t, false, false, now));
            && t in w'.procs && w'.procs[t].stage == Looping && w'.reserved == w.reserved + 1
            && w'.sent == w.sent + [Send(w.reserved, w.procs[t].archive)]
            && w'.procs[t].state == State(Ready, s.generations + 1, s.tokens + p.tokens, s.ms + p.ms, 0, s.compaction)
            && w'.row == Some(Row(w'.procs[t].state, Some(t), now + 60000))
  {
    var w1 := Apply(p, w, DoCheck(t));
    var w2 := Apply(p, w1, DoReserve(t, now));
    assert t in w2.procs && w2.procs[t].stage == Reserved(w.reserved) && Holds(w2, t);
    var w3 := Apply(p, w2, DoSend(t));
    assert w3.procs[t].stage == Sent(w.reserved) && w3.row == w2.row;
    var w4 := Apply(p, w3, DoResponse(t, now));
    assert w4.procs[t].stage == Checked && w4.procs[t].state.phase == ResponseSaved && Holds(w4, t);
  }

  /** A response that breaks the contract is tried again at most twice in a row; the third ends the run. */
  lemma ContractErrorExactly(p: Profile, w: World, t: Token, now: int)
    requires t in w.procs && w.procs[t].stage.Sent? && Holds(w, t)
    ensures var w' := Apply(p, w, DoContractError(t, now));
            && t in w'.procs && w'.procs[t].state == w.procs[t].state.(phase := Ready, repairs := w.procs[t].state.repairs + 1)
            && w'.procs[t].stage == if w.procs[t].state.repairs >= 2 then Leaving else Looping
  {
  }
}
