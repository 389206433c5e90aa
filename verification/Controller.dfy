/** The provider-call phase machine of the model controller (src/model_controller.cpp,
    harness_explore and persist): one durable run row, any number of controller processes. */
module Controller {
  import opened Common

  type Token = nat

  const LEASE_MS := 60000
  const MAX_REPAIRS := 2
  const MAX_COMPACTIONS := 2

  datatype Phase = Ready | Inflight | ResponseSaved | Ended

  /** The pinned profile: what one generation reserves, and how many there may be. */
  datatype Profile = Profile(tokens: nat, ms: nat, maxGenerations: nat)

  /** The controller state that is saved at every step. */
  datatype State = State(phase: Phase, generations: nat, tokens: int, ms: int, repairs: nat, compaction: nat)

  const INITIAL := State(Ready, 0, 0, 0, 0, 0)

  /** The run row: its runner is cleared on exit and replaced on takeover. */
  datatype Row = Row(record: State, runner: Option<Token>, deadline: int)

  /** harness_explore may not enter while another controller's lease is live. */
  predicate Busy(row: Option<Row>, now: int)
  {
    row.Some? && row.value.runner.Some? && row.value.deadline > now
  }

  /** Entry keeps a stored record and takes the row over. */
  function Enter(row: Option<Row>, runner: Token, now: int): Option<Row>
  {
    if Busy(row, now) then None
    else Some(Row(if row.Some? then row.value.record else INITIAL, Some(runner), now + LEASE_MS))
  }

  /** persist: guarded by the runner; losing the row is an exception. */
  function Persist(row: Option<Row>, runner: Token, s: State, now: int): Option<Row>
  {
    if row.None? || row.value.runner != Some(runner) then None else Some(Row(s, Some(runner), now + LEASE_MS))
  }

  /** The last transaction also gives the row up. */
  function Leave(row: Option<Row>, runner: Token, s: State, ended: bool): Option<Row>
  {
    if row.None? || row.value.runner != Some(runner) then None
    else Some(Row(if ended then s.(phase := Ended) else s, None, 0))
  }

  /* ---------- the state changes between two saves ---------- */

  function Reserve(p: Profile, s: State): State
  {
    s.(generations := s.generations + 1, tokens := s.tokens + p.tokens, ms := s.ms + p.ms, phase := Inflight)
  }

  /** The context did not fit: nothing was sent, so the reservation is given back. */
  function Refund(p: Profile, s: State): State
    requires s.generations > 0
  {
    s.(generations := s.generations - 1, tokens := s.tokens - p.tokens, ms := s.ms - p.ms, phase := Ready,
       compaction := s.compaction + 1)
  }

  function Failed(s: State): State { s.(phase := Ready, repairs := s.repairs + 1) }

  /** After a decision was executed: with or without an error, and maybe with a decision to follow. */
  function Executed(s: State, error: bool, next: bool): State
  {
    s.(repairs := if error then s.repairs + 1 else 0, phase := if next then ResponseSaved else Ready)
  }

  /* ---------- the same as imperative code ---------- */

  class RunRow {
    var row: Option<Row>

    constructor ()
      ensures row == None
    {
      row := None;
    }

    method Begin(runner: Token, now: int) returns (state: Option<State>)
      modifies this
      ensures match Enter(old(row), runner, now)
              case None => state.None? && row == old(row)
              case Some(r) => state == Some(r.record) && row == Some(r)
    {
      if row.Some? && row.value.runner.Some? && row.value.deadline > now { return None; }
      var record := INITIAL;
      if row.Some? { record := row.value.record; }
      row := Some(Row(record, Some(runner), now + LEASE_MS));
      return Some(record);
    }

    method Save(runner: Token, s: State, now: int) returns (ok: bool)
      modifies this
      ensures ok == Persist(old(row), runner, s, now).Some?
      ensures row == if ok then Persist(old(row), runner, s, now) else old(row)
    {
      if row.None? || row.value.runner != Some(runner) { return false; }
      row := Some(Row(s, Some(runner), now + LEASE_MS));
      return true;
    }
  }

  /** One process in the phase loop; `state` is its own copy of the run state. */
  class Process {
    const runner: Token
    const profile: Profile
    const table: RunRow
    var state: State

    constructor (runner: Token, profile: Profile, table: RunRow, state: State)
      ensures this.runner == runner && this.profile == profile && this.table == table && this.state == state
    {
      this.runner, this.profile, this.table, this.state := runner, profile, table, state;
    }

    /** Reserve one generation and save it before anything is sent. */
    method BeginRequest(now: int) returns (ok: bool)
      requires state.generations < profile.maxGenerations
      modifies this`state, table
      ensures state == Reserve(profile, old(state))
      ensures ok == Persist(old(table.row), runner, state, now).Some?
      ensures table.row == if ok then Persist(old(table.row), runner, state, now) else old(table.row)
    {
      state := state.(generations := state.generations + 1);
      state := state.(tokens := state.tokens + profile.tokens);
      state := state.(ms := state.ms + profile.ms);
      state := state.(phase := Inflight);
      ok := table.Save(runner, state, now);
    }

    method GiveBack(now: int) returns (ok: bool)
      requires state.generations > 0
      modifies this`state, table
      ensures state == Refund(profile, old(state))
      ensures ok == Persist(old(table.row), runner, state, now).Some?
      ensures table.row == if ok then Persist(old(table.row), runner, state, now) else old(table.row)
    {
      state := state.(generations := state.generations - 1);
      state := state.(tokens := state.tokens - profile.tokens);
      state := state.(ms := state.ms - profile.ms);
      state := state.(phase := Ready);
      state := state.(compaction := state.compaction + 1);
      ok := table.Save(runner, state, now);
    }
  }
}
