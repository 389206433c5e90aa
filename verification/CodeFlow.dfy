/** What a complete control-flow report says about execution: while the code is not changed, the
    processor stays inside the reported offsets until it meets a call that does not go to the next
    instruction (src/harness_reasoning.hpp, recovery_control_flow). */
module CodeFlow {
  import opened Common
  import opened X86
  import opened Stage
  import opened StubRun
  import opened ControlFlow

  /** Where a branch goes; a target below the blob is outside like one behind it. */
  function TargetOf(b: seq<byte>, at: nat, d: Decoded): nat
    requires d.inst.Jmp? || d.inst.Jcc?
  {
    var t := at + d.len + d.inst.rel;
    if t < 0 then |b| else t
  }

  /** The control flow of the instruction at an offset, as the decoder reports it. */
  function FlowAt(b: seq<byte>, at: nat): Option<Flow>
  {
    var d := DecodeAt(b, at);
    if d.None? then None
    else Some(match d.value.inst
      case Jmp(rel) => DirectJump(TargetOf(b, at, d.value))
      case Jcc(c, rel) => ConditionalJump(TargetOf(b, at, d.value), at + d.value.len)
      case Call(rel) => ControlFlow.Call(at + d.value.len)
      case CallReg(r) => ControlFlow.Call(at + d.value.len)
      case _ => Normal(at + d.value.len))
  }

  function Code(b: seq<byte>): Program { Program(|b|, (at: nat) => FlowAt(b, at)) }

  /** What is queued after an instruction: where its branches go, and what follows it unless it jumps. */
  lemma SuccessorsExactly(b: seq<byte>, at: nat, stop: nat, x: nat)
    requires Code(b).Decodes(at)
    ensures var d := DecodeAt(b, at).value;
            x in Code(b).Successors(at, stop) <==>
              && at != stop
              && ((d.inst.Jmp? && x == TargetOf(b, at, d)) || (!d.inst.Jmp? && x == at + d.len) || (d.inst.Jcc? && x == TargetOf(b, at, d)))
  {
    hide DecodeAt, TargetOf;
  }

  /** The instruction does not leave for a called function, and is not the one to stop at. */
  predicate StaysLocal(b: seq<byte>, at: int, stop: nat)
  {
    && at != stop && 0 <= at < |b|
    && (DecodeAt(b, at).Some? ==> !DecodeAt(b, at).value.inst.CallReg?
                                  && (DecodeAt(b, at).value.inst.Call? ==> DecodeAt(b, at).value.inst.rel == 0))
  }

  /** The offset after one step. */
  function NextOffset(s: State, b: seq<byte>, at: nat, d: Decoded): nat
  {
    if d.inst.Jmp? || (d.inst.Jcc? && Taken(d.inst.cond, s.flags)) then TargetOf(b, at, d) else at + d.len
  }

  /** One step from a reported offset goes to a reported offset. */
  lemma StepStays(s: State, base: u32, b: seq<byte>, entry: nat, stop: nat, r: set<nat>, at: nat)
    requires Code(b).Closed(entry, stop, r) && at in r && StaysLocal(b, at, stop)
    requires Resident(s.mem, base, b) && s.eip == base + at
    ensures Step(s).Some? && base <= Step(s).value.eip < base + |b| && Step(s).value.eip - base in r
  {
    hide Step, DecodeAt, Resident, TargetOf, Taken;
    assert Code(b).Decodes(at);
    var d := DecodeAt(b, at).value;
    var next := NextOffset(s, b, at, d);
    IsSuccessor(b, at, stop, d, next, d.inst.Jcc? && Taken(d.inst.cond, s.flags));
    assert next in r && Code(b).Decodes(next);
    StepGoes(s, base, b, at, d, next);
  }

  lemma StepGoes(s: State, base: u32, b: seq<byte>, at: nat, d: Decoded, next: nat)
    requires Resident(s.mem, base, b) && s.eip == base + at && DecodeAt(b, at) == Some(d)
    requires next == NextOffset(s, b, at, d) && next < |b| && !d.inst.CallReg? && (d.inst.Call? ==> d.inst.rel == 0)
    ensures Step(s).Some? && Step(s).value.eip == base + next
  {
    hide Step, DecodeAt, Exec, Plus, Taken, TargetOf;
    ResidentPart(s.mem, base, b, at, at + d.len);
    StepResident(s, base, b, at);
    GoesTo(s, base, b, at, d, next);
  }

  lemma IsSuccessor(b: seq<byte>, at: nat, stop: nat, d: Decoded, next: nat, taken: bool)
    requires at != stop && at < |b| && DecodeAt(b, at) == Some(d)
    requires next == if d.inst.Jmp? || (d.inst.Jcc? && taken) then TargetOf(b, at, d) else at + d.len
    ensures Code(b).Decodes(at) && next in Code(b).Successors(at, stop)
  {
    hide DecodeAt, TargetOf;
  }

  lemma ResidentPart(m: Mem, base: u32, b: seq<byte>, lo: nat, hi: nat)
    requires Resident(m, base, b) && lo <= hi <= |b|
    ensures Holds(m, base, b, lo, hi)
  {
  }

  lemma GoesTo(s: State, base: u32, b: seq<byte>, at: nat, d: Decoded, next: nat)
    requires s.eip == base + at && next < |b| && base + |b| < 0x1_0000_0000 && at + d.len <= |b|
    requires next == if d.inst.Jmp? || (d.inst.Jcc? && Taken(d.inst.cond, s.flags)) then TargetOf(b, at, d) else at + d.len
    requires !d.inst.CallReg? && (d.inst.Call? ==> d.inst.rel == 0)
    ensures Exec(s, d.inst, d.len).eip == base + next
  {
    PlusExact(base + at, d.len);
    PlusExact(base + at, next - at);
    hide Plus, Write32, XorMem32, Read32, Xor8, AddFlags, SubFlags, LogicFlags;
  }

  /** The code is intact at every step up to the `n`th, and none of them leaves for a called function. */
  ghost predicate Undisturbed(s: State, n: nat, base: u32, b: seq<byte>, stop: nat)
  {
    && (forall i: nat :: i < n && Run(s, i).Some? ==> Resident(Run(s, i).value.mem, base, b))
    && (forall i: nat :: i < n && Run(s, i).Some? ==> StaysLocal(b, Run(s, i).value.eip - base, stop))
  }

  lemma OneRun(t: State)
    ensures Run(t, 1) == Step(t)
  {
    hide Step;
    if Step(t).Some? { assert Run(Step(t).value, 0) == Step(t); }
  }

  lemma RunSnoc(s: State, n: nat)
    requires Run(s, n).Some?
    ensures Run(s, n + 1) == Step(Run(s, n).value)
  {
    hide Step;
    RunAdd(s, n, 1);
    OneRun(Run(s, n).value);
  }

  /** From a complete report no executed offset is missing, as long as the code is not changed and no
      call goes elsewhere than to the next instruction. */
  lemma {:induction false} ExecutedIsReported(s: State, n: nat, base: u32, b: seq<byte>, entry: nat, stop: nat, r: set<nat>)
    requires Code(b).Closed(entry, stop, r) && s.eip == base + entry && base + |b| < 0x1_0000_0000 && Undisturbed(s, n, base, b, stop)
    ensures Run(s, n).Some? && base <= Run(s, n).value.eip < base + |b| && Run(s, n).value.eip - base in r
    decreases n
  {
    hide Step, StaysLocal, Resident;
    if n == 0 {
      assert Code(b).Decodes(entry);
    } else {
      ExecutedIsReported(s, n - 1, base, b, entry, stop, r);
      var t := Run(s, n - 1).value;
      StepStays(t, base, b, entry, stop, r, t.eip - base);
      RunSnoc(s, n - 1);
    }
  }

  /* ---------- a call elsewhere ---------- */

  /** call +2; jmp to itself; jmp to itself. */
  const CALL_AHEAD: seq<byte> := [0xE8, 2, 0, 0, 0, 0xEB, 0xFE, 0xEB, 0xFE]

  /** Without that condition it fails: the complete report holds offsets 0 and 5, and the processor
      goes to offset 7. */
  lemma CallLeavesReport(s: State, base: u32)
    requires Resident(s.mem, base, CALL_AHEAD) && s.eip == base
    ensures Code(CALL_AHEAD).Closed(0, 9, {0, 5})
    ensures Step(s).Some? && Step(s).value.eip == base + 7 && 7 !in {0, 5}
  {
    CallDecodes();
    hide DecodeAt, Step, Push, Plus, Holds, Reaches;
    ReportAhead();
    var t := Exec1(s, base, CALL_AHEAD, 9, 0, X86.Call(2), 5);
    PlusExact(base, 7);
  }

  lemma ReportAhead()
    ensures |CALL_AHEAD| == 9 && Code(CALL_AHEAD).Closed(0, 9, {0, 5})
  {
    CallDecodes();
    hide DecodeAt;
    assert Code(CALL_AHEAD).Successors(0, 9) == [5] && Code(CALL_AHEAD).Successors(5, 9) == [5];
  }

  lemma CallDecodes()
    ensures DecodeAt(CALL_AHEAD, 0) == Some(Decoded(X86.Call(2), 5)) && DecodeAt(CALL_AHEAD, 5) == Some(Decoded(Jmp(-2), 2))
  {
  }
}
