/** The claim of a verified transformation, end to end: initializer, transfer and decoder stages. */
module Transformation {
  import opened Common
  import opened X86
  import opened StubRun
  import opened RecoveryPath
  import opened Recovery
  import opened RecoveryScan
  import opened Initializer

  lemma ProgressReaches(s: State, t: State, base: u32, n: nat, cont: nat, mid: nat)
    requires Progress(s, t, base, n, cont, mid)
    ensures Reaches(s, t)
  {
  }

  /** Entering the native function executes its initializer, calls the bytes it stored and runs the
      recovered decoder stages, so that memory at the buffer holds exactly the recovered bytes with
      control at the final continuation. The code only has to lie outside the stack it uses.
      `Faithful` names what the recognizers leave open; the hash must not confuse the two blobs. */
  lemma TransformationRuns(s: State, base: u32, b: seq<byte>, e: Expected, blob: seq<byte>, reach: Reach)
    returns (t: State, buffer: u32)
    requires RecognizeInitializer(b, e).Ok? && |blob| <= MAX_BLOB && e.inputSha == e.sha(blob)
    requires e.sha(blob) == e.sha(RecognizeInitializer(b, e).value.bytes) ==> blob == RecognizeInitializer(b, e).value.bytes
    requires RecoverFrom(blob, 0, {}, MAX_PASSES, reach).Ok?
    requires var r := RecoverFrom(blob, 0, {}, MAX_PASSES, reach).value;
             Chain(blob, 0, r.stubs, r.bytes, r.continuation) ==> AllFaithful(blob, 0, r.stubs, r.bytes, r.continuation)
    requires Resident(s.mem, base, b) && s.eip == base
    requires FrameSize(b) + 8 + 4 * |blob| <= s.regs[ESP] && Room(s.regs[ESP], FrameSize(b) + 8, base, |b|)
    ensures Reaches(s, t) && buffer as int == s.regs[ESP] - 4 + RecognizeInitializer(b, e).value.displacement
    ensures var r := RecoverFrom(blob, 0, {}, MAX_PASSES, reach).value;
            |r.bytes| == |blob| && Ready(t, buffer, r.bytes, r.continuation)
  {
    hide Recognize, DecodeAt, AtTransfer, Ready, Reaches, SameOutside, Chain, Progress, AllFaithful, RecoverFrom;
    ShaMatches(b, 3 + DecodeAt(b, 3).value.len, Known(map[], map[], map[]), FrameSize(b), e);
    var v := FunctionRuns(s, base, b, e);
    buffer := s.regs[ESP] - 4 + RecognizeInitializer(b, e).value.displacement;
    var r := RecoverFrom(blob, 0, {}, MAX_PASSES, reach).value;
    RecoveredIsChain(blob, 0, {}, MAX_PASSES, reach);
    t := ChainRuns(v, buffer, blob, 0, r.stubs, r.bytes, r.continuation);
    ProgressReaches(v, t, buffer, |blob|, 0, r.continuation);
    ReachesTrans(s, v, t);
  }
}
