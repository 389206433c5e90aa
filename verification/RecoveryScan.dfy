/** The scan that finds stages and rewrites the blob in place (src/harness_reasoning.hpp,
    recover_initialized_x86_blob). The reachable offsets that filter candidates come from
    ControlFlow through the parameter `reach`. */
module RecoveryScan {
  import opened Common
  import opened X86
  import opened Stage
  import opened RecoveryPath
  import opened Recovery

  type Reach = seq<byte> -> set<nat>

  const MAX_PASSES := 8

  predicate HeaderAt(b: seq<byte>, call: nat)
    requires call + 19 <= |b|
  {
    b[call..call + 10] == [0xE8, 0, 0, 0, 0, 0x8B, 0x34, 0x24, 0x83, 0xC6]
  }

  predicate SizeDirect(b: seq<byte>, call: nat)
    requires call + 19 <= |b|
  {
    b[call + 11] == 0xB9
  }

  predicate SizeAdded(b: seq<byte>, call: nat)
    requires call + 19 <= |b|
  {
    b[call + 11..call + 15] == [0x89, 0xF1, 0x81, 0xC1]
  }

  /** `header`: the first get-PC call in the window decides. */
  function FindHeader(b: seq<byte>, loop: nat, call: nat): Option<(nat, nat, nat)>
    requires loop <= |b|
    decreases loop - call
  {
    if call + 19 > loop then None
    else if !HeaderAt(b, call) || (!SizeDirect(b, call) && !SizeAdded(b, call)) then FindHeader(b, loop, call + 1)
    else
      var size := if SizeDirect(b, call) then Imm32(b, call + 12) else Imm32(b, call + 15);
      var start := call + 5 + b[call + 10];
      if b[call + 10] > 127 || size == 0 || start + size > |b| then None else Some((call, start, size))
  }

  /** The stub the scan recognizes at offset `at`, if any. */
  function Candidate(b: seq<byte>, at: nat): Option<Stub>
    requires at + 12 < |b|
  {
    var h := FindHeader(b, at, if at > 64 then at - 64 else 0);
    if b[at] == 0x80 && b[at + 1] == 0x36 && b[at + 3] == 0x46 && b[at + 4] == 0x49 then
      if b[at + 5] != 0xEB || b[at + 6] < 128 || h.None? then None
      else Some(Stub(XorByte, h.value.0, at, h.value.1, h.value.2, [b[at + 2]]))
    else if at + 15 < |b| && b[at] == 0x81 && b[at + 1] == 0x36 && b[at + 6] == 0x83 && b[at + 7] == 0xC6 && b[at + 8] == 4 then
      if h.None? || h.value.2 % 4 != 0 then None
      else Some(Stub(XorDword, h.value.0, at, h.value.1, h.value.2, b[at + 2..at + 6]))
    else if b[at..at + 6] == [0x8A, 0x13, 0x30, 0x16, 0x43, 0x46] then
      if h.None? then None else
        var n := KeySize(b, if at > 32 then at - 32 else 0, at - 3);
        var key := if 1 <= n <= 128 then PushedKey(b, at, n) else [];
        if key == [] then None else Some(Stub(XorRepeatingKey, h.value.0, at, h.value.1, h.value.2, key))
    else None
  }

  /** A candidate that has not been decoded yet and whose call and loop are reachable. */
  function Selected(b: seq<byte>, at: nat, done: set<nat>, reachable: set<nat>): Option<Stub>
    requires at + 12 < |b|
  {
    var c := Candidate(b, at);
    if at in done || c.None? || c.value.call !in reachable || at !in reachable then None else c
  }

  /** The first selected stub from offset `at` on. */
  function FirstFrom(b: seq<byte>, at: nat, done: set<nat>, reachable: set<nat>): Option<Stub>
    decreases |b| - at
  {
    if at + 12 >= |b| then None
    else if Selected(b, at, done, reachable).Some? then Selected(b, at, done, reachable)
    else FirstFrom(b, at + 1, done, reachable)
  }

  datatype Recovered = Recovered(stubs: seq<Stub>, bytes: seq<byte>, continuation: nat)

  predicate Applies(b: seq<byte>, cont: nat, s: Stub)
  {
    Valid(b, s) && ExitAt(s) <= s.start && s.size <= 0x7FFF_FFFF && PathTo(b, cont, s.call, s.call, MAX_STEPS)
  }

  /** Up to `passes` more stages; `Err` where the source throws. */
  function RecoverFrom(b: seq<byte>, cont: nat, done: set<nat>, passes: nat, reach: Reach): Result<Recovered>
    decreases passes
  {
    if passes == 0 then Ok(Recovered([], b, cont))
    else
      var s := FirstFrom(b, 0, done, reach(b));
      if s.None? then Ok(Recovered([], b, cont))
      else if s.value.key == [] || !Applies(b, cont, s.value) then Err("unsupported stage")
      else
        var rest := RecoverFrom(Bulk(b, s.value.start, s.value.size, s.value.key), ExitAt(s.value), done + {s.value.loop}, passes - 1, reach);
        if rest.Err? then rest
        else Ok(Recovered([s.value] + rest.value.stubs, rest.value.bytes, rest.value.continuation))
  }

  /* ---------- the scan misses nothing ---------- */

  /** A get-PC call at the offset, with the size in either of its two forms. */
  predicate GetPcAt(b: seq<byte>, c: nat)
  {
    && c + 19 <= |b| && b[c..c + 10] == [0xE8, 0, 0, 0, 0, 0x8B, 0x34, 0x24, 0x83, 0xC6]
    && (b[c + 11] == 0xB9 || b[c + 11..c + 15] == [0x89, 0xF1, 0x81, 0xC1])
  }

  /** What the scan needs besides acceptance to find the stub: its get-PC call is the first one in the
      64 bytes before its loop, and a byte stub jumps back in the short form. */
  ghost predicate InView(b: seq<byte>, s: Stub)
    requires s.loop + 12 < |b|
  {
    && s.loop <= s.call + 64
    && (forall c: nat :: s.loop <= c + 64 && c < s.call && c + 19 <= s.loop ==> !GetPcAt(b, c))
    && (s.kind.XorByte? ==> b[s.loop + 5] == 0xEB)
  }

  lemma {:induction false} HeaderComplete(b: seq<byte>, s: Stub, c: nat)
    requires HeaderMatches(b, s) && c <= s.call && forall d: nat :: c <= d < s.call ==> !GetPcAt(b, d)
    ensures FindHeader(b, s.loop, c) == Some((s.call, s.start, s.size))
    decreases s.call - c
  {
    hide Imm32;
    if c == s.call {
      HeaderHere(b, s);
    } else {
      assert !GetPcAt(b, c);
      HeaderComplete(b, s, c + 1);
    }
  }

  lemma HeaderHere(b: seq<byte>, s: Stub)
    requires HeaderMatches(b, s)
    ensures HeaderAt(b, s.call) && (SizeDirect(b, s.call) || SizeAdded(b, s.call))
    ensures s.size == if SizeDirect(b, s.call) then Imm32(b, s.call + 12) else Imm32(b, s.call + 15)
  {
    hide Imm32;
  }

  /** A byte stub that jumps back in the short form. */
  lemma ShortBack(b: seq<byte>, s: Stub)
    requires Accepted(b, s) && s.kind.XorByte? && b[s.loop + 5] == 0xEB
    ensures b[s.loop + 6] >= 128
  {
    hide HeaderMatches, KeySize, PushedKey;
  }

  /** The bytes of the loop pattern. */
  lemma PatternBytes(b: seq<byte>, s: Stub)
    requires Accepted(b, s)
    ensures s.kind.XorByte? ==> b[s.loop] == 0x80 && b[s.loop + 1] == 0x36 && b[s.loop + 3] == 0x46 && b[s.loop + 4] == 0x49
    ensures s.kind.XorDword? ==> b[s.loop] == 0x81 && b[s.loop + 1] == 0x36 && b[s.loop + 6] == 0x83 && b[s.loop + 7] == 0xC6 && b[s.loop + 8] == 4
    ensures s.kind.XorRepeatingKey? ==> b[s.loop..s.loop + 6] == [0x8A, 0x13, 0x30, 0x16, 0x43, 0x46] && b[s.loop] == 0x8A
  {
    hide HeaderMatches, KeySize, PushedKey, DecodesTo, BackJump;
    match s.kind {
      case XorByte =>
        assert b[s.loop..s.loop + 2][0] == b[s.loop] && b[s.loop..s.loop + 2][1] == b[s.loop + 1];
        assert b[s.loop + 3..s.loop + 5][0] == b[s.loop + 3] && b[s.loop + 3..s.loop + 5][1] == b[s.loop + 4];
      case XorDword =>
        var p := b[s.loop + 6..s.loop + 12];
        assert b[s.loop..s.loop + 2][0] == b[s.loop] && b[s.loop..s.loop + 2][1] == b[s.loop + 1];
        assert p[0] == b[s.loop + 6] && p[1] == b[s.loop + 7] && p[2] == b[s.loop + 8];
      case XorRepeatingKey => assert b[s.loop..s.loop + 6][0] == b[s.loop];
    }
  }

  /** The scan proposes exactly the accepted stub, of each of the three kinds. */
  lemma CandidateComplete(b: seq<byte>, s: Stub)
    requires Accepted(b, s) && s.loop + 12 < |b| && InView(b, s)
    ensures Candidate(b, s.loop) == Some(s)
  {
    PatternBytes(b, s);
    if s.kind.XorByte? { ShortBack(b, s); }
    hide FindHeader, KeySize, PushedKey, Valid, GetPcAt, Imm32, Exact;
    HeaderComplete(b, s, if s.loop > 64 then s.loop - 64 else 0);
  }

  /** The first selected offset is at or before any offset that is selected. */
  lemma {:induction false} FirstComplete(b: seq<byte>, at: nat, k: nat, done: set<nat>, reachable: set<nat>)
    requires at <= k && k + 12 < |b| && Selected(b, k, done, reachable).Some?
    ensures FirstFrom(b, at, done, reachable).Some? && FirstFrom(b, at, done, reachable).value.loop <= k
    decreases k - at
  {
    hide Candidate;
    if Selected(b, at, done, reachable).Some? {
      CandidateRecognized(b, at);
    } else {
      FirstComplete(b, at + 1, k, done, reachable);
    }
  }

  /** A stub that a scan over `b` must still find. */
  ghost predicate Missed(b: seq<byte>, s: Stub, done: set<nat>, reachable: set<nat>)
  {
    Accepted(b, s) && s.loop + 12 < |b| && InView(b, s) && s.loop !in done && s.call in reachable && s.loop in reachable
  }

  function LoopsOf(stubs: seq<Stub>): set<nat> { set s | s in stubs :: s.loop }

  /** When recovery ends before its pass limit, no accepted stub in view is left whose call and loop
      are reachable and whose loop was not applied. */
  lemma {:induction false} RecoverComplete(b: seq<byte>, cont: nat, done: set<nat>, passes: nat, reach: Reach, s: Stub)
    requires RecoverFrom(b, cont, done, passes, reach).Ok?
    requires |RecoverFrom(b, cont, done, passes, reach).value.stubs| < passes
    ensures var r := RecoverFrom(b, cont, done, passes, reach).value;
            !Missed(r.bytes, s, done + LoopsOf(r.stubs), reach(r.bytes))
    decreases passes
  {
    hide Applies, Accepted, InView, Candidate, Bulk, Selected;
    var r := RecoverFrom(b, cont, done, passes, reach).value;
    var f := FirstFrom(b, 0, done, reach(b));
    if f.None? {
      assert r.stubs == [] && done + LoopsOf([]) == done;
      if Missed(b, s, done, reach(b)) { FoundAgain(b, s, done, reach(b)); }
    } else {
      var rest := RecoverFrom(Bulk(b, f.value.start, f.value.size, f.value.key), ExitAt(f.value), done + {f.value.loop}, passes - 1, reach).value;
      assert r.stubs == [f.value] + rest.stubs;
      assert done + LoopsOf(r.stubs) == (done + {f.value.loop}) + LoopsOf(rest.stubs) by { LoopsMore(f.value, rest.stubs); }
      RecoverComplete(Bulk(b, f.value.start, f.value.size, f.value.key), ExitAt(f.value), done + {f.value.loop}, passes - 1, reach, s);
    }
  }

  lemma NothingMissed(b: seq<byte>, reach: Reach)
    ensures var spec := RecoverFrom(b, 0, {}, MAX_PASSES, reach);
            spec.Ok? && |spec.value.stubs| < MAX_PASSES ==>
              forall s :: !Missed(spec.value.bytes, s, LoopsOf(spec.value.stubs), reach(spec.value.bytes))
  {
    hide RecoverFrom, Missed, LoopsOf;
    var spec := RecoverFrom(b, 0, {}, MAX_PASSES, reach);
    if spec.Ok? && |spec.value.stubs| < MAX_PASSES {
      assert {} + LoopsOf(spec.value.stubs) == LoopsOf(spec.value.stubs);
      forall s ensures !Missed(spec.value.bytes, s, LoopsOf(spec.value.stubs), reach(spec.value.bytes))
      {
        RecoverComplete(b, 0, {}, MAX_PASSES, reach, s);
      }
    }
  }

  lemma LoopsMore(s: Stub, stubs: seq<Stub>)
    ensures LoopsOf([s] + stubs) == {s.loop} + LoopsOf(stubs)
  {
    assert forall x :: x in [s] + stubs <==> x == s || x in stubs;
  }

  lemma FoundAgain(b: seq<byte>, s: Stub, done: set<nat>, reachable: set<nat>)
    requires Missed(b, s, done, reachable)
    ensures FirstFrom(b, 0, done, reachable).Some?
  {
    CandidateComplete(b, s);
    hide Candidate, Accepted, InView;
    FirstComplete(b, 0, s.loop, done, reachable);
  }

  /** Each pass applies the first stub in view: an accepted stub that the path reaches, with nothing
      selected before its loop, is the next stage. */
  lemma NextStage(b: seq<byte>, cont: nat, done: set<nat>, passes: nat, reach: Reach, s: Stub)
    requires passes > 0 && Missed(b, s, done, reach(b)) && PathTo(b, cont, s.call, s.call, MAX_STEPS)
    requires forall k: nat :: k < s.loop ==> Selected(b, k, done, reach(b)).None?
    ensures RecoverFrom(b, cont, done, passes, reach) ==
              Prepend([s], RecoverFrom(Bulk(b, s.start, s.size, s.key), ExitAt(s), done + {s.loop}, passes - 1, reach))
  {
    CandidateComplete(b, s);
    CandidateRecognized(b, s.loop);
    hide Candidate, InView, PathTo, Bulk;
    FirstIs(b, 0, s.loop, done, reach(b));
  }

  lemma {:induction false} FirstIs(b: seq<byte>, at: nat, k: nat, done: set<nat>, reachable: set<nat>)
    requires at <= k && k + 12 < |b| && Selected(b, k, done, reachable).Some?
    requires forall j: nat :: at <= j < k ==> Selected(b, j, done, reachable).None?
    ensures FirstFrom(b, at, done, reachable) == Selected(b, k, done, reachable)
    decreases k - at
  {
    hide Selected;
    if at < k { FirstIs(b, at + 1, k, done, reachable); }
  }

  /* ---------- recovery yields a chain ---------- */

  lemma {:induction false} HeaderFound(b: seq<byte>, loop: nat, call: nat)
    requires loop <= |b| && FindHeader(b, loop, call).Some?
    ensures var (c, start, size) := FindHeader(b, loop, call).value;
            HeaderMatches(b, Stub(XorByte, c, loop, start, size, []))
    decreases loop - call
  {
    hide Imm32;
    if !HeaderAt(b, call) || (!SizeDirect(b, call) && !SizeAdded(b, call)) { HeaderFound(b, loop, call + 1); }
  }

  lemma CandidateRecognized(b: seq<byte>, at: nat)
    requires at + 12 < |b| && Candidate(b, at).Some?
    ensures Recognized(b, Candidate(b, at).value) && Candidate(b, at).value.key != [] && Candidate(b, at).value.loop == at
  {
    hide FindHeader, HeaderMatches, KeySize, PushedKey;
    HeaderFound(b, at, if at > 64 then at - 64 else 0);
    HeaderKind(b, Candidate(b, at).value);
    assert b[at..at + 2] == [b[at], b[at + 1]];
  }

  /** The header does not depend on the stub's kind or key. */
  lemma HeaderKind(b: seq<byte>, s: Stub)
    ensures HeaderMatches(b, s) <==> HeaderMatches(b, Stub(XorByte, s.call, s.loop, s.start, s.size, []))
  {
  }

  lemma {:induction false} FirstRecognized(b: seq<byte>, at: nat, done: set<nat>, reachable: set<nat>)
    requires FirstFrom(b, at, done, reachable).Some?
    ensures var s := FirstFrom(b, at, done, reachable).value;
            Recognized(b, s) && s.key != [] && s.loop !in done && s.loop in reachable && s.call in reachable
    decreases |b| - at
  {
    hide Candidate, Recognized;
    if Selected(b, at, done, reachable).Some? {
      CandidateRecognized(b, at);
    } else {
      FirstRecognized(b, at + 1, done, reachable);
    }
  }

  /** A successful recovery is a chain of accepted stages from offset `cont`. */
  lemma {:induction false} RecoveredIsChain(b: seq<byte>, cont: nat, done: set<nat>, passes: nat, reach: Reach)
    requires RecoverFrom(b, cont, done, passes, reach).Ok?
    ensures var r := RecoverFrom(b, cont, done, passes, reach).value;
            Chain(b, cont, r.stubs, r.bytes, r.continuation) && |r.stubs| <= passes
    decreases passes
  {
    hide FirstFrom, Recognized, Valid, PathTo, Bulk;
    if passes > 0 && FirstFrom(b, 0, done, reach(b)).Some? {
      var s := FirstFrom(b, 0, done, reach(b)).value;
      FirstRecognized(b, 0, done, reach(b));
      var b1 := Bulk(b, s.start, s.size, s.key);
      RecoveredIsChain(b1, ExitAt(s), done + {s.loop}, passes - 1, reach);
      var rest := RecoverFrom(b1, ExitAt(s), done + {s.loop}, passes - 1, reach).value;
      assert ([s] + rest.stubs)[1..] == rest.stubs;
    }
  }

  /* ---------- the in-place algorithm ---------- */

  function Prepend(stubs: seq<Stub>, r: Result<Recovered>): Result<Recovered>
  {
    if r.Err? then r else Ok(r.value.(stubs := stubs + r.value.stubs))
  }

  lemma PrependUnits(stubs: seq<Stub>, r: Result<Recovered>, b: seq<byte>, cont: nat)
    ensures Prepend([], r) == r
    ensures Prepend(stubs, Ok(Recovered([], b, cont))) == Ok(Recovered(stubs, b, cont))
  {
    assert stubs + [] == stubs;
    if r.Ok? { assert [] + r.value.stubs == r.value.stubs; }
  }

  /** The bulk rewrite, in place. */
  method XorInPlace(a: array<byte>, start: nat, size: nat, key: seq<byte>)
    requires key != [] && start + size <= a.Length
    modifies a
    ensures a[..] == Bulk(old(a[..]), start, size, key)
  {
    for i := 0 to size
      invariant a[..] == Bulk(old(a[..]), start, i, key)
    {
      ghost var before := a[..];
      a[start + i] := Xor8(a[start + i], key[i % |key|]);
      assert a[..] == before[start + i := Xor8(before[start + i], key[i % |key|])];
    }
    assert Bulk(old(a[..]), start, 0, key) == old(a[..]);
  }

  /** One pass of the scan over the blob. */
  method Scan(b: seq<byte>, done: set<nat>, reachable: set<nat>) returns (s: Option<Stub>)
    ensures s == FirstFrom(b, 0, done, reachable)
  {
    hide Selected;
    var at := 0;
    while at + 12 < |b|
      invariant FirstFrom(b, 0, done, reachable) == FirstFrom(b, at, done, reachable)
      decreases |b| - at
    {
      s := Selected(b, at, done, reachable);
      if s.Some? { return; }
      at := at + 1;
    }
    s := None;
  }

  /** At most eight passes; each applies the first selected stub and moves the continuation. */
  method Recover(a: array<byte>, reach: Reach) returns (r: Result<(seq<Stub>, nat)>)
    modifies a
    ensures var spec := RecoverFrom(old(a[..]), 0, {}, MAX_PASSES, reach);
            && r.Ok? == spec.Ok?
            && (r.Ok? ==> a[..] == spec.value.bytes && r.value == (spec.value.stubs, spec.value.continuation))
    ensures r.Ok? && |r.value.0| < 8 ==> forall s :: !Missed(a[..], s, LoopsOf(r.value.0), reach(a[..]))
  {
    hide FirstFrom, Applies, Bulk, Prepend, Missed;
    NothingMissed(a[..], reach);
    var stages: seq<Stub>, continuation: nat, done: set<nat>, pass: nat := [], 0, {}, 0;
    ghost var spec := RecoverFrom(a[..], 0, {}, MAX_PASSES, reach);
    PrependUnits(stages, spec, a[..], continuation);
    while pass < MAX_PASSES
      invariant pass <= MAX_PASSES
      invariant spec == Prepend(stages, RecoverFrom(a[..], continuation, done, MAX_PASSES - pass, reach))
    {
      ghost var before := a[..];
      var found := Scan(a[..], done, reach(a[..]));
      if found.None? {
        PrependUnits(stages, spec, a[..], continuation);
        return Ok((stages, continuation));
      }
      var s := found.value;
      if s.key == [] || !Applies(a[..], continuation, s) {
        PrependErr(stages, RecoverFrom(a[..], continuation, done, MAX_PASSES - pass, reach));
        return Err("unsupported stage");
      }
      FirstInRange(a[..], 0, done, reach(a[..]));
      XorInPlace(a, s.start, s.size, s.key);
      Unrolled(before, continuation, done, MAX_PASSES - pass, reach, stages, s);
      stages, continuation, done, pass := stages + [s], ExitAt(s), done + {s.loop}, pass + 1;
    }
    PrependUnits(stages, spec, a[..], continuation);
    r := Ok((stages, continuation));
  }

  lemma PrependErr(stubs: seq<Stub>, r: Result<Recovered>)
    requires r.Err?
    ensures Prepend(stubs, r) == r
  {
  }

  lemma FirstInRange(b: seq<byte>, at: nat, done: set<nat>, reachable: set<nat>)
    requires FirstFrom(b, at, done, reachable).Some?
    ensures var s := FirstFrom(b, at, done, reachable).value; s.start + s.size <= |b|
  {
    FirstRecognized(b, at, done, reachable);
  }

  lemma Unrolled(b: seq<byte>, cont: nat, done: set<nat>, passes: nat, reach: Reach, stages: seq<Stub>, s: Stub)
    requires passes > 0 && FirstFrom(b, 0, done, reach(b)) == Some(s) && s.key != [] && Applies(b, cont, s)
    ensures Prepend(stages, RecoverFrom(b, cont, done, passes, reach))
         == Prepend(stages + [s], RecoverFrom(Bulk(b, s.start, s.size, s.key), ExitAt(s), done + {s.loop}, passes - 1, reach))
  {
    hide FirstFrom, Applies, Bulk;
    var rest := RecoverFrom(Bulk(b, s.start, s.size, s.key), ExitAt(s), done + {s.loop}, passes - 1, reach);
    if rest.Ok? { assert stages + ([s] + rest.value.stubs) == stages + [s] + rest.value.stubs; }
  }
}
