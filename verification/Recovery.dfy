/** Chains of decoder stages (src/harness_reasoning.hpp, recover_initialized_x86_blob): what
    recovery computes is what the processor computes, and decoded code is never rewritten. */
module Recovery {
  import opened X86
  import opened Stage
  import opened StubRun
  import opened StubSoundness
  import opened StubBreaks
  import opened RecoveryPath
  import opened KeyPath

  /** Recovery applies `st` to `b` when the previous stage ended at `cont`. */
  predicate StageFits(b: seq<byte>, cont: nat, st: Stub)
  {
    Accepted(b, st) && PathTo(b, cont, st.call, st.call, MAX_STEPS)
  }

  /** The two facts the checks leave open: the rewrite does not change the stub's own back jump, and
      what the loop of a repeating-key stub reads is the recognized key. */
  predicate Faithful(b: seq<byte>, cont: nat, st: Stub)
    requires StageFits(b, cont, st)
  {
    && Spares(st, BackEnd(b, st))
    && (st.kind.XorRepeatingKey? ==> KeyOnPath(b, cont, st))
  }

  function Applied(b: seq<byte>, st: Stub): (r: seq<byte>)
    requires Accepted(b, st)
    ensures |r| == |b|
  {
    Bulk(b, st.start, st.size, st.key)
  }

  /** `stubs` applied one after the other turn `b0` into `b` and move the continuation. */
  predicate Chain(b0: seq<byte>, cont0: nat, stubs: seq<Stub>, b: seq<byte>, cont: nat)
    decreases |stubs|
  {
    if stubs == [] then b == b0 && cont == cont0
    else StageFits(b0, cont0, stubs[0]) && Chain(Applied(b0, stubs[0]), ExitAt(stubs[0]), stubs[1..], b, cont)
  }

  predicate AllFaithful(b0: seq<byte>, cont0: nat, stubs: seq<Stub>, b: seq<byte>, cont: nat)
    requires Chain(b0, cont0, stubs, b, cont)
    decreases |stubs|
  {
    stubs == [] ||
    (Faithful(b0, cont0, stubs[0]) && AllFaithful(Applied(b0, stubs[0]), ExitAt(stubs[0]), stubs[1..], b, cont))
  }

  /** What a run from offset `cont` to offset `mid` keeps and may use: the frame pointer, four
      stack bytes for each offset passed, and memory apart from the blob and those stack bytes. */
  ghost predicate Progress(s: State, t: State, base: u32, n: nat, cont: nat, mid: nat)
  {
    && cont <= mid <= n && Reaches(s, t) && t.regs[EBP] == s.regs[EBP]
    && s.regs[ESP] - 4 * (mid - cont) <= t.regs[ESP] <= s.regs[ESP]
    && SameExcept(s.mem, t.mem, base, n, s.regs[ESP] - 4 * (n - cont), s.regs[ESP] as int)
  }

  lemma QuietThenStub(s: State, u: State, t: State, base: u32, n: nat, cont: nat, call: nat, mid: nat)
    requires cont <= call < mid <= n && Quiet(s, u, 4 * (n - cont)) && Reaches(s, u) && Reaches(u, t)
    requires s.regs[ESP] - u.regs[ESP] <= 4 * (call - cont)
    requires 4 <= u.regs[ESP] && t.regs[EBP] == u.regs[EBP] && t.regs[ESP] == u.regs[ESP] - 4
    requires SameExcept(u.mem, t.mem, base, n, u.regs[ESP] - 4, u.regs[ESP] as int)
    ensures Progress(s, t, base, n, cont, mid)
  {
    ReachesTrans(s, u, t);
    hide Reaches;
    var lo, hi := s.regs[ESP] - 4 * (n - cont), s.regs[ESP] as int;
    forall a: u32 | !(base <= a < base + n) && !(lo <= a < hi) ensures Read(t.mem, a) == Read(s.mem, a)
    {
      assert Read(u.mem, a) == Read(s.mem, a);
    }
  }

  lemma RunPlainStage(s: State, base: u32, b: seq<byte>, cont: nat, st: Stub) returns (t: State)
    requires StageFits(b, cont, st) && Faithful(b, cont, st) && Ready(s, base, b, cont) && !st.kind.XorRepeatingKey?
    requires st.call < ExitAt(st) <= |b|
    ensures Progress(s, t, base, |b|, cont, ExitAt(st)) && Ready(t, base, Applied(b, st), ExitAt(st))
  {
    hide Reaches, Resident, SameOutside, SameExcept, Accepted, Recognized, BackEnd, PathTo, Bulk;
    var u := RunPath(s, base, b, cont, st.call, st.call, MAX_STEPS);
    t := RunPlainStub(u, base, b, st);
    QuietThenStub(s, u, t, base, |b|, cont, st.call, ExitAt(st));
  }

  lemma KeyFits(b: seq<byte>, st: Stub)
    requires Accepted(b, st) && st.kind.XorRepeatingKey? && |b| <= MAX_BLOB
    ensures 0 < |st.key| <= |b| && st.size > 0 && st.call < |b|
  {
    hide Valid, PushedKey, KeySize, Exact;
    KeyOf(b, st);
  }

  lemma HasEnd(b: seq<byte>, st: Stub)
    requires Accepted(b, st)
    ensures st.loop >= 5 && BackJump(b, st)
  {
    hide Recognized, DecodesTo, DecodeAt, Exact;
  }

  lemma RunRepeatStage(s: State, base: u32, b: seq<byte>, cont: nat, st: Stub) returns (t: State)
    requires StageFits(b, cont, st) && Faithful(b, cont, st) && Ready(s, base, b, cont) && st.kind.XorRepeatingKey?
    requires 7 <= st.call < ExitAt(st) <= |b| <= MAX_BLOB
    ensures Progress(s, t, base, |b|, cont, ExitAt(st)) && Ready(t, base, Applied(b, st), ExitAt(st))
  {
    hide Reaches, Resident, SameOutside, SameExcept, Accepted, Recognized, BackEnd, KeyRead, PathTo, Bulk, KeyOnPath, Spares;
    KeyFits(b, st);
    HasEnd(b, st);
    var u, d := RunToKey(s, base, b, cont, st);
    SpreadSpares(st, BackEnd(b, st));
    SpreadBulk(b, st);
    t := RunRepeatStub(u, base, b, st, d, Spread(st));
    QuietThenStub(s, u, t, base, |b|, cont, st.call, ExitAt(st));
  }

  lemma ExitBound(b: seq<byte>, st: Stub)
    requires Accepted(b, st)
    ensures st.call < ExitAt(st) <= st.start && st.start + st.size <= |b|
    ensures st.kind.XorRepeatingKey? ==> 7 <= st.call
  {
    hide DecodesTo, BackJump, PushedKey, KeySize, Exact;
    HeaderFacts(b, st);
  }

  /** One accepted and faithful stage, run from the previous continuation. */
  lemma RunStage(s: State, base: u32, b: seq<byte>, cont: nat, st: Stub) returns (t: State)
    requires StageFits(b, cont, st) && Faithful(b, cont, st) && |b| <= MAX_BLOB && Ready(s, base, b, cont)
    ensures Progress(s, t, base, |b|, cont, ExitAt(st)) && Ready(t, base, Applied(b, st), ExitAt(st))
  {
    ExitBound(b, st);
    hide Accepted, Recognized, Faithful, PathTo, Progress, Ready;
    if st.kind.XorRepeatingKey? {
      t := RunRepeatStage(s, base, b, cont, st);
    } else {
      t := RunPlainStage(s, base, b, cont, st);
    }
  }

  /* ---------- and only faithful ones do ---------- */

  /** The run leaves the recognized loop at its back jump, or ends the stub with other bytes in memory
      than recovery computed. */
  ghost predicate Misses(s: State, base: u32, b: seq<byte>, st: Stub, u: State)
    requires Accepted(b, st)
  {
    || Breaks(s, base, st, u)
    || (Reaches(s, u) && u.eip == base + ExitAt(st) && !Resident(u.mem, base, Applied(b, st)))
  }

  lemma BreaksFurther(s: State, v: State, base: u32, st: Stub, u: State)
    requires Reaches(s, v) && Breaks(v, base, st, u)
    ensures Breaks(s, base, st, u)
  {
    hide Reaches, Step;
    ReachesTrans(s, v, u);
  }

  lemma PlainMisses(b: seq<byte>, cont: nat, st: Stub) returns (s: State, u: State)
    requires StageFits(b, cont, st) && !Spares(st, BackEnd(b, st)) && !st.kind.XorRepeatingKey? && cont <= |b| <= MAX_BLOB
    ensures Ready(s, 0, b, cont) && Misses(s, 0, b, st, u)
  {
    ExitBound(b, st);
    hide Reaches, Resident, Accepted, BackEnd, PathTo, Bulk, Spares, Breaks;
    s := Loaded(b, cont, 0, 0);
    LoadedReady(b, cont, 0, 0);
    var v := RunPath(s, 0, b, cont, st.call, st.call, MAX_STEPS);
    if st.kind.XorByte? { u := ByteBreaks(v, 0, b, st); } else { u := DwordBreaks(v, 0, b, st); }
    BreaksFurther(s, v, 0, st, u);
  }

  /** A repeating-key stub whose passes read `key`, at its call. */
  lemma RepeatMisses(s: State, v: State, b: seq<byte>, st: Stub, d: nat, key: seq<byte>) returns (u: State)
    requires Accepted(b, st) && st.kind.XorRepeatingKey? && |b| <= MAX_BLOB && |key| == st.size
    requires Reaches(s, v) && Ready(v, 0, b, st.call) && Reads(v, 0, b, d, |st.key|, key)
    requires st.key != [] && (key != Spread(st) || !Spares(st, BackEnd(b, st)))
    ensures Misses(s, 0, b, st, u)
  {
    ExitBound(b, st);
    KeyFits(b, st);
    hide Reaches, Resident, SameExcept, Accepted, BackEnd, Bulk, Spares, Breaks, KeyRead, KeyByte;
    if Spares(st.(key := key), BackEnd(b, st)) {
      SpreadSpares(st, BackEnd(b, st));
      u := RunRepeatStub(v, 0, b, st, d, key);
      ReachesTrans(s, v, u);
      OtherBytes(u, b, st, key);
    } else {
      u := RepeatBreaks(v, 0, b, st, d, key);
      BreaksFurther(s, v, 0, st, u);
    }
  }

  lemma OtherBytes(u: State, b: seq<byte>, st: Stub, key: seq<byte>)
    requires st.key != [] && st.size > 0 && |key| == st.size && key != Spread(st) && st.start + st.size <= |b| < 0x1_0000_0000
    requires Resident(u.mem, 0, Bulk(b, st.start, st.size, key))
    ensures !Resident(u.mem, 0, Bulk(b, st.start, st.size, st.key))
  {
    hide Bulk, KeyByte;
    var z :| 0 <= z < st.size && key[z] != Spread(st)[z];
    OwnByte(key, z);
    BulkDiffers(b, st.start, st.size, key, st.key, z);
    assert Read(u.mem, st.start + z) == Bulk(b, st.start, st.size, key)[st.start + z];
  }

  /** The converse of RunStage: an accepted stage that is not faithful misses what recovery computed,
      from some machine state that is ready at the previous continuation. */
  lemma StageMisses(b: seq<byte>, cont: nat, st: Stub) returns (s: State, u: State)
    requires StageFits(b, cont, st) && !Faithful(b, cont, st) && cont <= |b| <= MAX_BLOB
    ensures Ready(s, 0, b, cont) && Misses(s, 0, b, st, u)
  {
    hide Accepted, BackEnd, PathTo, KeyOnPath, Spares, Misses, Ready, Reaches, Reads, Spread, Loaded;
    if !st.kind.XorRepeatingKey? {
      s, u := PlainMisses(b, cont, st);
    } else {
      KeyFits(b, st);
      var v, d, key;
      if KeyOnPath(b, cont, st) {
        s := Loaded(b, cont, 0, 0);
        LoadedReady(b, cont, 0, 0);
        v, d := RunToKey(s, 0, b, cont, st);
        key := Spread(st);
      } else {
        s, v, d, key := KeyNotThere(b, cont, st);
      }
      u := RepeatMisses(s, v, b, st, d, key);
    }
  }

  lemma ProgressTrans(s: State, u: State, t: State, base: u32, n: nat, cont: nat, mid: nat, end: nat)
    requires Progress(s, u, base, n, cont, mid) && Progress(u, t, base, n, mid, end)
    ensures Progress(s, t, base, n, cont, end)
  {
    ReachesTrans(s, u, t);
    hide Reaches;
    var lo, hi := s.regs[ESP] - 4 * (n - cont), s.regs[ESP] as int;
    forall a: u32 | !(base <= a < base + n) && !(lo <= a < hi) ensures Read(t.mem, a) == Read(s.mem, a)
    {
      assert Read(u.mem, a) == Read(s.mem, a);
    }
  }

  lemma ProgressRefl(s: State, base: u32, n: nat, cont: nat)
    requires cont <= n
    ensures Progress(s, s, base, n, cont, cont)
  {
    ReachesRefl(s);
  }

  /** Executing a faithful chain from its first continuation leaves in memory exactly the bytes
      recovery computed, with control at the final continuation. */
  lemma {:induction false} ChainRuns(s: State, base: u32, b0: seq<byte>, cont0: nat, stubs: seq<Stub>, b: seq<byte>, cont: nat) returns (t: State)
    requires Chain(b0, cont0, stubs, b, cont) && AllFaithful(b0, cont0, stubs, b, cont)
    requires |b0| <= MAX_BLOB && Ready(s, base, b0, cont0)
    ensures |b| == |b0| && Progress(s, t, base, |b0|, cont0, cont) && Ready(t, base, b, cont)
    decreases |stubs|
  {
    hide Progress, Accepted, PathTo, Faithful, Applied, Resident;
    if stubs == [] {
      t := s;
      ProgressRefl(s, base, |b0|, cont0);
    } else {
      var u := RunStage(s, base, b0, cont0, stubs[0]);
      t := ChainRuns(u, base, Applied(b0, stubs[0]), ExitAt(stubs[0]), stubs[1..], b, cont);
      ProgressTrans(s, u, t, base, |b0|, cont0, ExitAt(stubs[0]), cont);
    }
  }

  /* ---------- decoded code is final ---------- */

  lemma PathForward(b: seq<byte>, cur: nat, goal: nat, call: nat, steps: nat)
    requires PathTo(b, cur, goal, call, steps)
    ensures cur <= goal
    decreases steps
  {
    hide Next;
    if cur != goal { PathForward(b, Next(b, cur, call).value, goal, call, steps - 1); }
  }

  /** A stage ends strictly after the previous continuation and changes no byte below its own end. */
  lemma StageFreezes(b: seq<byte>, cont: nat, st: Stub)
    requires StageFits(b, cont, st)
    ensures cont < ExitAt(st) <= |b| && Applied(b, st)[..ExitAt(st)] == b[..ExitAt(st)]
  {
    ExitBound(b, st);
    hide Accepted, Recognized;
    PathForward(b, cont, st.call, st.call, MAX_STEPS);
  }

  /** Over a whole chain: the continuation grows with every stage, and no byte below the starting
      continuation changes. Applied to every suffix of a chain, this says that no later stage
      rewrites a byte below an earlier stage's end. */
  lemma {:induction false} ChainFreezes(b0: seq<byte>, cont0: nat, stubs: seq<Stub>, b: seq<byte>, cont: nat)
    requires Chain(b0, cont0, stubs, b, cont) && cont0 <= |b0|
    ensures |b| == |b0| && cont0 + |stubs| <= cont <= |b| && b[..cont0] == b0[..cont0]
    decreases |stubs|
  {
    hide Accepted, PathTo, Applied;
    if stubs != [] {
      StageFreezes(b0, cont0, stubs[0]);
      var b1, c1 := Applied(b0, stubs[0]), ExitAt(stubs[0]);
      ChainFreezes(b1, c1, stubs[1..], b, cont);
      assert b[..cont0] == b[..c1][..cont0] && b0[..cont0] == b0[..c1][..cont0];
    }
  }

  /** The bytes and the continuation after the first `k` stages. */
  function After(b0: seq<byte>, cont0: nat, stubs: seq<Stub>, b: seq<byte>, cont: nat, k: nat): (r: (seq<byte>, nat))
    requires Chain(b0, cont0, stubs, b, cont) && k <= |stubs|
    ensures Chain(r.0, r.1, stubs[k..], b, cont)
    decreases k
  {
    if k == 0 then (b0, cont0)
    else After(Applied(b0, stubs[0]), ExitAt(stubs[0]), stubs[1..], b, cont, k - 1)
  }

  /** Bytes that a stage has finished executing over are never rewritten by a later stage. */
  lemma ExecutedIsFinal(b0: seq<byte>, cont0: nat, stubs: seq<Stub>, b: seq<byte>, cont: nat, k: nat)
    requires Chain(b0, cont0, stubs, b, cont) && cont0 <= |b0| && 1 <= k <= |stubs|
    ensures var (bk, ck) := After(b0, cont0, stubs, b, cont, k);
            ck == ExitAt(stubs[k - 1]) <= |b| == |bk| && b[..ck] == bk[..ck]
  {
    AfterExit(b0, cont0, stubs, b, cont, k);
    var r := After(b0, cont0, stubs, b, cont, k);
    ChainFreezes(r.0, r.1, stubs[k..], b, cont);
  }

  lemma {:induction false} AfterExit(b0: seq<byte>, cont0: nat, stubs: seq<Stub>, b: seq<byte>, cont: nat, k: nat)
    requires Chain(b0, cont0, stubs, b, cont) && cont0 <= |b0| && 1 <= k <= |stubs|
    ensures var (bk, ck) := After(b0, cont0, stubs, b, cont, k); ck == ExitAt(stubs[k - 1]) <= |bk|
    decreases k
  {
    hide Accepted, PathTo, Applied;
    StageFreezes(b0, cont0, stubs[0]);
    var b1, c1 := Applied(b0, stubs[0]), ExitAt(stubs[0]);
    if k > 1 { AfterExit(b1, c1, stubs[1..], b, cont, k - 1); } else { assert After(b1, c1, stubs[1..], b, cont, 0) == (b1, c1); }
  }
}
