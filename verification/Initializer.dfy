/** The straight-line stack initializer recognizer (src/harness_reasoning.hpp,
    recovery_native_initializer) as an abstract interpreter, and its soundness on the processor. */
module Initializer {
  import opened Common
  import opened X86
  import opened Stage
  import opened StubRun
  import opened RecoveryPath

  /** What is known at a program point: bytes stored below EBP, registers holding constants, and
      registers holding EBP plus a displacement. */
  datatype Known = Known(stores: map<int, byte>, constants: map<Reg, u32>, pointers: map<Reg, int>)

  datatype Claim = Claim(displacement: int, callOffset: nat, bytes: seq<byte>)

  /** What the caller expects the initializer to produce. */
  datatype Expected = Expected(inputSize: nat, localBase: int, inputSha: string, sha: seq<byte> -> string)

  const MAX_CODE := 16384

  function InFrame(offset: int, frame: nat): bool { 0 - frame <= offset < 0 }

  /** One abstract step; `None` for anything outside the grammar. */
  function Learn(k: Known, frame: nat, i: Inst): Option<Known>
  {
    match i
    case Nop => Some(k)
    case MovRegImm(d, v) =>
      if d == EBP || d == ESP then None
      else Some(k.(constants := k.constants[d := v], pointers := k.pointers - {d}))
    case StoreImmAtEbp(off, v) =>
      if !InFrame(off, frame) || off in k.stores then None else Some(k.(stores := k.stores[off := v]))
    case StoreLowAtEbp(off, r) =>
      if !InFrame(off, frame) || off in k.stores || r !in k.constants then None
      else Some(k.(stores := k.stores[off := k.constants[r] % 256]))
    case Lea(d, b, off) =>
      if d == EBP || d == ESP || b != EBP || !InFrame(off, frame) then None
      else Some(k.(pointers := k.pointers[d := off], constants := k.constants - {d}))
    case _ => None
  }

  predicate IsLowest(stores: map<int, byte>, lo: int)
  {
    lo in stores && forall off :: off in stores ==> lo <= off
  }

  predicate Contiguous(stores: map<int, byte>, lo: int, n: nat)
  {
    forall off :: lo <= off < lo + n ==> off in stores
  }

  /** The stored bytes from `lo` upward. */
  function Collected(stores: map<int, byte>, lo: int, n: nat): (b: seq<byte>)
    requires Contiguous(stores, lo, n)
    ensures |b| == n && forall i :: 0 <= i < n ==> b[i] == stores[lo + i]
  {
    seq(n, i requires 0 <= i < n => stores[lo + i])
  }

  /** The checks at the indirect call through register `r`. */
  function Conclude(k: Known, r: Reg, at: nat, e: Expected): Result<Claim>
    requires r in k.pointers
  {
    var lo := k.pointers[r];
    if |k.stores| != e.inputSize || k.stores == map[] || !IsLowest(k.stores, lo) || 4 - lo != e.localBase then
      Err("buffer differs from the initializer range")
    else if !Contiguous(k.stores, lo, |k.stores|) then Err("hole")
    else if e.sha(Collected(k.stores, lo, |k.stores|)) != e.inputSha then
      Err("stores differ")
    else Ok(Claim(lo, at, Collected(k.stores, lo, |k.stores|)))
  }

  /** The recognizer from offset `at` on. */
  function Recognize(b: seq<byte>, at: nat, k: Known, frame: nat, e: Expected): Result<Claim>
    decreases |b| - at
  {
    if at >= |b| || at >= MAX_CODE then Err("no transfer to the buffer")
    else
      var d := DecodeAt(b, at);
      if d.None? then Err("decode failed")
      else if d.value.inst.CallReg? && d.value.inst.r in k.pointers then Conclude(k, d.value.inst.r, at, e)
      else
        var k' := Learn(k, frame, d.value.inst);
        if k'.None? then Err("unsupported instruction or store")
        else Recognize(b, at + d.value.len, k'.value, frame, e)
  }

  predicate HasFrame(b: seq<byte>)
  {
    && |b| >= 9 && b[0] == 0x55 && ((b[1] == 0x89 && b[2] == 0xE5) || (b[1] == 0x8B && b[2] == 0xEC))
    && DecodeAt(b, 3).Some? && DecodeAt(b, 3).value.inst.SubImm? && DecodeAt(b, 3).value.inst.dst == ESP
    && 16 <= DecodeAt(b, 3).value.inst.imm <= 65536
  }

  function FrameSize(b: seq<byte>): nat
    requires HasFrame(b)
  {
    DecodeAt(b, 3).value.inst.imm
  }

  function RecognizeInitializer(b: seq<byte>, e: Expected): Result<Claim>
  {
    if !HasFrame(b) then Err("no EBP frame")
    else Recognize(b, 3 + DecodeAt(b, 3).value.len, Known(map[], map[], map[]), FrameSize(b), e)
  }

  /** The three tables the recognizer updates while it walks the code. */
  class Facts {
    var stores: map<int, byte>
    var constants: map<Reg, u32>
    var pointers: map<Reg, int>

    constructor ()
      ensures Value() == Known(map[], map[], map[])
    {
      stores, constants, pointers := map[], map[], map[];
    }

    function Value(): Known reads this { Known(stores, constants, pointers) }

    method Update(frame: nat, i: Inst) returns (known: bool)
      modifies this
      ensures known == Learn(old(Value()), frame, i).Some?
      ensures known ==> Value() == Learn(old(Value()), frame, i).value
    {
      match i {
        case Nop =>
        case MovRegImm(d, v) =>
          if d == EBP || d == ESP { return false; }
          constants := constants[d := v];
          pointers := pointers - {d};
        case StoreImmAtEbp(off, v) =>
          if !InFrame(off, frame) || off in stores { return false; }
          stores := stores[off := v];
        case StoreLowAtEbp(off, x) =>
          if !InFrame(off, frame) || off in stores || x !in constants { return false; }
          stores := stores[off := constants[x] % 256];
        case Lea(d, base, off) =>
          if d == EBP || d == ESP || base != EBP || !InFrame(off, frame) { return false; }
          pointers := pointers[d := off];
          constants := constants - {d};
        case _ => return false;
      }
      known := true;
    }
  }

  /** The recognizer's loop over the instructions of the initializer. */
  method NativeInitializer(b: seq<byte>, e: Expected) returns (r: Result<Claim>)
    ensures r == RecognizeInitializer(b, e)
  {
    hide DecodeAt, Conclude, Learn;
    if !HasFrame(b) { return Err("no EBP frame"); }
    var frame, at := FrameSize(b), 3 + DecodeAt(b, 3).value.len;
    var facts := new Facts();
    while at < |b| && at < MAX_CODE
      invariant RecognizeInitializer(b, e) == Recognize(b, at, facts.Value(), frame, e)
      decreases |b| - at
    {
      var d := DecodeAt(b, at);
      if d.None? { return Err("decode failed"); }
      if d.value.inst.CallReg? && d.value.inst.r in facts.pointers {
        r := CheckCall(facts.Value(), d.value.inst.r, at, e);
        return;
      }
      var known := facts.Update(frame, d.value.inst);
      if !known { return Err("unsupported instruction or store"); }
      at := at + d.value.len;
    }
    r := Err("no transfer to the buffer");
  }

  /** The ascending walk over the stored bytes at the call. */
  method CheckCall(k: Known, r: Reg, at: nat, e: Expected) returns (c: Result<Claim>)
    requires r in k.pointers
    ensures c == Conclude(k, r, at, e)
  {
    var lo := k.pointers[r];
    if |k.stores| != e.inputSize || k.stores == map[] || !IsLowest(k.stores, lo) || 4 - lo != e.localBase {
      return Err("buffer differs from the initializer range");
    }
    var initialized: seq<byte> := [];
    var offset := lo;
    while offset < lo + |k.stores|
      invariant lo <= offset <= lo + |k.stores| && |initialized| == offset - lo
      invariant Contiguous(k.stores, lo, offset - lo)
      invariant forall i :: 0 <= i < |initialized| ==> initialized[i] == k.stores[lo + i]
    {
      if offset !in k.stores {
        return Err("hole");
      }
      initialized := initialized + [k.stores[offset]];
      offset := offset + 1;
    }
    assert initialized == Collected(k.stores, lo, |k.stores|);
    if e.sha(initialized) != e.inputSha { return Err("stores differ"); }
    c := Ok(Claim(lo, at, initialized));
  }

  /* ---------- soundness ---------- */

  ghost predicate StoresAt(m: Mem, stores: map<int, byte>, frame: nat, ebp: u32)
    requires frame <= ebp
  {
    forall off :: off in stores ==> InFrame(off, frame) && Read(m, ebp + off) == stores[off]
  }

  /** The machine state agrees with what is known, for the frame below `ebp`. */
  ghost predicate Agrees(s: State, k: Known, frame: nat, ebp: u32)
  {
    && frame <= ebp && s.regs[EBP] == ebp && s.regs[ESP] == ebp - frame && StoresAt(s.mem, k.stores, frame, ebp)
    && (forall r :: r in k.constants ==> r != EBP && r != ESP && s.regs[r] == k.constants[r])
    && (forall r :: r in k.pointers ==> r != EBP && r != ESP && InFrame(k.pointers[r], frame) && s.regs[r] == ebp + k.pointers[r])
  }

  lemma LearnStore(s: State, k: Known, frame: nat, ebp: u32, i: Inst, len: nat)
    requires Agrees(s, k, frame, ebp) && Learn(k, frame, i).Some? && (i.StoreImmAtEbp? || i.StoreLowAtEbp?)
    ensures var t := Exec(s, i, len);
            Agrees(t, Learn(k, frame, i).value, frame, ebp) && t.eip == Plus(s.eip, len)
            && SameOutside(s.mem, t.mem, ebp - frame, ebp as int)
  {
    PlusExact(ebp, i.disp);
    hide Plus;
  }

  /** The effect of a learnt instruction keeps the agreement and writes only inside the frame. */
  lemma LearnSound(s: State, k: Known, frame: nat, ebp: u32, i: Inst, len: nat)
    requires Agrees(s, k, frame, ebp) && Learn(k, frame, i).Some?
    ensures var t := Exec(s, i, len);
            Agrees(t, Learn(k, frame, i).value, frame, ebp) && t.eip == Plus(s.eip, len)
            && SameOutside(s.mem, t.mem, ebp - frame, ebp as int)
  {
    if i.StoreImmAtEbp? || i.StoreLowAtEbp? {
      LearnStore(s, k, frame, ebp, i, len);
    }
  }

  /** The buffer of claim `c` holds its bytes, inside the frame below `ebp`. */
  ghost predicate BufferAt(m: Mem, frame: nat, ebp: u32, c: Claim)
  {
    && frame <= ebp && InFrame(c.displacement, frame) && c.bytes != [] && c.displacement + |c.bytes| <= 0
    && Stacked(m, ebp + c.displacement, c.bytes)
  }

  /** About to execute an indirect call at offset `at` through a register that holds `target`. */
  ghost predicate Calling(t: State, base: u32, b: seq<byte>, at: nat, target: int)
  {
    && at + 2 <= |b| && t.eip == base + at && Resident(t.mem, base, b)
    && DecodeAt(b, at).Some? && DecodeAt(b, at).value.inst.CallReg? && DecodeAt(b, at).value.len == 2
    && t.regs[DecodeAt(b, at).value.inst.r] == target
  }

  /** The state at the indirect call: the call's register points at the stored bytes. */
  ghost predicate AtTransfer(t: State, base: u32, b: seq<byte>, frame: nat, ebp: u32, c: Claim)
  {
    && BufferAt(t.mem, frame, ebp, c) && Calling(t, base, b, c.callOffset, ebp + c.displacement)
    && t.regs[EBP] == ebp && t.regs[ESP] == ebp - frame
  }

  lemma CallLength(b: seq<byte>, at: nat)
    requires DecodeAt(b, at).Some? && DecodeAt(b, at).value.inst.CallReg?
    ensures DecodeAt(b, at).value.len == 2
  {
  }

  /** A contiguous range of stored bytes that starts at the lowest offset is the buffer. */
  lemma StoredBuffer(m: Mem, stores: map<int, byte>, frame: nat, ebp: u32, lo: int, at: nat)
    requires frame <= ebp && StoresAt(m, stores, frame, ebp) && stores != map[] && Contiguous(stores, lo, |stores|)
    ensures BufferAt(m, frame, ebp, Claim(lo, at, Collected(stores, lo, |stores|)))
  {
    var n := |stores|;
    var bytes := Collected(stores, lo, n);
    assert n > 0;
    assert lo in stores && lo + n - 1 in stores;
    forall j | 0 <= j < n ensures Read(m, ebp + lo + j) == bytes[j]
    {
      assert lo + j in stores;
    }
  }

  /** The accepted claim describes the stored bytes of any memory that agrees with the facts. */
  lemma ConcludeBuffer(t: State, k: Known, frame: nat, ebp: u32, at: nat, r: Reg, e: Expected)
    requires Agrees(t, k, frame, ebp) && r in k.pointers && Conclude(k, r, at, e).Ok?
    ensures BufferAt(t.mem, frame, ebp, Conclude(k, r, at, e).value)
  {
    hide BufferAt, StoresAt, Contiguous, IsLowest;
    StoredBuffer(t.mem, k.stores, frame, ebp, k.pointers[r], at);
  }

  lemma ConcludeSound(t: State, k: Known, frame: nat, ebp: u32, base: u32, b: seq<byte>, at: nat, e: Expected)
    requires Agrees(t, k, frame, ebp) && t.eip == base + at && Resident(t.mem, base, b)
    requires DecodeAt(b, at).Some? && DecodeAt(b, at).value.inst.CallReg? && DecodeAt(b, at).value.inst.r in k.pointers
    requires Conclude(k, DecodeAt(b, at).value.inst.r, at, e).Ok?
    ensures AtTransfer(t, base, b, frame, ebp, Conclude(k, DecodeAt(b, at).value.inst.r, at, e).value)
  {
    hide DecodeAt, Resident, BufferAt;
    CallLength(b, at);
    ConcludeBuffer(t, k, frame, ebp, at, DecodeAt(b, at).value.inst.r, e);
  }

  lemma {:induction false} ShaMatches(b: seq<byte>, at: nat, k: Known, frame: nat, e: Expected)
    requires Recognize(b, at, k, frame, e).Ok?
    ensures e.sha(Recognize(b, at, k, frame, e).value.bytes) == e.inputSha
    decreases |b| - at
  {
    hide DecodeAt, Learn;
    var d := DecodeAt(b, at).value;
    if !(d.inst.CallReg? && d.inst.r in k.pointers) {
      ShaMatches(b, at + d.len, Learn(k, frame, d.inst).value, frame, e);
    }
  }

  /** From any agreeing state at `at`, execution reaches the indirect call of the accepted claim. */
  lemma {:induction false} BodyRuns(s: State, base: u32, b: seq<byte>, at: nat, k: Known, frame: nat, ebp: u32, e: Expected) returns (t: State)
    requires Recognize(b, at, k, frame, e).Ok? && Agrees(s, k, frame, ebp)
    requires Resident(s.mem, base, b) && s.eip == base + at && (ebp <= base || base + |b| <= ebp - frame)
    ensures Reaches(s, t) && AtTransfer(t, base, b, frame, ebp, Recognize(b, at, k, frame, e).value)
    ensures SameOutside(s.mem, t.mem, ebp - frame, ebp as int)
    decreases |b| - at
  {
    hide DecodeAt, Reaches, Agrees, Learn, Exec, Holds, Conclude, SameOutside, AtTransfer, Plus;
    var d := DecodeAt(b, at).value;
    if d.inst.CallReg? && d.inst.r in k.pointers {
      t := s;
      ReachesRefl(s);
      SameRefl(s.mem, ebp - frame, ebp as int);
      ConcludeSound(s, k, frame, ebp, base, b, at, e);
    } else {
      var u := Exec1(s, base, b, |b|, at, d.inst, d.len);
      LearnSound(s, k, frame, ebp, d.inst, d.len);
      ResidentKept(s.mem, u.mem, base, b, ebp - frame, ebp as int);
      t := BodyRuns(u, base, b, at + d.len, Learn(k, frame, d.inst).value, frame, ebp, e);
      ReachesTrans(s, u, t);
      SameTrans(s.mem, u.mem, t.mem, ebp - frame, ebp as int);
    }
  }

  /** push ebp; mov ebp, esp */
  lemma EntryFrame(s: State, base: u32, b: seq<byte>) returns (t: State)
    requires DecodesTo(b, 0, PushReg(EBP), 1) && DecodesTo(b, 1, MovRegReg(EBP, ESP), 2) && 3 <= |b|
    requires Resident(s.mem, base, b) && s.eip == base && Room(s.regs[ESP], 4, base, |b|)
    ensures Reaches(s, t) && t.eip == base + 3 && Resident(t.mem, base, b)
    ensures t.regs[ESP] == s.regs[ESP] - 4 && t.regs[EBP] == s.regs[ESP] - 4
    ensures SameOutside(s.mem, t.mem, s.regs[ESP] - 4, s.regs[ESP] as int)
  {
    hide DecodesTo, Reaches, Holds, Plus, SameOutside, Push, Step, Read32;
    PushWrites(s, s.regs[EBP]);
    var s1 := Exec1(s, base, b, |b|, 0, PushReg(EBP), 1);
    ResidentKept(s.mem, s1.mem, base, b, s.regs[ESP] - 4, s.regs[ESP] as int);
    t := Exec1(s1, base, b, |b|, 1, MovRegReg(EBP, ESP), 2);
    ReachesTrans(s, s1, t);
  }

  /** sub esp, frame */
  lemma Allocate(u: State, base: u32, b: seq<byte>, frame: u32, len: nat) returns (t: State)
    requires DecodesTo(b, 3, SubImm(ESP, frame), len) && At(u, base, b, |b|, 3) && 3 + len <= |b|
    requires frame <= u.regs[ESP] && u.regs[EBP] == u.regs[ESP]
    ensures Reaches(u, t) && t.eip == base + 3 + len && t.mem == u.mem
    ensures Agrees(t, Known(map[], map[], map[]), frame, u.regs[EBP])
  {
    hide DecodesTo, Reaches, Holds, Plus;
    PlusExact(u.regs[ESP], -(frame as int));
    t := Exec1(u, base, b, |b|, 3, SubImm(ESP, frame), len);
  }

  /** push ebp; mov ebp, esp; sub esp, frame sets up an empty frame. */
  lemma EntryRuns(s: State, base: u32, b: seq<byte>) returns (t: State)
    requires HasFrame(b) && Resident(s.mem, base, b) && s.eip == base
    requires Room(s.regs[ESP], FrameSize(b) + 8, base, |b|)
    ensures Reaches(s, t) && t.eip == base + 3 + DecodeAt(b, 3).value.len && Resident(t.mem, base, b)
    ensures 4 <= s.regs[ESP] && Agrees(t, Known(map[], map[], map[]), FrameSize(b), s.regs[ESP] - 4)
    ensures SameOutside(s.mem, t.mem, s.regs[ESP] - 4, s.regs[ESP] as int)
  {
    var frame, len := FrameSize(b), DecodeAt(b, 3).value.len;
    hide DecodesTo, DecodeAt, HasFrame, FrameSize, Reaches, Holds, SameOutside, Agrees;
    var u := EntryFrame(s, base, b);
    t := Allocate(u, base, b, frame, len);
    ReachesTrans(s, u, t);
  }

  /** An accepted initializer, entered in any register and memory state with room on the stack,
      reaches its indirect call with the register pointing at exactly the claimed bytes. */
  lemma InitializerSound(s: State, base: u32, b: seq<byte>, e: Expected) returns (t: State)
    requires RecognizeInitializer(b, e).Ok?
    requires Resident(s.mem, base, b) && s.eip == base && Room(s.regs[ESP], FrameSize(b) + 8, base, |b|)
    ensures Reaches(s, t) && 4 <= s.regs[ESP]
    ensures AtTransfer(t, base, b, FrameSize(b), s.regs[ESP] - 4, RecognizeInitializer(b, e).value)
    ensures SameOutside(s.mem, t.mem, s.regs[ESP] - 4 - FrameSize(b), s.regs[ESP] as int)
  {
    hide DecodeAt, Reaches, Agrees, AtTransfer, Recognize, Resident, SameOutside;
    var frame := FrameSize(b);
    var u := EntryRuns(s, base, b);
    t := BodyRuns(u, base, b, 3 + DecodeAt(b, 3).value.len, Known(map[], map[], map[]), frame, s.regs[ESP] - 4, e);
    ReachesTrans(s, u, t);
    OutsideBoth(s.mem, u.mem, t.mem, s.regs[ESP] - 4 - frame, s.regs[ESP] - 4, s.regs[ESP] as int);
  }

  lemma OutsideBoth(m: Mem, m1: Mem, m2: Mem, lo: int, mid: int, hi: int)
    requires lo <= mid <= hi && SameOutside(m, m1, mid, hi) && SameOutside(m1, m2, lo, mid)
    ensures SameOutside(m, m2, lo, hi)
  {
    forall a: u32 | a < lo || a >= hi ensures Read(m2, a) == Read(m, a)
    {
      assert Read(m1, a) == Read(m, a);
    }
  }

  /** Four bytes of return address below the frame do not disturb the buffer. */
  lemma BufferKept(m: Mem, m': Mem, ebp: u32, frame: nat, c: Claim)
    requires frame + 4 <= ebp && BufferAt(m, frame, ebp, c) && SameOutside(m, m', ebp - frame - 4, ebp - frame)
    ensures Resident(m', ebp + c.displacement, c.bytes)
  {
    var base: u32 := ebp + c.displacement;
    forall k | 0 <= k < |c.bytes| ensures Read(m', base + k) == c.bytes[k]
    {
      assert Read(m, base + k) == c.bytes[k];
    }
  }

  /** The indirect call enters the initialized bytes, which are the code of the first stage. */
  lemma TransferRuns(t: State, base: u32, b: seq<byte>, frame: nat, ebp: u32, c: Claim) returns (u: State)
    requires AtTransfer(t, base, b, frame, ebp, c) && frame + 4 + 4 * |c.bytes| <= ebp
    ensures Reaches(t, u) && Ready(u, ebp + c.displacement, c.bytes, 0)
    ensures SameOutside(t.mem, u.mem, ebp - frame - 4, ebp - frame)
  {
    hide DecodeAt, Reaches, Push, SameOutside, Stacked, Holds, Plus;
    var r := DecodeAt(b, c.callOffset).value.inst.r;
    u := Exec1(t, base, b, |b|, c.callOffset, CallReg(r), 2);
    PushWrites(t, base + c.callOffset + 2);
    BufferKept(t.mem, u.mem, ebp, frame, c);
  }

  /** Entering the native function executes its initializer and enters the bytes it stored. */
  lemma FunctionRuns(s: State, base: u32, b: seq<byte>, e: Expected) returns (v: State)
    requires RecognizeInitializer(b, e).Ok?
    requires Resident(s.mem, base, b) && s.eip == base && Room(s.regs[ESP], FrameSize(b) + 8, base, |b|)
    requires FrameSize(b) + 8 + 4 * |RecognizeInitializer(b, e).value.bytes| <= s.regs[ESP]
    ensures var c := RecognizeInitializer(b, e).value;
            Reaches(s, v) && 0 <= s.regs[ESP] - 4 + c.displacement < 0x1_0000_0000
            && Ready(v, s.regs[ESP] - 4 + c.displacement, c.bytes, 0)
  {
    hide Recognize, DecodeAt, AtTransfer, Resident, Reaches, SameOutside;
    var c := RecognizeInitializer(b, e).value;
    var u := InitializerSound(s, base, b, e);
    v := TransferRuns(u, base, b, FrameSize(b), s.regs[ESP] - 4, c);
    ReachesTrans(s, u, v);
  }
}
