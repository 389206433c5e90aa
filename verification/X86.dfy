/** The part of 32-bit x86 that the decoder stubs and the stack initializer use: instruction
    encodings, their effect on registers, flags and memory, and stepping of memory-resident code
    (so a write may change code that is fetched later). Encodings and effects follow the Intel 64
    and IA-32 Architectures Software Developer's Manual, Volume 2. */
module X86 {
  import opened Common

  type byte = x: int | 0 <= x < 256
  type u32 = x: int | 0 <= x < 0x1_0000_0000
  type Reg = x: int | 0 <= x < 8
  type Regs = r: seq<u32> | |r| == 8 witness [0, 0, 0, 0, 0, 0, 0, 0]

  const EAX: Reg := 0
  const ECX: Reg := 1
  const EDX: Reg := 2
  const EBX: Reg := 3
  const ESP: Reg := 4
  const EBP: Reg := 5
  const ESI: Reg := 6

  /** Absent addresses read as zero, so every total 32-bit memory is some `Mem`. */
  type Mem = map<u32, byte>

  datatype Flags = Flags(zf: bool, sf: bool, of: bool)
  datatype State = State(regs: Regs, eip: u32, flags: Flags, mem: Mem)

  datatype Cond = E | NE | LE

  datatype Inst =
    | Nop
    | PushImm(imm: u32)
    | PushReg(r: Reg)
    | MovRegReg(dst: Reg, src: Reg)
    | MovRegImm(dst: Reg, imm: u32)
    | LoadStackTop(dst: Reg)                 // mov dst, [esp]
    | AddImm(dst: Reg, imm: u32)
    | SubImm(dst: Reg, imm: u32)
    | CmpImm(dst: Reg, imm: u32)
    | CmpReg(dst: Reg, src: Reg)
    | Inc(dst: Reg)
    | Dec(dst: Reg)
    | XorByteAtEsi(key: byte)                // xor byte [esi], imm8
    | XorDwordAtEsi(k0: byte, k1: byte, k2: byte, k3: byte) // xor dword [esi], imm32, low byte first
    | LoadDlAtEbx                            // mov dl, [ebx]
    | XorDlAtEsi                             // xor [esi], dl
    | Lea(dst: Reg, base: Reg, disp: int)
    | StoreImmAtEbp(disp: int, val: byte)    // mov byte [ebp+disp], imm8
    | StoreLowAtEbp(disp: int, src: Reg)     // mov byte [ebp+disp], low byte of src
    | Call(rel: int)
    | CallReg(r: Reg)
    | Jmp(rel: int)
    | Jcc(cond: Cond, rel: int)

  datatype Decoded = Decoded(inst: Inst, len: nat)

  /** Reduction modulo 2 to the 32. */
  function Wrap(x: int): u32 { if 0 <= x < 0x1_0000_0000 then x else x % 0x1_0000_0000 }

  /** 32-bit address or register arithmetic. */
  function Plus(a: int, d: int): u32 { Wrap(a + d) }

  lemma PlusExact(a: int, d: int)
    requires 0 <= a + d < 0x1_0000_0000
    ensures Plus(a, d) == a + d
  {
  }

  function Signed8(b: byte): int { if b < 128 then b else b - 256 }

  function Signed32(v: u32): int { if v < 0x8000_0000 then v else v - 0x1_0000_0000 }

  function Xor8(a: byte, b: byte): byte { ((a as bv8) ^ (b as bv8)) as int }

  function Le32(b0: byte, b1: byte, b2: byte, b3: byte): u32
  {
    b0 + 0x100 * (b1 + 0x100 * (b2 + 0x100 * b3))
  }

  function Imm32(b: seq<byte>, at: nat): u32
    requires at + 4 <= |b|
  {
    Le32(b[at], b[at + 1], b[at + 2], b[at + 3])
  }

  /* ---------- decoding ---------- */

  function DecodeAt(b: seq<byte>, at: nat): (d: Option<Decoded>)
    ensures d.Some? ==> 1 <= d.value.len <= 7 && at + d.value.len <= |b|
  {
    if at >= |b| then None
    else if at + 1 >= |b| then DecodeShort(b, at)
    else if b[at] in {0x80, 0x81, 0x83, 0x88, 0x89, 0x8A, 0x8B, 0x8D, 0x30, 0x39, 0xC6, 0xFF} then DecodeModRm(b, at)
    else DecodeShort(b, at)
  }

  /** Opcodes without a ModRM byte. */
  function DecodeShort(b: seq<byte>, at: nat): (d: Option<Decoded>)
    requires at < |b|
    ensures d.Some? ==> 1 <= d.value.len <= 7 && at + d.value.len <= |b|
  {
    var op := b[at];
    if op == 0x90 then Some(Decoded(Nop, 1))
    else if 0x40 <= op < 0x48 then Some(Decoded(Inc(op - 0x40), 1))
    else if 0x48 <= op < 0x50 then Some(Decoded(Dec(op - 0x48), 1))
    else if op == 0x55 then Some(Decoded(PushReg(EBP), 1))
    else if at + 2 > |b| then None
    else if op == 0x6A then Some(Decoded(PushImm(Wrap(Signed8(b[at + 1]))), 2))
    else if op == 0xEB then Some(Decoded(Jmp(Signed8(b[at + 1])), 2))
    else if op == 0x74 then Some(Decoded(Jcc(E, Signed8(b[at + 1])), 2))
    else if op == 0x75 then Some(Decoded(Jcc(NE, Signed8(b[at + 1])), 2))
    else if op == 0x7E then Some(Decoded(Jcc(LE, Signed8(b[at + 1])), 2))
    else if at + 5 > |b| then None
    else if 0xB8 <= op < 0xC0 then Some(Decoded(MovRegImm(op - 0xB8, Imm32(b, at + 1)), 5))
    else if op == 0x68 then Some(Decoded(PushImm(Imm32(b, at + 1)), 5))
    else if op == 0xE8 then Some(Decoded(Call(Signed32(Imm32(b, at + 1))), 5))
    else if op == 0xE9 then Some(Decoded(Jmp(Signed32(Imm32(b, at + 1))), 5))
    else None
  }

  /** Opcodes with a ModRM byte: mod in bits 7-6, reg in bits 5-3, rm in bits 2-0. */
  function DecodeModRm(b: seq<byte>, at: nat): (d: Option<Decoded>)
    requires at + 1 < |b|
    ensures d.Some? ==> 1 <= d.value.len <= 7 && at + d.value.len <= |b|
  {
    var op, m := b[at], b[at + 1];
    var mod, reg, rm := m / 64, m / 8 % 8, m % 8;
    if op == 0x89 && mod == 3 then Some(Decoded(MovRegReg(rm, reg), 2))
    else if op == 0x8B && mod == 3 then Some(Decoded(MovRegReg(reg, rm), 2))
    else if op == 0x39 && mod == 3 then Some(Decoded(CmpReg(rm, reg), 2))
    else if op == 0x30 && m == 0x16 then Some(Decoded(XorDlAtEsi, 2))
    else if op == 0x8A && m == 0x13 then Some(Decoded(LoadDlAtEbx, 2))
    else if op == 0xFF && mod == 3 && reg == 2 then Some(Decoded(CallReg(rm), 2))
    else if at + 3 > |b| then None
    else if op == 0x8B && m == 0x34 && b[at + 2] == 0x24 then Some(Decoded(LoadStackTop(ESI), 3))
    else if op == 0x80 && m == 0x36 then Some(Decoded(XorByteAtEsi(b[at + 2]), 3))
    else if op == 0x83 && mod == 3 && reg == 0 then Some(Decoded(AddImm(rm, Wrap(Signed8(b[at + 2]))), 3))
    else if op == 0x83 && mod == 3 && reg == 5 then Some(Decoded(SubImm(rm, Wrap(Signed8(b[at + 2]))), 3))
    else if op == 0x83 && mod == 3 && reg == 7 then Some(Decoded(CmpImm(rm, Wrap(Signed8(b[at + 2]))), 3))
    else if op == 0x8D && mod == 1 && rm != 4 then Some(Decoded(Lea(reg, rm, Signed8(b[at + 2])), 3))
    else if op == 0x88 && mod == 1 && rm == 5 && reg < 4 then Some(Decoded(StoreLowAtEbp(Signed8(b[at + 2]), reg), 3))
    else if at + 4 > |b| then None
    else if op == 0xC6 && m == 0x45 then Some(Decoded(StoreImmAtEbp(Signed8(b[at + 2]), b[at + 3]), 4))
    else if at + 6 > |b| then None
    else if op == 0x81 && m == 0x36 then Some(Decoded(XorDwordAtEsi(b[at + 2], b[at + 3], b[at + 4], b[at + 5]), 6))
    else if op == 0x81 && mod == 3 && reg == 0 then Some(Decoded(AddImm(rm, Imm32(b, at + 2)), 6))
    else if op == 0x81 && mod == 3 && reg == 5 then Some(Decoded(SubImm(rm, Imm32(b, at + 2)), 6))
    else if op == 0x81 && mod == 3 && reg == 7 then Some(Decoded(CmpImm(rm, Imm32(b, at + 2)), 6))
    else if op == 0x8D && mod == 2 && rm != 4 then Some(Decoded(Lea(reg, rm, Signed32(Imm32(b, at + 2))), 6))
    else if op == 0x88 && mod == 2 && rm == 5 && reg < 4 then Some(Decoded(StoreLowAtEbp(Signed32(Imm32(b, at + 2)), reg), 6))
    else if at + 7 > |b| then None
    else if op == 0xC6 && m == 0x85 then Some(Decoded(StoreImmAtEbp(Signed32(Imm32(b, at + 2)), b[at + 6]), 7))
    else None
  }

  /** Decoding depends only on the bytes of the instruction itself. */
  lemma DecodeStable(f: seq<byte>, p: nat, g: seq<byte>, q: nat)
    requires DecodeAt(f, p).Some?
    requires var len := DecodeAt(f, p).value.len;
             q + len <= |g| && g[q..q + len] == f[p..p + len]
    ensures DecodeAt(g, q) == DecodeAt(f, p)
  {
    var len := DecodeAt(f, p).value.len;
    var u, v := g[q..q + len], f[p..p + len];
    assert u[0] == v[0];
    if len > 1 { assert u[1] == v[1]; }
    if len > 2 { assert u[2] == v[2]; }
    if len > 3 { assert u[3] == v[3]; }
    if len > 4 { assert u[4] == v[4]; }
    if len > 5 { assert u[5] == v[5]; }
    if len > 6 { assert u[6] == v[6]; }
  }

  /* ---------- memory ---------- */

  function Read(m: Mem, a: u32): byte { if a in m then m[a] else 0 }

  function Read32(m: Mem, a: u32): u32
  {
    Le32(Read(m, a), Read(m, Plus(a, 1)), Read(m, Plus(a, 2)), Read(m, Plus(a, 3)))
  }

  function Write32(m: Mem, a: u32, v: u32): Mem
  {
    m[a := v % 0x100][Plus(a, 1) := v / 0x100 % 0x100]
     [Plus(a, 2) := v / 0x1_0000 % 0x100][Plus(a, 3) := v / 0x100_0000]
  }

  function XorMem32(m: Mem, a: u32, k0: byte, k1: byte, k2: byte, k3: byte): Mem
  {
    m[a := Xor8(Read(m, a), k0)][Plus(a, 1) := Xor8(Read(m, Plus(a, 1)), k1)]
     [Plus(a, 2) := Xor8(Read(m, Plus(a, 2)), k2)][Plus(a, 3) := Xor8(Read(m, Plus(a, 3)), k3)]
  }

  /* ---------- execution ---------- */

  function LogicFlags(r: u32): Flags { Flags(r == 0, r >= 0x8000_0000, false) }

  function AddFlags(a: u32, b: u32): Flags
  {
    var r := Wrap(a + b);
    Flags(r == 0, r >= 0x8000_0000, Signed32(a) + Signed32(b) != Signed32(r))
  }

  function SubFlags(a: u32, b: u32): Flags
  {
    var r := Wrap(a - b);
    Flags(r == 0, r >= 0x8000_0000, Signed32(a) - Signed32(b) != Signed32(r))
  }

  predicate Taken(c: Cond, f: Flags)
  {
    match c
    case E => f.zf
    case NE => !f.zf
    case LE => f.zf || f.sf != f.of
  }

  function Push(s: State, v: u32): State
  {
    var sp := Plus(s.regs[ESP], -4);
    s.(regs := s.regs[ESP := sp], mem := Write32(s.mem, sp, v))
  }

  /** The effect of one instruction of length `len` at the current instruction pointer. */
  function Exec(s: State, i: Inst, len: nat): State
  {
    var next := Plus(s.eip, len);
    var r := s.regs;
    match i
    case Nop => s.(eip := next)
    case PushImm(v) => Push(s, v).(eip := next)
    case PushReg(x) => Push(s, r[x]).(eip := next)
    case MovRegReg(d, x) => s.(eip := next, regs := r[d := r[x]])
    case MovRegImm(d, v) => s.(eip := next, regs := r[d := v])
    case LoadStackTop(d) => s.(eip := next, regs := r[d := Read32(s.mem, r[ESP])])
    case AddImm(d, v) => s.(eip := next, regs := r[d := Plus(r[d], v)], flags := AddFlags(r[d], v))
    case SubImm(d, v) => s.(eip := next, regs := r[d := Plus(r[d], -(v as int))], flags := SubFlags(r[d], v))
    case CmpImm(d, v) => s.(eip := next, flags := SubFlags(r[d], v))
    case CmpReg(d, x) => s.(eip := next, flags := SubFlags(r[d], r[x]))
    case Inc(d) => s.(eip := next, regs := r[d := Plus(r[d], 1)], flags := AddFlags(r[d], 1))
    case Dec(d) => s.(eip := next, regs := r[d := Plus(r[d], -1)], flags := SubFlags(r[d], 1))
    case XorByteAtEsi(k) =>
      var v := Xor8(Read(s.mem, r[ESI]), k);
      s.(eip := next, mem := s.mem[r[ESI] := v], flags := LogicFlags(v * 0x100_0000))
    case XorDwordAtEsi(k0, k1, k2, k3) =>
      var m := XorMem32(s.mem, r[ESI], k0, k1, k2, k3);
      s.(eip := next, mem := m, flags := LogicFlags(Read32(m, r[ESI])))
    case LoadDlAtEbx => s.(eip := next, regs := r[EDX := r[EDX] - r[EDX] % 256 + Read(s.mem, r[EBX])])
    case XorDlAtEsi =>
      var v := Xor8(Read(s.mem, r[ESI]), r[EDX] % 256);
      s.(eip := next, mem := s.mem[r[ESI] := v], flags := LogicFlags(v * 0x100_0000))
    case Lea(d, b, disp) => s.(eip := next, regs := r[d := Plus(r[b], disp)])
    case StoreImmAtEbp(disp, v) => s.(eip := next, mem := s.mem[Plus(r[EBP], disp) := v])
    case StoreLowAtEbp(disp, x) => s.(eip := next, mem := s.mem[Plus(r[EBP], disp) := r[x] % 256])
    case Call(rel) => Push(s, next).(eip := Plus(s.eip, len + rel))
    case CallReg(x) => Push(s, next).(eip := r[x])
    case Jmp(rel) => s.(eip := Plus(s.eip, len + rel))
    case Jcc(c, rel) => if Taken(c, s.flags) then s.(eip := Plus(s.eip, len + rel)) else s.(eip := next)
  }

  /** The bytes the processor may look at when it decodes at address `a`. */
  function Window(m: Mem, a: u32): seq<byte>
  {
    [Read(m, a), Read(m, Plus(a, 1)), Read(m, Plus(a, 2)), Read(m, Plus(a, 3)),
     Read(m, Plus(a, 4)), Read(m, Plus(a, 5)), Read(m, Plus(a, 6))]
  }

  /** One fetch, decode and execute; `None` outside the modelled instruction set. */
  function Step(s: State): Option<State>
  {
    var d := DecodeAt(Window(s.mem, s.eip), 0);
    if d.None? then None else Some(Exec(s, d.value.inst, d.value.len))
  }

  function Run(s: State, n: nat): Option<State>
    decreases n
  {
    if n == 0 then Some(s)
    else match Step(s)
      case None => None
      case Some(t) => Run(t, n - 1)
  }

  ghost predicate Reaches(s: State, t: State) { exists n: nat :: Run(s, n) == Some(t) }

  lemma {:induction false} RunAdd(s: State, a: nat, b: nat)
    requires Run(s, a).Some?
    ensures Run(s, a + b) == Run(Run(s, a).value, b)
    decreases a
  {
    hide Step;
    if a > 0 { RunAdd(Step(s).value, a - 1, b); }
  }

  lemma ReachesTrans(s: State, t: State, u: State)
    requires Reaches(s, t) && Reaches(t, u)
    ensures Reaches(s, u)
  {
    var a: nat :| Run(s, a) == Some(t);
    var b: nat :| Run(t, b) == Some(u);
    RunAdd(s, a, b);
  }

  lemma ReachesRefl(s: State)
    ensures Reaches(s, s)
  {
    assert Run(s, 0) == Some(s);
  }

  lemma ReachesStep(s: State, t: State)
    requires Step(s) == Some(t)
    ensures Reaches(s, t)
  {
    assert Run(t, 0) == Some(t);
    assert Run(s, 1) == Some(t);
  }

  /* ---------- code and data resident at a base address ---------- */

  /** Memory at `base` holds the bytes `b[lo..hi]` at their offsets. */
  ghost predicate Holds(m: Mem, base: u32, b: seq<byte>, lo: nat, hi: nat)
    requires lo <= hi <= |b| && base + |b| < 0x1_0000_0000
  {
    forall k {:trigger b[k]} :: lo <= k < hi ==> Read(m, base + k) == b[k]
  }

  ghost predicate Resident(m: Mem, base: u32, b: seq<byte>)
  {
    base + |b| < 0x1_0000_0000 && Holds(m, base, b, 0, |b|)
  }

  lemma WindowMatches(m: Mem, base: u32, b: seq<byte>, at: nat, len: nat)
    requires at + len <= |b| && base + |b| < 0x1_0000_0000 && len <= 7
    requires Holds(m, base, b, at, at + len)
    ensures Window(m, base + at)[0..len] == b[at..at + len]
  {
    var w := Window(m, base + at);
    forall j | 0 <= j < len ensures w[j] == b[at + j]
    {
      assert Plus(base + at, j) == base + (at + j);
      assert Read(m, base + (at + j)) == b[at + j];
    }
  }

  /** A resident instruction executes as its static decoding says. */
  lemma StepResident(s: State, base: u32, b: seq<byte>, at: nat)
    requires DecodeAt(b, at).Some?
    requires base + |b| < 0x1_0000_0000 && Holds(s.mem, base, b, at, at + DecodeAt(b, at).value.len)
    requires s.eip == base + at
    ensures Step(s) == Some(Exec(s, DecodeAt(b, at).value.inst, DecodeAt(b, at).value.len))
  {
    hide DecodeAt, Exec, Plus, Read;
    WindowMatches(s.mem, base, b, at, DecodeAt(b, at).value.len);
    DecodeStable(b, at, Window(s.mem, s.eip), 0);
  }
}
