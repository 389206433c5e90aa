/** Whatever `recovery_stage_validation` and the scan accept has the instruction shapes that
    StubRun executes, and the recognized key is the one on the stack. */
module StubSoundness {
  import opened Common
  import opened X86
  import opened Stage
  import opened StubRun

  lemma ByteOf(b: seq<byte>, at: nat, pattern: seq<byte>, j: nat)
    requires Exact(b, at, pattern) && j < |pattern|
    ensures b[at + j] == pattern[j]
  {
    assert b[at..at + |pattern|][j] == b[at + j];
  }

  /** A matched pattern carries its decoding to the place where it matched. */
  lemma Fits(b: seq<byte>, at: nat, pattern: seq<byte>, p: nat, i: Inst, len: nat)
    requires Exact(b, at, pattern) && DecodesTo(pattern, p, i, len)
    ensures DecodesTo(b, at + p, i, len)
  {
    hide DecodeAt, Exact;
    ExactDecodes(b, at, pattern, p);
  }

  const GET_PC: seq<byte> := [0xE8, 0, 0, 0, 0, 0x8B, 0x34, 0x24, 0x83, 0xC6]

  lemma GetPcDecodes()
    ensures DecodesTo(GET_PC, 0, Call(0), 5)
    ensures DecodesTo(GET_PC, 5, LoadStackTop(ESI), 3)
  {
  }

  lemma AddEsiDecodes(imm: byte)
    requires imm <= 127
    ensures DecodesTo([0x83, 0xC6, imm], 0, AddImm(ESI, imm), 3)
  {
  }

  lemma HeaderFacts(b: seq<byte>, s: Stub)
    requires Recognized(b, s)
    ensures Exact(b, s.call, GET_PC) && s.call + 19 <= s.loop && s.loop + 12 < |b|
    ensures b[s.call + 10] <= 127 && s.start == s.call + 5 + b[s.call + 10] && 0 < s.size && s.start + s.size <= |b|
    ensures Exact(b, s.call + 8, [0x83, 0xC6, b[s.call + 10]])
  {
    hide KeySize, PushedKey, Imm32;
    ByteOf(b, s.call, GET_PC, 8);
    ByteOf(b, s.call, GET_PC, 9);
    assert b[s.call + 8..s.call + 11] == [0x83, 0xC6, b[s.call + 10]];
  }

  lemma PrologueOf(b: seq<byte>, s: Stub)
    requires Recognized(b, s)
    ensures PrologueShape(b, s, b[s.call + 10])
  {
    HeaderFacts(b, s);
    var imm := b[s.call + 10];
    hide Recognized, DecodesTo, Exact;
    GetPcDecodes();
    AddEsiDecodes(imm);
    Fits(b, s.call, GET_PC, 0, Call(0), 5);
    Fits(b, s.call, GET_PC, 5, LoadStackTop(ESI), 3);
    Fits(b, s.call + 8, [0x83, 0xC6, imm], 0, AddImm(ESI, imm), 3);
  }

  /* ---------- byte and dword stubs ---------- */

  lemma ByteDecodes(k: byte)
    ensures DecodesTo([0x83, 0xF9, 0], 0, CmpImm(ECX, 0), 3)
    ensures DecodesTo([0x80, 0x36, k], 0, XorByteAtEsi(k), 3)
    ensures DecodesTo([0x46, 0x49], 0, Inc(ESI), 1) && DecodesTo([0x46, 0x49], 1, Dec(ECX), 1)
  {
  }

  lemma DwordDecodes(k0: byte, k1: byte, k2: byte, k3: byte)
    ensures DecodesTo([0x83, 0xF9, 0], 0, CmpImm(ECX, 0), 3)
    ensures DecodesTo([0x81, 0x36, k0, k1, k2, k3], 0, XorDwordAtEsi(k0, k1, k2, k3), 6)
    ensures DecodesTo([0x83, 0xC6, 4, 0x83, 0xE9, 4], 0, AddImm(ESI, 4), 3)
    ensures DecodesTo([0x83, 0xC6, 4, 0x83, 0xE9, 4], 3, SubImm(ECX, 4), 3)
  {
  }

  /** The accepted back edge, whichever encoding it has. */
  lemma BackOf(b: seq<byte>, s: Stub) returns (back: Decoded)
    requires Accepted(b, s)
    ensures DecodesTo(b, BackAt(s), back.inst, back.len) && back.inst.Jmp? && back.len >= 2
    ensures BackAt(s) + back.len + back.inst.rel == HeadAt(s) && BackAt(s) + 2 <= s.start
    ensures BackEnd(b, s) == BackAt(s) + back.len <= |b|
  {
    back := DecodeAt(b, BackAt(s)).value;
  }

  /** mov ecx, size, for the stubs that carry the size directly. */
  lemma SizeOf(b: seq<byte>, s: Stub)
    requires Accepted(b, s) && !s.kind.XorRepeatingKey?
    ensures DecodesTo(b, s.call + 11, MovRegImm(ECX, s.size), 5)
  {
    hide BackJump, PushedKey, KeySize;
    ByteOf(b, s.call + 11, [0xB9], 0);
    assert s.size == Imm32(b, s.call + 12);
  }

  lemma ByteShapeOf(b: seq<byte>, s: Stub) returns (back: Decoded)
    requires Accepted(b, s) && s.kind.XorByte?
    ensures ByteShape(b, s, back) && BackEnd(b, s) == s.loop + 5 + back.len
  {
    hide DecodesTo, BackJump, DecodeAt;
    back := BackOf(b, s);
    ByteDecodes(s.key[0]);
    Fits(b, s.loop - 5, [0x83, 0xF9, 0], 0, CmpImm(ECX, 0), 3);
    ByteOf(b, s.loop, [0x80, 0x36], 0);
    ByteOf(b, s.loop, [0x80, 0x36], 1);
    assert b[s.loop..s.loop + 3] == [0x80, 0x36, s.key[0]];
    Fits(b, s.loop, [0x80, 0x36, s.key[0]], 0, XorByteAtEsi(s.key[0]), 3);
    Fits(b, s.loop + 3, [0x46, 0x49], 0, Inc(ESI), 1);
    Fits(b, s.loop + 3, [0x46, 0x49], 1, Dec(ECX), 1);
  }

  lemma DwordShapeOf(b: seq<byte>, s: Stub) returns (back: Decoded)
    requires Accepted(b, s) && s.kind.XorDword?
    ensures DwordShape(b, s, back) && BackEnd(b, s) == s.loop + 12 + back.len
  {
    hide DecodesTo, BackJump, DecodeAt;
    back := BackOf(b, s);
    var k := s.key;
    var p := [0x81, 0x36, k[0], k[1], k[2], k[3]];
    DwordDecodes(k[0], k[1], k[2], k[3]);
    Fits(b, s.loop - 5, [0x83, 0xF9, 0], 0, CmpImm(ECX, 0), 3);
    ByteOf(b, s.loop, [0x81, 0x36], 0);
    ByteOf(b, s.loop, [0x81, 0x36], 1);
    assert b[s.loop..s.loop + 6] == p;
    Fits(b, s.loop, p, 0, XorDwordAtEsi(k[0], k[1], k[2], k[3]), 6);
    var q := [0x83, 0xC6, 4, 0x83, 0xE9, 4];
    Fits(b, s.loop + 6, q, 0, AddImm(ESI, 4), 3);
    Fits(b, s.loop + 6, q, 3, SubImm(ECX, 4), 3);
  }

  /* ---------- repeating-key stubs ---------- */

  const WRAP: seq<byte> := [0x39, 0xD8, 0x75, 5, 0x89, 0xE3, 0x83, 0xC3, 4, 0x39, 0xCE]
  const BODY: seq<byte> := [0x8A, 0x13, 0x30, 0x16, 0x43, 0x46]

  lemma WrapDecodes()
    ensures DecodesTo(WRAP, 0, CmpReg(EAX, EBX), 2) && DecodesTo(WRAP, 2, Jcc(NE, 5), 2)
    ensures DecodesTo(WRAP, 4, MovRegReg(EBX, ESP), 2) && DecodesTo(WRAP, 6, AddImm(EBX, 4), 3)
    ensures DecodesTo(WRAP, 9, CmpReg(ESI, ECX), 2)
  {
  }

  lemma BodyDecodes()
    ensures DecodesTo(BODY, 0, LoadDlAtEbx, 2) && DecodesTo(BODY, 2, XorDlAtEsi, 2)
    ensures DecodesTo(BODY, 4, Inc(EBX), 1) && DecodesTo(BODY, 5, Inc(ESI), 1)
  {
  }

  lemma RepeatShapeOf(b: seq<byte>, s: Stub) returns (back: Decoded)
    requires Accepted(b, s) && s.kind.XorRepeatingKey?
    ensures RepeatShape(b, s, back) && BackEnd(b, s) == s.loop + 6 + back.len
  {
    hide DecodesTo, BackJump, DecodeAt, PushedKey, KeySize;
    back := BackOf(b, s);
    WrapDecodes();
    BodyDecodes();
    Fits(b, s.call + 24, WRAP, 0, CmpReg(EAX, EBX), 2);
    Fits(b, s.call + 24, WRAP, 2, Jcc(NE, 5), 2);
    Fits(b, s.call + 24, WRAP, 4, MovRegReg(EBX, ESP), 2);
    Fits(b, s.call + 24, WRAP, 6, AddImm(EBX, 4), 3);
    Fits(b, s.call + 24, WRAP, 9, CmpReg(ESI, ECX), 2);
    Fits(b, s.loop, BODY, 0, LoadDlAtEbx, 2);
    Fits(b, s.loop, BODY, 2, XorDlAtEsi, 2);
    Fits(b, s.loop, BODY, 4, Inc(EBX), 1);
    Fits(b, s.loop, BODY, 5, Inc(ESI), 1);
  }

  lemma SetupDecodes(k: byte)
    requires k <= 127
    ensures DecodesTo([0x89, 0xF1], 0, MovRegReg(ECX, ESI), 2)
    ensures DecodesTo([0x89, 0xD8, 0x83, 0xC0, k], 0, MovRegReg(EAX, EBX), 2)
    ensures DecodesTo([0x89, 0xD8, 0x83, 0xC0, k], 2, AddImm(EAX, k), 3)
  {
  }

  /** The four instructions between get-PC and the loop head of a repeating-key stub. */
  ghost predicate SetupShape(b: seq<byte>, s: Stub, k: byte)
  {
    && s.size <= 0x7FFF_FFFF
    && DecodesTo(b, s.call + 11, MovRegReg(ECX, ESI), 2)
    && DecodesTo(b, s.call + 13, AddImm(ECX, s.size), 6)
    && DecodesTo(b, s.call + 19, MovRegReg(EAX, EBX), 2)
    && DecodesTo(b, s.call + 21, AddImm(EAX, k), 3)
  }

  lemma AddSize(b: seq<byte>, at: nat)
    requires at + 6 <= |b| && b[at] == 0x81 && b[at + 1] == 0xC1
    ensures DecodesTo(b, at, AddImm(ECX, Imm32(b, at + 2)), 6)
  {
  }

  lemma SetupOf(b: seq<byte>, s: Stub)
    requires Accepted(b, s) && s.kind.XorRepeatingKey?
    ensures SetupShape(b, s, b[s.call + 23])
  {
    hide DecodesTo, BackJump, DecodeAt, PushedKey, KeySize;
    var k := b[s.call + 23];
    SetupDecodes(k);
    var p := [0x89, 0xF1, 0x81, 0xC1];
    ByteOf(b, s.call + 11, p, 0);
    ByteOf(b, s.call + 11, p, 1);
    ByteOf(b, s.call + 11, p, 2);
    ByteOf(b, s.call + 11, p, 3);
    assert b[s.call + 11..s.call + 13] == [0x89, 0xF1];
    Fits(b, s.call + 11, [0x89, 0xF1], 0, MovRegReg(ECX, ESI), 2);
    AddSize(b, s.call + 13);
    var q := [0x89, 0xD8, 0x83, 0xC0];
    ByteOf(b, s.call + 19, q, 0);
    ByteOf(b, s.call + 19, q, 1);
    ByteOf(b, s.call + 19, q, 2);
    ByteOf(b, s.call + 19, q, 3);
    assert b[s.call + 19..s.call + 24] == [0x89, 0xD8, 0x83, 0xC0, k];
    Fits(b, s.call + 19, [0x89, 0xD8, 0x83, 0xC0, k], 0, MovRegReg(EAX, EBX), 2);
    Fits(b, s.call + 19, [0x89, 0xD8, 0x83, 0xC0, k], 2, AddImm(EAX, k), 3);
  }

  /* ---------- the recognized key ---------- */

  lemma {:induction false} KeySizeSkips(b: seq<byte>, lo: nat, mid: nat, hi: nat)
    requires lo <= mid <= hi && hi + 2 <= |b|
    requires forall p :: mid <= p < hi ==> b[p] != 0x83 || b[p + 1] != 0xC0
    ensures KeySize(b, lo, hi) == KeySize(b, lo, mid)
    decreases hi
  {
    if mid < hi { KeySizeSkips(b, lo, mid, hi - 1); }
  }

  lemma {:induction false} PushedKeySkips(b: seq<byte>, mid: nat, cursor: nat, n: nat)
    requires 2 <= mid <= cursor <= |b|
    requires forall c :: mid < c <= cursor ==> !KeyEnds(b, c, n)
    ensures PushedKey(b, cursor, n) == PushedKey(b, mid, n)
    decreases cursor
  {
    if mid < cursor { PushedKeySkips(b, mid, cursor - 1, n); }
  }

  /** The known bytes around the call `c` of an accepted repeating-key stub. */
  ghost predicate RepeatSlices(b: seq<byte>, c: nat)
  {
    && 7 <= c && c + 37 <= |b| <= 4096
    && b[c - 2..c] == [0x89, 0xE3] && b[c..c + 10] == GET_PC && b[c + 10] <= 127
    && b[c + 11..c + 15] == [0x89, 0xF1, 0x81, 0xC1] && Imm32(b, c + 15) <= 4096
    && b[c + 19..c + 23] == [0x89, 0xD8, 0x83, 0xC0] && 1 <= b[c + 23] <= 127
    && b[c + 24..c + 35] == WRAP && b[c + 35] != 0x89
    && b[c + 23] <= 4 * PushedBefore(b, c - 2)
  }

  lemma NotMov(b: seq<byte>, at: nat, rel: int)
    requires DecodesTo(b, at, Jcc(E, rel), 2)
    ensures at < |b| && b[at] != 0x89
  {
  }

  lemma RepeatSlicesOf(b: seq<byte>, s: Stub)
    requires Accepted(b, s) && s.kind.XorRepeatingKey? && |b| <= 4096
    ensures s.loop == s.call + 37 && RepeatSlices(b, s.call)
  {
    hide BackJump, PushedKey, KeySize, DecodesTo, DecodeAt, Imm32;
    NotMov(b, s.loop - 2, ExitAt(s) - s.loop);
    HeaderFacts(b, s);
  }

  /** The backward key-length scan finds the immediate of `add eax, imm8`. */
  lemma KeySizeIs(b: seq<byte>, c: nat)
    requires RepeatSlices(b, c)
    ensures KeySize(b, c + 5, c + 34) == b[c + 23]
  {
    forall p | c + 22 <= p < c + 34 ensures b[p] != 0x83 || b[p + 1] != 0xC0
    {
      if p == c + 22 {
        assert b[c + 19..c + 23][3] == b[p];
      } else if p > c + 23 {
        assert b[c + 24..c + 35][p - c - 24] == b[p];
        assert b[c + 24..c + 35][p + 1 - c - 24] == b[p + 1];
      }
    }
    KeySizeSkips(b, c + 5, c + 22, c + 34);
    assert b[c + 19..c + 23][2] == b[c + 21] && b[c + 19..c + 23][3] == b[c + 22];
  }

  /** No `mov ebx, esp` between the call and the loop ends a long enough push run. */
  lemma NoKeyInside(b: seq<byte>, c: nat, cursor: nat)
    requires RepeatSlices(b, c) && c < cursor <= c + 37
    ensures !KeyEnds(b, cursor, b[c + 23])
  {
    var p := cursor - 2;
    if p == c - 1 {
      assert b[c - 2..c][1] == b[p];
    } else if p < c + 10 {
      assert b[c..c + 10][p - c] == b[p];
    } else if c + 11 <= p < c + 15 {
      assert b[c + 11..c + 15][p - c - 11] == b[p];
      if p == c + 11 { assert b[c + 11..c + 15][1] == b[p + 1]; }
    } else if c + 15 <= p < c + 19 {
      assert b[c + 16] <= 16 && b[c + 17] == 0 && b[c + 18] == 0;
    } else if c + 19 <= p < c + 23 {
      assert b[c + 19..c + 23][p - c - 19] == b[p];
      if p == c + 19 { assert b[c + 19..c + 23][1] == b[p + 1]; }
    } else if c + 24 <= p < c + 35 {
      assert b[c + 24..c + 35][p - c - 24] == b[p];
      if p == c + 28 { WrapMovRun(b, c); }
    }
  }

  /** The `mov ebx, esp` of the loop itself is preceded by at most one byte that looks like a push. */
  lemma WrapMovRun(b: seq<byte>, c: nat)
    requires RepeatSlices(b, c)
    ensures |PushRun(b, c + 28)| < b[c + 23]
  {
    assert b[c + 18] == 0;
    assert |PushRun(b, c + 23)| == 0;
  }

  /** The backward key search stops at the `mov ebx, esp` before the call. */
  lemma PushedKeyIs(b: seq<byte>, c: nat)
    requires RepeatSlices(b, c)
    ensures b[c + 23] <= |PushRun(b, c - 2)| && PushedKey(b, c + 37, b[c + 23]) == PushRun(b, c - 2)[..b[c + 23]]
  {
    var n := b[c + 23];
    forall cursor | c < cursor <= c + 37 ensures !KeyEnds(b, cursor, n)
    {
      NoKeyInside(b, c, cursor);
    }
    PushedKeySkips(b, c, c + 37, n);
    assert b[c - 2..c][0] == b[c - 2] && b[c - 2..c][1] == b[c - 1];
    assert KeyEnds(b, c, n);
  }

  /** The recognized key is the front of the adjacent push run, so of the stack at ESP. */
  lemma KeyOf(b: seq<byte>, s: Stub)
    requires Accepted(b, s) && s.kind.XorRepeatingKey? && |b| <= 4096
    ensures s.call >= 7 && s.call + 37 <= |b| && 1 <= b[s.call + 23] <= |PushRun(b, s.call - 2)|
    ensures s.key == PushRun(b, s.call - 2)[..b[s.call + 23]]
  {
    hide Valid, KeySize, PushedKey;
    RepeatSlicesOf(b, s);
    KeySizeIs(b, s.call);
    PushedKeyIs(b, s.call);
  }

  /* ---------- whole stubs ---------- */

  lemma BulkZero(b: seq<byte>, start: nat, key: seq<byte>)
    requires key != []
    ensures Bulk(b, start, 0, key) == b
  {
  }

  /** What a finished stub leaves: control past the stub, the bulk XOR in memory, four bytes of
      return address below the stack pointer, and nothing else changed. */
  ghost predicate StubDone(s: State, t: State, base: u32, b: seq<byte>, st: Stub)
  {
    && st.key != [] && 4 <= s.regs[ESP]
    && Reaches(s, t) && t.eip == base + ExitAt(st)
    && Resident(t.mem, base, Bulk(b, st.start, st.size, st.key))
    && t.regs[ESP] == s.regs[ESP] - 4 && t.regs[EBP] == s.regs[EBP]
    && SameExcept(s.mem, t.mem, base, |b|, s.regs[ESP] - 4, s.regs[ESP] as int)
  }

  lemma JoinSame(m: Mem, m1: Mem, m2: Mem, base: u32, n: nat, lo: int, hi: int)
    requires SameOutside(m, m1, lo, hi) && SameOutside(m1, m2, base as int, base + n)
    ensures SameExcept(m, m2, base, n, lo, hi)
  {
    forall a: u32 | !(base <= a < base + n) && !(lo <= a < hi) ensures Read(m2, a) == Read(m, a)
    {
      assert Read(m1, a) == Read(m, a);
    }
  }

  /** get-PC and mov ecx, size bring a byte or dword stub to its loop head. */
  lemma PlainEntry(s: State, base: u32, b: seq<byte>, st: Stub) returns (t: State)
    requires st.call + 16 <= |b| && st.start + st.size <= |b| && PrologueShape(b, st, b[st.call + 10])
    requires st.size <= 0x7FFF_FFFF && DecodesTo(b, st.call + 11, MovRegImm(ECX, st.size), 5)
    requires Resident(s.mem, base, b) && s.eip == base + st.call && Room(s.regs[ESP], 4, base, |b|)
    ensures Reaches(s, t) && t.eip == base + st.call + 16 && Resident(t.mem, base, b)
    ensures t.regs == s.regs[ESP := s.regs[ESP] - 4][ESI := base + st.start][ECX := st.size]
    ensures SameOutside(s.mem, t.mem, s.regs[ESP] - 4, s.regs[ESP] as int)
  {
    hide PrologueShape, DecodesTo, Reaches, SameOutside, Holds, Plus, Step;
    var s1 := GetPc(s, base, b, st, b[st.call + 10]);
    t := Exec1(s1, base, b, |b|, st.call + 11, MovRegImm(ECX, st.size), 5);
    ReachesTrans(s, s1, t);
  }

  /** An accepted byte or dword stub, run from its call, does the bulk XOR. */
  lemma RunPlainStub(s: State, base: u32, b: seq<byte>, st: Stub) returns (t: State)
    requires Accepted(b, st) && !st.kind.XorRepeatingKey? && Spares(st, BackEnd(b, st))
    requires Resident(s.mem, base, b) && s.eip == base + st.call && Room(s.regs[ESP], 4, base, |b|)
    ensures StubDone(s, t, base, b, st)
  {
    hide DecodesTo, DecodeAt, Reaches, Bulk, SameOutside, SameExcept, Holds, BackEnd, Exact, PushedKey, KeySize;
    assert st.size <= 0x7FFF_FFFF && st.key != [];
    hide Accepted;
    PrologueOf(b, st);
    SizeOf(b, st);
    HeaderFacts(b, st);
    var s2 := PlainEntry(s, base, b, st);
    BulkZero(b, st.start, st.key);
    if st.kind.XorByte? {
      var back := ByteShapeOf(b, st);
      t := ByteLoop(s2, base, b, st, back, 0);
    } else {
      var back := DwordShapeOf(b, st);
      t := DwordLoop(s2, base, b, st, back, 0);
    }
    ReachesTrans(s, s2, t);
    JoinSame(s.mem, s2.mem, t.mem, base, |b|, s.regs[ESP] - 4, s.regs[ESP] as int);
  }

  /** mov ecx, esi; add ecx, size; mov eax, ebx; add eax, key length */
  lemma Setup(s: State, base: u32, b: seq<byte>, st: Stub, k: byte) returns (t: State)
    requires SetupShape(b, st, k) && At(s, base, b, |b|, st.call + 11) && st.call + 24 <= |b|
    requires s.regs[ESI] == base + st.start && st.start + st.size <= |b|
    ensures Reaches(s, t) && t.eip == base + st.call + 24 && t.mem == s.mem
    ensures t.regs == s.regs[ECX := base + st.start + st.size][EAX := Plus(s.regs[EBX], k)]
  {
    hide Reaches, DecodesTo, Holds, Plus, Step;
    PlusExact(base + st.start, st.size);
    var s1 := Exec1(s, base, b, |b|, st.call + 11, MovRegReg(ECX, ESI), 2);
    var s2 := Exec1(s1, base, b, |b|, st.call + 13, AddImm(ECX, st.size), 6);
    ReachesTrans(s, s1, s2);
    var s3 := Exec1(s2, base, b, |b|, st.call + 19, MovRegReg(EAX, EBX), 2);
    ReachesTrans(s, s2, s3);
    t := Exec1(s3, base, b, |b|, st.call + 21, AddImm(EAX, k), 3);
    ReachesTrans(s, s3, t);
  }

  /** What entering an accepted repeating-key stub needs to know about it. */
  lemma RepeatFacts(b: seq<byte>, st: Stub)
    requires Accepted(b, st) && st.kind.XorRepeatingKey? && |b| <= 4096
    ensures 7 <= st.call && st.call + 37 <= |b| && st.loop == st.call + 37 && st.start + st.size <= |b|
    ensures PrologueShape(b, st, b[st.call + 10]) && SetupShape(b, st, b[st.call + 23]) && |st.key| == b[st.call + 23] >= 1
  {
    hide DecodesTo, KeySize, PushedKey, Exact;
    PrologueOf(b, st);
    SetupOf(b, st);
    HeaderFacts(b, st);
    KeyOf(b, st);
  }

  /** The shape does not depend on the key. */
  lemma SameShape(b: seq<byte>, st: Stub, back: Decoded, key: seq<byte>)
    requires RepeatShape(b, st, back) && key != []
    ensures RepeatShape(b, st.(key := key), back)
  {
    hide DecodesTo;
  }

  /** From the call, with EBX `d` bytes above the stack pointer, to the head of the loop. */
  lemma RepeatEntry(s: State, base: u32, b: seq<byte>, st: Stub, d: nat, key: seq<byte>) returns (t: State)
    requires Accepted(b, st) && st.kind.XorRepeatingKey? && |b| <= 4096 && |key| == st.size && key != []
    requires Resident(s.mem, base, b) && s.eip == base + st.call && Room(s.regs[ESP], 4, base, |b|)
    requires s.regs[EBX] == s.regs[ESP] + d && KeyRead(s.mem, base, b, s.regs[ESP] as int, d, |st.key|, key)
    ensures 4 <= s.regs[ESP] && Reaches(s, t) && RepeatHead(t, base, b, st.(key := key), s.regs[ESP] as int, d, |st.key|, 0)
    ensures t.regs[EBP] == s.regs[EBP] && SameOutside(s.mem, t.mem, s.regs[ESP] - 4, s.regs[ESP] as int)
  {
    hide Accepted, PrologueShape, SetupShape, DecodesTo, Reaches, Bulk, SameOutside, Holds, Plus, Step, ByteRead, Cursor;
    RepeatFacts(b, st);
    var s1 := GetPc(s, base, b, st, b[st.call + 10]);
    t := Setup(s1, base, b, st, b[st.call + 23]);
    ReachesTrans(s, s1, t);
    BulkZero(b, st.start, key);
    KeyAfterPush(s.mem, s1.mem, base, b, s.regs[ESP] as int, d, |st.key|, key);
  }

  /** An accepted repeating-key stub, run from its call, does the bulk XOR with the bytes that its
      cursor meets on the stack. */
  lemma RunRepeatStub(s: State, base: u32, b: seq<byte>, st: Stub, d: nat, key: seq<byte>) returns (t: State)
    requires Accepted(b, st) && st.kind.XorRepeatingKey? && |b| <= 4096 && |key| == st.size && key != []
    requires Spares(st.(key := key), BackEnd(b, st))
    requires Resident(s.mem, base, b) && s.eip == base + st.call && Room(s.regs[ESP], 4, base, |b|)
    requires s.regs[EBX] == s.regs[ESP] + d && KeyRead(s.mem, base, b, s.regs[ESP] as int, d, |st.key|, key)
    ensures StubDone(s, t, base, b, st.(key := key))
  {
    hide Accepted, BackEnd, DecodesTo, Reaches, Bulk, SameOutside, SameExcept, Holds, Plus, Step, KeyRead, RepeatShape, RepeatHead, Spares,
      PrologueShape, SetupShape;
    RepeatFacts(b, st);
    var back := RepeatShapeOf(b, st);
    SameShape(b, st, back, key);
    var s1 := RepeatEntry(s, base, b, st, d, key);
    RepeatStack(s1, base, b, st.(key := key), s.regs[ESP] as int, d, |st.key|);
    t := RepeatLoop(s1, base, b, st.(key := key), back, s.regs[ESP] as int, d, |st.key|, 0);
    ReachesTrans(s, s1, t);
    JoinSame(s.mem, s1.mem, t.mem, base, |b|, s.regs[ESP] - 4, s.regs[ESP] as int);
  }

  lemma RepeatStack(s: State, base: u32, b: seq<byte>, st: Stub, k: int, d: nat, n: nat)
    requires RepeatHead(s, base, b, st, k, d, n, 0)
    ensures st.key != [] && s.regs[ESP] == k - 4
  {
  }

  lemma KeyAfterPush(m: Mem, m': Mem, base: u32, b: seq<byte>, k: int, d: nat, n: nat, key: seq<byte>)
    requires KeyRead(m, base, b, k, d, n, key) && SameOutside(m, m', k - 4, k)
    ensures KeyRead(m', base, b, k, d, n, key)
  {
    forall j | 0 <= j < |key| ensures ByteRead(m', base, b, k + Cursor(d, n, j), key[j])
    {
      assert ByteRead(m, base, b, k + Cursor(d, n, j), key[j]);
    }
  }
}
