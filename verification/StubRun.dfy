/** Running an accepted decoder stub instruction by instruction has exactly the effect of the
    bulk XOR. */
module StubRun {
  import opened Common
  import opened X86
  import opened Stage

  ghost predicate SameOutside(m: Mem, m': Mem, lo: int, hi: int)
  {
    forall a: u32 :: a < lo || a >= hi ==> Read(m', a) == Read(m, a)
  }

  /** The machine is about to execute offset `at` of the code bytes `b[..code]` resident at `base`. */
  ghost predicate At(s: State, base: u32, b: seq<byte>, code: nat, at: int)
  {
    code <= |b| && base + |b| < 0x1_0000_0000 && Holds(s.mem, base, b, 0, code) && s.eip == base + at
  }

  /** One resident instruction with a known decoding. */
  lemma Exec1(s: State, base: u32, b: seq<byte>, code: nat, at: nat, i: Inst, len: nat) returns (t: State)
    requires DecodesTo(b, at, i, len) && at + len <= code && At(s, base, b, code, at)
    ensures t == Exec(s, i, len) && Step(s) == Some(t) && Reaches(s, t) && Plus(s.eip, len) == base + at + len
    ensures t.mem == s.mem && t.eip == base + at + len ==> At(t, base, b, code, at + len)
  {
    hide Step, Exec, DecodeAt;
    StepResident(s, base, b, at);
    t := Exec(s, i, len);
    ReachesStep(s, t);
  }

  lemma BulkCode(m: Mem, base: u32, b: seq<byte>, start: nat, i: nat, key: seq<byte>, code: nat)
    requires key != [] && Resident(m, base, Bulk(b, start, i, key)) && code <= start && code <= |b|
    ensures Holds(m, base, b, 0, code)
  {
    forall k | 0 <= k < code ensures Read(m, base + k) == b[k]
    {
      assert Bulk(b, start, i, key)[k] == b[k];
    }
  }

  lemma XorZero(a: byte)
    ensures Xor8(a, 0) == a
  {
  }

  /** A spared back jump is still in memory after any part of the rewrite. */
  lemma BulkJump(m: Mem, base: u32, b: seq<byte>, st: Stub, i: nat, end: nat)
    requires Spares(st, end) && i <= st.size && end <= |b| && Resident(m, base, Bulk(b, st.start, i, st.key))
    ensures Holds(m, base, b, 0, end)
  {
    hide Xor8;
    forall k | 0 <= k < end ensures Read(m, base + k) == b[k]
    {
      assert Read(m, base + k) == Bulk(b, st.start, i, st.key)[k];
      if st.start <= k < st.start + i {
        assert KeyByte(st.key, k - st.start) == 0;
        XorZero(b[k]);
      }
    }
  }

  /** XORing byte `start+i` in memory extends the bulk prefix from i to i+1. */
  lemma XorOne(m: Mem, base: u32, b: seq<byte>, start: nat, i: nat, key: seq<byte>) returns (m': Mem)
    requires key != [] && start + i < |b| && Resident(m, base, Bulk(b, start, i, key))
    ensures m' == m[base + start + i := Xor8(Read(m, base + start + i), key[i % |key|])]
    ensures Resident(m', base, Bulk(b, start, i + 1, key))
    ensures SameOutside(m, m', base, base + |b|)
  {
    m' := m[base + start + i := Xor8(Read(m, base + start + i), key[i % |key|])];
    var c, c' := Bulk(b, start, i, key), Bulk(b, start, i + 1, key);
    assert c[start + i] == b[start + i];
    forall k | 0 <= k < |b| ensures Read(m', base + k) == c'[k]
    {
      if k != start + i { assert c[k] == c'[k]; }
    }
  }

  /* ---------- the byte loop ---------- */

  /** The instructions of an accepted byte stub, and the bounds of the range it rewrites. */
  ghost predicate ByteShape(b: seq<byte>, s: Stub, back: Decoded)
  {
    && s.loop >= 21 && |s.key| == 1 && back.len >= 2 && s.start + s.size <= |b| && s.loop + 7 <= s.start
    && s.loop + 5 + back.len <= |b|
    && DecodesTo(b, s.loop - 5, CmpImm(ECX, 0), 3)
    && DecodesTo(b, s.loop - 2, Jcc(E, 7), 2)
    && DecodesTo(b, s.loop, XorByteAtEsi(s.key[0]), 3)
    && DecodesTo(b, s.loop + 3, Inc(ESI), 1)
    && DecodesTo(b, s.loop + 4, Dec(ECX), 1)
    && DecodesTo(b, s.loop + 5, back.inst, back.len)
    && back.inst.Jmp? && 5 + back.len + back.inst.rel == -5
  }

  /** `cmp ecx, 0` and the exit branch, with the flags they leave. */
  lemma TestEcx(s: State, base: u32, b: seq<byte>, code: nat, at: nat, c: Cond, rel: nat) returns (t: State)
    requires At(s, base, b, code, at) && at + 5 <= code
    requires DecodesTo(b, at, CmpImm(ECX, 0), 3) && DecodesTo(b, at + 3, Jcc(c, rel), 2)
    requires base + at + 5 + rel < 0x1_0000_0000
    requires c == E || c == LE
    ensures Reaches(s, t) && t.regs == s.regs && t.mem == s.mem
    ensures t.eip == base + at + 5 + if (if c == E then s.regs[ECX] == 0 else Signed32(s.regs[ECX]) <= 0) then rel else 0
  {
    hide Step, DecodesTo, Reaches, Holds, Plus;
    var s1 := Exec1(s, base, b, code, at, CmpImm(ECX, 0), 3);
    t := Exec1(s1, base, b, code, at + 3, Jcc(c, rel), 2);
    ReachesTrans(s, s1, t);
    PlusExact(base + at + 3, 2 + rel);
  }

  /** One pass of the byte loop's body: xor byte [esi], key; inc esi; dec ecx. */
  lemma ByteBody(s: State, base: u32, b: seq<byte>, st: Stub, back: Decoded, i: nat) returns (t: State)
    requires ByteShape(b, st, back) && i < st.size
    requires Resident(s.mem, base, Bulk(b, st.start, i, st.key)) && s.eip == base + st.loop
    requires s.regs[ESI] == base + st.start + i && s.regs[ECX] == st.size - i
    ensures Reaches(s, t) && t.eip == base + st.loop + 5
    ensures Resident(t.mem, base, Bulk(b, st.start, i + 1, st.key)) && SameOutside(s.mem, t.mem, base, base + |b|)
    ensures t.regs == s.regs[ESI := base + st.start + i + 1][ECX := st.size - i - 1]
  {
    hide Step, DecodesTo, Reaches, Bulk, SameOutside, Holds, Plus;
    PlusExact(base + st.start + i, 1);
    PlusExact(st.size - i, -1);
    BulkCode(s.mem, base, b, st.start, i, st.key, st.start);
    var s3 := Exec1(s, base, b, st.start, st.loop, XorByteAtEsi(st.key[0]), 3);
    var m := XorOne(s.mem, base, b, st.start, i, st.key);
    assert s3.mem == m;
    BulkCode(s3.mem, base, b, st.start, i + 1, st.key, st.start);
    var s4 := Exec1(s3, base, b, st.start, st.loop + 3, Inc(ESI), 1);
    ReachesTrans(s, s3, s4);
    t := Exec1(s4, base, b, st.start, st.loop + 4, Dec(ECX), 1);
    ReachesTrans(s, s4, t);
  }

  /** The byte loop runs to its exit and rewrites exactly the bytes of the bulk XOR. */
  lemma {:induction false} ByteLoop(s: State, base: u32, b: seq<byte>, st: Stub, back: Decoded, i: nat) returns (t: State)
    requires ByteShape(b, st, back) && i <= st.size && Spares(st, st.loop + 5 + back.len)
    requires Resident(s.mem, base, Bulk(b, st.start, i, st.key)) && s.eip == base + st.loop - 5
    requires s.regs[ESI] == base + st.start + i && s.regs[ECX] == st.size - i
    ensures Reaches(s, t) && t.eip == base + st.loop + 7
    ensures Resident(t.mem, base, Bulk(b, st.start, st.size, st.key)) && SameOutside(s.mem, t.mem, base, base + |b|)
    ensures t.regs == s.regs[ESI := base + st.start + st.size][ECX := 0]
    decreases st.size - i
  {
    hide Step, DecodesTo, Reaches, Bulk, Holds, Plus;
    BulkCode(s.mem, base, b, st.start, i, st.key, st.start);
    var s1 := TestEcx(s, base, b, st.start, st.loop - 5, E, 7);
    if i == st.size {
      t := s1;
    } else {
      var s2 := ByteBody(s1, base, b, st, back, i);
      ReachesTrans(s, s1, s2);
      BulkJump(s2.mem, base, b, st, i + 1, st.loop + 5 + back.len);
      var s3 := Exec1(s2, base, b, st.loop + 5 + back.len, st.loop + 5, back.inst, back.len);
      PlusExact(base + st.loop + 5, back.len + back.inst.rel);
      ReachesTrans(s, s2, s3);
      t := ByteLoop(s3, base, b, st, back, i + 1);
      ReachesTrans(s, s3, t);
    }
  }

  /* ---------- the dword loop ---------- */

  ghost predicate DwordShape(b: seq<byte>, s: Stub, back: Decoded)
  {
    && s.loop >= 21 && |s.key| == 4 && back.len >= 2 && s.size % 4 == 0 && s.size <= 0x7FFF_FFFF
    && s.start + s.size <= |b| && s.loop + 14 <= s.start
    && s.loop + 12 + back.len <= |b|
    && DecodesTo(b, s.loop - 5, CmpImm(ECX, 0), 3)
    && DecodesTo(b, s.loop - 2, Jcc(LE, 14), 2)
    && DecodesTo(b, s.loop, XorDwordAtEsi(s.key[0], s.key[1], s.key[2], s.key[3]), 6)
    && DecodesTo(b, s.loop + 6, AddImm(ESI, 4), 3)
    && DecodesTo(b, s.loop + 9, SubImm(ECX, 4), 3)
    && DecodesTo(b, s.loop + 12, back.inst, back.len)
    && back.inst.Jmp? && 12 + back.len + back.inst.rel == -5
  }

  /** Two consecutive one-byte rewrites. */
  lemma XorTwo(m: Mem, base: u32, b: seq<byte>, start: nat, i: nat, key: seq<byte>) returns (m': Mem)
    requires |key| == 4 && start + i + 2 <= |b| && Resident(m, base, Bulk(b, start, i, key))
    ensures var a := base + start + i;
            m' == m[a := Xor8(Read(m, a), key[i % 4])][a + 1 := Xor8(Read(m, a + 1), key[(i + 1) % 4])]
    ensures Resident(m', base, Bulk(b, start, i + 2, key))
    ensures SameOutside(m, m', base, base + |b|)
  {
    hide Bulk, SameOutside, Xor8;
    var m1 := XorOne(m, base, b, start, i, key);
    m' := XorOne(m1, base, b, start, i + 1, key);
    SameTrans(m, m1, m', base, base + |b|);
  }

  lemma ModFour(i: nat)
    requires i % 4 == 0
    ensures (i + 1) % 4 == 1 && (i + 2) % 4 == 2 && (i + 3) % 4 == 3 && (i + 2 + 1) % 4 == 3
  {
  }

  /** A dword XOR at an offset that is a multiple of four extends the bulk prefix by four bytes. */
  lemma XorFour(m: Mem, base: u32, b: seq<byte>, start: nat, i: nat, key: seq<byte>) returns (m': Mem)
    requires |key| == 4 && i % 4 == 0 && start + i + 4 <= |b| && Resident(m, base, Bulk(b, start, i, key))
    ensures m' == XorMem32(m, base + start + i, key[0], key[1], key[2], key[3])
    ensures Resident(m', base, Bulk(b, start, i + 4, key))
    ensures SameOutside(m, m', base, base + |b|)
  {
    var a := base + start + i;
    PlusExact(a, 1);
    PlusExact(a, 2);
    PlusExact(a, 3);
    ModFour(i);
    hide Bulk, SameOutside, Xor8, Plus, Holds;
    var m1 := XorTwo(m, base, b, start, i, key);
    assert Read(m1, a + 2) == Read(m, a + 2) && Read(m1, a + 3) == Read(m, a + 3);
    m' := XorTwo(m1, base, b, start, i + 2, key);
    SameTrans(m, m1, m', base, base + |b|);
  }

  lemma SameTrans(m: Mem, m': Mem, m'': Mem, lo: int, hi: int)
    requires SameOutside(m, m', lo, hi) && SameOutside(m', m'', lo, hi)
    ensures SameOutside(m, m'', lo, hi)
  {
    forall a: u32 | a < lo || a >= hi ensures Read(m'', a) == Read(m, a)
    {
      assert Read(m', a) == Read(m, a);
    }
  }

  lemma DwordBody(s: State, base: u32, b: seq<byte>, st: Stub, back: Decoded, i: nat) returns (t: State)
    requires DwordShape(b, st, back) && i + 4 <= st.size && i % 4 == 0
    requires Resident(s.mem, base, Bulk(b, st.start, i, st.key)) && s.eip == base + st.loop
    requires s.regs[ESI] == base + st.start + i && s.regs[ECX] == st.size - i
    ensures Reaches(s, t) && t.eip == base + st.loop + 12
    ensures Resident(t.mem, base, Bulk(b, st.start, i + 4, st.key)) && SameOutside(s.mem, t.mem, base, base + |b|)
    ensures t.regs == s.regs[ESI := base + st.start + i + 4][ECX := st.size - i - 4]
  {
    hide Step, DecodesTo, Reaches, Bulk, SameOutside, Holds, Plus, XorMem32, Read32;
    PlusExact(base + st.start + i, 4);
    PlusExact(st.size - i, -4);
    BulkCode(s.mem, base, b, st.start, i, st.key, st.start);
    var s3 := Exec1(s, base, b, st.start, st.loop, XorDwordAtEsi(st.key[0], st.key[1], st.key[2], st.key[3]), 6);
    var m := XorFour(s.mem, base, b, st.start, i, st.key);
    assert s3.mem == m;
    BulkCode(s3.mem, base, b, st.start, i + 4, st.key, st.start);
    var s4 := Exec1(s3, base, b, st.start, st.loop + 6, AddImm(ESI, 4), 3);
    ReachesTrans(s, s3, s4);
    t := Exec1(s4, base, b, st.start, st.loop + 9, SubImm(ECX, 4), 3);
    ReachesTrans(s, s4, t);
  }

  /** The dword loop runs to its exit and rewrites exactly the bytes of the bulk XOR. */
  lemma {:induction false} DwordLoop(s: State, base: u32, b: seq<byte>, st: Stub, back: Decoded, i: nat) returns (t: State)
    requires DwordShape(b, st, back) && i <= st.size && i % 4 == 0 && Spares(st, st.loop + 12 + back.len)
    requires Resident(s.mem, base, Bulk(b, st.start, i, st.key)) && s.eip == base + st.loop - 5
    requires s.regs[ESI] == base + st.start + i && s.regs[ECX] == st.size - i
    ensures Reaches(s, t) && t.eip == base + st.loop + 14
    ensures Resident(t.mem, base, Bulk(b, st.start, st.size, st.key)) && SameOutside(s.mem, t.mem, base, base + |b|)
    ensures t.regs == s.regs[ESI := base + st.start + st.size][ECX := 0]
    decreases st.size - i
  {
    hide Step, DecodesTo, Reaches, Bulk, Holds, Plus, SameOutside;
    BulkCode(s.mem, base, b, st.start, i, st.key, st.start);
    var s1 := TestEcx(s, base, b, st.start, st.loop - 5, LE, 14);
    if i == st.size {
      t := s1;
      SameRefl(s.mem, base, base + |b|);
    } else {
      var s2 := DwordBody(s1, base, b, st, back, i);
      ReachesTrans(s, s1, s2);
      BulkJump(s2.mem, base, b, st, i + 4, st.loop + 12 + back.len);
      var s3 := Exec1(s2, base, b, st.loop + 12 + back.len, st.loop + 12, back.inst, back.len);
      PlusExact(base + st.loop + 12, back.len + back.inst.rel);
      ReachesTrans(s, s2, s3);
      t := DwordLoop(s3, base, b, st, back, i + 4);
      ReachesTrans(s, s3, t);
      SameTrans(s.mem, s2.mem, t.mem, base, base + |b|);
    }
  }

  lemma SameRefl(m: Mem, lo: int, hi: int)
    ensures SameOutside(m, m, lo, hi)
  {
  }

  /* ---------- the repeating-key loop ---------- */

  ghost predicate RepeatShape(b: seq<byte>, s: Stub, back: Decoded)
  {
    && s.loop == s.call + 37 && s.key != [] && back.len >= 2
    && s.start + s.size <= |b| && s.loop + 8 <= s.start
    && s.loop + 6 + back.len <= |b|
    && DecodesTo(b, s.call + 24, CmpReg(EAX, EBX), 2)
    && DecodesTo(b, s.call + 26, Jcc(NE, 5), 2)
    && DecodesTo(b, s.call + 28, MovRegReg(EBX, ESP), 2)
    && DecodesTo(b, s.call + 30, AddImm(EBX, 4), 3)
    && DecodesTo(b, s.call + 33, CmpReg(ESI, ECX), 2)
    && DecodesTo(b, s.call + 35, Jcc(E, 8), 2)
    && DecodesTo(b, s.loop, LoadDlAtEbx, 2)
    && DecodesTo(b, s.loop + 2, XorDlAtEsi, 2)
    && DecodesTo(b, s.loop + 4, Inc(EBX), 1)
    && DecodesTo(b, s.loop + 5, Inc(ESI), 1)
    && DecodesTo(b, s.loop + 6, back.inst, back.len)
    && back.inst.Jmp? && 43 + back.len + back.inst.rel == 24
  }

  /** Where pass `i` reads, counted from the stack pointer at the call: the cursor starts `d` bytes
      above it and wraps to it whenever it stands `d + n` bytes above it. */
  function Cursor(d: nat, n: nat, i: nat): nat
    requires n > 0
  {
    if i < n then d + i else (i - n) % (d + n)
  }

  /** The cursor at the head of the loop, before the wrap test. */
  function Ahead(d: nat, n: nat, i: nat): nat
    requires n > 0
  {
    if i == 0 then d else Cursor(d, n, i - 1) + 1
  }

  lemma CursorWraps(d: nat, n: nat, i: nat)
    requires n > 0
    ensures Cursor(d, n, i) == if Ahead(d, n, i) == d + n then 0 else Ahead(d, n, i)
  {
    if i > n { ModNext(i - 1 - n, d + n); }
  }

  /** The stack bytes that the passes read are `key`, clear of the blob. */
  ghost predicate KeyRead(m: Mem, base: u32, b: seq<byte>, k: int, d: nat, n: nat, key: seq<byte>)
  {
    && 4 <= k && k + d < 0x1_0000_0000 && 0 < n && d + n < 0x1_0000_0000
    && forall j {:trigger key[j]} :: 0 <= j < |key| ==> ByteRead(m, base, b, k + Cursor(d, n, j), key[j])
  }

  ghost predicate ByteRead(m: Mem, base: u32, b: seq<byte>, a: int, v: byte)
  {
    0 <= a < 0xFFFF_FFFF && (a < base || base + |b| <= a) && Read(m, a) == v
  }

  lemma KeyKept(m: Mem, m': Mem, base: u32, b: seq<byte>, k: int, d: nat, n: nat, key: seq<byte>)
    requires KeyRead(m, base, b, k, d, n, key) && SameOutside(m, m', base, base + |b|)
    ensures KeyRead(m', base, b, k, d, n, key)
  {
    forall j | 0 <= j < |key| ensures ByteRead(m', base, b, k + Cursor(d, n, j), key[j])
    {
      assert ByteRead(m, base, b, k + Cursor(d, n, j), key[j]);
    }
  }

  lemma TestRegs(s: State, base: u32, b: seq<byte>, code: nat, at: nat, x: Reg, y: Reg, c: Cond, rel: nat) returns (t: State)
    requires At(s, base, b, code, at) && at + 4 <= code && (c == E || c == NE)
    requires DecodesTo(b, at, CmpReg(x, y), 2) && DecodesTo(b, at + 2, Jcc(c, rel), 2)
    requires base + at + 4 + rel < 0x1_0000_0000
    ensures Reaches(s, t) && t.regs == s.regs && t.mem == s.mem
    ensures t.eip == base + at + 4 + if (c == E) == (s.regs[x] == s.regs[y]) then rel else 0
  {
    hide Step, DecodesTo, Reaches, Holds, Plus;
    var s1 := Exec1(s, base, b, code, at, CmpReg(x, y), 2);
    t := Exec1(s1, base, b, code, at + 2, Jcc(c, rel), 2);
    ReachesTrans(s, s1, t);
    PlusExact(base + at + 2, 2 + rel);
  }

  lemma WrapTest(k: int, d: nat, n: nat, c: nat)
    requires 0 <= k && k + d < 0x1_0000_0000 && d + n < 0x1_0000_0000 && k + c < 0x1_0000_0000
    ensures Plus(k + d, n) == k + c <==> c == d + n
  {
    if k + d + n < 0x1_0000_0000 {
      PlusExact(k + d, n);
    } else {
      assert (k + d + n) % 0x1_0000_0000 == k + d + n - 0x1_0000_0000;
    }
  }

  /** The cursor wraps to the stack pointer plus four when it equals EAX. */
  lemma WrapCursor(s: State, base: u32, b: seq<byte>, st: Stub, back: Decoded, k: int, d: nat, n: nat, i: nat) returns (t: State)
    requires RepeatShape(b, st, back) && At(s, base, b, st.start, st.call + 24)
    requires 4 <= k && k + d < 0x1_0000_0000 && 0 < n && d + n < 0x1_0000_0000
    requires s.regs[EAX] == Plus(k + d, n) && s.regs[ESP] == k - 4 && s.regs[EBX] == k + Ahead(d, n, i)
    ensures Reaches(s, t) && t.eip == base + st.call + 33 && t.mem == s.mem
    ensures k + Cursor(d, n, i) < 0x1_0000_0000 && t.regs == s.regs[EBX := k + Cursor(d, n, i)]
  {
    hide Step, DecodesTo, Reaches, Holds, Plus, Cursor, Ahead;
    CursorWraps(d, n, i);
    WrapTest(k, d, n, Ahead(d, n, i));
    var s1 := TestRegs(s, base, b, st.start, st.call + 24, EAX, EBX, NE, 5);
    if Ahead(d, n, i) != d + n {
      t := s1;
    } else {
      var s2 := Exec1(s1, base, b, st.start, st.call + 28, MovRegReg(EBX, ESP), 2);
      ReachesTrans(s, s1, s2);
      t := Exec1(s2, base, b, st.start, st.call + 30, AddImm(EBX, 4), 3);
      ReachesTrans(s, s2, t);
      PlusExact(k - 4, 4);
    }
  }

  /** mov dl, [ebx] */
  lemma RepeatLoad(s: State, base: u32, b: seq<byte>, st: Stub, back: Decoded, v: byte) returns (t: State)
    requires RepeatShape(b, st, back) && At(s, base, b, st.start, st.loop) && Read(s.mem, s.regs[EBX]) == v
    ensures Reaches(s, t) && At(t, base, b, st.start, st.loop + 2) && t.mem == s.mem
    ensures t.regs == s.regs[EDX := t.regs[EDX]] && t.regs[EDX] % 256 == v
  {
    hide Step, DecodesTo, Reaches, Holds, Plus;
    t := Exec1(s, base, b, st.start, st.loop, LoadDlAtEbx, 2);
    assert t.regs[EDX] % 256 == v;
  }

  /** mov dl, [ebx]; xor [esi], dl */
  lemma RepeatXor(s: State, base: u32, b: seq<byte>, st: Stub, back: Decoded, i: nat) returns (t: State)
    requires RepeatShape(b, st, back) && i < st.size && Read(s.mem, s.regs[EBX]) == KeyByte(st.key, i)
    requires Resident(s.mem, base, Bulk(b, st.start, i, st.key)) && s.eip == base + st.loop
    requires s.regs[ESI] == base + st.start + i
    ensures Reaches(s, t) && t.eip == base + st.loop + 4 && t.regs == s.regs[EDX := t.regs[EDX]]
    ensures Resident(t.mem, base, Bulk(b, st.start, i + 1, st.key)) && SameOutside(s.mem, t.mem, base, base + |b|)
  {
    hide Step, DecodesTo, Reaches, Bulk, SameOutside, Holds, Plus, Xor8;
    BulkCode(s.mem, base, b, st.start, i, st.key, st.start);
    var s1 := RepeatLoad(s, base, b, st, back, KeyByte(st.key, i));
    t := Exec1(s1, base, b, st.start, st.loop + 2, XorDlAtEsi, 2);
    ReachesTrans(s, s1, t);
    var m := XorOne(s.mem, base, b, st.start, i, st.key);
    assert t.mem == m;
  }

  /** inc ebx; inc esi */
  lemma RepeatAdvance(s: State, base: u32, b: seq<byte>, st: Stub, back: Decoded) returns (t: State)
    requires RepeatShape(b, st, back) && At(s, base, b, st.start, st.loop + 4)
    requires s.regs[ESI] < 0xFFFF_FFFF && s.regs[EBX] < 0xFFFF_FFFF
    ensures Reaches(s, t) && t.eip == base + st.loop + 6 && t.mem == s.mem
    ensures t.regs == s.regs[EBX := s.regs[EBX] + 1][ESI := s.regs[ESI] + 1]
  {
    hide Step, DecodesTo, Reaches, Holds, Plus;
    PlusExact(s.regs[ESI], 1);
    PlusExact(s.regs[EBX], 1);
    var s1 := Exec1(s, base, b, st.start, st.loop + 4, Inc(EBX), 1);
    t := Exec1(s1, base, b, st.start, st.loop + 5, Inc(ESI), 1);
    ReachesTrans(s, s1, t);
  }

  lemma ModNext(i: nat, n: nat)
    requires n > 0
    ensures (i + 1) % n == if i % n + 1 == n then 0 else i % n + 1
  {
    var q, r := i / n, i % n;
    assert i == q * n + r;
    if r + 1 == n {
      assert i + 1 == (q + 1) * n + 0;
      ModUnique(i + 1, n, q + 1, 0);
    } else {
      ModUnique(i + 1, n, q, r + 1);
    }
  }

  lemma ModUnique(x: nat, n: nat, q: nat, r: nat)
    requires x == q * n + r && r < n
    ensures x % n == r
  {
    var d := x / n - q;
    assert x % n - r == -d * n;
    MulBounds(d, n);
  }

  lemma MulBounds(d: int, n: nat)
    ensures d >= 1 ==> d * n >= n
    ensures d <= -1 ==> d * n + n <= 0
  {
    if d >= 1 { assert d * n == n + (d - 1) * n; }
    if d <= -1 { assert d * n + n == (d + 1) * n; }
  }

  lemma OwnByte(key: seq<byte>, z: nat)
    requires z < |key|
    ensures KeyByte(key, z) == key[z]
  {
  }

  /** The state at the head of the repeating-key loop when `i` bytes are done. The stub's key is taken
      to be the whole sequence of bytes that the passes read. */
  ghost predicate RepeatHead(s: State, base: u32, b: seq<byte>, st: Stub, k: int, d: nat, n: nat, i: nat)
  {
    && st.key != [] && |st.key| == st.size && KeyRead(s.mem, base, b, k, d, n, st.key)
    && Resident(s.mem, base, Bulk(b, st.start, i, st.key)) && s.eip == base + st.call + 24
    && s.regs[EAX] == Plus(k + d, n) && s.regs[ESP] == k - 4 && s.regs[EBX] == k + Ahead(d, n, i)
    && s.regs[ECX] == base + st.start + st.size && s.regs[ESI] == base + st.start + i
  }

  /** From the head to the exit test's outcome. */
  lemma RepeatTest(s: State, base: u32, b: seq<byte>, st: Stub, back: Decoded, k: int, d: nat, n: nat, i: nat) returns (t: State)
    requires RepeatShape(b, st, back) && i <= st.size && RepeatHead(s, base, b, st, k, d, n, i)
    ensures Reaches(s, t) && t.mem == s.mem && t.eip == base + st.loop + if i == st.size then 8 else 0
    ensures k + Cursor(d, n, i) < 0x1_0000_0000 && t.regs == s.regs[EBX := k + Cursor(d, n, i)]
  {
    hide Step, DecodesTo, Reaches, Bulk, Holds, Plus, ByteRead, Cursor, Ahead;
    BulkCode(s.mem, base, b, st.start, i, st.key, st.start);
    var s1 := WrapCursor(s, base, b, st, back, k, d, n, i);
    t := TestRegs(s1, base, b, st.start, st.call + 33, ESI, ECX, E, 8);
    ReachesTrans(s, s1, t);
  }

  /** One pass, up to the back jump. */
  lemma RepeatPass(s: State, base: u32, b: seq<byte>, st: Stub, back: Decoded, k: int, d: nat, n: nat, i: nat) returns (t: State)
    requires RepeatShape(b, st, back) && i < st.size && RepeatHead(s, base, b, st, k, d, n, i)
    ensures Reaches(s, t) && t.eip == base + st.loop + 6 && RepeatHead(t.(eip := base + st.call + 24), base, b, st, k, d, n, i + 1)
    ensures t.regs[EBP] == s.regs[EBP] && SameOutside(s.mem, t.mem, base, base + |b|)
  {
    hide Step, DecodesTo, Reaches, Bulk, Holds, Plus, SameOutside, Cursor;
    assert ByteRead(s.mem, base, b, k + Cursor(d, n, i), st.key[i]);
    var s2 := RepeatTest(s, base, b, st, back, k, d, n, i);
    OwnByte(st.key, i);
    var u := RepeatXor(s2, base, b, st, back, i);
    ReachesTrans(s, s2, u);
    BulkCode(u.mem, base, b, st.start, i + 1, st.key, st.start);
    t := RepeatAdvance(u, base, b, st, back);
    ReachesTrans(s, u, t);
    KeyKept(s.mem, t.mem, base, b, k, d, n, st.key);
  }

  /** A spared back jump returns to the loop head. */
  lemma RepeatBack(s: State, base: u32, b: seq<byte>, st: Stub, back: Decoded, i: nat) returns (t: State)
    requires RepeatShape(b, st, back) && i <= st.size && Spares(st, st.loop + 6 + back.len)
    requires Resident(s.mem, base, Bulk(b, st.start, i, st.key)) && s.eip == base + st.loop + 6
    ensures Reaches(s, t) && t == s.(eip := base + st.call + 24)
  {
    hide Step, DecodesTo, Reaches, Bulk, Holds, Plus;
    BulkJump(s.mem, base, b, st, i, st.loop + 6 + back.len);
    t := Exec1(s, base, b, st.loop + 6 + back.len, st.loop + 6, back.inst, back.len);
    PlusExact(base + st.loop + 6, back.len + back.inst.rel);
  }

  /** The repeating-key loop runs to its exit and rewrites exactly the bytes of the bulk XOR with the
      bytes that its cursor meets. */
  lemma {:induction false} RepeatLoop(s: State, base: u32, b: seq<byte>, st: Stub, back: Decoded, k: int, d: nat, n: nat, i: nat)
    returns (t: State)
    requires RepeatShape(b, st, back) && i <= st.size && RepeatHead(s, base, b, st, k, d, n, i)
    requires Spares(st, st.loop + 6 + back.len)
    ensures Reaches(s, t) && t.eip == base + st.loop + 8
    ensures Resident(t.mem, base, Bulk(b, st.start, st.size, st.key)) && SameOutside(s.mem, t.mem, base, base + |b|)
    ensures t.regs[ESP] == s.regs[ESP] && t.regs[EBP] == s.regs[EBP]
    decreases st.size - i
  {
    hide Step, DecodesTo, Reaches, Bulk, Holds, Plus, SameOutside, KeyRead, Cursor, Ahead;
    if i == st.size {
      t := RepeatTest(s, base, b, st, back, k, d, n, i);
      SameRefl(s.mem, base, base + |b|);
    } else {
      var s3 := RepeatPass(s, base, b, st, back, k, d, n, i);
      var s4 := RepeatBack(s3, base, b, st, back, i + 1);
      ReachesTrans(s, s3, s4);
      t := RepeatLoop(s4, base, b, st, back, k, d, n, i + 1);
      ReachesTrans(s, s4, t);
      SameTrans(s.mem, s3.mem, t.mem, base, base + |b|);
    }
  }

  /* ---------- get-PC prologue ---------- */

  /** The `need` bytes below the stack pointer are a range of memory apart from the blob. */
  ghost predicate Room(sp: u32, need: nat, base: u32, n: nat)
  {
    need <= sp && (sp <= base || base + n <= sp - need)
  }

  /** Memory is unchanged outside the blob and the stack range `lo..hi`. */
  ghost predicate SameExcept(m: Mem, m': Mem, base: u32, n: nat, lo: int, hi: int)
  {
    forall a: u32 :: !(base <= a < base + n) && !(lo <= a < hi) ==> Read(m', a) == Read(m, a)
  }

  lemma SplitLe32(v: u32)
    ensures v == Le32(v % 0x100, v / 0x100 % 0x100, v / 0x1_0000 % 0x100, v / 0x100_0000)
  {
    assert v / 0x1_0000 == v / 0x100 / 0x100 && v / 0x100_0000 == v / 0x1_0000 / 0x100;
  }

  lemma PushWrites(s: State, v: u32)
    requires s.regs[ESP] >= 4
    ensures Push(s, v).regs == s.regs[ESP := s.regs[ESP] - 4]
    ensures Read32(Push(s, v).mem, s.regs[ESP] - 4) == v
    ensures SameOutside(s.mem, Push(s, v).mem, s.regs[ESP] - 4, s.regs[ESP] as int)
  {
    var sp := s.regs[ESP] - 4;
    PlusExact(s.regs[ESP], -4);
    PlusExact(sp, 1);
    PlusExact(sp, 2);
    PlusExact(sp, 3);
    SplitLe32(v);
    hide Le32, Plus;
  }

  lemma ResidentKept(m: Mem, m': Mem, base: u32, b: seq<byte>, lo: int, hi: int)
    requires Resident(m, base, b) && SameOutside(m, m', lo, hi) && (hi <= base || base + |b| <= lo)
    ensures Resident(m', base, b)
  {
    forall k | 0 <= k < |b| ensures Read(m', base + k) == b[k]
    {
      assert Read(m, base + k) == b[k];
    }
  }

  ghost predicate PrologueShape(b: seq<byte>, s: Stub, imm: byte)
  {
    && s.call + 16 <= |b| && s.start == s.call + 5 + imm && s.start <= |b|
    && DecodesTo(b, s.call, Call(0), 5)
    && DecodesTo(b, s.call + 5, LoadStackTop(ESI), 3)
    && DecodesTo(b, s.call + 8, AddImm(ESI, imm), 3)
  }

  /** call next; mov esi, [esp]; add esi, imm8 leaves the address of the rewritten range in ESI. */
  lemma GetPc(s: State, base: u32, b: seq<byte>, st: Stub, imm: byte) returns (t: State)
    requires PrologueShape(b, st, imm) && Resident(s.mem, base, b) && s.eip == base + st.call
    requires Room(s.regs[ESP], 4, base, |b|)
    ensures Reaches(s, t) && t.eip == base + st.call + 11 && Resident(t.mem, base, b)
    ensures t.regs == s.regs[ESP := s.regs[ESP] - 4][ESI := base + st.start]
    ensures SameOutside(s.mem, t.mem, s.regs[ESP] - 4, s.regs[ESP] as int)
  {
    hide Step, DecodesTo, Reaches, Holds, Plus, SameOutside, Read32, Push;
    PlusExact(base + st.call, 5);
    PlusExact(base + st.call + 5, imm);
    var s1 := Exec1(s, base, b, |b|, st.call, Call(0), 5);
    PushWrites(s, base + st.call + 5);
    ResidentKept(s.mem, s1.mem, base, b, s.regs[ESP] - 4, s.regs[ESP] as int);
    var s2 := Exec1(s1, base, b, |b|, st.call + 5, LoadStackTop(ESI), 3);
    ReachesTrans(s, s1, s2);
    t := Exec1(s2, base, b, |b|, st.call + 8, AddImm(ESI, imm), 3);
    ReachesTrans(s, s2, t);
  }
}
