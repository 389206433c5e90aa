/** The converse of StubSoundness: when the rewrite does not spare the stub's own back jump, the
    stub does not run as the loop that was recognized. */
module StubBreaks {
  import opened Common
  import opened X86
  import opened Stage
  import opened StubRun
  import opened StubSoundness

  /** The run gets to the back jump, which then goes somewhere else than the loop head. */
  ghost predicate Breaks(s: State, base: u32, st: Stub, u: State)
  {
    && Reaches(s, u) && u.eip == base + BackAt(st)
    && Step(u).Some? && Step(u).value.eip != base + HeadAt(st)
  }

  lemma SameByte(x: bv8, y: bv8)
    requires x as int == y as int
    ensures x == y
  {
    assert (x as int) as bv8 == x && (y as int) as bv8 == y;
  }

  lemma ByteRound(a: byte)
    ensures (a as bv8) as int == a
  {
    XorZero(a);
  }

  lemma XorSame(x: bv8, y: bv8, z: bv8, k: byte, l: byte)
    requires (x ^ y) as int == (x ^ z) as int && y as int == k && z as int == l
    ensures k == l
  {
    SameByte(x ^ y, x ^ z);
    assert x ^ (x ^ y) == y && x ^ (x ^ z) == z;
  }

  lemma XorDiffers(a: byte, k: byte, l: byte)
    requires k != l
    ensures Xor8(a, k) != Xor8(a, l)
  {
    ByteRound(k);
    ByteRound(l);
    var x, y, z := a as bv8, k as bv8, l as bv8;
    if (x ^ y) as int == (x ^ z) as int { XorSame(x, y, z, k, l); }
  }

  lemma XorChanges(a: byte, k: byte)
    requires k != 0
    ensures Xor8(a, k) != a
  {
    XorZero(a);
    XorDiffers(a, k, 0);
  }

  lemma BulkAt(b: seq<byte>, start: nat, size: nat, key: seq<byte>, z: nat)
    requires key != [] && z < size && start + size <= |b|
    ensures Bulk(b, start, size, key)[start + z] == Xor8(b[start + z], KeyByte(key, z))
  {
    hide Xor8;
  }

  /** Different bytes met by the loop leave different bytes behind. */
  lemma BulkDiffers(b: seq<byte>, start: nat, size: nat, key: seq<byte>, other: seq<byte>, z: nat)
    requires key != [] && other != [] && z < size && start + size <= |b| && KeyByte(key, z) != KeyByte(other, z)
    ensures Bulk(b, start, size, key)[start + z] != Bulk(b, start, size, other)[start + z]
  {
    hide Xor8, KeyByte, Bulk;
    BulkAt(b, start, size, key, z);
    BulkAt(b, start, size, other, z);
    XorDiffers(b[start + z], KeyByte(key, z), KeyByte(other, z));
  }

  /** A jump longer than two bytes is `E9 rel32`. */
  lemma LongJump(b: seq<byte>, at: nat, back: Decoded)
    requires DecodesTo(b, at, back.inst, back.len) && back.inst.Jmp? && back.len > 2
    ensures back.len == 5 && at + 5 <= |b| && b[at] == 0xE9 && back.inst.rel == Signed32(Imm32(b, at + 1))
  {
  }

  lemma NearDecoding(b: seq<byte>, at: nat)
    requires at + 5 <= |b| && b[at] == 0xE9
    ensures DecodesTo(b, at, Jmp(Signed32(Imm32(b, at + 1))), 5)
  {
  }

  lemma Le32Injective(a0: byte, a1: byte, a2: byte, a3: byte, b0: byte, b1: byte, b2: byte, b3: byte)
    requires Le32(a0, a1, a2, a3) == Le32(b0, b1, b2, b3)
    ensures a0 == b0 && a1 == b1 && a2 == b2 && a3 == b3
  {
  }

  lemma ModDiffer(a: int, b: int, m: int)
    requires 0 < m && a != b && -m < a - b < m
    ensures a % m != b % m
  {
    var q := a / m - b / m;
    assert a - b == q * m + (a % m - b % m);
    if q >= 1 { assert q * m >= m; }
    if q <= -1 { assert q * m + m <= 0; }
  }

  /** Different displacements reach different addresses. */
  lemma TargetsDiffer(p: int, v: u32, w: u32)
    requires v != w
    ensures Plus(p, 5 + Signed32(v)) != Plus(p, 5 + Signed32(w))
  {
    ModDiffer(p + 5 + Signed32(v), p + 5 + Signed32(w), 0x1_0000_0000);
  }

  /** After `i` bytes of the rewrite, one of which fell on the jump, the jump misses the loop head. */
  lemma JumpBroken(u: State, base: u32, b: seq<byte>, st: Stub, back: Decoded, i: nat, z: nat)
    requires st.key != [] && DecodesTo(b, BackAt(st), back.inst, back.len) && back.inst.Jmp?
    requires BackAt(st) + back.len + back.inst.rel == HeadAt(st) && 0 <= HeadAt(st) <= |b| && BackAt(st) + 2 <= st.start
    requires z < i && z < BackAt(st) + back.len - st.start && KeyByte(st.key, z) != 0
    requires Resident(u.mem, base, Bulk(b, st.start, i, st.key)) && u.eip == base + BackAt(st)
    ensures Step(u).Some? && Step(u).value.eip != base + HeadAt(st)
  {
    hide DecodesTo, Bulk, Step, Plus, Imm32, Signed32, Holds, KeyByte;
    var at, c := BackAt(st), Bulk(b, st.start, i, st.key);
    LongJump(b, at, back);
    BrokenBytes(b, st, i, z, at);
    DifferentImm(b, c, at + 1, st.start + z);
    NearStep(u, base, c, at);
    TargetsDiffer(base + at, Imm32(c, at + 1), Imm32(b, at + 1));
    PlusExact(base + at, 5 + back.inst.rel);
  }

  /** Executing a resident near jump. */
  lemma NearStep(u: State, base: u32, c: seq<byte>, at: nat)
    requires at + 5 <= |c| && c[at] == 0xE9 && Resident(u.mem, base, c) && u.eip == base + at
    ensures Step(u).Some? && Step(u).value.eip == Plus(base + at, 5 + Signed32(Imm32(c, at + 1)))
  {
    hide Step, DecodeAt, Plus, Imm32, Signed32, Push;
    NearDecoding(c, at);
    StepResident(u, base, c, at);
  }

  lemma BrokenBytes(b: seq<byte>, st: Stub, i: nat, z: nat, at: nat)
    requires st.key != [] && z < i && at + 2 <= st.start && st.start + z < |b| && KeyByte(st.key, z) != 0
    ensures var c := Bulk(b, st.start, i, st.key); c[at] == b[at] && c[st.start + z] != b[st.start + z]
  {
    XorChanges(b[st.start + z], KeyByte(st.key, z));
    hide Xor8;
  }

  lemma DifferentImm(b: seq<byte>, c: seq<byte>, at: nat, k: nat)
    requires |b| == |c| && at <= k < at + 4 <= |b| && b[k] != c[k]
    ensures Imm32(c, at) != Imm32(b, at)
  {
    if Imm32(c, at) == Imm32(b, at) {
      Le32Injective(c[at], c[at + 1], c[at + 2], c[at + 3], b[at], b[at + 1], b[at + 2], b[at + 3]);
    }
  }

  /** The first byte of the jump that the rewrite changes. */
  lemma FirstHit(st: Stub, end: nat) returns (z: nat)
    requires st.key != [] && !Spares(st, end)
    ensures z < st.size && z < end - st.start && KeyByte(st.key, z) != 0
    ensures forall j :: 0 <= j < z ==> KeyByte(st.key, j) == 0
  {
    var w :| 0 <= w < end - st.start && w < st.size && KeyByte(st.key, w) != 0;
    z := 0;
    while KeyByte(st.key, z) == 0
      invariant z <= w && forall j :: 0 <= j < z ==> KeyByte(st.key, j) == 0
      decreases w - z
    {
      z := z + 1;
    }
  }

  /** A byte stub breaks at its first pass. */
  lemma ByteBreaks(s: State, base: u32, b: seq<byte>, st: Stub) returns (u: State)
    requires Accepted(b, st) && st.kind.XorByte? && !Spares(st, BackEnd(b, st))
    requires Resident(s.mem, base, b) && s.eip == base + st.call && Room(s.regs[ESP], 4, base, |b|)
    ensures Breaks(s, base, st, u)
  {
    hide Accepted, BackEnd, PrologueShape, DecodesTo, Step, Exec, Reaches, SameOutside, Bulk, Holds, Plus;
    PlainFacts(b, st);
    var back := ByteShapeOf(b, st);
    var z := FirstHit(st, BackAt(st) + back.len);
    var s2 := PlainEntry(s, base, b, st);
    BulkZero(b, st.start, st.key);
    BulkCode(s2.mem, base, b, st.start, 0, st.key, st.start);
    var s3 := TestEcx(s2, base, b, st.start, st.loop - 5, E, 7);
    u := ByteBody(s3, base, b, st, back, 0);
    assert z % 1 == 0 && KeyByte(st.key, 0) == KeyByte(st.key, z);
    JumpBroken(u, base, b, st, back, 1, 0);
    ReachesTrans(s2, s3, u);
    ReachesTrans(s, s2, u);
  }

  /** What entering an accepted byte or dword stub needs to know about it. */
  lemma PlainFacts(b: seq<byte>, st: Stub)
    requires Accepted(b, st) && !st.kind.XorRepeatingKey?
    ensures st.call + 21 == st.loop && st.call + 16 <= |b| && st.start + st.size <= |b| && 0 < st.size <= 0x7FFF_FFFF && st.key != []
    ensures PrologueShape(b, st, b[st.call + 10]) && DecodesTo(b, st.call + 11, MovRegImm(ECX, st.size), 5)
    ensures st.kind.XorDword? ==> st.size % 4 == 0 && |st.key| == 4
  {
    hide DecodesTo, KeySize, PushedKey, Exact;
    PrologueOf(b, st);
    SizeOf(b, st);
    HeaderFacts(b, st);
  }

  /** A dword stub breaks at its first pass, which rewrites four bytes. */
  lemma DwordBreaks(s: State, base: u32, b: seq<byte>, st: Stub) returns (u: State)
    requires Accepted(b, st) && st.kind.XorDword? && !Spares(st, BackEnd(b, st))
    requires Resident(s.mem, base, b) && s.eip == base + st.call && Room(s.regs[ESP], 4, base, |b|)
    ensures Breaks(s, base, st, u)
  {
    hide Accepted, BackEnd, PrologueShape, DecodesTo, Step, Exec, Reaches, SameOutside, Bulk, Holds, Plus;
    PlainFacts(b, st);
    var back := DwordShapeOf(b, st);
    var z := FirstHit(st, BackAt(st) + back.len);
    var s2 := PlainEntry(s, base, b, st);
    BulkZero(b, st.start, st.key);
    BulkCode(s2.mem, base, b, st.start, 0, st.key, st.start);
    var s3 := TestEcx(s2, base, b, st.start, st.loop - 5, LE, 14);
    u := DwordBody(s3, base, b, st, back, 0);
    ShortReach(b, BackAt(st), back);
    JumpBroken(u, base, b, st, back, 4, z);
    ReachesTrans(s2, s3, u);
    ReachesTrans(s, s2, u);
  }

  lemma ShortReach(b: seq<byte>, at: nat, back: Decoded)
    requires DecodesTo(b, at, back.inst, back.len) && back.inst.Jmp?
    ensures back.len <= 5
  {
  }

  /** A repeating-key loop runs whole passes until one rewrites the jump. */
  lemma {:induction false} RepeatBreaksFrom(s: State, base: u32, b: seq<byte>, st: Stub, back: Decoded, k: int, d: nat, n: nat, i: nat, z: nat)
    returns (u: State)
    requires RepeatShape(b, st, back) && st.kind.XorRepeatingKey? && i <= z < st.size && RepeatHead(s, base, b, st, k, d, n, i)
    requires z < st.loop + 6 + back.len - st.start && KeyByte(st.key, z) != 0 && forall j :: 0 <= j < z ==> KeyByte(st.key, j) == 0
    ensures Breaks(s, base, st, u)
    decreases z - i
  {
    hide DecodesTo, Step, Exec, Reaches, SameOutside, Bulk, Holds, Plus, KeyRead, Cursor, Ahead;
    var t := RepeatPass(s, base, b, st, back, k, d, n, i);
    if i == z {
      u := t;
      JumpBroken(u, base, b, st, back, i + 1, z);
    } else {
      var t' := RepeatBackSoFar(t, base, b, st, back, i + 1);
      u := RepeatBreaksFrom(t', base, b, st, back, k, d, n, i + 1, z);
      ReachesTrans(s, t, t');
      ReachesTrans(s, t', u);
    }
  }

  /** While only zero key bytes have fallen on the jump, it still returns to the loop head. */
  lemma RepeatBackSoFar(s: State, base: u32, b: seq<byte>, st: Stub, back: Decoded, i: nat) returns (t: State)
    requires RepeatShape(b, st, back) && i <= st.size && forall j :: 0 <= j < i ==> KeyByte(st.key, j) == 0
    requires Resident(s.mem, base, Bulk(b, st.start, i, st.key)) && s.eip == base + st.loop + 6
    ensures Reaches(s, t) && t == s.(eip := base + st.call + 24)
  {
    hide DecodesTo, Bulk, Reaches, Holds, Step;
    var done := st.(size := i);
    t := RepeatBack(s, base, b, done, back, i);
  }

  /** A repeating-key stub breaks at the first pass that changes its jump. */
  lemma RepeatBreaks(s: State, base: u32, b: seq<byte>, st: Stub, d: nat, key: seq<byte>) returns (u: State)
    requires Accepted(b, st) && st.kind.XorRepeatingKey? && |b| <= 4096 && |key| == st.size && key != []
    requires !Spares(st.(key := key), BackEnd(b, st))
    requires Resident(s.mem, base, b) && s.eip == base + st.call && Room(s.regs[ESP], 4, base, |b|)
    requires s.regs[EBX] == s.regs[ESP] + d && KeyRead(s.mem, base, b, s.regs[ESP] as int, d, |st.key|, key)
    ensures Breaks(s, base, st, u)
  {
    hide Accepted, BackEnd, PrologueShape, SetupShape, DecodesTo, Step, Exec, Reaches, SameOutside, Bulk, Holds, Plus, KeyRead, RepeatHead,
      RepeatShape;
    RepeatFacts(b, st);
    var back := RepeatShapeOf(b, st);
    SameShape(b, st, back, key);
    var read := st.(key := key);
    var z := FirstHit(read, BackAt(st) + back.len);
    var s1 := RepeatEntry(s, base, b, st, d, key);
    u := RepeatBreaksFrom(s1, base, b, read, back, s.regs[ESP] as int, d, |st.key|, 0, z);
    ReachesTrans(s, s1, u);
  }
}
