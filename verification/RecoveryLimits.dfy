/** Accepted stages whose execution differs from the bulk rewrite, as concrete blobs: the checks of
    recovery_stage_validation imply neither part of `Recovery.Faithful`, and both can hold. */
module RecoveryLimits {
  import opened Common
  import opened X86
  import opened Stage
  import opened StubRun
  import opened StubSoundness
  import opened RecoveryPath
  import opened KeyPath
  import opened Recovery
  import opened RecoveryScan

  /* ---------- a back jump inside the rewritten range ---------- */

  /** No run from `s` ever has its instruction pointer at `x`. */
  ghost predicate Avoids(s: State, x: int) { forall t :: Reaches(s, t) ==> t.eip != x }

  lemma AvoidStep(s: State, u: State, x: int)
    requires Step(s) == Some(u) && s.eip != x && Avoids(u, x)
    ensures Avoids(s, x)
  {
    hide Step;
    forall t | Reaches(s, t) ensures t.eip != x
    {
      var n: nat :| Run(s, n) == Some(t);
      if n > 0 { assert Run(u, n - 1) == Some(t); assert Reaches(u, t); }
    }
  }

  lemma AvoidLoop(s: State, x: int)
    requires Step(s) == Some(s) && s.eip != x
    ensures Avoids(s, x)
  {
    hide Step;
    forall t | Reaches(s, t) ensures t.eip != x
    {
      var n: nat :| Run(s, n) == Some(t);
      var k: nat := n;
      while k > 0
        invariant k <= n && Run(s, k) == Some(t)
      {
        assert Run(s, k) == Run(s, k - 1);
        k := k - 1;
      }
      assert Run(s, 0) == Some(s);
    }
  }

  /** A dword stub at offset 0 whose back edge is a five-byte near jump. The stub is taken to end
      two bytes into that jump, at offset 35, and the rewritten range starts there. Offset 272
      holds a jump to itself. */
  ghost predicate NearBlob(b: seq<byte>, key: seq<byte>)
  {
    && |key| == 4 && |b| == 274 && b[0..10] == GET_PC && b[10] == 30 && b[5..10] == [0x8B, 0x34, 0x24, 0x83, 0xC6]
    && b[11..16] == [0xB9, 4, 0, 0, 0] && b[16..19] == [0x83, 0xF9, 0] && b[19..21] == [0x7E, 14]
    && b[21..23] == [0x81, 0x36] && b[23..27] == key
    && b[27..33] == [0x83, 0xC6, 4, 0x83, 0xE9, 4] && b[33..38] == [0xE9, 0xEA, 0xFF, 0xFF, 0xFF]
    && b[272..274] == [0xEB, 0xFE]
  }

  function Near(key: seq<byte>): Stub { Stub(XorDword, 0, 21, 35, 4, key) }

  /** A key whose first three bytes fall on the jump. */
  const STRAY: seq<byte> := [0xFF, 0xFF, 0xFF, 0]

  lemma NearExists(key: seq<byte>) returns (b: seq<byte>)
    requires |key| == 4
    ensures NearBlob(b, key)
  {
    var p: seq<byte> := GET_PC + [30] + [0xB9, 4, 0, 0, 0] + [0x83, 0xF9, 0] + [0x7E, 14];
    var q: seq<byte> := [0x81, 0x36] + key + [0x83, 0xC6, 4, 0x83, 0xE9, 4] + [0xE9, 0xEA, 0xFF, 0xFF, 0xFF];
    var fill: seq<byte> := seq(234, _ => 0x90 as byte);
    b := p + q + fill + [0xEB, 0xFE];
    assert b[0..21] == p && b[21..38] == q;
    assert b[0..10] == p[0..10] && b[11..16] == p[11..16] && b[16..19] == p[16..19] && b[19..21] == p[19..21];
    assert b[5..10] == p[5..10];
    assert b[21..23] == q[0..2] && b[23..27] == q[2..6] && b[27..33] == q[6..12] && b[33..38] == q[12..17];
  }

  lemma NearDecodes()
    ensures DecodesTo([0x7E, 14], 0, Jcc(LE, 14), 2)
    ensures DecodesTo([0xE9, 0xEA, 0xFF, 0xFF, 0xFF], 0, Jmp(-22), 5)
    ensures DecodesTo([0xE9, 0xEA, 0, 0, 0], 0, Jmp(234), 5)
    ensures DecodesTo([0xEB, 0xFE], 0, Jmp(-2), 2)
    ensures DecodesTo([0xB9, 4, 0, 0, 0], 0, MovRegImm(ECX, 4), 5)
  {
  }

  lemma NearShape(b: seq<byte>, key: seq<byte>)
    requires NearBlob(b, key)
    ensures DecodesTo(b, 0, Call(0), 5) && DecodesTo(b, 19, Jcc(LE, 14), 2) && DecodesTo(b, 33, Jmp(-22), 5)
  {
    hide DecodesTo;
    NearDecodes();
    GetPcDecodes();
    Fits(b, 0, GET_PC, 0, Call(0), 5);
    Fits(b, 19, [0x7E, 14], 0, Jcc(LE, 14), 2);
    Fits(b, 33, [0xE9, 0xEA, 0xFF, 0xFF, 0xFF], 0, Jmp(-22), 5);
  }

  /** The checks accept the stage with every key, and it is faithful exactly when the three key bytes
      that fall on the jump are zero. */
  lemma NearAccepted(b: seq<byte>, key: seq<byte>)
    requires NearBlob(b, key)
    ensures StageFits(b, 0, Near(key))
    ensures Faithful(b, 0, Near(key)) <==> key[0] == 0 && key[1] == 0 && key[2] == 0
  {
    hide Accepted, DecodeAt, NearBlob, PathTo, Spares, Next, BackEnd;
    NearRecognized(b, key);
    NearEnd(b, key);
    NearSpares(key);
  }

  lemma NearEnd(b: seq<byte>, key: seq<byte>)
    requires NearBlob(b, key)
    ensures |key| == 4 && BackJump(b, Near(key)) && BackEnd(b, Near(key)) == 38
  {
    hide DecodeAt;
    NearShape(b, key);
  }

  lemma NearSpares(key: seq<byte>)
    requires |key| == 4
    ensures Spares(Near(key), 38) <==> key[0] == 0 && key[1] == 0 && key[2] == 0
  {
    assert KeyByte(key, 0) == key[0] && KeyByte(key, 1) == key[1] && KeyByte(key, 2) == key[2];
  }

  lemma NearRecognized(b: seq<byte>, key: seq<byte>)
    requires NearBlob(b, key)
    ensures StageFits(b, 0, Near(key))
  {
    hide DecodeAt;
    NearShape(b, key);
    var t := b[11..16];
    assert t[0] == b[11] && t[1] == b[12] && t[2] == b[13] && t[3] == b[14] && t[4] == b[15];
    assert b[11..12] == t[0..1];
  }

  /** The scan proposes exactly this stub. */
  lemma NearFound(b: seq<byte>, key: seq<byte>)
    requires NearBlob(b, key)
    ensures Candidate(b, 21) == Some(Near(key))
  {
    var t := b[11..16];
    assert t[0] == b[11] && t[1] == b[12] && t[2] == b[13] && t[3] == b[14] && t[4] == b[15];
    var u := b[27..33];
    assert u[0] == b[27] && u[1] == b[28] && u[2] == b[29];
    assert b[21..23][0] == b[21] && b[21..23][1] == b[22];
    assert HeaderAt(b, 0) && SizeDirect(b, 0) && Imm32(b, 12) == 4;
    assert FindHeader(b, 21, 0) == Some((0, 35, 4));
  }

  /** The blob after one pass of the loop: the jump's displacement has been rewritten. */
  lemma NearBytes(b: seq<byte>)
    requires NearBlob(b, STRAY)
    ensures var c := Bulk(b, 35, 4, Near(STRAY).key);
            c[33..38] == [0xE9, 0xEA, 0, 0, 0] && c[27..33] == b[27..33] && c[272..274] == b[272..274]
  {
    var c := Bulk(b, 35, 4, Near(STRAY).key);
    var j := b[33..38];
    assert j[0] == b[33] && j[1] == b[34] && j[2] == b[35] && j[3] == b[36] && j[4] == b[37];
    assert c[33] == 0xE9 && c[34] == 0xEA && c[35] == 0 && c[36] == 0 && c[37] == 0;
  }

  lemma NearRewritten(b: seq<byte>) returns (c: seq<byte>)
    requires NearBlob(b, STRAY)
    ensures c == Bulk(b, 35, 4, Near(STRAY).key) && |c| == 274
    ensures DecodesTo(c, 27, AddImm(ESI, 4), 3) && DecodesTo(c, 30, SubImm(ECX, 4), 3)
    ensures DecodesTo(c, 33, Jmp(234), 5) && DecodesTo(c, 272, Jmp(-2), 2)
  {
    hide DecodesTo, Bulk;
    c := Bulk(b, 35, 4, Near(STRAY).key);
    NearBytes(b);
    NearDecodes();
    DwordDecodes(0, 0, 0, 0);
    Fits(c, 27, [0x83, 0xC6, 4, 0x83, 0xE9, 4], 0, AddImm(ESI, 4), 3);
    Fits(c, 27, [0x83, 0xC6, 4, 0x83, 0xE9, 4], 3, SubImm(ECX, 4), 3);
    Fits(c, 33, [0xE9, 0xEA, 0, 0, 0], 0, Jmp(234), 5);
    Fits(c, 272, [0xEB, 0xFE], 0, Jmp(-2), 2);
  }

  /** The rewritten jump lands on the jump to itself. */
  lemma NearTail(s: State, base: u32, c: seq<byte>)
    requires Resident(s.mem, base, c) && |c| == 274 && s.eip == base + 33
    requires DecodesTo(c, 33, Jmp(234), 5) && DecodesTo(c, 272, Jmp(-2), 2)
    ensures Avoids(s, base + 35)
  {
    hide DecodesTo, Step, Reaches, Holds, Plus, Avoids;
    PlusExact(base + 33, 239);
    PlusExact(base + 272, 0);
    var t := Exec1(s, base, c, |c|, 33, Jmp(234), 5);
    var u := Exec1(t, base, c, |c|, 272, Jmp(-2), 2);
    AvoidLoop(t, base + 35);
    AvoidStep(s, t, base + 35);
  }

  lemma NearBody(s: State, base: u32, b: seq<byte>)
    requires NearBlob(b, STRAY) && Resident(s.mem, base, b) && s.eip == base + 21
    requires s.regs[ESI] == base + 35 && s.regs[ECX] == 4
    ensures Avoids(s, base + 35)
  {
    hide DecodesTo, Step, Reaches, Holds, Plus, Avoids, Bulk, XorMem32, SameOutside;
    DwordDecodes(0xFF, 0xFF, 0xFF, 0);
    assert b[21..27] == [0x81, 0x36, 0xFF, 0xFF, 0xFF, 0];
    Fits(b, 21, [0x81, 0x36, 0xFF, 0xFF, 0xFF, 0], 0, XorDwordAtEsi(0xFF, 0xFF, 0xFF, 0), 6);
    BulkZero(b, 35, Near(STRAY).key);
    var c := NearRewritten(b);
    var m := XorFour(s.mem, base, b, 35, 0, Near(STRAY).key);
    var t := Exec1(s, base, b, |b|, 21, XorDwordAtEsi(0xFF, 0xFF, 0xFF, 0), 6);
    assert t.mem == m;
    var u := Exec1(t, base, c, |c|, 27, AddImm(ESI, 4), 3);
    var v := Exec1(u, base, c, |c|, 30, SubImm(ECX, 4), 3);
    NearTail(v, base, c);
    AvoidStep(u, v, base + 35);
    AvoidStep(t, u, base + 35);
    AvoidStep(s, t, base + 35);
  }

  lemma NearTest(s: State, base: u32, b: seq<byte>)
    requires NearBlob(b, STRAY) && Resident(s.mem, base, b) && s.eip == base + 16
    requires s.regs[ESI] == base + 35 && s.regs[ECX] == 4
    ensures Avoids(s, base + 35)
  {
    hide DecodesTo, Step, Reaches, Holds, Plus, Avoids, NearBlob;
    NearShape(b, STRAY);
    ByteDecodes(0);
    assert Exact(b, 16, [0x83, 0xF9, 0]) by { NearCompare(b); }
    Fits(b, 16, [0x83, 0xF9, 0], 0, CmpImm(ECX, 0), 3);
    NearLength(b);
    var t := Exec1(s, base, b, |b|, 16, CmpImm(ECX, 0), 3);
    var u := Exec1(t, base, b, |b|, 19, Jcc(LE, 14), 2);
    NearBody(u, base, b);
    AvoidStep(t, u, base + 35);
    AvoidStep(s, t, base + 35);
  }

  lemma NearLength(b: seq<byte>)
    requires NearBlob(b, STRAY)
    ensures |b| == 274
  {
  }

  lemma NearCompare(b: seq<byte>)
    requires NearBlob(b, STRAY)
    ensures Exact(b, 16, [0x83, 0xF9, 0])
  {
  }

  /** Wherever it is loaded, the accepted stub never reaches the offset where recovery continues. */
  lemma NearNeverExits(s: State, base: u32, b: seq<byte>)
    requires NearBlob(b, STRAY) && Ready(s, base, b, 0)
    ensures Avoids(s, base + ExitAt(Near(STRAY)))
  {
    hide DecodesTo, Step, Reaches, Holds, Plus, Avoids, SameOutside, Push, Read32;
    NearShape(b, STRAY);
    NearDecodes();
    GetPcDecodes();
    AddEsiDecodes(30);
    assert b[8..10] == b[0..10][8..10] == [0x83, 0xC6];
    assert b[8..11] == b[8..10] + [30];
    Fits(b, 0, GET_PC, 5, LoadStackTop(ESI), 3);
    Fits(b, 8, [0x83, 0xC6, 30], 0, AddImm(ESI, 30), 3);
    Fits(b, 11, [0xB9, 4, 0, 0, 0], 0, MovRegImm(ECX, 4), 5);
    NearEntry(s, base, b);
  }

  lemma NearEntry(s: State, base: u32, b: seq<byte>)
    requires NearBlob(b, STRAY) && Ready(s, base, b, 0)
    requires DecodesTo(b, 0, Call(0), 5) && DecodesTo(b, 5, LoadStackTop(ESI), 3)
    requires DecodesTo(b, 8, AddImm(ESI, 30), 3) && DecodesTo(b, 11, MovRegImm(ECX, 4), 5)
    ensures Avoids(s, base + ExitAt(Near(STRAY)))
  {
    hide DecodesTo, Step, Reaches, Holds, Plus, Avoids, SameOutside, Push, Read32, NearBlob;
    NearLength(b);
    PlusExact(base, 5);
    PlusExact(base + 5, 30);
    PushWrites(s, base + 5);
    var s1 := Exec1(s, base, b, |b|, 0, Call(0), 5);
    ResidentKept(s.mem, s1.mem, base, b, s.regs[ESP] - 4, s.regs[ESP] as int);
    var s2 := Exec1(s1, base, b, |b|, 5, LoadStackTop(ESI), 3);
    var s3 := Exec1(s2, base, b, |b|, 8, AddImm(ESI, 30), 3);
    var s4 := Exec1(s3, base, b, |b|, 11, MovRegImm(ECX, 4), 5);
    NearTest(s4, base, b);
    AvoidStep(s3, s4, base + 35);
    AvoidStep(s2, s3, base + 35);
    AvoidStep(s1, s2, base + 35);
    AvoidStep(s, s1, base + 35);
  }

  /* ---------- key bytes that are not pushes ---------- */

  /** A repeating-key stub at offset 8 after `push 0x68` and four one-byte no-ops. Read backwards,
      byte 1 looks like the opcode of a push whose immediate is the four no-ops. */
  ghost predicate KeyBlob(b: seq<byte>)
  {
    && |b| == 58 && b[0..2] == [0x6A, 0x68] && b[2..6] == [0x90, 0x90, 0x90, 0x90] && b[6..8] == [0x89, 0xE3]
    && b[8..18] == GET_PC && b[13..18] == [0x8B, 0x34, 0x24, 0x83, 0xC6] && b[18] == 40
    && b[19..23] == [0x89, 0xF1, 0x81, 0xC1] && b[23..27] == [4, 0, 0, 0]
    && b[27..31] == [0x89, 0xD8, 0x83, 0xC0] && b[31] == 4 && b[32..43] == WRAP && b[43..45] == [0x74, 8]
    && b[45..51] == BODY && b[51..53] == [0xEB, 0xEB]
  }

  function Misread(): Stub { Stub(XorRepeatingKey, 8, 45, 53, 4, [0x90, 0x90, 0x90, 0x90]) }

  lemma KeyBlobExists() returns (b: seq<byte>)
    ensures KeyBlob(b)
  {
    var p: seq<byte> := [0x6A, 0x68] + [0x90, 0x90, 0x90, 0x90] + [0x89, 0xE3];
    var q: seq<byte> := GET_PC + [40] + [0x89, 0xF1, 0x81, 0xC1] + [4, 0, 0, 0];
    var r: seq<byte> := [0x89, 0xD8, 0x83, 0xC0] + [4] + WRAP + [0x74, 8];
    var t: seq<byte> := BODY + [0xEB, 0xEB] + [0, 0, 0, 0, 0];
    b := p + q + r + t;
    assert b[0..8] == p && b[8..27] == q && b[27..45] == r && b[45..58] == t;
    assert b[0..2] == p[0..2] && b[2..6] == p[2..6] && b[6..8] == p[6..8];
    assert b[8..18] == q[0..10] && b[13..18] == q[5..10] && b[18] == q[10] && b[19..23] == q[11..15] && b[23..27] == q[15..19];
    assert b[27..31] == r[0..4] && b[31] == r[4] && b[32..43] == r[5..16] && b[43..45] == r[16..18];
    assert b[45..51] == t[0..6] && b[51..53] == t[6..8];
  }

  lemma KeyBlobDecodes()
    ensures DecodesTo([0x6A, 0x68], 0, PushImm(0x68), 2)
    ensures DecodesTo([0x90, 0x90, 0x90, 0x90], 0, Nop, 1) && DecodesTo([0x90, 0x90, 0x90, 0x90], 1, Nop, 1)
    ensures DecodesTo([0x90, 0x90, 0x90, 0x90], 2, Nop, 1) && DecodesTo([0x90, 0x90, 0x90, 0x90], 3, Nop, 1)
    ensures DecodesTo([0x74, 8], 0, Jcc(E, 8), 2) && DecodesTo([0xEB, 0xEB], 0, Jmp(-21), 2)
  {
  }

  /** The instructions really on the path: push, four no-ops, mov ebx, esp, call. */
  lemma MisreadPath(b: seq<byte>)
    requires KeyBlob(b)
    ensures DecodesTo(b, 0, PushImm(0x68), 2) && DecodesTo(b, 2, Nop, 1) && DecodesTo(b, 3, Nop, 1)
    ensures DecodesTo(b, 4, Nop, 1) && DecodesTo(b, 5, Nop, 1) && DecodesTo(b, 6, LoadBase(), 2)
    ensures DecodesTo(b, 8, Call(0), 5) && DecodesTo(b, 43, Jcc(E, 8), 2) && DecodesTo(b, 51, Jmp(-21), 2)
    ensures |b| == 58 && b[6] == 0x89
  {
    hide DecodesTo;
    assert b[6..8][0] == b[6];
    KeyBlobDecodes();
    MovEbxDecodes();
    GetPcDecodes();
    var nops: seq<byte> := [0x90, 0x90, 0x90, 0x90];
    Fits(b, 0, [0x6A, 0x68], 0, PushImm(0x68), 2);
    Fits(b, 2, nops, 0, Nop, 1);
    Fits(b, 2, nops, 1, Nop, 1);
    Fits(b, 2, nops, 2, Nop, 1);
    Fits(b, 2, nops, 3, Nop, 1);
    Fits(b, 6, [0x89, 0xE3], 0, LoadBase(), 2);
    Fits(b, 8, GET_PC, 0, Call(0), 5);
    Fits(b, 43, [0x74, 8], 0, Jcc(E, 8), 2);
    Fits(b, 51, [0xEB, 0xEB], 0, Jmp(-21), 2);
  }

  lemma KeySlices(b: seq<byte>)
    requires KeyBlob(b)
    ensures RepeatSlices(b, 8) && PushRun(b, 6) == [0x90, 0x90, 0x90, 0x90] && PushedBefore(b, 6) == 1
    ensures Imm32(b, 23) == 4
  {
    assert b[0..2][1] == b[1] && b[0..2][0] == b[0] && b[43..45][0] == b[43];
    var t := b[23..27];
    assert t[0] == b[23] && t[1] == b[24] && t[2] == b[25] && t[3] == b[26];
    assert PushRun(b, 1) == [];
    assert PushedBefore(b, 1) == 0;
  }

  lemma KeyPathAllowed(b: seq<byte>)
    requires KeyBlob(b)
    ensures PathTo(b, 0, 8, 8, MAX_STEPS)
  {
    MisreadPath(b);
    assert b[6..8][0] == b[6];
    hide DecodeAt;
    assert Next(b, 6, 8) == Some(8) && PathTo(b, 6, 8, 8, MAX_STEPS - 5);
    assert Next(b, 5, 8) == Some(6) && PathTo(b, 5, 8, 8, MAX_STEPS - 4);
    assert Next(b, 4, 8) == Some(5) && PathTo(b, 4, 8, 8, MAX_STEPS - 3);
    assert Next(b, 3, 8) == Some(4) && PathTo(b, 3, 8, 8, MAX_STEPS - 2);
    assert Next(b, 2, 8) == Some(3) && PathTo(b, 2, 8, 8, MAX_STEPS - 1);
    assert Next(b, 0, 8) == Some(2);
  }

  lemma OnePush()
    ensures Extended(Trail([], None), PushImm(0x68)) == Trail([0x68, 0, 0, 0], None)
  {
  }

  /** What the path really pushes. */
  lemma MisreadWalk(b: seq<byte>)
    requires KeyBlob(b)
    ensures PathTo(b, 0, 8, 8, MAX_STEPS) && Walk(b, 0, 8, MAX_STEPS, Trail([], None)) == Trail([0x68, 0, 0, 0], Some(4))
  {
    hide PathTo, Walk, DecodesTo, KeyBlob, LeBytes;
    KeyPathAllowed(b);
    MisreadPath(b);
    OnePush();
    var t1 := Trail([0x68, 0, 0, 0], None);
    WalkStep(b, 0, 8, MAX_STEPS, Trail([], None), PushImm(0x68), 2);
    WalkStep(b, 2, 8, MAX_STEPS - 1, t1, Nop, 1);
    WalkStep(b, 3, 8, MAX_STEPS - 2, t1, Nop, 1);
    WalkStep(b, 4, 8, MAX_STEPS - 3, t1, Nop, 1);
    WalkStep(b, 5, 8, MAX_STEPS - 4, t1, Nop, 1);
    WalkStep(b, 6, 8, MAX_STEPS - 5, t1, LoadBase(), 2);
    WalkEnd(b, 8, MAX_STEPS - 6, t1.(ebx := Some(4)));
  }

  /** The first pass reads 0x68. */
  lemma MisreadFirst(tr: Trail)
    requires tr == Trail([0x68, 0, 0, 0], Some(4))
    ensures !Meets(tr, |Misread().key|, 0, KeyByte(Misread().key, 0))
  {
    assert KeyByte(Misread().key, 0) == 0x90 && Cursor(Depth(tr), 4, 0) == 0;
  }

  /** The checks accept the stage with four no-op bytes as its key, which are not on the path. */
  lemma KeyAccepted(b: seq<byte>)
    requires KeyBlob(b)
    ensures StageFits(b, 0, Misread()) && !KeyOnPath(b, 0, Misread()) && !Faithful(b, 0, Misread())
  {
    hide Accepted, PathTo, Walk, BackEnd, Meets, KeyByte, KeyBlob;
    KeyRecognized(b);
    MisreadWalk(b);
    MisreadFirst(Walk(b, 0, 8, MAX_STEPS, Trail([], None)));
    assert Misread().size == 4;
  }

  lemma KeyRecognized(b: seq<byte>)
    requires KeyBlob(b)
    ensures StageFits(b, 0, Misread())
  {
    hide DecodeAt, PathTo, PushRun, PushedBefore, KeySize, PushedKey;
    KeyPathAllowed(b);
    MisreadPath(b);
    KeySlices(b);
    KeySizeIs(b, 8);
    PushedKeyIs(b, 8);
    assert b[19..23][0] == b[19];
  }

  /** On the processor the stack at the call starts with 0x68, not with the recognized key. */
  lemma KeyMisread(s: State, base: u32, b: seq<byte>) returns (t: State)
    requires KeyBlob(b) && Ready(s, base, b, 0)
    ensures Reaches(s, t) && t.eip == base + Misread().call && t.regs[EBX] == t.regs[ESP]
    ensures Read(t.mem, t.regs[EBX]) == 0x68 && Misread().key[0] != 0x68
  {
    hide DecodesTo, Reaches, Holds, SameOutside, Push, KeyBlob;
    MisreadPath(b);
    assert |b| == 58;
    var u := PushStep(s, base, b, 0, 0x68, 2);
    PushedLow(s, u, base + 2, 0x68);
    var v1 := SilentStep(u, base, b, 2, Decoded(Nop, 1));
    var v2 := SilentStep(v1, base, b, 3, Decoded(Nop, 1));
    var v3 := SilentStep(v2, base, b, 4, Decoded(Nop, 1));
    var v4 := SilentStep(v3, base, b, 5, Decoded(Nop, 1));
    t := SilentStep(v4, base, b, 6, Decoded(LoadBase(), 2));
    ReachesTrans(s, u, v1);
    ReachesTrans(s, v1, v2);
    ReachesTrans(s, v2, v3);
    ReachesTrans(s, v3, v4);
    ReachesTrans(s, v4, t);
  }

  lemma PushedLow(s: State, u: State, eip: u32, v: byte)
    requires s.regs[ESP] >= 4 && u == Push(s, v).(eip := eip)
    ensures Read(u.mem, u.regs[ESP]) == v
  {
    PlusExact(s.regs[ESP], -4);
    PlusExact(s.regs[ESP] - 4, 1);
    PlusExact(s.regs[ESP] - 4, 2);
    PlusExact(s.regs[ESP] - 4, 3);
  }

  lemma {:induction false} NoHeaderBefore(b: seq<byte>, call: nat)
    requires KeyBlob(b) && call <= 8
    ensures FindHeader(b, 45, call) == FindHeader(b, 45, 8)
    decreases 8 - call
  {
    if call < 8 {
      assert b[0..2][0] == b[0] && b[0..2][1] == b[1] && b[6..8][0] == b[6] && b[6..8][1] == b[7];
      assert b[2..6][0] == b[2] && b[2..6][1] == b[3] && b[2..6][2] == b[4] && b[2..6][3] == b[5];
      assert b[call..call + 10][0] == b[call];
      NoHeaderBefore(b, call + 1);
    }
  }

  lemma KeyHeader(b: seq<byte>)
    requires KeyBlob(b)
    ensures FindHeader(b, 45, 0) == Some((8, 53, 4))
  {
    NoHeaderBefore(b, 0);
    KeySlices(b);
    assert b[19..23][0] == b[19];
    assert HeaderAt(b, 8) && !SizeDirect(b, 8) && SizeAdded(b, 8);
  }

  /** The scan proposes exactly this stub, with the key it misread. */
  lemma KeyFound(b: seq<byte>)
    requires KeyBlob(b)
    ensures Candidate(b, 45) == Some(Misread())
  {
    hide FindHeader, KeySize, PushedKey, HeaderMatches, Valid, PathTo;
    KeyHeader(b);
    KeyRecognized(b);
    assert b[45..51][0] == b[45];
  }
}
