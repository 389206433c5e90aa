/** The three decoder layouts that recovery is written for, byte for byte: every blob that holds one
    of them is accepted, whatever its key, size and offsets (src/harness_reasoning.hpp,
    recovery_stage_validation and the scan of recover_initialized_x86_blob). */
module StubLayouts {
  import opened Common
  import opened X86
  import opened Stage
  import opened StubRun
  import opened StubSoundness
  import opened RecoveryScan

  /** `b` holds `p` at offset `at`. */
  predicate HoldsAt(b: seq<byte>, at: nat, p: seq<byte>) { at + |p| <= |b| && b[at..at + |p|] == p }

  /** The rewritten range follows the stub and lies in the blob. */
  predicate RangeAfter(b: seq<byte>, end: nat, start: nat, size: nat)
  {
    end <= start && 0 < size <= 0x7FFF_FFFF && start + size <= |b|
  }

  /** call; mov esi, [esp]; add esi, imm; mov ecx, size; cmp ecx, 0; je; xor byte [esi], key; inc esi;
      dec ecx; jmp. */
  predicate ByteLayout(b: seq<byte>, c: nat, imm: byte, size: nat, key: byte)
  {
    && HoldsAt(b, c, [0xE8, 0, 0, 0, 0, 0x8B, 0x34, 0x24, 0x83, 0xC6]) && c + 34 <= |b| && b[c + 10] == imm <= 127
    && b[c + 11] == 0xB9 && Imm32(b, c + 12) == size
    && HoldsAt(b, c + 16, [0x83, 0xF9, 0]) && HoldsAt(b, c + 19, [0x74, 7])
    && HoldsAt(b, c + 21, [0x80, 0x36]) && b[c + 23] == key && HoldsAt(b, c + 24, [0x46, 0x49]) && HoldsAt(b, c + 26, [0xEB, 0xF4])
    && RangeAfter(b, c + 28, c + 5 + imm, size)
  }

  /** The same with xor dword [esi], key; add esi, 4; sub ecx, 4. */
  predicate DwordLayout(b: seq<byte>, c: nat, imm: byte, size: nat, key: seq<byte>)
  {
    && HoldsAt(b, c, [0xE8, 0, 0, 0, 0, 0x8B, 0x34, 0x24, 0x83, 0xC6]) && c + 37 <= |b| && b[c + 10] == imm <= 127
    && b[c + 11] == 0xB9 && Imm32(b, c + 12) == size && size % 4 == 0
    && HoldsAt(b, c + 16, [0x83, 0xF9, 0]) && HoldsAt(b, c + 19, [0x7E, 14])
    && HoldsAt(b, c + 21, [0x81, 0x36]) && |key| == 4 && HoldsAt(b, c + 23, key)
    && HoldsAt(b, c + 27, [0x83, 0xC6, 4, 0x83, 0xE9, 4]) && HoldsAt(b, c + 33, [0xEB, 0xED])
    && RangeAfter(b, c + 35, c + 5 + imm, size)
  }

  /** A run of pushes and mov ebx, esp before the call; the size is added to ESI, and EBX runs over
      the `n` stacked key bytes again and again. */
  predicate RepeatLayout(b: seq<byte>, c: nat, imm: byte, size: nat, n: byte)
  {
    && 7 <= c && |b| <= 4096 && HoldsAt(b, c - 2, [0x89, 0xE3])
    && HoldsAt(b, c, [0xE8, 0, 0, 0, 0, 0x8B, 0x34, 0x24, 0x83, 0xC6]) && c + 50 <= |b| && b[c + 10] == imm <= 127
    && HoldsAt(b, c + 11, [0x89, 0xF1, 0x81, 0xC1]) && Imm32(b, c + 15) == size
    && HoldsAt(b, c + 19, [0x89, 0xD8, 0x83, 0xC0]) && b[c + 23] == n && 1 <= n <= 127
    && n <= 4 * PushedBefore(b, c - 2) <= n + 3
    && HoldsAt(b, c + 24, [0x39, 0xD8, 0x75, 5, 0x89, 0xE3, 0x83, 0xC3, 4, 0x39, 0xCE]) && HoldsAt(b, c + 35, [0x74, 8])
    && HoldsAt(b, c + 37, [0x8A, 0x13, 0x30, 0x16, 0x43, 0x46]) && HoldsAt(b, c + 43, [0xEB, 0xEB])
    && RangeAfter(b, c + 45, c + 5 + imm, size)
  }

  lemma JumpsDecode()
    ensures DecodesTo([0x74, 7], 0, Jcc(E, 7), 2) && DecodesTo([0xEB, 0xF4], 0, Jmp(-12), 2)
    ensures DecodesTo([0x7E, 14], 0, Jcc(LE, 14), 2) && DecodesTo([0xEB, 0xED], 0, Jmp(-19), 2)
    ensures DecodesTo([0x74, 8], 0, Jcc(E, 8), 2) && DecodesTo([0xEB, 0xEB], 0, Jmp(-21), 2)
  {
  }

  lemma HeaderHolds(b: seq<byte>, c: nat)
    requires HoldsAt(b, c, [0xE8, 0, 0, 0, 0, 0x8B, 0x34, 0x24, 0x83, 0xC6])
    ensures DecodesTo(b, c, Call(0), 5) && Exact(b, c + 5, [0x8B, 0x34, 0x24, 0x83, 0xC6])
  {
    hide DecodesTo;
    GetPcDecodes();
    Fits(b, c, GET_PC, 0, Call(0), 5);
    assert b[c + 5..c + 10] == b[c..c + 10][5..10];
  }

  /** Every byte decoder of the layout is accepted. */
  lemma ByteAccepted(b: seq<byte>, c: nat, imm: byte, size: nat, key: byte)
    requires ByteLayout(b, c, imm, size, key)
    ensures Accepted(b, Stub(XorByte, c, c + 21, c + 5 + imm, size, [key]))
  {
    hide DecodesTo, DecodeAt, Imm32;
    HeaderHolds(b, c);
    JumpsDecode();
    Fits(b, c + 19, [0x74, 7], 0, Jcc(E, 7), 2);
    Fits(b, c + 26, [0xEB, 0xF4], 0, Jmp(-12), 2);
    assert BackJump(b, Stub(XorByte, c, c + 21, c + 5 + imm, size, [key])) by { Decoded(b, c + 26, Jmp(-12), 2); }
  }

  lemma Decoded(b: seq<byte>, at: nat, i: Inst, len: nat)
    requires DecodesTo(b, at, i, len)
    ensures DecodeAt(b, at).Some? && DecodeAt(b, at).value.inst == i && DecodeAt(b, at).value.len == len
  {
    hide DecodeAt;
  }

  /** Every dword decoder of the layout is accepted. */
  lemma DwordAccepted(b: seq<byte>, c: nat, imm: byte, size: nat, key: seq<byte>)
    requires DwordLayout(b, c, imm, size, key)
    ensures Accepted(b, Stub(XorDword, c, c + 21, c + 5 + imm, size, key))
  {
    hide DecodesTo, DecodeAt, Imm32;
    HeaderHolds(b, c);
    JumpsDecode();
    Fits(b, c + 19, [0x7E, 14], 0, Jcc(LE, 14), 2);
    Fits(b, c + 33, [0xEB, 0xED], 0, Jmp(-19), 2);
    assert BackJump(b, Stub(XorDword, c, c + 21, c + 5 + imm, size, key)) by { Decoded(b, c + 33, Jmp(-19), 2); }
  }

  lemma RepeatHolds(b: seq<byte>, c: nat, imm: byte, size: nat, n: byte)
    requires RepeatLayout(b, c, imm, size, n)
    ensures RepeatSlices(b, c)
  {
    hide Imm32, PushedBefore;
    assert b[c + 35..c + 37][0] == b[c + 35];
  }

  /** Every repeating-key decoder of the layout is accepted, with the front of its push run as key. */
  lemma RepeatAccepted(b: seq<byte>, c: nat, imm: byte, size: nat, n: byte)
    requires RepeatLayout(b, c, imm, size, n)
    ensures |PushRun(b, c - 2)| >= n
    ensures Accepted(b, Stub(XorRepeatingKey, c, c + 37, c + 5 + imm, size, PushRun(b, c - 2)[..n]))
  {
    hide DecodesTo, DecodeAt, Imm32, PushedKey, KeySize, PushRun, PushedBefore;
    HeaderHolds(b, c);
    JumpsDecode();
    RepeatHolds(b, c, imm, size, n);
    KeySizeIs(b, c);
    PushedKeyIs(b, c);
    var st := Stub(XorRepeatingKey, c, c + 37, c + 5 + imm, size, PushRun(b, c - 2)[..n]);
    Fits(b, c + 35, [0x74, 8], 0, Jcc(E, 8), 2);
    Fits(b, c + 43, [0xEB, 0xEB], 0, Jmp(-21), 2);
    assert b[c + 11..c + 15][0] == b[c + 11];
    assert BackJump(b, st) by { Decoded(b, c + 43, Jmp(-21), 2); }
  }

  /** So the scan finds each of them, unless an earlier get-PC call is in its window. */
  lemma LayoutsFound(b: seq<byte>, c: nat, imm: byte, size: nat, key: seq<byte>)
    requires if |key| == 1 then ByteLayout(b, c, imm, size, key[0]) else DwordLayout(b, c, imm, size, key)
    requires forall d: nat :: c <= d + 43 && d < c ==> !GetPcAt(b, d)
    ensures Candidate(b, c + 21) == Some(Stub(if |key| == 1 then XorByte else XorDword, c, c + 21, c + 5 + imm, size, key))
  {
    var s := Stub(if |key| == 1 then XorByte else XorDword, c, c + 21, c + 5 + imm, size, key);
    if |key| == 1 {
      ByteAccepted(b, c, imm, size, key[0]);
      assert key == [key[0]] && b[c + 26..c + 28][0] == b[c + 26];
    } else {
      DwordAccepted(b, c, imm, size, key);
    }
    hide Accepted, Candidate, GetPcAt, Imm32;
    CandidateComplete(b, s);
  }

  lemma RepeatFound(b: seq<byte>, c: nat, imm: byte, size: nat, n: byte)
    requires RepeatLayout(b, c, imm, size, n) && forall d: nat :: c <= d + 27 && d < c ==> !GetPcAt(b, d)
    ensures |PushRun(b, c - 2)| >= n
    ensures Candidate(b, c + 37) == Some(Stub(XorRepeatingKey, c, c + 37, c + 5 + imm, size, PushRun(b, c - 2)[..n]))
  {
    RepeatAccepted(b, c, imm, size, n);
    hide Accepted, Candidate, GetPcAt, Imm32, PushRun, PushedBefore;
    CandidateComplete(b, Stub(XorRepeatingKey, c, c + 37, c + 5 + imm, size, PushRun(b, c - 2)[..n]));
  }
}
