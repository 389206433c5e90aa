/** The straight path recovery allows between two decoder stubs, and a whole chain of stubs:
    running the chain on the processor leaves exactly the bytes that recovery computed. */
module RecoveryPath {
  import opened Common
  import opened X86
  import opened Stage
  import opened StubRun

  const MAX_BLOB := 4096
  const MAX_STEPS := 4096

  function LoadBase(): Inst { MovRegReg(EBX, ESP) }
  function Padding(): Inst { Lea(EAX, EAX, 0) }

  /** The offset after the instruction at `cur`, when the path check allows that instruction. */
  function Next(b: seq<byte>, cur: nat, call: nat): (n: Option<nat>)
    ensures n.Some? ==> cur < n.value <= |b| || n.value <= call
    ensures n.Some? ==> cur < n.value
  {
    var d := DecodeAt(b, cur);
    if d.None? then None
    else if d.value.inst.Jmp? then
      var target := cur + d.value.len + d.value.inst.rel;
      if cur < target <= call then Some(target) else None
    else if d.value.inst.PushImm? || d.value.inst.Nop?
         || (d.value.inst == LoadBase() && b[cur] == 0x89)
         || (d.value.inst == Padding() && d.value.len == 6) then Some(cur + d.value.len)
    else None
  }

  /** The instructions that the path may hold are exactly pushes of immediates, no-ops, mov ebx, esp in
      its first encoding, the six-byte lea eax, [eax+0], and forward jumps that stay before the call. */
  lemma NextExactly(b: seq<byte>, cur: nat, call: nat, n: nat)
    ensures Next(b, cur, call) == Some(n) <==>
              exists d :: DecodeAt(b, cur) == Some(d) &&
                (|| ((d.inst.PushImm? || d.inst.Nop?) && n == cur + d.len)
                 || (d.inst == MovRegReg(EBX, ESP) && b[cur] == 0x89 && n == cur + d.len)
                 || (d.inst == X86.Lea(EAX, EAX, 0) && d.len == 6 && n == cur + d.len)
                 || (d.inst.Jmp? && n == cur + d.len + d.inst.rel && cur < n <= call))
  {
    hide DecodeShort, DecodeModRm;
    if DecodeAt(b, cur).Some? { assert DecodeAt(b, cur) == Some(DecodeAt(b, cur).value); }
  }

  /** The path from `cur` comes to `goal` before it has left the range up to `call`. */
  predicate PathTo(b: seq<byte>, cur: nat, goal: nat, call: nat, steps: nat)
    decreases steps
  {
    if cur == goal then true
    else if steps == 0 || cur > call || Next(b, cur, call).None? then false
    else PathTo(b, Next(b, cur, call).value, goal, call, steps - 1)
  }

  /** Enough stack below ESP, apart from the blob, for everything that can run after offset `cur`. */
  ghost predicate Free(s: State, base: u32, b: seq<byte>, cur: nat)
  {
    cur <= |b| && Room(s.regs[ESP], 4 * (|b| - cur), base, |b|)
  }

  /** Ready to execute offset `cur` of the blob. */
  ghost predicate Ready(s: State, base: u32, b: seq<byte>, cur: nat)
  {
    Resident(s.mem, base, b) && s.eip == base + cur && Free(s, base, b, cur)
  }

  /** Only stack bytes that `Free` sets aside have changed. */
  ghost predicate Quiet(s: State, t: State, need: nat)
  {
    && t.regs[EBP] == s.regs[EBP] && s.regs[ESP] - need <= t.regs[ESP] <= s.regs[ESP]
    && SameOutside(s.mem, t.mem, s.regs[ESP] - need, s.regs[ESP] as int)
  }

  /** A push leaves the blob alone and uses four bytes of the free stack. */
  lemma PushKeeps(s: State, t: State, base: u32, b: seq<byte>, at: nat, v: u32, len: nat)
    requires Ready(s, base, b, at) && at + len <= |b| && len >= 1
    requires t == Push(s, v).(eip := base + at + len)
    ensures s.regs[ESP] >= 4 && Ready(t, base, b, at + len) && Quiet(s, t, 4)
  {
    PushWrites(s, v);
    hide Push, Holds, SameOutside, Plus;
    ResidentKept(s.mem, t.mem, base, b, s.regs[ESP] - 4, s.regs[ESP] as int);
  }

  lemma PushStep(s: State, base: u32, b: seq<byte>, at: nat, v: u32, len: nat) returns (t: State)
    requires DecodesTo(b, at, PushImm(v), len) && Ready(s, base, b, at) && at + len <= |b| && len >= 1
    ensures Reaches(s, t) && Ready(t, base, b, at + len) && Quiet(s, t, 4)
    ensures t == Push(s, v).(eip := base + at + len)
  {
    hide Step, DecodesTo, Reaches, Plus, Push, Holds, Free, Quiet;
    t := Exec1(s, base, b, |b|, at, PushImm(v), len);
    PushKeeps(s, t, base, b, at, v, len);
  }

  lemma NextCases(b: seq<byte>, cur: nat, call: nat) returns (d: Decoded)
    requires Next(b, cur, call).Some?
    ensures DecodesTo(b, cur, d.inst, d.len) && cur + d.len <= |b| && d.len >= 1
    ensures d.inst.PushImm? || d.inst.Nop? || d.inst == LoadBase() || d.inst == Padding() || d.inst.Jmp?
    ensures Next(b, cur, call).value == cur + d.len + if d.inst.Jmp? then d.inst.rel else 0
    ensures d.inst.Jmp? ==> cur + d.len + d.inst.rel <= call
  {
    hide DecodeShort, DecodeModRm;
    d := DecodeAt(b, cur).value;
  }

  /** A path instruction other than a push changes neither memory nor the stack pointer. */
  lemma SilentStep(s: State, base: u32, b: seq<byte>, cur: nat, d: Decoded) returns (t: State)
    requires DecodesTo(b, cur, d.inst, d.len) && cur + d.len <= |b|
    requires Resident(s.mem, base, b) && s.eip == base + cur
    requires d.inst.Nop? || d.inst == LoadBase() || d.inst == Padding() || (d.inst.Jmp? && 0 <= cur + d.len + d.inst.rel <= |b|)
    ensures Reaches(s, t) && t.mem == s.mem && t.regs[ESP] == s.regs[ESP] && t.regs[EBP] == s.regs[EBP]
    ensures t.regs[EBX] == if d.inst == LoadBase() then s.regs[ESP] else s.regs[EBX]
    ensures t.eip == base + cur + d.len + if d.inst.Jmp? then d.inst.rel else 0
  {
    hide Step, DecodesTo, Reaches, Plus, Holds;
    if d.inst.Jmp? { PlusExact(base + cur, d.len + d.inst.rel); }
    t := Exec1(s, base, b, |b|, cur, d.inst, d.len);
  }

  /** One allowed path instruction on the processor. */
  lemma RunNext(s: State, base: u32, b: seq<byte>, cur: nat, call: nat) returns (t: State)
    requires call <= |b| && Next(b, cur, call).Some? && Ready(s, base, b, cur)
    ensures Reaches(s, t) && Ready(t, base, b, Next(b, cur, call).value) && Quiet(s, t, 4)
  {
    var d := NextCases(b, cur, call);
    hide DecodesTo, Reaches, Next, Holds;
    if d.inst.PushImm? {
      t := PushStep(s, base, b, cur, d.inst.imm, d.len);
    } else {
      t := SilentStep(s, base, b, cur, d);
    }
  }

  lemma QuietTrans(s: State, t: State, u: State, need: nat, m: nat, n: nat)
    requires Quiet(s, t, m) && Quiet(t, u, n) && m <= need && s.regs[ESP] - need <= t.regs[ESP] - n
    ensures Quiet(s, u, need)
  {
    forall a: u32 | a < s.regs[ESP] - need || a >= s.regs[ESP] ensures Read(u.mem, a) == Read(s.mem, a)
    {
      assert Read(t.mem, a) == Read(s.mem, a);
    }
  }

  /** Running the path on the processor. */
  lemma {:induction false} RunPath(s: State, base: u32, b: seq<byte>, cur: nat, goal: nat, call: nat, steps: nat) returns (t: State)
    requires PathTo(b, cur, goal, call, steps) && goal <= call <= |b| && Ready(s, base, b, cur)
    ensures Reaches(s, t) && Ready(t, base, b, goal)
    ensures cur <= goal && Quiet(s, t, 4 * (|b| - cur))
    ensures s.regs[ESP] - t.regs[ESP] <= 4 * (goal - cur)
    decreases steps
  {
    hide Reaches, Next, Resident, SameOutside;
    if cur == goal {
      t := s;
      ReachesRefl(s);
      SameRefl(s.mem, s.regs[ESP] - 4 * (|b| - cur), s.regs[ESP] as int);
    } else {
      var u := RunNext(s, base, b, cur, call);
      t := RunPath(u, base, b, Next(b, cur, call).value, goal, call, steps - 1);
      ReachesTrans(s, u, t);
      QuietTrans(s, u, t, 4 * (|b| - cur), 4, 4 * (|b| - Next(b, cur, call).value));
    }
  }

  /* ---------- the push run that carries a repeating key ---------- */

  /** Offset of the first push of the adjacent run that ends at `end`. */
  function RunStart(b: seq<byte>, end: nat): nat
    requires end <= |b|
  {
    end - 5 * PushedBefore(b, end)
  }

  lemma PushDecodes(b: seq<byte>, at: nat)
    requires at + 5 <= |b| && b[at] == 0x68
    ensures DecodesTo(b, at, PushImm(Imm32(b, at + 1)), 5)
  {
  }

  /** Memory from `sp` holds the key bytes. */
  ghost predicate Stacked(m: Mem, sp: u32, key: seq<byte>)
  {
    sp + |key| < 0x1_0000_0000 && forall j {:trigger key[j]} :: 0 <= j < |key| ==> Read(m, sp + j) == key[j]
  }

  lemma Le32Digits(b0: byte, b1: byte, b2: byte, b3: byte)
    ensures var v := Le32(b0, b1, b2, b3);
            v % 0x100 == b0 && v / 0x100 % 0x100 == b1 && v / 0x1_0000 % 0x100 == b2 && v / 0x100_0000 == b3
  {
    var v := Le32(b0, b1, b2, b3);
    assert v / 0x100 == b1 + 0x100 * b2 + 0x1_0000 * b3;
    assert v / 0x1_0000 == b2 + 0x100 * b3;
  }

  /** One more push puts its bytes in front of what is already stacked. */
  lemma StackGrows(m: Mem, m': Mem, sp: u32, front: seq<byte>, key: seq<byte>)
    requires |front| == 4 && Stacked(m, sp, key) && 4 <= sp
    requires SameOutside(m, m', sp - 4, sp as int) && Stacked(m', sp - 4, front)
    ensures Stacked(m', sp - 4, front + key)
  {
    forall j | 0 <= j < |front + key| ensures Read(m', sp - 4 + j) == (front + key)[j]
    {
      if j < 4 {
        assert Read(m', sp - 4 + j) == front[j];
      } else {
        assert Read(m, sp + (j - 4)) == key[j - 4];
      }
    }
  }
}
