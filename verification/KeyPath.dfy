/** What a repeating-key stub really reads from the stack: the instructions on the path to its call
    are walked symbolically, and the loop reads the recognized key, from every machine state, exactly
    when the walk says so (src/harness_reasoning.hpp, pushed_key and the continuation check). */
module KeyPath {
  import opened Common
  import opened X86
  import opened Stage
  import opened StubRun
  import opened StubSoundness
  import opened RecoveryPath

  /** The bytes pushed so far, top of stack first, and how many there were when EBX was last loaded. */
  datatype Trail = Trail(pushed: seq<byte>, ebx: Option<nat>)

  function LeBytes(v: u32): seq<byte> { [v % 0x100, v / 0x100 % 0x100, v / 0x1_0000 % 0x100, v / 0x100_0000] }

  function Extended(tr: Trail, i: Inst): Trail
  {
    if i.PushImm? then tr.(pushed := LeBytes(i.imm) + tr.pushed)
    else if i == LoadBase() then tr.(ebx := Some(|tr.pushed|))
    else tr
  }

  /** The trail of the path from `cur` to the call. */
  function Walk(b: seq<byte>, cur: nat, call: nat, steps: nat, tr: Trail): Trail
    requires PathTo(b, cur, call, call, steps)
    decreases steps
  {
    if cur == call then tr
    else Walk(b, Next(b, cur, call).value, call, steps - 1, Extended(tr, DecodeAt(b, cur).value.inst))
  }

  /** How far EBX is above the stack pointer at the call; when the path does not load EBX it may be
      anywhere, for instance where the stack pointer was. */
  function Depth(tr: Trail): nat
  {
    if tr.ebx.Some? && tr.ebx.value <= |tr.pushed| then |tr.pushed| - tr.ebx.value else |tr.pushed|
  }

  /** The path pushed the byte that pass `j` reads, and it is `v`. */
  predicate Meets(tr: Trail, n: nat, j: nat, v: byte)
    requires n > 0
  {
    Cursor(Depth(tr), n, j) < |tr.pushed| && tr.pushed[Cursor(Depth(tr), n, j)] == v
  }

  /** Every pass of the loop reads a byte that the path pushed, and it is the recognized key's. */
  predicate KeyOnPath(b: seq<byte>, cont: nat, st: Stub)
    requires PathTo(b, cont, st.call, st.call, MAX_STEPS)
  {
    var tr := Walk(b, cont, st.call, MAX_STEPS, Trail([], None));
    tr.ebx.Some? && st.key != [] && forall j :: 0 <= j < st.size ==> Meets(tr, |st.key|, j, KeyByte(st.key, j))
  }

  /** The recognized key repeated over the range. */
  function Spread(st: Stub): (key: seq<byte>)
    requires st.key != []
    ensures |key| == st.size
  {
    seq(st.size, j requires 0 <= j < st.size => KeyByte(st.key, j))
  }

  lemma SpreadByte(st: Stub, j: nat)
    requires st.key != [] && j < st.size
    ensures KeyByte(Spread(st), j) == KeyByte(st.key, j)
  {
    assert j % st.size == j;
  }

  lemma SameBulk(b: seq<byte>, start: nat, size: nat, key: seq<byte>, other: seq<byte>)
    requires key != [] && other != [] && forall j :: 0 <= j < size ==> KeyByte(key, j) == KeyByte(other, j)
    ensures Bulk(b, start, size, key) == Bulk(b, start, size, other)
  {
    hide Xor8;
    forall k | 0 <= k < |b| ensures Bulk(b, start, size, key)[k] == Bulk(b, start, size, other)[k]
    {
      if start <= k < start + size { assert KeyByte(key, k - start) == KeyByte(other, k - start); }
    }
  }

  lemma SpreadBulk(b: seq<byte>, st: Stub)
    requires st.key != [] && st.size > 0
    ensures Bulk(b, st.start, st.size, Spread(st)) == Bulk(b, st.start, st.size, st.key)
  {
    hide KeyByte, Bulk;
    forall j | 0 <= j < st.size ensures KeyByte(Spread(st), j) == KeyByte(st.key, j) { SpreadByte(st, j); }
    SameBulk(b, st.start, st.size, Spread(st), st.key);
  }

  lemma SpreadSpares(st: Stub, end: nat)
    requires st.key != [] && st.size > 0
    ensures Spares(st.(key := Spread(st)), end) <==> Spares(st, end)
  {
    hide KeyByte;
    forall j | 0 <= j < st.size ensures KeyByte(Spread(st), j) == KeyByte(st.key, j) { SpreadByte(st, j); }
  }

  /* ---------- the trail is what the machine does ---------- */

  /** The machine is where the trail says, having started in `s`. */
  ghost predicate Trails(s: State, t: State, tr: Trail)
  {
    && |tr.pushed| <= s.regs[ESP] && t.regs[ESP] == s.regs[ESP] - |tr.pushed| && t.regs[EBP] == s.regs[EBP]
    && Stacked(t.mem, t.regs[ESP], tr.pushed) && SameOutside(s.mem, t.mem, t.regs[ESP] as int, s.regs[ESP] as int)
    && (if tr.ebx.Some? then tr.ebx.value <= |tr.pushed| && t.regs[EBX] == s.regs[ESP] - tr.ebx.value
        else t.regs[EBX] == s.regs[EBX])
  }

  lemma PushStacks(u: State, v: u32)
    requires u.regs[ESP] >= 4
    ensures Stacked(Push(u, v).mem, u.regs[ESP] - 4, LeBytes(v)) && Push(u, v).regs == u.regs[ESP := u.regs[ESP] - 4]
    ensures SameOutside(u.mem, Push(u, v).mem, u.regs[ESP] - 4, u.regs[ESP] as int)
  {
    PlusExact(u.regs[ESP], -4);
    PlusExact(u.regs[ESP] - 4, 1);
    PlusExact(u.regs[ESP] - 4, 2);
    PlusExact(u.regs[ESP] - 4, 3);
  }

  lemma SameWider(m: Mem, m': Mem, m'': Mem, lo: int, mid: int, hi: int)
    requires SameOutside(m, m', mid, hi) && SameOutside(m', m'', lo, mid) && lo <= mid <= hi
    ensures SameOutside(m, m'', lo, hi)
  {
    forall a: u32 | a < lo || a >= hi ensures Read(m'', a) == Read(m, a)
    {
      assert Read(m', a) == Read(m, a);
    }
  }

  lemma TrailPush(s: State, t: State, u: State, tr: Trail, v: u32, eip: u32)
    requires Trails(s, t, tr) && t.regs[ESP] >= 4 && u == Push(t, v).(eip := eip)
    ensures Trails(s, u, Extended(tr, PushImm(v)))
  {
    hide Push, Stacked, SameOutside, LeBytes;
    PushStacks(t, v);
    StackGrows(t.mem, u.mem, t.regs[ESP], LeBytes(v), tr.pushed) by { LeLength(v); }
    LeLength(v);
    SameWider(s.mem, t.mem, u.mem, t.regs[ESP] - 4, t.regs[ESP] as int, s.regs[ESP] as int);
  }

  lemma LeLength(v: u32)
    ensures |LeBytes(v)| == 4
  {
  }

  /** One path instruction. */
  lemma TrailNext(s: State, t: State, base: u32, b: seq<byte>, cur: nat, call: nat, tr: Trail) returns (u: State)
    requires call <= |b| && Next(b, cur, call).Some? && Ready(t, base, b, cur) && Trails(s, t, tr)
    ensures Reaches(t, u) && Ready(u, base, b, Next(b, cur, call).value) && Quiet(t, u, 4)
    ensures Trails(s, u, Extended(tr, DecodeAt(b, cur).value.inst))
  {
    var d := NextCases(b, cur, call);
    assert d.inst == DecodeAt(b, cur).value.inst;
    hide DecodesTo, Reaches, Next, Holds, Trails, DecodeAt, Extended;
    if d.inst.PushImm? {
      u := PushStep(t, base, b, cur, d.inst.imm, d.len);
      TrailPush(s, t, u, tr, d.inst.imm, u.eip);
    } else {
      u := SilentStep(t, base, b, cur, d);
    }
  }

  /** The whole path to the call. */
  lemma {:induction false} RunWalk(s: State, t: State, base: u32, b: seq<byte>, cur: nat, call: nat, steps: nat, tr: Trail) returns (u: State)
    requires PathTo(b, cur, call, call, steps) && call <= |b| && Ready(t, base, b, cur) && Trails(s, t, tr)
    ensures Reaches(t, u) && Ready(u, base, b, call) && Trails(s, u, Walk(b, cur, call, steps, tr))
    ensures cur <= call && Quiet(t, u, 4 * (|b| - cur)) && t.regs[ESP] - u.regs[ESP] <= 4 * (call - cur)
    decreases steps
  {
    hide Reaches, Next, Resident, SameOutside, Trails, DecodeAt, Extended;
    if cur == call {
      u := t;
      ReachesRefl(t);
      SameRefl(t.mem, t.regs[ESP] - 4 * (|b| - cur), t.regs[ESP] as int);
    } else {
      var d := NextCases(b, cur, call);
      var v := TrailNext(s, t, base, b, cur, call, tr);
      u := RunWalk(s, v, base, b, Next(b, cur, call).value, call, steps - 1, Extended(tr, DecodeAt(b, cur).value.inst));
      ReachesTrans(t, v, u);
      QuietTrans(t, v, u, 4 * (|b| - cur), 4, 4 * (|b| - Next(b, cur, call).value));
    }
  }

  lemma TrailStart(s: State)
    ensures Trails(s, s, Trail([], None))
  {
  }

  /** At the call, EBX is `d` bytes above the stack pointer and the passes will read `key`. */
  ghost predicate Reads(u: State, base: u32, b: seq<byte>, d: nat, n: nat, key: seq<byte>)
  {
    u.regs[EBX] == u.regs[ESP] + d && KeyRead(u.mem, base, b, u.regs[ESP] as int, d, n, key)
  }

  lemma KeyFromTrail(s: State, u: State, base: u32, b: seq<byte>, cont: nat, call: nat, tr: Trail, n: nat, key: seq<byte>)
    requires Trails(s, u, tr) && tr.ebx.Some? && 0 < n <= |b| <= MAX_BLOB
    requires forall j :: 0 <= j < |key| ==> Meets(tr, n, j, key[j])
    requires Free(s, base, b, cont) && Free(u, base, b, call) && cont <= call < |b| && |tr.pushed| <= 4 * (call - cont)
    ensures Reads(u, base, b, Depth(tr), n, key)
  {
    var k, d := u.regs[ESP] as int, Depth(tr);
    forall j | 0 <= j < |key| ensures ByteRead(u.mem, base, b, k + Cursor(d, n, j), key[j])
    {
      assert Meets(tr, n, j, key[j]);
      hide Cursor;
    }
  }

  /** A key on the path is what the loop will read when the call is reached. */
  lemma RunToKey(s: State, base: u32, b: seq<byte>, cont: nat, st: Stub) returns (u: State, d: nat)
    requires PathTo(b, cont, st.call, st.call, MAX_STEPS) && KeyOnPath(b, cont, st) && st.call < |b| && Ready(s, base, b, cont)
    requires |st.key| <= |b| <= MAX_BLOB
    ensures Reaches(s, u) && Ready(u, base, b, st.call) && cont <= st.call && Quiet(s, u, 4 * (|b| - cont))
    ensures s.regs[ESP] - u.regs[ESP] <= 4 * (st.call - cont)
    ensures Reads(u, base, b, d, |st.key|, Spread(st))
  {
    var tr := Walk(b, cont, st.call, MAX_STEPS, Trail([], None));
    d := Depth(tr);
    hide PathTo, Walk, Reaches, Resident, SameOutside, Stacked, Meets, KeyByte, Depth, Reads;
    TrailStart(s);
    u := RunWalk(s, s, base, b, cont, st.call, MAX_STEPS, Trail([], None));
    KeyFromTrail(s, u, base, b, cont, st.call, tr, |st.key|, Spread(st));
  }

  /* ---------- and only then ---------- */

  function Below(b: seq<byte>): Mem
    requires |b| < 0x1_0000_0000
  {
    map a: u32 | a < |b| :: b[a]
  }

  const TOP: u32 := 0x10_0000

  /** A loaded blob, a stack far above it with EBX at its top, and `x` in the stack at `TOP + at`. */
  function Loaded(b: seq<byte>, cont: nat, at: nat, x: byte): State
    requires cont <= |b| <= MAX_BLOB && at <= 0x10_0000
  {
    State([0, 0, 0, TOP, TOP, 0, 0, 0], cont, Flags(false, false, false), Below(b)[TOP + at := x])
  }

  lemma LoadedReady(b: seq<byte>, cont: nat, at: nat, x: byte)
    requires cont <= |b| <= MAX_BLOB && at <= 0x10_0000
    ensures Ready(Loaded(b, cont, at, x), 0, b, cont) && Read(Loaded(b, cont, at, x).mem, TOP + at) == x
  {
  }

  lemma CursorBound(d: nat, n: nat, i: nat)
    requires n > 0
    ensures Cursor(d, n, i) < d + n
  {
  }

  /** A pass whose byte is not the key's on the path. */
  lemma FirstMiss(b: seq<byte>, cont: nat, st: Stub) returns (z: nat)
    requires PathTo(b, cont, st.call, st.call, MAX_STEPS) && !KeyOnPath(b, cont, st) && st.key != [] && st.size > 0
    ensures var tr := Walk(b, cont, st.call, MAX_STEPS, Trail([], None));
            z < st.size && !Meets(tr, |st.key|, z, KeyByte(st.key, z))
  {
    hide PathTo, Walk, KeyByte;
    var tr := Walk(b, cont, st.call, MAX_STEPS, Trail([], None));
    if tr.ebx.None? {
      z := 0;
    } else {
      z :| 0 <= z < st.size && !Meets(tr, |st.key|, z, KeyByte(st.key, z));
    }
  }

  /** The bytes that the passes will read. */
  lemma WhatIsRead(s: State, u: State, b: seq<byte>, tr: Trail, n: nat, size: nat) returns (key: seq<byte>)
    requires Trails(s, u, tr) && s.regs[EBX] == TOP && s.regs[ESP] == TOP
    requires 0 < n <= |b| <= MAX_BLOB && s.regs[ESP] - u.regs[ESP] <= 4 * |b|
    ensures |key| == size && Reads(u, 0, b, Depth(tr), n, key)
  {
    var k, d := u.regs[ESP] as int, Depth(tr);
    forall j | 0 <= j < size ensures 0 <= k + Cursor(d, n, j) < 0x1_0000_0000 { CursorBound(d, n, j); }
    key := seq(size, j requires 0 <= j < size => Read(u.mem, k + Cursor(d, n, j)));
    forall j | 0 <= j < |key| ensures ByteRead(u.mem, 0, b, k + Cursor(d, n, j), key[j]) { CursorBound(d, n, j); }
  }

  /** A byte above everything the path pushed is what the stack held before. */
  lemma StackByte(s: State, u: State, tr: Trail, c: nat)
    requires Trails(s, u, tr) && u.regs[ESP] + c < 0x1_0000_0000
    ensures Read(u.mem, u.regs[ESP] + c) == if c < |tr.pushed| then tr.pushed[c] else Read(s.mem, u.regs[ESP] + c)
  {
  }

  /** From the chosen state, pass `z` does not read `v`. */
  lemma PassMisses(s: State, u: State, b: seq<byte>, cont: nat, tr: Trail, n: nat, z: nat, v: byte, x: byte)
    requires Trails(s, u, tr) && 0 < n <= |b| <= MAX_BLOB && !Meets(tr, n, z, v) && x != v && cont <= |b|
    requires s == Loaded(b, cont, Gap(tr, n, z), x)
    ensures u.regs[ESP] + Cursor(Depth(tr), n, z) < 0x1_0000_0000 && Read(u.mem, u.regs[ESP] + Cursor(Depth(tr), n, z)) != v
  {
    hide Cursor, Below;
    CursorBound(Depth(tr), n, z);
    StackByte(s, u, tr, Cursor(Depth(tr), n, z));
  }

  /** How far above everything the path pushed pass `z` reads. */
  function Gap(tr: Trail, n: nat, z: nat): (g: nat)
    requires n > 0
    ensures g < n
  {
    CursorBound(Depth(tr), n, z);
    if Cursor(Depth(tr), n, z) >= |tr.pushed| then Cursor(Depth(tr), n, z) - |tr.pushed| else 0
  }

  /** Without the key on the path, from some machine state the loop will read something else. */
  lemma KeyNotThere(b: seq<byte>, cont: nat, st: Stub) returns (s: State, u: State, d: nat, key: seq<byte>)
    requires PathTo(b, cont, st.call, st.call, MAX_STEPS) && !KeyOnPath(b, cont, st) && st.call < |b| <= MAX_BLOB && cont <= |b|
    requires 0 < |st.key| <= |b| && st.size > 0
    ensures Ready(s, 0, b, cont) && Reaches(s, u) && Ready(u, 0, b, st.call)
    ensures |key| == st.size && Reads(u, 0, b, d, |st.key|, key) && key != Spread(st)
  {
    hide PathTo, Walk, Reaches, Resident, Trails, KeyByte, Cursor, Meets, Depth, Gap, KeyOnPath, Free;
    var tr := Walk(b, cont, st.call, MAX_STEPS, Trail([], None));
    var n := |st.key|;
    d := Depth(tr);
    var z := FirstMiss(b, cont, st);
    var v := KeyByte(st.key, z);
    var x: byte := if v == 0 then 1 else 0;
    s := Loaded(b, cont, Gap(tr, n, z), x);
    LoadedReady(b, cont, Gap(tr, n, z), x);
    TrailStart(s);
    u := RunWalk(s, s, 0, b, cont, st.call, MAX_STEPS, Trail([], None));
    key := WhatIsRead(s, u, b, tr, n, st.size);
    PassMisses(s, u, b, cont, tr, n, z, v, x);
    assert ByteRead(u.mem, 0, b, u.regs[ESP] + Cursor(d, n, z), key[z]);
    assert key[z] != v == Spread(st)[z];
  }

  /* ---------- aligned push runs ---------- */

  lemma PathStep(b: seq<byte>, cur: nat, call: nat, i: Inst, len: nat)
    requires DecodesTo(b, cur, i, len) && len >= 1 && (i.PushImm? || i.Nop? || (i == LoadBase() && b[cur] == 0x89))
    ensures Next(b, cur, call) == Some(cur + len) && DecodeAt(b, cur).Some? && DecodeAt(b, cur).value.inst == i
  {
    hide DecodeAt;
  }

  /** A path that passes through `mid` has a trail that passes through there. */
  lemma {:induction false} WalkThrough(b: seq<byte>, cur: nat, mid: nat, call: nat, steps: nat, more: nat, tr: Trail)
    returns (left: nat, tm: Trail)
    requires PathTo(b, cur, call, call, steps) && PathTo(b, cur, mid, call, more) && mid <= call
    ensures PathTo(b, mid, call, call, left) && Walk(b, cur, call, steps, tr) == Walk(b, mid, call, left, tm)
    decreases steps
  {
    hide DecodeAt, Extended;
    if cur == mid {
      left, tm := steps, tr;
    } else if cur == call {
      PathOnward(b, cur, mid, call, more);
    } else {
      var d := NextCases(b, cur, call);
      left, tm := WalkThrough(b, Next(b, cur, call).value, mid, call, steps - 1, more - 1, Extended(tr, DecodeAt(b, cur).value.inst));
    }
  }

  lemma {:induction false} PathOnward(b: seq<byte>, cur: nat, goal: nat, call: nat, steps: nat)
    requires PathTo(b, cur, goal, call, steps)
    ensures cur <= goal
    decreases steps
  {
    hide DecodeAt;
    if cur != goal { PathOnward(b, Next(b, cur, call).value, goal, call, steps - 1); }
  }

  /** One step of a walk. */
  lemma WalkStep(b: seq<byte>, cur: nat, call: nat, steps: nat, tr: Trail, i: Inst, len: nat)
    requires PathTo(b, cur, call, call, steps) && cur < call
    requires DecodesTo(b, cur, i, len) && len >= 1 && (i.PushImm? || i.Nop? || (i == LoadBase() && b[cur] == 0x89))
    ensures steps > 0 && PathTo(b, cur + len, call, call, steps - 1)
    ensures Walk(b, cur, call, steps, tr) == Walk(b, cur + len, call, steps - 1, Extended(tr, i))
  {
    PathStep(b, cur, call, i, len);
    hide DecodeAt, DecodesTo, Extended, Next;
  }

  lemma LeImm(b: seq<byte>, at: nat)
    requires at + 4 <= |b|
    ensures LeBytes(Imm32(b, at)) == b[at..at + 4]
  {
    Le32Digits(b[at], b[at + 1], b[at + 2], b[at + 3]);
    assert b[at..at + 4] == [b[at], b[at + 1], b[at + 2], b[at + 3]];
    hide Le32;
  }

  /** Walking over an aligned run of pushes puts its bytes in front, nearest push first. */
  lemma {:induction false} WalkRun(b: seq<byte>, end: nat, call: nat, steps: nat, tr: Trail) returns (left: nat)
    requires end <= call <= |b| && PathTo(b, RunStart(b, end), call, call, steps)
    ensures PathTo(b, end, call, call, left)
    ensures Walk(b, RunStart(b, end), call, steps, tr) == Walk(b, end, call, left, tr.(pushed := PushRun(b, end) + tr.pushed))
    decreases end
  {
    hide PathTo, Walk, DecodesTo, Imm32, LeBytes;
    if end >= 5 && b[end - 5] == 0x68 {
      left := WalkRun(b, end - 5, call, steps, tr);
      PushDecodes(b, end - 5);
      var t1 := tr.(pushed := PushRun(b, end - 5) + tr.pushed);
      WalkStep(b, end - 5, call, left, t1, PushImm(Imm32(b, end - 4)), 5);
      LeImm(b, end - 4);
      JoinPushed(b[end - 4..end], PushRun(b, end - 5), tr.pushed);
      left := left - 1;
    } else {
      left := steps;
      assert PushRun(b, end) + tr.pushed == tr.pushed;
    }
  }

  lemma JoinPushed(a: seq<byte>, b: seq<byte>, c: seq<byte>)
    ensures a + (b + c) == (a + b) + c
  {
  }

  lemma MovEbxDecodes()
    ensures DecodesTo([0x89, 0xE3], 0, LoadBase(), 2)
  {
  }

  lemma MovEbxOf(b: seq<byte>, st: Stub)
    requires Accepted(b, st) && st.kind.XorRepeatingKey?
    ensures st.call >= 7 && st.call <= |b| && DecodesTo(b, st.call - 2, LoadBase(), 2) && b[st.call - 2] == 0x89
  {
    hide DecodesTo, BackJump;
    MovEbxDecodes();
    Fits(b, st.call - 2, [0x89, 0xE3], 0, LoadBase(), 2);
    ByteOf(b, st.call - 2, [0x89, 0xE3], 0);
  }

  lemma CursorAtTop(n: nat, j: nat)
    requires n > 0
    ensures Cursor(0, n, j) == j % n
  {
    if j >= n { ModUnique(j, n, (j - n) / n + 1, (j - n) % n); }
  }

  /** With the key on top of the stack and EBX there, the passes read it over and over. */
  lemma TopIsRead(tr: Trail, st: Stub)
    requires tr.ebx == Some(|tr.pushed|) && st.key != [] && st.key <= tr.pushed
    ensures forall j :: 0 <= j < st.size ==> Meets(tr, |st.key|, j, KeyByte(st.key, j))
  {
    hide Cursor;
    forall j | 0 <= j < st.size ensures Meets(tr, |st.key|, j, KeyByte(st.key, j))
    {
      CursorAtTop(|st.key|, j);
    }
  }

  /** If the path goes through the first push of the adjacent run, the recognized key is on the path. */
  lemma AlignedIsOnPath(b: seq<byte>, cont: nat, st: Stub)
    requires Accepted(b, st) && st.kind.XorRepeatingKey? && |b| <= MAX_BLOB && st.call >= 7 && st.call <= |b|
    requires PathTo(b, cont, st.call, st.call, MAX_STEPS) && PathTo(b, cont, RunStart(b, st.call - 2), st.call, MAX_STEPS)
    ensures KeyOnPath(b, cont, st)
  {
    hide Accepted, PathTo, Walk, DecodesTo, PushRun, Meets, KeyByte;
    MovEbxOf(b, st);
    KeyOf(b, st);
    var left, tm := WalkThrough(b, cont, RunStart(b, st.call - 2), st.call, MAX_STEPS, MAX_STEPS, Trail([], None));
    left := WalkRun(b, st.call - 2, st.call, left, tm);
    var t2 := tm.(pushed := PushRun(b, st.call - 2) + tm.pushed);
    WalkStep(b, st.call - 2, st.call, left, t2, LoadBase(), 2);
    WalkEnd(b, st.call, left - 1, Extended(t2, LoadBase()));
    TopIsRead(Extended(t2, LoadBase()), st);
  }

  lemma WalkEnd(b: seq<byte>, call: nat, steps: nat, tr: Trail)
    requires PathTo(b, call, call, call, steps)
    ensures Walk(b, call, call, steps, tr) == tr
  {
  }
}
