/** Which functions the stack-initializer recognizer accepts, told by their instructions and without
    its tables (src/harness_reasoning.hpp, recovery_native_initializer). */
module InitializerForms {
  import opened Common
  import opened X86
  import opened Stage
  import opened Initializer

  /* ---------- the grammar ---------- */

  predicate Overwrites(i: Inst, r: Reg)
  {
    (i.MovRegImm? || i.Lea?) && i.dst == r
  }

  /** After the first `n` instructions, register `r` holds the constant `v`. */
  predicate HoldsConstant(code: seq<Inst>, n: nat, r: Reg, v: u32)
    requires n <= |code|
  {
    exists j :: 0 <= j < n && code[j] == MovRegImm(r, v) && forall m :: j < m < n ==> !Overwrites(code[m], r)
  }

  /** After the first `n` instructions, register `r` holds EBP plus `off`. */
  predicate HoldsAddress(code: seq<Inst>, n: nat, r: Reg, off: int)
    requires n <= |code|
  {
    exists j :: 0 <= j < n && code[j] == Lea(r, EBP, off) && forall m :: j < m < n ==> !Overwrites(code[m], r)
  }

  predicate StoresAtOffset(i: Inst, off: int)
  {
    (i.StoreImmAtEbp? || i.StoreLowAtEbp?) && i.disp == off
  }

  /** Instruction `j` stores the byte `v` at EBP plus `off`. */
  predicate StoresByte(code: seq<Inst>, j: nat, off: int, v: byte)
    requires j < |code|
  {
    || code[j] == StoreImmAtEbp(off, v)
    || (code[j].StoreLowAtEbp? && code[j].disp == off && HoldsLow(code, j, code[j].src, v))
  }

  predicate HoldsLow(code: seq<Inst>, n: nat, r: Reg, v: byte)
    requires n <= |code|
  {
    exists c: u32 :: HoldsConstant(code, n, r, c) && c % 256 == v
  }

  predicate FreshStore(code: seq<Inst>, n: nat, off: int, frame: nat)
    requires n <= |code|
  {
    -(frame as int) <= off < 0 && forall j :: 0 <= j < n ==> !StoresAtOffset(code[j], off)
  }

  /** Instruction `n` is in the grammar: it moves a constant, takes an address in the frame, or stores
      a known byte at a place in the frame that was not stored before. */
  predicate Permitted(code: seq<Inst>, n: nat, frame: nat)
    requires n < |code|
  {
    match code[n]
    case Nop => true
    case MovRegImm(d, v) => d != EBP && d != ESP
    case Lea(d, b, off) => d != EBP && d != ESP && b == EBP && -(frame as int) <= off < 0
    case StoreImmAtEbp(off, v) => FreshStore(code, n, off, frame)
    case StoreLowAtEbp(off, r) => FreshStore(code, n, off, frame) && exists c: u32 :: HoldsConstant(code, n, r, c)
    case _ => false
  }

  /* ---------- the tables say exactly that ---------- */

  ghost function Learned(code: seq<Inst>, n: nat, frame: nat): Option<Known>
    requires n <= |code|
  {
    if n == 0 then Some(Known(map[], map[], map[]))
    else if Learned(code, n - 1, frame).None? then None
    else Learn(Learned(code, n - 1, frame).value, frame, code[n - 1])
  }

  ghost predicate Tells(code: seq<Inst>, n: nat, k: Known)
    requires n <= |code|
  {
    && (forall r, v :: HoldsConstant(code, n, r, v) <==> r in k.constants && k.constants[r] == v)
    && (forall r, off :: HoldsAddress(code, n, r, off) <==> r in k.pointers && k.pointers[r] == off)
    && (forall off :: off in k.stores <==> exists j :: 0 <= j < n && StoresAtOffset(code[j], off))
    && (forall j, off :: 0 <= j < n && StoresAtOffset(code[j], off) ==> off in k.stores && StoresByte(code, j, off, k.stores[off]))
  }

  lemma ConstantStep(code: seq<Inst>, n: nat, r: Reg, v: u32)
    requires 0 < n <= |code|
    ensures HoldsConstant(code, n, r, v) <==> code[n - 1] == MovRegImm(r, v) || (HoldsConstant(code, n - 1, r, v) && !Overwrites(code[n - 1], r))
  {
    if HoldsConstant(code, n - 1, r, v) && !Overwrites(code[n - 1], r) {
      var j :| 0 <= j < n - 1 && code[j] == MovRegImm(r, v) && forall m :: j < m < n - 1 ==> !Overwrites(code[m], r);
      assert forall m :: j < m < n ==> !Overwrites(code[m], r);
    }
  }

  lemma AddressStep(code: seq<Inst>, n: nat, r: Reg, off: int)
    requires 0 < n <= |code|
    ensures HoldsAddress(code, n, r, off) <==> code[n - 1] == Lea(r, EBP, off) || (HoldsAddress(code, n - 1, r, off) && !Overwrites(code[n - 1], r))
  {
    if HoldsAddress(code, n - 1, r, off) && !Overwrites(code[n - 1], r) {
      var j :| 0 <= j < n - 1 && code[j] == Lea(r, EBP, off) && forall m :: j < m < n - 1 ==> !Overwrites(code[m], r);
      assert forall m :: j < m < n ==> !Overwrites(code[m], r);
    }
  }

  lemma PermittedIsLearnt(code: seq<Inst>, n: nat, frame: nat, k: Known)
    requires n < |code| && Tells(code, n, k)
    ensures Learn(k, frame, code[n]).Some? <==> Permitted(code, n, frame)
  {
    hide HoldsConstant, HoldsAddress, StoresByte;
    if code[n].StoreLowAtEbp? {
      var r := code[n].src;
      assert r in k.constants ==> HoldsConstant(code, n, r, k.constants[r]);
    }
  }

  lemma RegistersStep(code: seq<Inst>, n: nat, frame: nat, k: Known)
    requires 0 < n <= |code| && Tells(code, n - 1, k) && Learn(k, frame, code[n - 1]).Some?
    ensures var k' := Learn(k, frame, code[n - 1]).value;
            && (forall r, v :: HoldsConstant(code, n, r, v) <==> r in k'.constants && k'.constants[r] == v)
            && (forall r, off :: HoldsAddress(code, n, r, off) <==> r in k'.pointers && k'.pointers[r] == off)
  {
    var k' := Learn(k, frame, code[n - 1]).value;
    hide HoldsConstant, HoldsAddress, StoresByte;
    forall r, v ensures HoldsConstant(code, n, r, v) <==> r in k'.constants && k'.constants[r] == v { ConstantStep(code, n, r, v); }
    forall r, off ensures HoldsAddress(code, n, r, off) <==> r in k'.pointers && k'.pointers[r] == off { AddressStep(code, n, r, off); }
  }

  lemma StoresStep(code: seq<Inst>, n: nat, frame: nat, k: Known)
    requires 0 < n <= |code| && Tells(code, n - 1, k) && Learn(k, frame, code[n - 1]).Some?
    ensures var k' := Learn(k, frame, code[n - 1]).value;
            && (forall off :: off in k'.stores <==> exists j :: 0 <= j < n && StoresAtOffset(code[j], off))
            && (forall j, off :: 0 <= j < n && StoresAtOffset(code[j], off) ==> off in k'.stores && StoresByte(code, j, off, k'.stores[off]))
  {
    var k' := Learn(k, frame, code[n - 1]).value;
    hide HoldsConstant, HoldsAddress;
    forall off ensures off in k'.stores <==> off in k.stores || StoresAtOffset(code[n - 1], off) {}
    if code[n - 1].StoreLowAtEbp? {
      var r := code[n - 1].src;
      assert HoldsConstant(code, n - 1, r, k.constants[r]);
    }
  }

  /** The tables hold exactly what the instructions say, and refuse exactly what the grammar excludes. */
  lemma {:induction false} LearnedExactly(code: seq<Inst>, n: nat, frame: nat)
    requires n <= |code|
    ensures Learned(code, n, frame).Some? <==> forall m :: 0 <= m < n ==> Permitted(code, m, frame)
    ensures Learned(code, n, frame).Some? ==> Tells(code, n, Learned(code, n, frame).value)
    decreases n
  {
    hide Tells, Permitted, Learn;
    if n == 0 {
      NothingTold(code);
    } else {
      LearnedExactly(code, n - 1, frame);
      if Learned(code, n - 1, frame).Some? {
        var k := Learned(code, n - 1, frame).value;
        PermittedIsLearnt(code, n - 1, frame, k);
        if Learn(k, frame, code[n - 1]).Some? {
          RegistersStep(code, n, frame, k);
          StoresStep(code, n, frame, k);
          JoinTells(code, n, Learn(k, frame, code[n - 1]).value);
        }
      }
    }
  }

  lemma NothingTold(code: seq<Inst>)
    ensures Tells(code, 0, Known(map[], map[], map[]))
  {
  }

  lemma JoinTells(code: seq<Inst>, n: nat, k: Known)
    requires n <= |code|
    requires forall r, v :: HoldsConstant(code, n, r, v) <==> r in k.constants && k.constants[r] == v
    requires forall r, off :: HoldsAddress(code, n, r, off) <==> r in k.pointers && k.pointers[r] == off
    requires forall off :: off in k.stores <==> exists j :: 0 <= j < n && StoresAtOffset(code[j], off)
    requires forall j, off :: 0 <= j < n && StoresAtOffset(code[j], off) ==> off in k.stores && StoresByte(code, j, off, k.stores[off])
    ensures Tells(code, n, k)
  {
  }

  /* ---------- the whole function ---------- */

  /** `ds` decode one after the other from offset `at`, within the limit. */
  predicate Lists(b: seq<byte>, at: nat, ds: seq<Decoded>)
    decreases |ds|
  {
    ds == [] ||
    (at < |b| && at < 16384 && DecodesTo(b, at, ds[0].inst, ds[0].len) && Lists(b, at + ds[0].len, ds[1..]))
  }

  function EndOf(at: nat, ds: seq<Decoded>): nat
    decreases |ds|
  {
    if ds == [] then at else EndOf(at + ds[0].len, ds[1..])
  }

  function Insts(ds: seq<Decoded>): (code: seq<Inst>)
    ensures |code| == |ds| && forall j :: 0 <= j < |ds| ==> code[j] == ds[j].inst
  {
    seq(|ds|, j requires 0 <= j < |ds| => ds[j].inst)
  }

  ghost function LearnSeq(k: Known, code: seq<Inst>, frame: nat): Option<Known>
    decreases |code|
  {
    if code == [] then Some(k)
    else if Learn(k, frame, code[0]).None? then None
    else LearnSeq(Learn(k, frame, code[0]).value, code[1..], frame)
  }

  lemma {:induction false} LearnSeqMore(k: Known, code: seq<Inst>, i: Inst, frame: nat)
    ensures LearnSeq(k, code + [i], frame) ==
              if LearnSeq(k, code, frame).None? then None else Learn(LearnSeq(k, code, frame).value, frame, i)
    decreases |code|
  {
    hide Learn;
    if code == [] {
      assert (code + [i])[1..] == [];
    } else {
      assert (code + [i])[1..] == code[1..] + [i];
      if Learn(k, frame, code[0]).Some? { LearnSeqMore(Learn(k, frame, code[0]).value, code[1..], i, frame); }
    }
  }

  lemma {:induction false} LearnSeqIs(code: seq<Inst>, n: nat, frame: nat)
    requires n <= |code|
    ensures LearnSeq(Known(map[], map[], map[]), code[..n], frame) == Learned(code, n, frame)
    decreases n
  {
    hide Learn;
    if n > 0 {
      LearnSeqIs(code, n - 1, frame);
      assert code[..n] == code[..n - 1] + [code[n - 1]];
      LearnSeqMore(Known(map[], map[], map[]), code[..n - 1], code[n - 1], frame);
    }
  }

  lemma InstsTail(ds: seq<Decoded>)
    requires ds != []
    ensures Insts(ds)[1..] == Insts(ds[1..])
  {
  }

  /** The recognizer passes over one instruction that it can learn. */
  lemma WalksOne(b: seq<byte>, at: nat, d: Decoded, k: Known, frame: nat, e: Expected)
    requires at < |b| && at < 16384 && DecodesTo(b, at, d.inst, d.len) && Learn(k, frame, d.inst).Some?
    ensures Recognize(b, at, k, frame, e) == Recognize(b, at + d.len, Learn(k, frame, d.inst).value, frame, e)
  {
    CallUnknown(k, frame, d.inst);
    hide Learn, DecodeAt, Conclude;
  }

  /** The recognizer walks over instructions that it can learn. */
  lemma {:induction false} Walks(b: seq<byte>, at: nat, ds: seq<Decoded>, k: Known, frame: nat, e: Expected)
    requires Lists(b, at, ds) && LearnSeq(k, Insts(ds), frame).Some?
    ensures Recognize(b, at, k, frame, e) == Recognize(b, EndOf(at, ds), LearnSeq(k, Insts(ds), frame).value, frame, e)
    decreases |ds|
  {
    hide Learn, DecodesTo, Recognize;
    if ds != [] {
      InstsTail(ds);
      hide Insts;
      WalksOne(b, at, ds[0], k, frame, e);
      Walks(b, at + ds[0].len, ds[1..], Learn(k, frame, ds[0].inst).value, frame, e);
    }
  }

  lemma CallUnknown(k: Known, frame: nat, i: Inst)
    requires Learn(k, frame, i).Some?
    ensures !i.CallReg?
  {
  }

  /** Whatever the recognizer accepts is a list of learnt instructions and a call. */
  lemma {:induction false} Trace(b: seq<byte>, at: nat, k: Known, frame: nat, e: Expected) returns (ds: seq<Decoded>, r: Reg, len: nat)
    requires Recognize(b, at, k, frame, e).Ok?
    ensures Lists(b, at, ds) && LearnSeq(k, Insts(ds), frame).Some? && EndOf(at, ds) < |b| && EndOf(at, ds) < 16384
    ensures DecodesTo(b, EndOf(at, ds), CallReg(r), len) && r in LearnSeq(k, Insts(ds), frame).value.pointers
    ensures Recognize(b, at, k, frame, e) == Conclude(LearnSeq(k, Insts(ds), frame).value, r, EndOf(at, ds), e)
    decreases |b| - at
  {
    hide Learn, DecodeAt, Conclude;
    var d := DecodeAt(b, at).value;
    if d.inst.CallReg? && d.inst.r in k.pointers {
      ds, r, len := [], d.inst.r, d.len;
    } else {
      var rest;
      rest, r, len := Trace(b, at + d.len, Learn(k, frame, d.inst).value, frame, e);
      ds := [d] + rest;
      InstsTail(ds);
      assert ds[1..] == rest;
    }
  }

  /** The bytes from `lo` on are all that is stored, and are what is expected. */
  ghost predicate Buffer(k: Known, lo: int, bytes: seq<byte>, e: Expected)
  {
    && |bytes| == e.inputSize && bytes != [] && 4 - lo == e.localBase && e.sha(bytes) == e.inputSha
    && (forall off :: off in k.stores <==> lo <= off < lo + |bytes|)
    && (forall i :: 0 <= i < |bytes| ==> bytes[i] == k.stores[lo + i])
  }

  function Interval(lo: int, n: nat): (s: set<int>)
    ensures |s| == n && forall off :: off in s <==> lo <= off < lo + n
  {
    if n == 0 then {} else Interval(lo, n - 1) + {lo + n - 1}
  }

  lemma WholeInterval(stores: map<int, byte>, lo: int)
    requires Contiguous(stores, lo, |stores|)
    ensures forall off :: off in stores <==> lo <= off < lo + |stores|
  {
    var s := Interval(lo, |stores|);
    forall off | off in s ensures off in stores.Keys { assert off in stores; }
    SubsetSame(s, stores.Keys);
  }

  lemma SubsetSame(a: set<int>, b: set<int>)
    requires a <= b && |a| == |b|
    ensures a == b
  {
    assert |b - a| == |b| - |a| == 0;
    forall x | x in b ensures x in a
    {
      assert x !in b - a;
    }
  }

  lemma ConcludeExactly(k: Known, r: Reg, at: nat, e: Expected, c: Claim)
    requires r in k.pointers
    ensures Conclude(k, r, at, e) == Ok(c) <==> c.displacement == k.pointers[r] && c.callOffset == at && Buffer(k, c.displacement, c.bytes, e)
  {
    var lo := k.pointers[r];
    if Conclude(k, r, at, e) == Ok(c) { WholeInterval(k.stores, lo); }
    if c.displacement == lo && Buffer(k, lo, c.bytes, e) {
      assert k.stores.Keys == Interval(lo, |c.bytes|);
      assert |k.stores| == |c.bytes| by { assert |k.stores.Keys| == |k.stores|; }
      assert lo in k.stores;
      assert Collected(k.stores, lo, |k.stores|) == c.bytes;
    }
  }

  /** push ebp; mov ebp, esp; sub esp, size */
  predicate Frame(b: seq<byte>, size: nat, len: nat)
  {
    && |b| >= 9 && b[0] == 0x55 && ((b[1] == 0x89 && b[2] == 0xE5) || (b[1] == 0x8B && b[2] == 0xEC))
    && 16 <= size <= 65536 && DecodesTo(b, 3, SubImm(ESP, size), len)
  }

  predicate Stored(code: seq<Inst>, off: int) { exists j :: 0 <= j < |code| && StoresAtOffset(code[j], off) }

  /** The instructions store exactly these bytes, side by side from `lo`. */
  ghost predicate StoresBuffer(code: seq<Inst>, lo: int, bytes: seq<byte>)
  {
    && (forall off :: Stored(code, off) <==> lo <= off < lo + |bytes|)
    && (forall j, off :: 0 <= j < |code| && StoresAtOffset(code[j], off) && lo <= off < lo + |bytes| ==> StoresByte(code, j, off, bytes[off - lo]))
  }

  /** The function sets up a frame, runs a list of permitted instructions that store exactly the
      expected bytes side by side from EBP plus `lo`, each from its constant, and calls through a
      register that holds that address. */
  ghost predicate Initializes(b: seq<byte>, e: Expected, c: Claim, size: nat, len: nat, ds: seq<Decoded>, r: Reg)
  {
    var code := Insts(ds);
    && Frame(b, size, len) && Lists(b, 3 + len, ds) && c.callOffset == EndOf(3 + len, ds) < |b| && c.callOffset < 16384
    && (forall m :: 0 <= m < |code| ==> Permitted(code, m, size))
    && (exists l :: DecodesTo(b, c.callOffset, CallReg(r), l)) && HoldsAddress(code, |code|, r, c.displacement)
    && |c.bytes| == e.inputSize && c.bytes != [] && 4 - c.displacement == e.localBase && e.sha(c.bytes) == e.inputSha
    && StoresBuffer(code, c.displacement, c.bytes)
  }

  /** The recognizer accepts a function exactly when it has this form, and reports exactly its bytes. */
  lemma AcceptedForm(b: seq<byte>, e: Expected, c: Claim, size: nat, len: nat, ds: seq<Decoded>, r: Reg)
    requires Initializes(b, e, c, size, len, ds, r)
    ensures RecognizeInitializer(b, e) == Ok(c)
  {
    var code := Insts(ds);
    LearnedExactly(code, |code|, size);
    LearnSeqIs(code, |code|, size);
    assert code[..|code|] == code;
    var k := Learned(code, |code|, size).value;
    FrameIs(b, size, len);
    hide DecodeAt, Learned, Permitted, HoldsAddress, HoldsConstant, Lists, EndOf, Insts, Conclude, Recognize;
    Walks(b, 3 + len, ds, Known(map[], map[], map[]), size, e);
    assert HoldsAddress(code, |code|, r, c.displacement);
    BufferOf(code, k, c, e);
    ConcludeExactly(k, r, c.callOffset, e, c);
    var l :| DecodesTo(b, c.callOffset, CallReg(r), l);
    AtCall(b, c.callOffset, k, size, e, r, l);
  }

  lemma AtCall(b: seq<byte>, at: nat, k: Known, frame: nat, e: Expected, r: Reg, l: nat)
    requires at < |b| && at < 16384 && DecodesTo(b, at, CallReg(r), l) && r in k.pointers
    ensures Recognize(b, at, k, frame, e) == Conclude(k, r, at, e)
  {
    hide DecodeAt, Conclude;
  }

  lemma FrameIs(b: seq<byte>, size: nat, len: nat)
    requires Frame(b, size, len)
    ensures HasFrame(b) && FrameSize(b) == size && DecodeAt(b, 3).value.len == len
  {
    hide DecodeAt;
  }

  lemma SameByte(code: seq<Inst>, j: nat, off: int, v: byte, w: byte)
    requires j < |code| && StoresByte(code, j, off, v) && StoresByte(code, j, off, w)
    ensures v == w
  {
    if code[j].StoreLowAtEbp? {
      var x: u32 :| HoldsConstant(code, j, code[j].src, x) && x % 256 == v;
      var y: u32 :| HoldsConstant(code, j, code[j].src, y) && y % 256 == w;
      OneConstant(code, j, code[j].src, x, y);
    }
  }

  lemma OneConstant(code: seq<Inst>, n: nat, r: Reg, x: u32, y: u32)
    requires n <= |code| && HoldsConstant(code, n, r, x) && HoldsConstant(code, n, r, y)
    ensures x == y
  {
    var i :| 0 <= i < n && code[i] == MovRegImm(r, x) && forall m :: i < m < n ==> !Overwrites(code[m], r);
    var j :| 0 <= j < n && code[j] == MovRegImm(r, y) && forall m :: j < m < n ==> !Overwrites(code[m], r);
  }

  /** What the instructions store is the buffer of the tables, and the other way round. */
  lemma BufferOf(code: seq<Inst>, k: Known, c: Claim, e: Expected)
    requires Tells(code, |code|, k)
    ensures Buffer(k, c.displacement, c.bytes, e) <==>
              && |c.bytes| == e.inputSize && c.bytes != [] && 4 - c.displacement == e.localBase && e.sha(c.bytes) == e.inputSha
              && StoresBuffer(code, c.displacement, c.bytes)
  {
    hide HoldsAddress, HoldsConstant, StoresByte;
    var lo := c.displacement;
    forall off ensures Stored(code, off) <==> off in k.stores {}
    if StoresBuffer(code, lo, c.bytes) {
      forall i | 0 <= i < |c.bytes| ensures c.bytes[i] == k.stores[lo + i]
      {
        assert Stored(code, lo + i);
        var j :| 0 <= j < |code| && StoresAtOffset(code[j], lo + i);
        assert StoresByte(code, j, lo + i, c.bytes[lo + i - lo]);
        SameByte(code, j, lo + i, c.bytes[i], k.stores[lo + i]);
      }
    }
  }

  lemma OnlyTheseForms(b: seq<byte>, e: Expected, c: Claim) returns (size: nat, len: nat, ds: seq<Decoded>, r: Reg)
    requires RecognizeInitializer(b, e) == Ok(c)
    ensures Initializes(b, e, c, size, len, ds, r)
  {
    hide DecodeAt, Learned, Permitted, HoldsAddress, HoldsConstant, StoresByte, StoresBuffer, Conclude, Recognize, Learn, RecognizeInitializer, Lists, EndOf,
      DecodesTo, Tells, Buffer, Insts, Frame;
    var l;
    size, len := IsFrame(b, e);
    ds, r, l := Trace(b, 3 + len, Known(map[], map[], map[]), size, e);
    assert Recognize(b, 3 + len, Known(map[], map[], map[]), size, e) == Ok(c);
    TablesOf(ds, r, size, EndOf(3 + len, ds), e, c);
  }

  /** What the tables hold at an accepted call. */
  lemma TablesOf(ds: seq<Decoded>, r: Reg, size: nat, at: nat, e: Expected, c: Claim)
    requires LearnSeq(Known(map[], map[], map[]), Insts(ds), size).Some?
    requires r in LearnSeq(Known(map[], map[], map[]), Insts(ds), size).value.pointers
    requires Conclude(LearnSeq(Known(map[], map[], map[]), Insts(ds), size).value, r, at, e) == Ok(c)
    ensures var code := Insts(ds);
            && c.callOffset == at && (forall m :: 0 <= m < |code| ==> Permitted(code, m, size))
            && HoldsAddress(code, |code|, r, c.displacement) && StoresBuffer(code, c.displacement, c.bytes)
            && |c.bytes| == e.inputSize && c.bytes != [] && 4 - c.displacement == e.localBase && e.sha(c.bytes) == e.inputSha
  {
    hide Learned, Permitted, HoldsAddress, HoldsConstant, StoresByte, StoresBuffer, Conclude, Learn, Tells, Insts, Buffer;
    var code := Insts(ds);
    LearnSeqIs(code, |code|, size);
    assert code[..|code|] == code;
    LearnedExactly(code, |code|, size);
    var k := Learned(code, |code|, size).value;
    ConcludeExactly(k, r, at, e, c);
    BufferOf(code, k, c, e);
    PointerTold(code, k, r);
  }

  lemma PointerTold(code: seq<Inst>, k: Known, r: Reg)
    requires Tells(code, |code|, k) && r in k.pointers
    ensures HoldsAddress(code, |code|, r, k.pointers[r])
  {
    hide HoldsAddress, HoldsConstant, StoresByte;
  }

  lemma IsFrame(b: seq<byte>, e: Expected) returns (size: nat, len: nat)
    requires RecognizeInitializer(b, e).Ok?
    ensures Frame(b, size, len) && RecognizeInitializer(b, e) == Recognize(b, 3 + len, Known(map[], map[], map[]), size, e)
  {
    hide DecodeAt, Recognize;
    size, len := FrameSize(b), DecodeAt(b, 3).value.len;
  }
}
