/** One decoder stage: the byte-level checks that accept a stub, and the bulk XOR that replaces
    running it (src/harness_reasoning.hpp). */
module Stage {
  import opened Common
  import opened X86

  datatype Kind = XorByte | XorDword | XorRepeatingKey

  /** A recognized stub: offset of its get-PC call, of its loop body, of the bytes it rewrites,
      their number, and the key. */
  datatype Stub = Stub(kind: Kind, call: nat, loop: nat, start: nat, size: nat, key: seq<byte>)

  predicate Exact(b: seq<byte>, at: nat, expected: seq<byte>)
  {
    at + |expected| <= |b| && b[at..at + |expected|] == expected
  }

  /** A matched pattern decodes in place as it does on its own. */
  lemma ExactDecodes(b: seq<byte>, at: nat, pattern: seq<byte>, p: nat)
    requires Exact(b, at, pattern) && DecodeAt(pattern, p).Some?
    ensures DecodeAt(b, at + p) == DecodeAt(pattern, p)
  {
    var len := DecodeAt(pattern, p).value.len;
    hide DecodeAt;
    assert b[at + p..at + p + len] == b[at..at + |pattern|][p..p + len];
    DecodeStable(pattern, p, b, at + p);
  }

  /** The bulk rewrite: byte start+i is XORed with key[i mod |key|], for i below size. */
  function Bulk(b: seq<byte>, start: nat, size: nat, key: seq<byte>): (r: seq<byte>)
    requires key != []
    ensures |r| == |b|
  {
    seq(|b|, k requires 0 <= k < |b| => if start <= k < start + size then Xor8(b[k], key[(k - start) % |key|]) else b[k])
  }

  predicate DecodesTo(b: seq<byte>, at: nat, i: Inst, len: nat)
  {
    DecodeAt(b, at) == Some(Decoded(i, len))
  }

  /** Offsets that depend on the stub's kind. */
  function BackAt(s: Stub): nat
  {
    s.loop + match s.kind case XorByte => 5 case XorDword => 12 case XorRepeatingKey => 6
  }
  function ExitAt(s: Stub): nat { BackAt(s) + 2 }
  function HeadAt(s: Stub): int { if s.kind.XorRepeatingKey? then s.call + 24 else s.loop - 5 }

  /** How many bytes the adjacent `68 imm32` run before offset `at` pushes. */
  function PushedBefore(b: seq<byte>, at: nat): (n: nat)
    requires at <= |b|
    ensures 5 * n <= at
  {
    if at >= 5 && b[at - 5] == 0x68 then 1 + PushedBefore(b, at - 5) else 0
  }

  /** The operand and state checks of `recovery_stage_validation`; `true` means no exception. */
  predicate Valid(b: seq<byte>, s: Stub)
  {
    && DecodesTo(b, s.call, Call(0), 5)
    && Exact(b, s.call + 5, [0x8B, 0x34, 0x24, 0x83, 0xC6])
    && (match s.kind
        case XorByte =>
          && s.loop == s.call + 21
          && Exact(b, s.call + 11, [0xB9]) && Exact(b, s.loop - 5, [0x83, 0xF9, 0])
          && Exact(b, s.loop, [0x80, 0x36]) && Exact(b, s.loop + 3, [0x46, 0x49])
        case XorDword =>
          && s.loop == s.call + 21
          && Exact(b, s.call + 11, [0xB9]) && Exact(b, s.loop - 5, [0x83, 0xF9, 0])
          && Exact(b, s.loop, [0x81, 0x36]) && Exact(b, s.loop + 6, [0x83, 0xC6, 4, 0x83, 0xE9, 4])
        case XorRepeatingKey =>
          && s.loop == s.call + 37 && s.call >= 7
          && Exact(b, s.call - 2, [0x89, 0xE3])
          && Exact(b, s.call + 11, [0x89, 0xF1, 0x81, 0xC1])
          && Exact(b, s.call + 19, [0x89, 0xD8, 0x83, 0xC0])
          && Exact(b, s.call + 24, [0x39, 0xD8, 0x75, 5, 0x89, 0xE3, 0x83, 0xC3, 4, 0x39, 0xCE])
          && Exact(b, s.loop, [0x8A, 0x13, 0x30, 0x16, 0x43, 0x46])
          && (var pushed := 4 * PushedBefore(b, s.call - 2);
              1 <= b[s.call + 23] <= 127 && b[s.call + 23] <= pushed <= b[s.call + 23] + 3))
    && DecodesTo(b, s.loop - 2, Jcc(if s.kind.XorDword? then LE else E, ExitAt(s) - s.loop), 2)
    && BackJump(b, s)
  }

  /** The back edge is a direct jump to the loop head, in the short or the near encoding. */
  predicate BackJump(b: seq<byte>, s: Stub)
    requires s.loop >= 5
  {
    var d := DecodeAt(b, BackAt(s));
    d.Some? && d.value.inst.Jmp? && BackAt(s) + d.value.len + d.value.inst.rel == HeadAt(s)
  }

  /** The first offset after the back jump, which the checks above do not bound. */
  function BackEnd(b: seq<byte>, s: Stub): nat
    requires s.loop >= 5 && BackJump(b, s)
  {
    BackAt(s) + DecodeAt(b, BackAt(s)).value.len
  }

  function KeyByte(key: seq<byte>, j: nat): byte
    requires key != []
  {
    key[j % |key|]
  }

  /** The rewrite changes no byte of the code before offset `end`: the key bytes that fall there are zero. */
  predicate Spares(s: Stub, end: nat)
  {
    s.key != [] && forall j :: 0 <= j < end - s.start && j < s.size ==> KeyByte(s.key, j) == 0
  }

  /** The get-PC header found by `header`: where the rewritten range starts and how long it is. */
  predicate HeaderMatches(b: seq<byte>, s: Stub)
  {
    && s.call + 19 <= s.loop <= |b|
    && Exact(b, s.call, [0xE8, 0, 0, 0, 0, 0x8B, 0x34, 0x24, 0x83, 0xC6])
    && (if b[s.call + 11] == 0xB9 then s.size == Imm32(b, s.call + 12)
        else Exact(b, s.call + 11, [0x89, 0xF1, 0x81, 0xC1]) && s.size == Imm32(b, s.call + 15))
    && b[s.call + 10] <= 127
    && s.start == s.call + 5 + b[s.call + 10]
    && 0 < s.size && s.start + s.size <= |b|
  }

  /** The little-endian bytes of the push run that ends at `at`, nearest push first. */
  function PushRun(b: seq<byte>, at: nat): (key: seq<byte>)
    requires at <= |b|
    ensures |key| == 4 * PushedBefore(b, at)
  {
    if at >= 5 && b[at - 5] == 0x68 then b[at - 4..at] + PushRun(b, at - 5) else []
  }

  /** `mov ebx, esp` ends at `cursor` and enough pushed bytes precede it. */
  predicate KeyEnds(b: seq<byte>, cursor: nat, n: nat)
    requires 2 <= cursor <= |b|
  {
    b[cursor - 2] == 0x89 && b[cursor - 1] == 0xE3 && |PushRun(b, cursor - 2)| >= n
  }

  /** `pushed_key`: the backward search for `mov ebx, esp` preceded by enough pushes. */
  function PushedKey(b: seq<byte>, cursor: nat, n: nat): seq<byte>
    requires cursor <= |b|
  {
    if cursor < 2 then []
    else if KeyEnds(b, cursor, n) then PushRun(b, cursor - 2)[..n]
    else PushedKey(b, cursor - 1, n)
  }

  /** The key-length search: the last `83 C0 ib` at an offset in lo..hi. */
  function KeySize(b: seq<byte>, lo: nat, hi: nat): nat
    requires hi <= lo || hi + 2 <= |b|
    decreases hi
  {
    if hi <= lo then 0
    else if b[hi - 1] == 0x83 && b[hi] == 0xC0 then b[hi + 1]
    else KeySize(b, lo, hi - 1)
  }

  /** What the scan of `recover_initialized_x86_blob` reads off the bytes at `loop`. */
  predicate Recognized(b: seq<byte>, s: Stub)
  {
    && HeaderMatches(b, s)
    && (match s.kind
        case XorByte =>
          s.loop + 12 < |b| && Exact(b, s.loop, [0x80, 0x36]) && s.key == [b[s.loop + 2]]
        case XorDword =>
          s.loop + 15 < |b| && Exact(b, s.loop, [0x81, 0x36]) && s.key == b[s.loop + 2..s.loop + 6] && s.size % 4 == 0
        case XorRepeatingKey =>
          && s.loop + 12 < |b| && Exact(b, s.loop, [0x8A, 0x13, 0x30, 0x16, 0x43, 0x46])
          && (var n := KeySize(b, if s.loop > 32 then s.loop - 32 else 0, s.loop - 3);
              1 <= n <= 128 && s.key == PushedKey(b, s.loop, n) != []))
  }

  /** A stub that recovery applies in bulk. */
  predicate Accepted(b: seq<byte>, s: Stub)
  {
    Recognized(b, s) && Valid(b, s) && ExitAt(s) <= s.start && s.size <= 0x7FFF_FFFF
  }
}
