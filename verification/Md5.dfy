/**
 MD5 as md5.hpp computes it, against RFC 1321: padding on the fly instead of a padded copy,
 a tuple that rotates instead of registers updated in place, rewritten auxiliary functions
 and computed indices instead of the tables of the RFC.
 */
module Md5 {
  import opened Bytes
  import opened Md5Mixing

  /** Four registers, or the tuple of the original. */
  datatype Quad<W> = Quad(a: W, b: W, c: W, d: W)

  type Words = Quad<word>

  /** The table of section 3.4: 64 words. What is proved does not depend on which. */
  type Table = s: seq<word> | |s| == 64 witness seq(64, _ => 0)

  const INITIAL: Words := Quad(0x67452301, 0xefcdab89, 0x98badcfe, 0x10325476)

  // ---- RFC 1321 -----------------------------------------------------------------------------

  function Zeros(n: nat): (r: seq<byte>)
    ensures |r| == n
  {
    seq(n, _ => 0)
  }

  /** How many zeros bring the length to 56 modulo 64. */
  function ZerosNeeded(n: nat): (z: nat)
    ensures z < 64 && (n + 1 + z) % 64 == 56
  {
    (119 - n % 64) % 64
  }

  lemma PaddedLength(n: nat)
    ensures (n + 1 + ZerosNeeded(n) + 8) % 64 == 0
  {
  }

  /** Sections 3.1 and 3.2. */
  function Padded(message: seq<byte>): (r: seq<byte>)
    ensures |r| % 64 == 0 && |r| == |message| + 1 + ZerosNeeded(|message|) + 8
  {
    PaddedLength(|message|);
    message + [0x80] + Zeros(ZerosNeeded(|message|)) + LittleEndian(8 * |message| % Pow256(8), 8)
  }

  /** Four bytes as a word, low-order byte first. */
  function Word(b0: byte, b1: byte, b2: byte, b3: byte): word {
    (b0 as word) | ((b1 as word) << 8) | ((b2 as word) << 16) | ((b3 as word) << 24)
  }

  /** The sixteen words of the block at `i`. */
  function BlockWords(bytes: seq<byte>, i: nat): (r: seq<word>)
    requires i + 64 <= |bytes|
    ensures |r| == 16
  {
    seq(16, k requires 0 <= k < 16 =>
      Word(bytes[i + 4 * k], bytes[i + 4 * k + 1], bytes[i + 4 * k + 2], bytes[i + 4 * k + 3]))
  }

  // The index of the word and the shift of every operation, round by round, as listed in section 3.4.

  const ROUND1: seq<(nat, word)> := [
    (0, 7), (1, 12), (2, 17), (3, 22), (4, 7), (5, 12), (6, 17), (7, 22),
    (8, 7), (9, 12), (10, 17), (11, 22), (12, 7), (13, 12), (14, 17), (15, 22)
  ]

  const ROUND2: seq<(nat, word)> := [
    (1, 5), (6, 9), (11, 14), (0, 20), (5, 5), (10, 9), (15, 14), (4, 20),
    (9, 5), (14, 9), (3, 14), (8, 20), (13, 5), (2, 9), (7, 14), (12, 20)
  ]

  const ROUND3: seq<(nat, word)> := [
    (5, 4), (8, 11), (11, 16), (14, 23), (1, 4), (4, 11), (7, 16), (10, 23),
    (13, 4), (0, 11), (3, 16), (6, 23), (9, 4), (12, 11), (15, 16), (2, 23)
  ]

  const ROUND4: seq<(nat, word)> := [
    (0, 6), (7, 10), (14, 15), (5, 21), (12, 6), (3, 10), (10, 15), (1, 21),
    (8, 6), (15, 10), (6, 15), (13, 21), (4, 6), (11, 10), (2, 15), (9, 21)
  ]

  function Listed(t: nat): (nat, word)
    requires t < 64
  {
    if t < 16 then ROUND1[t] else if t < 32 then ROUND2[t - 16] else if t < 48 then ROUND3[t - 32] else ROUND4[t - 48]
  }

  /** a = b + ((a + f(b, c, d) + X[k] + T[i]) <<< s) */
  function Operation(sines: Table, t: nat, x: seq<word>, a: word, b: word, c: word, d: word): word
    requires t < 64 && |x| == 16
  {
    TablesAgree(t);
    var (k, s) := Listed(t);
    Add(b, Rotated(Sum4(Auxiliary(t, b, c, d), a, sines[t], x[k]), s))
  }

  type Op<!W> = (W, W, W, W) -> W

  /** One operation, in place: [ABCD], [DABC], [CDAB], [BCDA] in turn. */
  function InPlace<W>(op: Op<W>, t: nat, r: Quad<W>): Quad<W> {
    match t % 4
    case 0 => r.(a := op(r.a, r.b, r.c, r.d))
    case 1 => r.(d := op(r.d, r.a, r.b, r.c))
    case 2 => r.(c := op(r.c, r.d, r.a, r.b))
    case _ => r.(b := op(r.b, r.c, r.d, r.a))
  }

  function Numbered(sines: Table, t: nat, x: seq<word>): Op<word>
    requires t < 64 && |x| == 16
  {
    (a, b, c, d) => Operation(sines, t, x, a, b, c, d)
  }

  function Operations(sines: Table, t: nat, x: seq<word>, r: Words): Words
    requires t <= 64 && |x| == 16
  {
    if t == 0 then r else InPlace(Numbered(sines, t - 1, x), t - 1, Operations(sines, t - 1, x, r))
  }

  function Sum(p: Words, q: Words): Words {
    Quad(Add(p.a, q.a), Add(p.b, q.b), Add(p.c, q.c), Add(p.d, q.d))
  }

  /** What a block of sixteen words makes of the registers. */
  type Block = (Words, seq<word>) --> Words

  function OneBlock(sines: Table): Block {
    (r, x) requires |x| == 16 => Sum(r, Operations(sines, 64, x, r))
  }

  ghost predicate Total(block: Block) {
    forall r: Words, x: seq<word> :: |x| == 16 ==> block.requires(r, x)
  }

  /** The registers after the first `k` blocks. */
  function Registers(block: Block, bytes: seq<byte>, k: nat): Words
    requires 64 * k <= |bytes| && Total(block)
  {
    if k == 0 then INITIAL else block(Registers(block, bytes, k - 1), BlockWords(bytes, 64 * (k - 1)))
  }

  function Digest(sines: Table, message: seq<byte>): Words {
    Registers(OneBlock(sines), Padded(message), |Padded(message)| / 64)
  }

  // ---- md5.hpp --------------------------------------------------------------------------------

  const TWO32 := 0x1_0000_0000

  function GetPaddedMessageLength(n: nat): nat {
    (n + 72) % TWO32 / 64 * 64
  }

  function ExtractByte(value: nat, i: nat): byte {
    value / Pow256(i) % 256
  }

  /** Byte `i` of the padded message of length `m`; the length in bits is a 32-bit product. */
  function GetPaddedMessageByte(data: seq<byte>, m: nat, i: nat): byte
    requires 8 <= m
  {
    if i < |data| then data[i]
    else if i == |data| then 0x80
    else if i >= m - 8 then ExtractByte(|data| * 8 % TWO32, i - (m - 8))
    else 0
  }

  function GetRoundData(data: seq<byte>, m: nat, i: nat): (r: seq<word>)
    requires 8 <= m
    ensures |r| == 16
  {
    seq(16, k requires 0 <= k < 16 =>
      Word(GetPaddedMessageByte(data, m, i + 4 * k), GetPaddedMessageByte(data, m, i + 4 * k + 1),
           GetPaddedMessageByte(data, m, i + 4 * k + 2), GetPaddedMessageByte(data, m, i + 4 * k + 3)))
  }

  function CalcG(i: nat): (g: nat)
    requires i < 64
    ensures g < 16
  {
    if i < 16 then i
    else if i < 32 then (5 * i + 1) % 16
    else if i < 48 then (3 * i + 5) % 16
    else 7 * i % 16
  }

  function GetShift(i: nat): word
    requires i < 64
  {
    SHIFTS[i / 16 * 4 + i % 4]
  }

  function ApplyStep(sines: Table, i: nat, data: seq<word>, q: Words): Words
    requires i < 64 && |data| == 16 && GetShift(i) <= 32
  {
    var f := Sum4(CalcF(i, q.b, q.c, q.d), q.a, sines[i], data[CalcG(i)]);
    Quad(q.d, Add(q.b, LeftRotate(f, GetShift(i))), q.b, q.c)
  }

  // ---- The parts agree --------------------------------------------------------------------------

  lemma Round1Agrees(t: nat)
    requires t < 16
    ensures ROUND1[t] == (CalcG(t), SHIFTS[t % 4])
  {
  }

  lemma Round2Agrees(t: nat)
    requires t < 16
    ensures ROUND2[t] == (CalcG(t + 16), SHIFTS[4 + t % 4])
  {
  }

  lemma Round3Agrees(t: nat)
    requires t < 16
    ensures ROUND3[t] == (CalcG(t + 32), SHIFTS[8 + t % 4])
  {
  }

  lemma Round4Agrees(t: nat)
    requires t < 16
    ensures ROUND4[t] == (CalcG(t + 48), SHIFTS[12 + t % 4])
  {
  }

  lemma ShiftOfRound(t: nat)
    requires t < 64
    ensures GetShift(t) == SHIFTS[if t < 16 then t % 4 else if t < 32 then 4 + (t - 16) % 4
                                  else if t < 48 then 8 + (t - 32) % 4 else 12 + (t - 48) % 4]
  {
    assert t / 16 == if t < 16 then 0 else if t < 32 then 1 else if t < 48 then 2 else 3;
    assert (t - 16) % 4 == t % 4 == (t - 32) % 4 == (t - 48) % 4;
  }

  /** The computed indices and the short table of shifts are those of the RFC. */
  lemma TablesAgree(t: nat)
    requires t < 64
    ensures Listed(t) == (CalcG(t), GetShift(t))
  {
    ShiftOfRound(t);
    if t < 16 {
      Round1Agrees(t);
    } else if t < 32 {
      Round2Agrees(t - 16);
    } else if t < 48 {
      Round3Agrees(t - 32);
    } else {
      Round4Agrees(t - 48);
    }
  }

  lemma ShiftListed(i: nat)
    requires i < 64
    ensures IsShift(GetShift(i))
  {
  }

  // ---- The tuple and the registers -----------------------------------------------------------------

  /** The tuple of the original when the registers have seen `t` operations. */
  function Turned<W>(t: nat, r: Quad<W>): Quad<W> {
    match t % 4
    case 0 => r
    case 1 => Quad(r.d, r.a, r.b, r.c)
    case 2 => Quad(r.c, r.d, r.a, r.b)
    case _ => Quad(r.b, r.c, r.d, r.a)
  }

  lemma TupleTurns<W>(op: Op<W>, t: nat, r: Quad<W>)
    ensures var q := Turned(t, r); Quad(q.d, op(q.a, q.b, q.c, q.d), q.b, q.c) == Turned(t + 1, InPlace(op, t, r))
  {
  }

  /** One step of the tuple is one operation in place. */
  lemma StepAgrees(sines: Table, t: nat, x: seq<word>, r: Words)
    requires t < 64 && |x| == 16
    ensures GetShift(t) <= 32 && ApplyStep(sines, t, x, Turned(t, r)) == Turned(t + 1, InPlace(Numbered(sines, t, x), t, r))
  {
    NewB(sines, t, x, Turned(t, r));
    TupleTurns(Numbered(sines, t, x), t, r);
  }

  lemma NewB(sines: Table, t: nat, x: seq<word>, q: Words)
    requires t < 64 && |x| == 16
    ensures GetShift(t) <= 32 && ApplyStep(sines, t, x, q) == Quad(q.d, Operation(sines, t, x, q.a, q.b, q.c, q.d), q.b, q.c)
  {
    ShiftListed(t);
    TablesAgree(t);
    AuxiliaryAgrees(t, q.b, q.c, q.d);
    RotationAgrees(Sum4(CalcF(t, q.b, q.c, q.d), q.a, sines[t], x[CalcG(t)]), GetShift(t));
  }

  // ---- Padding on the fly ----------------------------------------------------------------------------

  /** The padded message as the original reads it. */
  function OnTheFly(data: seq<byte>): (r: seq<byte>)
    ensures |r| == GetPaddedMessageLength(|data|)
  {
    var m := GetPaddedMessageLength(|data|);
    seq(m, i requires 0 <= i < m => GetPaddedMessageByte(data, m, i))
  }

  lemma PowersOf256()
    ensures Pow256(4) == TWO32 && Pow256(8) == TWO32 * TWO32
  {
    assert Pow256(0) == 1 && Pow256(1) == 256 && Pow256(2) == 0x1_0000 && Pow256(3) == 0x100_0000;
    assert Pow256(4) == TWO32;
    assert Pow256(5) == 256 * TWO32 && Pow256(6) == 0x1_0000 * TWO32 && Pow256(7) == 0x100_0000 * TWO32;
  }

  lemma LengthAgrees(n: nat)
    requires n + 72 < TWO32
    ensures GetPaddedMessageLength(n) == n + 1 + ZerosNeeded(n) + 8
  {
    assert (n + 72) % TWO32 == n + 72;
    var z := ZerosNeeded(n);
    assert (n + 9 + z) % 64 == 0 && n + 9 + z <= n + 72 < n + 9 + z + 64;
  }

  lemma {:induction false} LengthByteAgrees(n: nat, j: nat)
    requires n < 0x2000_0000 && j < 8
    ensures ExtractByte(n * 8 % TWO32, j) == LittleEndian(8 * n % Pow256(8), 8)[j]
  {
    PowersOf256();
    assert n * 8 % TWO32 == 8 * n == 8 * n % Pow256(8);
    LittleEndianAt(8 * n, 8, j);
  }

  lemma {:induction false} ByteAgrees(data: seq<byte>, i: nat)
    requires |data| < 0x2000_0000 && i < |Padded(data)|
    ensures GetPaddedMessageByte(data, |Padded(data)|, i) == Padded(data)[i]
  {
    var n, m := |data|, |Padded(data)|;
    if i >= m - 8 { LengthByteAgrees(n, i - (m - 8)); }
  }

  /** The length field begins with 32 bits; the next byte shows whether that was enough. */
  lemma {:induction false} FifthByteDiffers(data: seq<byte>)
    requires 0x2000_0000 <= |data| && |data| + 72 < TWO32
    ensures var m := |Padded(data)|; GetPaddedMessageByte(data, m, m - 4) != Padded(data)[m - 4]
  {
    PowersOf256();
    var n, m := |data|, |Padded(data)|;
    assert 8 * n % Pow256(8) == 8 * n;
    LittleEndianAt(8 * n, 8, 4);
    assert Padded(data)[m - 4] == LittleEndian(8 * n, 8)[4];
    assert 1 <= 8 * n / TWO32 < 8;
    assert n * 8 % TWO32 / TWO32 == 0;
  }

  /** The padding is that of the RFC exactly for messages shorter than 2^29 bytes: beyond,
      the number of bits does not fit the 32-bit product. */
  lemma {:induction false} PaddingAgrees(data: seq<byte>)
    requires |data| < TWO32
    ensures OnTheFly(data) == Padded(data) <==> |data| < 0x2000_0000
  {
    var n := |data|;
    if n + 72 < TWO32 {
      LengthAgrees(n);
      if n < 0x2000_0000 {
        forall i | 0 <= i < |Padded(data)| ensures OnTheFly(data)[i] == Padded(data)[i] { ByteAgrees(data, i); }
      } else {
        FifthByteDiffers(data);
        assert OnTheFly(data)[|Padded(data)| - 4] != Padded(data)[|Padded(data)| - 4];
      }
    } else {
      assert GetPaddedMessageLength(n) <= 64;
    }
  }

  // ---- Whole messages ----------------------------------------------------------------------------------

  lemma RoundDataAgrees(data: seq<byte>, i: nat)
    requires i + 64 <= GetPaddedMessageLength(|data|)
    ensures GetRoundData(data, GetPaddedMessageLength(|data|), i) == BlockWords(OnTheFly(data), i)
  {
  }

  ghost predicate DoneBy(block: Block, sines: Table, r: Words, x: seq<word>) {
    |x| == 16 ==> block.requires(r, x) && block(r, x) == Sum(r, Operations(sines, 64, x, r))
  }

  /** `block` does to the registers what a block of a message does. */
  ghost predicate DoesBlocks(block: Block, sines: Table) {
    Total(block) && forall r, x :: DoneBy(block, sines, r, x)
  }

  lemma OneBlockDoes(sines: Table)
    ensures DoesBlocks(OneBlock(sines), sines)
  {
    var block := OneBlock(sines);
    forall r, x ensures DoneBy(block, sines, r, x) {}
  }

  /** Whatever its length, the message is digested as its padding on the fly; and that is
      the digest of the RFC for every message of fewer than 2^29 bytes. */
  method ProcessMessage(sines: Table, message: seq<byte>) returns (r: Words)
    requires |message| < TWO32
    ensures r == Registers(OneBlock(sines), OnTheFly(message), |OnTheFly(message)| / 64)
    ensures |message| < 0x2000_0000 ==> r == Digest(sines, message)
  {
    OneBlockDoes(sines);
    r := ProcessBlocks(sines, message, OneBlock(sines));
    PaddingAgrees(message);
  }

  method ProcessBlocks(sines: Table, message: seq<byte>, ghost block: Block) returns (r: Words)
    requires |message| < TWO32 && DoesBlocks(block, sines)
    ensures r == Registers(block, OnTheFly(message), |OnTheFly(message)| / 64)
  {
    var m := GetPaddedMessageLength(|message|);
    r := INITIAL;
    var offset := 0;
    while offset < m
      invariant 0 <= offset <= m && offset % 64 == 0
      invariant r == Registers(block, OnTheFly(message), offset / 64)
    {
      var data := GetRoundData(message, m, offset);
      RoundDataAgrees(message, offset);
      r := ProcessBlock(sines, data, r, block);
      offset := offset + 64;
    }
  }

  method ProcessBlock(sines: Table, data: seq<word>, r: Words, ghost block: Block) returns (r': Words)
    requires |data| == 16 && DoesBlocks(block, sines)
    ensures r' == block(r, data)
  {
    assert DoneBy(block, sines, r, data);
    var q := Mix(sines, data, r);
    r' := Sum(r, q);
  }

  /** The inner loop: 64 steps bring the tuple back to where it started from. */
  method Mix(sines: Table, data: seq<word>, start: Words) returns (q: Words)
    requires |data| == 16
    ensures q == Operations(sines, 64, data, start)
  {
    q := start;
    var i := 0;
    while i < 64
      invariant 0 <= i <= 64 && q == Turned(i, Operations(sines, i, data, start))
    {
      StepAgrees(sines, i, data, Operations(sines, i, data, start));
      q := ApplyStep(sines, i, data, q);
      i := i + 1;
    }
  }

  /** The sixteen bytes of section 3.5: the registers in turn, low-order byte first. */
  function Output(q: Words): (r: seq<bv8>)
    ensures |r| == 16
  {
    [ByteOf(q.a, 0), ByteOf(q.a, 1), ByteOf(q.a, 2), ByteOf(q.a, 3),
     ByteOf(q.b, 0), ByteOf(q.b, 1), ByteOf(q.b, 2), ByteOf(q.b, 3),
     ByteOf(q.c, 0), ByteOf(q.c, 1), ByteOf(q.c, 2), ByteOf(q.c, 3),
     ByteOf(q.d, 0), ByteOf(q.d, 1), ByteOf(q.d, 2), ByteOf(q.d, 3)]
  }

  /** Hash64 is the first eight bytes of the digest, read with the first one highest. */
  method Hash64(sines: Table, data: seq<byte>) returns (hash: bv64)
    requires |data| < TWO32
    ensures |data| < 0x2000_0000 ==>
              var d := Output(Digest(sines, data));
              && High(hash) == Wide(FromBytes(d[0], d[1], d[2], d[3]))
              && Low(hash) == Wide(FromBytes(d[4], d[5], d[6], d[7]))
  {
    var q := ProcessMessage(sines, data);
    hash := Pair(SwapEndian(q.a), SwapEndian(q.b));
    PairIsOutput(q);
  }

  lemma PairIsOutput(q: Words)
    ensures var d, hash := Output(q), Pair(SwapEndian(q.a), SwapEndian(q.b));
            && High(hash) == Wide(FromBytes(d[0], d[1], d[2], d[3]))
            && Low(hash) == Wide(FromBytes(d[4], d[5], d[6], d[7]))
  {
    PairOutput(q.a, q.b);
  }

  /** The table in use: 2^32 times the absolute values of the sines of 1 to 64. */
  const CONSTANTS: Table :=
    [0xd76aa478, 0xe8c7b756, 0x242070db, 0xc1bdceee, 0xf57c0faf, 0x4787c62a, 0xa8304613, 0xfd469501,
     0x698098d8, 0x8b44f7af, 0xffff5bb1, 0x895cd7be, 0x6b901122, 0xfd987193, 0xa679438e, 0x49b40821] +
    [0xf61e2562, 0xc040b340, 0x265e5a51, 0xe9b6c7aa, 0xd62f105d, 0x02441453, 0xd8a1e681, 0xe7d3fbc8,
     0x21e1cde6, 0xc33707d6, 0xf4d50d87, 0x455a14ed, 0xa9e3e905, 0xfcefa3f8, 0x676f02d9, 0x8d2a4c8a] +
    [0xfffa3942, 0x8771f681, 0x6d9d6122, 0xfde5380c, 0xa4beea44, 0x4bdecfa9, 0xf6bb4b60, 0xbebfbc70,
     0x289b7ec6, 0xeaa127fa, 0xd4ef3085, 0x04881d05, 0xd9d4d039, 0xe6db99e5, 0x1fa27cf8, 0xc4ac5665] +
    [0xf4292244, 0x432aff97, 0xab9423a7, 0xfc93a039, 0x655b59c3, 0x8f0ccc92, 0xffeff47d, 0x85845dd1,
     0x6fa87e4f, 0xfe2ce6e0, 0xa3014314, 0x4e0811a1, 0xf7537e82, 0xbd3af235, 0x2ad7d2bb, 0xeb86d391]

  method Md5Hash64(data: seq<byte>) returns (hash: bv64)
    requires |data| < TWO32
    ensures |data| < 0x2000_0000 ==>
              var d := Output(Digest(CONSTANTS, data));
              && High(hash) == Wide(FromBytes(d[0], d[1], d[2], d[3]))
              && Low(hash) == Wide(FromBytes(d[4], d[5], d[6], d[7]))
  {
    hash := Hash64(CONSTANTS, data);
  }

  // ---- What the RFC writes out in bytes -----------------------------------------------------------

  /** Section 3.3 gives the registers at the start byte by byte, low-order byte first. */
  lemma InitialBytes()
    ensures Output(INITIAL) == [0x01, 0x23, 0x45, 0x67, 0x89, 0xab, 0xcd, 0xef, 0xfe, 0xdc, 0xba, 0x98, 0x76, 0x54, 0x32, 0x10]
  {
  }

  /** Section 2: in a word the low-order byte comes first. */
  lemma WordBytes(b0: byte, b1: byte, b2: byte, b3: byte)
    ensures var w := Word(b0, b1, b2, b3);
            ByteOf(w, 0) == b0 as bv8 && ByteOf(w, 1) == b1 as bv8 && ByteOf(w, 2) == b2 as bv8 && ByteOf(w, 3) == b3 as bv8
  {
  }
}
