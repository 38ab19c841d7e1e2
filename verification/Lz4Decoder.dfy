/** LZ4_uncompress and LZ4_uncompress_unknownOutputSize. */
module Lz4Decoder {
  import opened Bytes
  import opened Lz4Format
  import opened Lz4Copy
  import opened Lz4MatchCopy
  import opened Options

  ghost predicate HasAt(source: seq<byte>, p: nat, part: seq<byte>) {
    p + |part| <= |source| && source[p..p + |part|] == part
  }

  lemma HasAtSplit(source: seq<byte>, p: nat, a: seq<byte>, b: seq<byte>)
    requires HasAt(source, p, a + b)
    ensures HasAt(source, p, a) && HasAt(source, p + |a|, b)
  {
    var all := source[p..p + |a + b|];
    assert source[p..p + |a|] == all[..|a|] == a;
    assert source[p + |a|..p + |a| + |b|] == all[|a|..] == b;
  }

  lemma HasAtWithin(source: seq<byte>, whole: seq<byte>, p: nat, part: seq<byte>)
    requires HasAt(source, 0, whole) && HasAt(whole, p, part)
    ensures HasAt(source, p, part)
  {
    assert source[p..p + |part|] == source[..|whole|][p..p + |part|];
  }

  // ---- What stands where in a serialized block --------------------------------

  /** The next sequence of a block: what it applies to, its bytes, what comes after it. */
  lemma NextSequence(b: Block, done: Sequences) returns (s: Sequence)
    requires Expandable(b.sequences) && IsPrefix(done, b.sequences) && done != b.sequences
    ensures IsPrefix(Then(done, s), b.sequences) && Expandable(Then(done, s)) && Count(done) < Count(b.sequences)
    ensures HasAt(Serialize(b), |SequencesBytes(done)|, SequenceBytes(s))
    ensures |SequencesBytes(Then(done, s))| + 1 + |b.last| <= |Serialize(b)|
    ensures |Expand(Then(done, s))| + |b.last| <= |Meaning(b)|
    ensures EndConditions(b) ==>
              LASTLITERALS <= |b.last| && |Expand(done)| + |s.literals| + MFLIMIT <= |Meaning(b)|
  {
    s := Next(done, b.sequences);
    var more := Then(done, s);
    PrefixOf(more, b.sequences);
    PrefixHas(SequencesBytes(b.sequences), SequencesBytes(done), SequenceBytes(s), LiteralPart(b.last, 0));
    if EndConditions(b) { PrefixStartsEarly(more, b.sequences, |Meaning(b)|); }
  }

  lemma PrefixHas(whole: seq<byte>, before: seq<byte>, part: seq<byte>, rest: seq<byte>)
    requires before + part <= whole
    ensures HasAt(whole + rest, |before|, part)
  {
    assert (whole + rest)[|before|..|before| + |part|] == whole[..|before + part|][|before|..];
  }

  /** The parts of a sequence, each at its place. */
  lemma SequenceParts(source: seq<byte>, p: nat, s: Sequence)
    requires 0 < s.offset <= MAX_DISTANCE && MINMATCH <= s.matchLength && HasAt(source, p, SequenceBytes(s))
    ensures var head := LiteralPart(s.literals, Nibble(s.matchLength - MINMATCH));
            && HasAt(source, p, head) && HasAt(source, p + |head|, MatchPart(s))
            && |SequenceBytes(s)| == |head| + |MatchPart(s)|
  {
    HasAtSplit(source, p, LiteralPart(s.literals, Nibble(s.matchLength - MINMATCH)), MatchPart(s));
  }

  lemma MatchParts(source: seq<byte>, q: nat, s: Sequence)
    requires 0 < s.offset <= MAX_DISTANCE && MINMATCH <= s.matchLength && HasAt(source, q, MatchPart(s))
    ensures q + 2 <= |source| && Load16(source, q) == s.offset
    ensures HasAt(source, q + 2, Extension(s.matchLength - MINMATCH))
    ensures |MatchPart(s)| == 2 + |Extension(s.matchLength - MINMATCH)|
  {
    HasAtSplit(source, q, [s.offset % 256, s.offset / 256], Extension(s.matchLength - MINMATCH));
    PairAt(source, q, s.offset);
  }

  lemma PairAt(source: seq<byte>, q: nat, v: nat)
    requires v < 0x1_0000 && HasAt(source, q, [v % 256, v / 256])
    ensures Load16(source, q) == v
  {
    assert source[q] == source[q..q + 2][0] && source[q + 1] == source[q..q + 2][1];
  }

  lemma LiteralParts(source: seq<byte>, p: nat, literals: seq<byte>, nibble: nat)
    requires nibble <= 15 && HasAt(source, p, LiteralPart(literals, nibble))
    ensures p < |source| && source[p] / 16 == Nibble(|literals|) && source[p] % 16 == nibble
    ensures HasAt(source, p + 1, Extension(|literals|))
    ensures HasAt(source, p + 1 + |Extension(|literals|)|, literals)
    ensures |LiteralPart(literals, nibble)| == 1 + |Extension(|literals|)| + |literals|
  {
    var extension := Extension(|literals|);
    HasAtSplit(source, p, [Nibble(|literals|) * 16 + nibble] + extension, literals);
    TokenAt(source, p, Nibble(|literals|), nibble, extension);
  }

  lemma TokenAt(source: seq<byte>, p: nat, high: nat, low: nat, extension: seq<byte>)
    requires high <= 15 && low <= 15 && HasAt(source, p, [high * 16 + low] + extension)
    ensures p < |source| && source[p] / 16 == high && source[p] % 16 == low
    ensures HasAt(source, p + 1, extension)
  {
    HasAtSplit(source, p, [high * 16 + low], extension);
    assert source[p] == source[p..p + 1][0];
  }

  // ---- Lengths ------------------------------------------------------------------

  /** The unchecked length loops of LZ4_uncompress, in an int that starts at `base`. */
  method ReadRun(source: seq<byte>, ip: nat, base: nat, ghost n: nat) returns (len: nat, end: nat)
    requires HasAt(source, ip, LengthBytes(n)) && base + n < INT_LIMIT
    ensures len == base + n && end == ip + |LengthBytes(n)|
  {
    len, end := base, ip;
    ghost var left := n;
    RunHead(source, end, left);
    while source[end] == 255
      invariant 0 <= left && len + left == base + n && end + |LengthBytes(left)| == ip + |LengthBytes(n)|
      invariant HasAt(source, end, LengthBytes(left)) && (source[end] == 255 <==> left >= 255)
      invariant left < 255 ==> source[end] == left
      decreases left
    {
      RunHead(source, end, left);
      len, end, left := Int32(len + 255), end + 1, left - 255;
      RunHead(source, end, left);
    }
    len, end := Int32(len + source[end]), end + 1;
  }

  lemma RunHead(source: seq<byte>, p: nat, n: nat)
    requires HasAt(source, p, LengthBytes(n))
    ensures p < |source| && (source[p] == 255 <==> n >= 255) && (n < 255 ==> source[p] == n)
    ensures n >= 255 ==> HasAt(source, p + 1, LengthBytes(n - 255))
  {
    assert source[p] == source[p..p + |LengthBytes(n)|][0];
    if n >= 255 {
      HasAtSplit(source, p, [255], LengthBytes(n - 255));
    }
  }

  /** What the length loops of LZ4_uncompress_unknownOutputSize, which stop at the end of
      the input, make of a length that starts at `length`, and where they stop. */
  function RunLength(source: seq<byte>, ip: nat, length: int): (r: (int, nat))
    requires ip <= |source|
    ensures ip <= r.1 <= |source|
    decreases |source| - ip
  {
    if ip == |source| then (length, ip)
    else
      var sum := Int32(length + source[ip]);
      if source[ip] == 255 then RunLength(source, ip + 1, sum) else (sum, ip + 1)
  }

  method ReadRunChecked(source: seq<byte>, ip: nat, base: int) returns (length: int, end: nat)
    requires ip <= |source|
    ensures (length, end) == RunLength(source, ip, base)
  {
    length, end := base, ip;
    var s: int := 255;
    while end < |source| && s == 255
      invariant ip <= end <= |source|
      invariant RunLength(source, ip, base) == if s == 255 then RunLength(source, end, length) else (length, end)
      decreases |source| - end
    {
      s := source[end] as int;
      length, end := Int32(length + s), end + 1;
    }
  }

  /** A stored length is read as it is, as long as it fits. */
  lemma {:induction false} RunFits(source: seq<byte>, ip: nat, length: nat, n: nat)
    requires HasAt(source, ip, LengthBytes(n)) && length + n < INT_LIMIT
    ensures ip <= |source| && RunLength(source, ip, length) == (length + n, ip + |LengthBytes(n)|)
    decreases n
  {
    RunHead(source, ip, n);
    if n >= 255 { RunFits(source, ip + 1, length + 255, n - 255); }
  }

  /** Whatever is stored: a short input cannot make a length wrap. */
  lemma {:induction false} RunBounded(source: seq<byte>, ip: nat, length: nat)
    requires ip <= |source| && length + 255 * (|source| - ip) < INT_LIMIT
    ensures 0 <= RunLength(source, ip, length).0 < INT_LIMIT
    decreases |source| - ip
  {
    if ip < |source| && source[ip] == 255 { RunBounded(source, ip + 1, length + 255); }
  }

  // ---- Decoding a well-formed block -----------------------------------------------

  /** A block the decoders are meant for, of at most `room` bytes, at the start of `source`. */
  ghost predicate Decodable(b: Block, source: seq<byte>, room: nat) {
    && Expandable(b.sequences) && EndConditions(b)
    && |Meaning(b)| <= room
    && HasAt(source, 0, Serialize(b))
  }

  /** At the head of the main loop, the sequences `done` have been decoded. */
  ghost predicate AtSequence(b: Block, done: Sequences, ip: nat, out: seq<byte>) {
    && Expandable(b.sequences) && IsPrefix(done, b.sequences) && Expandable(done)
    && ip == |SequencesBytes(done)|
    && out == Expand(done)
  }

  /** Behind the literals of `s`: its match is stored at `ip` and applies to `out`. */
  ghost predicate AwaitsMatch(source: seq<byte>, ip: nat, out: seq<byte>, s: Sequence) {
    && 0 < s.offset <= |out| && s.offset <= MAX_DISTANCE && MINMATCH <= s.matchLength
    && HasAt(source, ip, MatchPart(s))
  }

  /** The run the decoder is about to read, and how far it is from both ends: the closing
      run reaches the end of the output, all others stay eight bytes clear of both ends.
      This is what lets the last run be recognised by position alone. */
  ghost predicate AwaitsRun(source: seq<byte>, size: nat, total: nat, ip: nat, op: nat,
                            literals: seq<byte>, nibble: nat, closing: bool)
  {
    && nibble <= 15 && HasAt(source, ip, LiteralPart(literals, nibble))
    && var end := ip + |LiteralPart(literals, nibble)|;
    && (closing ==> end == size && op + |literals| == total)
    && (!closing ==> end + COPYLENGTH <= size && op + |literals| + COPYLENGTH <= total)
  }

  lemma FindClosingRun(b: Block, source: seq<byte>, ip: nat, out: seq<byte>)
    requires AtSequence(b, b.sequences, ip, out) && HasAt(source, 0, Serialize(b))
    ensures AwaitsRun(source, |Serialize(b)|, |Meaning(b)|, ip, |out|, b.last, 0, true)
    ensures out + b.last == Meaning(b) && ip < |Serialize(b)|
  {
    var part := LiteralPart(b.last, 0);
    assert Serialize(b)[ip..] == part;
    HasAtWithin(source, Serialize(b), ip, part);
  }

  lemma FindSequence(b: Block, done: Sequences, source: seq<byte>, ip: nat, out: seq<byte>) returns (s: Sequence)
    requires AtSequence(b, done, ip, out) && HasAt(source, 0, Serialize(b)) && EndConditions(b)
    requires done != b.sequences
    ensures MINMATCH <= s.matchLength && ip < |Serialize(b)|
    ensures var nibble := Nibble(s.matchLength - MINMATCH);
            && AwaitsRun(source, |Serialize(b)|, |Meaning(b)|, ip, |out|, s.literals, nibble, false)
            && AwaitsMatch(source, MatchPosition(ip, s), out + s.literals, s)
            && AtSequence(b, Then(done, s), MatchEnd(ip, s), CopyMatch(out + s.literals, s.offset, s.matchLength))
            && |CopyMatch(out + s.literals, s.offset, s.matchLength)| + LASTLITERALS <= |Meaning(b)|
    ensures Count(done) < Count(b.sequences)
    ensures |out| + |s.literals| + s.matchLength + LASTLITERALS <= |Meaning(b)|
  {
    s := NextSequence(b, done);
    HasAtWithin(source, Serialize(b), ip, SequenceBytes(s));
    SequenceParts(source, ip, s);
    MatchParts(source, MatchPosition(ip, s), s);
    AtNext(b, done, ip, out, s);
  }

  lemma AtNext(b: Block, done: Sequences, ip: nat, out: seq<byte>, s: Sequence)
    requires AtSequence(b, done, ip, out) && IsPrefix(Then(done, s), b.sequences) && Expandable(Then(done, s))
    ensures MINMATCH <= s.matchLength && 0 < s.offset <= |out + s.literals|
    ensures AtSequence(b, Then(done, s), MatchEnd(ip, s), CopyMatch(out + s.literals, s.offset, s.matchLength))
    ensures |CopyMatch(out + s.literals, s.offset, s.matchLength)| == |Expand(Then(done, s))|
  {
  }

  /** Where the match part of a sequence stored at `ip` begins. */
  function MatchPosition(ip: nat, s: Sequence): nat
    requires MINMATCH <= s.matchLength
  {
    ip + |LiteralPart(s.literals, Nibble(s.matchLength - MINMATCH))|
  }

  function MatchEnd(ip: nat, s: Sequence): nat
    requires MINMATCH <= s.matchLength
  {
    MatchPosition(ip, s) + 2 + |Extension(s.matchLength - MINMATCH)|
  }

  /** Either of the two; the closing run is dressed as a sequence of no match length.
      `end` and `after` are where the step leads and the output it leads to. */
  lemma FindStep(b: Block, done: Sequences, source: seq<byte>, ip: nat, out: seq<byte>)
    returns (s: Sequence, end: nat, after: seq<byte>)
    requires AtSequence(b, done, ip, out) && HasAt(source, 0, Serialize(b)) && EndConditions(b)
    ensures MINMATCH <= s.matchLength
    ensures AwaitsRun(source, |Serialize(b)|, |Meaning(b)|, ip, |out|, s.literals, Nibble(s.matchLength - MINMATCH), done == b.sequences)
    ensures done == b.sequences ==> out + s.literals == after == Meaning(b) && s.matchLength == MINMATCH
    ensures done != b.sequences ==>
              && AwaitsMatch(source, MatchPosition(ip, s), out + s.literals, s)
              && end == MatchEnd(ip, s) < |Serialize(b)| && after == CopyMatch(out + s.literals, s.offset, s.matchLength)
              && AtSequence(b, Then(done, s), end, after) && |after| + LASTLITERALS <= |Meaning(b)|
              && Count(done) < Count(b.sequences)
  {
    if done == b.sequences {
      s, end, after := Sequence(b.last, 0, MINMATCH), 0, Meaning(b);
      FindClosingRun(b, source, ip, out);
    } else {
      s := FindSequence(b, done, source, ip, out);
      end := MatchEnd(ip, s);
      after := CopyMatch(out + s.literals, s.offset, s.matchLength);
      MoreToRead(b, Then(done, s), end, after);
    }
  }

  lemma MoreToRead(b: Block, done: Sequences, ip: nat, out: seq<byte>)
    requires AtSequence(b, done, ip, out)
    ensures ip < |Serialize(b)|
  {
    PrefixOf(done, b.sequences);
  }

  // ---- LZ4_uncompress ----------------------------------------------------------------

  /** "get runlength". */
  method GetRunLength(source: seq<byte>, ip0: nat, ghost literals: seq<byte>, ghost nibble: nat)
    returns (token: byte, length: nat, ip: nat)
    requires nibble <= 15 && HasAt(source, ip0, LiteralPart(literals, nibble)) && |literals| < INT_LIMIT
    ensures length == |literals| && token % 16 == nibble
    ensures HasAt(source, ip, literals) && ip + |literals| == ip0 + |LiteralPart(literals, nibble)|
  {
    LiteralParts(source, ip0, literals, nibble);
    token := source[ip0];
    ip := ip0 + 1;
    length := token / 16;
    if length == RUN_MASK {
      length, ip := ReadRun(source, ip, length, |literals| - RUN_MASK);
    }
  }

  /** "get offset" and "get matchlength". */
  method GetMatch(source: seq<byte>, ip0: nat, token: byte, ghost s: Sequence)
    returns (offset: nat, length: nat, ip: nat)
    requires 0 < s.offset <= MAX_DISTANCE && MINMATCH <= s.matchLength && HasAt(source, ip0, MatchPart(s))
    requires token % 16 == Nibble(s.matchLength - MINMATCH) && s.matchLength < INT_LIMIT
    ensures offset == s.offset && length == s.matchLength - MINMATCH && ip == ip0 + |MatchPart(s)|
  {
    MatchParts(source, ip0, s);
    offset := Load16(source, ip0);
    ip := ip0 + 2;
    length := token % 16;
    if length == ML_MASK {
      length, ip := ReadRun(source, ip, length, s.matchLength - MINMATCH - ML_MASK);
    }
  }

  /** Token and literals. `last` tells that they closed the block. */
  method CopyRun(source: seq<byte>, dest: array<byte>, ip0: nat, op0: nat,
                 ghost literals: seq<byte>, ghost nibble: nat, ghost closing: bool)
    returns (last: bool, token: byte, ip: nat, op: nat)
    requires nibble <= 15 && HasAt(source, ip0, LiteralPart(literals, nibble)) && dest.Length < INT_LIMIT
    requires closing ==> op0 + |literals| == dest.Length
    requires !closing ==> op0 + |literals| + COPYLENGTH <= dest.Length
    requires !closing ==> ip0 + |LiteralPart(literals, nibble)| + COPYLENGTH <= |source|
    modifies dest
    ensures last == closing && token % 16 == nibble
    ensures ip == ip0 + |LiteralPart(literals, nibble)| && op == op0 + |literals|
    ensures dest[..op] == old(dest[..op0]) + literals
  {
    var length;
    token, length, ip := GetRunLength(source, ip0, literals, nibble);
    op := op0 + length;
    last := op > dest.Length - COPYLENGTH;
    if last {
      if op > dest.Length { assert false; }
      forall i | 0 <= i < length { dest[op0 + i] := source[ip + i]; }
    } else {
      WildCopy(source, ip, dest, op0, op);
      assert dest[..op] == dest[..op0] + dest[op0..op];
    }
    ip := ip + length;
  }

  /** Offset, match length and the match itself. */
  method CopySequence(source: seq<byte>, dest: array<byte>, token: byte, ip0: nat, op0: nat, ghost s: Sequence)
    returns (ok: bool, ip: nat, op: nat)
    requires op0 + COPYLENGTH <= dest.Length < INT_LIMIT && AwaitsMatch(source, ip0, dest[..op0], s)
    requires token % 16 == Nibble(s.matchLength - MINMATCH)
    requires op0 + s.matchLength <= dest.Length
    modifies dest
    ensures ok && ip == ip0 + |MatchPart(s)| && op == op0 + s.matchLength
    ensures dest[..op] == CopyMatch(old(dest[..op0]), s.offset, s.matchLength)
  {
    var offset, length;
    offset, length, ip := GetMatch(source, ip0, token, s);
    if op0 - offset < 0 { assert false; return false, ip, op0; }
    ok := CopyRepeated(dest, op0, op0 - offset, length);
    op := op0 + length + MINMATCH;
  }

  /** One turn of the main loop: literals, and the match behind them. */
  method UncompressStep(source: seq<byte>, dest: array<byte>, ip0: nat, op0: nat, ghost b: Block, ghost done: Sequences)
    returns (last: bool, ok: bool, ip: nat, op: nat, ghost done': Sequences)
    requires Decodable(b, source, dest.Length) && dest.Length == |Meaning(b)| < INT_LIMIT
    requires op0 <= dest.Length && AtSequence(b, done, ip0, dest[..op0])
    modifies dest
    ensures op <= dest.Length && ok
    ensures last ==> ip == |Serialize(b)| && op == dest.Length && dest[..op] == Meaning(b)
    ensures !last ==> op < dest.Length && AtSequence(b, done', ip, dest[..op])
    ensures !last ==> Count(done) < Count(done') <= Count(b.sequences)
  {
    ghost var out := dest[..op0];
    ghost var s, end, after := FindStep(b, done, source, ip0, out);
    ghost var start := MatchPosition(ip0, s);
    var token;
    last, token, ip, op := CopyRun(source, dest, ip0, op0, s.literals, Nibble(s.matchLength - MINMATCH), done == b.sequences);
    ok, done' := true, done;
    if !last {
      assert AwaitsMatch(source, start, out + s.literals, s);
      assert ip == start && dest[..op] == out + s.literals;
      ok, ip, op := CopySequence(source, dest, token, ip, op, s);
      MatchParts(source, start, s);
      assert ip == end && dest[..op] == after;
      done' := Then(done, s);
    }
  }

  /** LZ4_uncompress: the size of the output is known, that of the input is not. On a
      block that obeys the end-of-block restrictions none of the error exits is taken. */
  method Uncompress(source: seq<byte>, dest: array<byte>, ghost b: Block) returns (consumed: int)
    requires Decodable(b, source, dest.Length) && dest.Length == |Meaning(b)| < INT_LIMIT
    modifies dest
    ensures consumed == Int32(|Serialize(b)|) && dest[..] == Meaning(b)
  {
    var ip, op := 0, 0;
    ghost var done := Empty;
    EmptyPrefix(b.sequences);
    while true
      invariant 0 <= ip && 0 <= op <= dest.Length && AtSequence(b, done, ip, dest[..op])
      decreases Count(b.sequences) - Count(done)
    {
      var last, ok;
      last, ok, ip, op, done := UncompressStep(source, dest, ip, op, b, done);
      if last {
        assert dest[..] == dest[..op];
        return Int32(ip);
      }
      if !ok { assert false; return Int32(-(ip as int)); }
      if op == dest.Length { assert false; return Int32(ip); }
    }
  }

  lemma {:induction false} EmptyPrefix(ss: Sequences)
    ensures IsPrefix(Empty, ss)
  {
    if ss.Then? { EmptyPrefix(ss.init); }
  }

  // ---- LZ4_uncompress_unknownOutputSize ------------------------------------------------

  datatype Progress = More | Finished | OutputError

  /** The lengths in a token and behind it: "get runlength" and "get matchlength". */
  function LengthAt(source: seq<byte>, ip: nat, nibble: nat): (r: (int, nat))
    requires ip <= |source|
    ensures ip <= r.1 <= |source|
  {
    if nibble == 15 then RunLength(source, ip, 15) else (nibble, ip)
  }

  /** The largest input in which no length can wrap, whatever it holds. */
  const SAFE_SIZE := 8421505

  lemma LengthBounded(source: seq<byte>, ip: nat, nibble: nat)
    requires 1 <= ip <= |source| <= SAFE_SIZE && nibble <= 15
    ensures 0 <= LengthAt(source, ip, nibble).0 < INT_LIMIT
  {
    if nibble == 15 { RunBounded(source, ip, 15); }
  }

  lemma LengthFits(source: seq<byte>, ip: nat, n: nat)
    requires HasAt(source, ip, Extension(n)) && n < INT_LIMIT
    ensures ip <= |source| && LengthAt(source, ip, Nibble(n)) == (n, ip + |Extension(n)|)
  {
    if n >= 15 { RunFits(source, ip, 15, n - 15); }
  }

  /** One step of the decoding that the decoder can rely on: the run and, unless it is the
      closing one, the match behind it. */
  ghost predicate Awaits(source: seq<byte>, room: nat, total: nat, ip: nat, out: seq<byte>, s: Sequence, closing: bool) {
    && MINMATCH <= s.matchLength && total <= room < INT_LIMIT
    && AwaitsRun(source, |source|, total, ip, |out|, s.literals, Nibble(s.matchLength - MINMATCH), closing)
    && (!closing ==> |out| + |s.literals| + s.matchLength < total
                     && AwaitsMatch(source, MatchPosition(ip, s), out + s.literals, s))
  }

  /** Where the step leads. */
  ghost predicate Led(ip0: nat, out: seq<byte>, s: Sequence, closing: bool, status: Progress, ip: nat, out': seq<byte>)
    requires MINMATCH <= s.matchLength && (!closing ==> 0 < s.offset <= |out| + |s.literals|)
  {
    if closing then status.Finished? && out' == out + s.literals
    else
      && status.More? && ip == MatchEnd(ip0, s)
      && out' == CopyMatch(out + s.literals, s.offset, s.matchLength)
  }

  /** What the decoder finds where a run awaits it. */
  lemma RunAwaited(source: seq<byte>, total: nat, ip: nat, op: nat, literals: seq<byte>, nibble: nat, closing: bool)
    requires AwaitsRun(source, |source|, total, ip, op, literals, nibble, closing) && |literals| < INT_LIMIT
    ensures ip < |source| && source[ip] % 16 == nibble
    ensures var start := ip + 1 + |Extension(|literals|)|;
            && LengthAt(source, ip + 1, source[ip] / 16) == (|literals|, start)
            && start + |literals| == ip + |LiteralPart(literals, nibble)| <= |source| && source[start..start + |literals|] == literals
  {
    LiteralParts(source, ip, literals, nibble);
    LengthFits(source, ip + 1, |literals|);
  }

  /** "get runlength", never reading past the end of the input. */
  method GetRunLengthChecked(source: seq<byte>, ip0: nat) returns (token: byte, length: int, ip: nat)
    requires ip0 < |source|
    ensures token == source[ip0] && (length, ip) == LengthAt(source, ip0 + 1, token / 16)
  {
    token := source[ip0];
    ip := ip0 + 1;
    length := token as int / 16;
    if length == RUN_MASK { length, ip := ReadRunChecked(source, ip, length); }
  }

  /** "get matchlength", never reading past the end of the input. */
  method GetMatchLengthChecked(source: seq<byte>, ip0: nat, token: byte) returns (length: int, ip: nat)
    requires ip0 <= |source|
    ensures (length, ip) == LengthAt(source, ip0, token % 16)
  {
    ip := ip0;
    length := token as int % 16;
    if length == ML_MASK { length, ip := ReadRunChecked(source, ip, length); }
  }

  /** The two tests for the last run: neither is taken if the run stays clear of both ends. */
  predicate Clear(size: nat, room: nat, ip: int, op: int) {
    op <= room - COPYLENGTH && ip <= size - COPYLENGTH
  }

  // ---- What comes of any input -----------------------------------------------------------

  /** Where a turn of the main loop ends, and how. */
  datatype Turned = Turned(status: Progress, ip: nat, op: nat)

  /** Token and literals. A run that is not clear of both ends must be the last one. */
  function RunTurn(source: seq<byte>, room: nat, ip: nat, op: nat): (t: Turned)
    requires ip < |source| && op <= room && 0 <= LengthAt(source, ip + 1, source[ip] / 16).0
    ensures ip < t.ip <= |source| && op <= t.op <= room
    ensures t.status.More? ==> t.ip + COPYLENGTH <= |source| && t.op + COPYLENGTH <= room
    ensures !t.status.OutputError? ==> var start := LengthAt(source, ip + 1, source[ip] / 16).1; start <= t.ip && t.op == op + (t.ip - start)
  {
    var (length, start) := LengthAt(source, ip + 1, source[ip] / 16);
    if Clear(|source|, room, start + length, op + length) then Turned(More, start + length, op + length)
    else if room < op + length || |source| < start + length then Turned(OutputError, start, op)
    else Turned(if start + length < |source| then OutputError else Finished, start + length, op + length)
  }

  /** Offset and match. An offset must not reach back before the output, nor a match beyond it. */
  function MatchTurn(source: seq<byte>, room: nat, ip: nat, op: nat, nibble: nat): (t: Turned)
    requires ip + 2 <= |source| && nibble <= 15 && op <= room && 0 <= LengthAt(source, ip + 2, nibble).0
    ensures ip < t.ip <= |source| && op <= t.op <= room
    ensures !t.status.OutputError? ==> Load16(source, ip) <= op
  {
    var (length, end) := LengthAt(source, ip + 2, nibble);
    if op < Load16(source, ip) then Turned(OutputError, ip + 2, op)
    else if room < op + length + MINMATCH then Turned(OutputError, end, op)
    else Turned(if op + length + MINMATCH == room then Finished else More, end, op + length + MINMATCH)
  }

  function Turn(source: seq<byte>, room: nat, ip: nat, op: nat): (t: Turned)
    requires ip < |source| <= SAFE_SIZE && op <= room
    ensures ip < t.ip <= |source| && t.op <= room
  {
    LengthBounded(source, ip + 1, source[ip] / 16);
    var t := RunTurn(source, room, ip, op);
    if t.status.More? then
      LengthBounded(source, t.ip + 2, source[ip] % 16);
      MatchTurn(source, room, t.ip, t.op, source[ip] % 16)
    else t
  }

  /** What the decoder returns: the size of the output, or where in the input it gave up, negated. */
  function Outcome(source: seq<byte>, room: nat, ip: nat, op: nat): (r: int)
    requires ip <= |source| <= SAFE_SIZE && op <= room
    ensures -|source| <= r <= room
    decreases |source| - ip
  {
    if ip == |source| then op
    else
      var t := Turn(source, room, ip, op);
      match t.status
      case OutputError => -(t.ip as int)
      case Finished => t.op
      case More => Outcome(source, room, t.ip, t.op)
  }

  /** The output after a turn, unless it is an error or has an offset of zero, which copies
      what happened to be in the output. */
  function TurnText(source: seq<byte>, room: nat, ip: nat, out: seq<byte>): (text: Option<seq<byte>>)
    requires ip < |source| <= SAFE_SIZE && |out| <= room
    ensures text.Some? ==> !Turn(source, room, ip, |out|).status.OutputError? && |text.value| == Turn(source, room, ip, |out|).op
  {
    LengthBounded(source, ip + 1, source[ip] / 16);
    var t, u := RunTurn(source, room, ip, |out|), Turn(source, room, ip, |out|);
    if u.status.OutputError? then None
    else
      var text := out + source[LengthAt(source, ip + 1, source[ip] / 16).1..t.ip];
      if t.status.Finished? then Some(text)
      else if Load16(source, t.ip) == 0 then None
      else Some(CopyMatch(text, Load16(source, t.ip), u.op - t.op))
  }

  function Decoded(source: seq<byte>, room: nat, ip: nat, out: seq<byte>): (text: Option<seq<byte>>)
    requires ip <= |source| <= SAFE_SIZE && |out| <= room
    ensures text.Some? ==> |text.value| == Outcome(source, room, ip, |out|)
    decreases |source| - ip
  {
    if ip == |source| then Some(out)
    else
      var t, text := Turn(source, room, ip, |out|), TurnText(source, room, ip, out);
      if text.Some? && t.status.More? then Decoded(source, room, t.ip, text.value) else text
  }

  /** Token and literals, for any input in which the length has not wrapped: no byte outside
      either buffer is touched. */
  method CopyRunChecked(source: seq<byte>, dest: array<byte>, ip0: nat, op0: nat)
    returns (status: Progress, token: byte, ip: nat, op: nat)
    requires ip0 < |source| && op0 <= dest.Length && 0 <= LengthAt(source, ip0 + 1, source[ip0] / 16).0
    modifies dest
    ensures token == source[ip0] && Turned(status, ip, op) == RunTurn(source, dest.Length, ip0, op0)
    ensures var (length, start) := LengthAt(source, ip0 + 1, token / 16);
            !status.OutputError? ==> ip == start + length && op == op0 + length && dest[..op] == old(dest[..op0]) + source[start..ip]
  {
    var length;
    token, length, ip := GetRunLengthChecked(source, ip0);
    var cpy := op0 + length;
    if cpy > dest.Length - COPYLENGTH || ip + length > |source| - COPYLENGTH {
      if cpy > dest.Length { return OutputError, token, ip, op0; }
      if ip + length > |source| { return OutputError, token, ip, op0; }
      forall i | 0 <= i < length { dest[op0 + i] := source[ip + i]; }
      assert dest[..cpy] == old(dest[..op0]) + source[ip..ip + length];
      ip, op := ip + length, cpy;
      if ip < |source| { return OutputError, token, ip, op; }
      status := Finished;
    } else {
      WildCopy(source, ip, dest, op0, cpy);
      assert dest[..cpy] == dest[..op0] + dest[op0..cpy];
      ip, op := ip + length, cpy;
      status := More;
    }
  }

  /** What the decoder finds where a match awaits it. */
  lemma MatchAwaited(source: seq<byte>, ip: nat, out: seq<byte>, s: Sequence)
    requires AwaitsMatch(source, ip, out, s) && s.matchLength < INT_LIMIT
    ensures ip + 2 <= |source| && Load16(source, ip) == s.offset
    ensures LengthAt(source, ip + 2, Nibble(s.matchLength - MINMATCH))
            == (s.matchLength - MINMATCH, ip + 2 + |Extension(s.matchLength - MINMATCH)|)
  {
    MatchParts(source, ip, s);
    LengthFits(source, ip + 2, s.matchLength - MINMATCH);
  }

  /** Offset, match length and the match, for any input in which the length has not wrapped. */
  method CopySequenceChecked(source: seq<byte>, dest: array<byte>, token: byte, ip0: nat, op0: nat)
    returns (status: Progress, ip: nat, op: nat)
    requires ip0 + COPYLENGTH <= |source| && op0 + COPYLENGTH <= dest.Length && 0 <= LengthAt(source, ip0 + 2, token % 16).0
    modifies dest
    ensures Turned(status, ip, op) == MatchTurn(source, dest.Length, ip0, op0, token % 16)
    ensures !status.OutputError? && 0 < Load16(source, ip0) ==> dest[..op] == CopyMatch(old(dest[..op0]), Load16(source, ip0), op - op0)
  {
    var offset := Load16(source, ip0);
    ip := ip0 + 2;
    if op0 - offset < 0 { return OutputError, ip, op0; }
    var length;
    length, ip := GetMatchLengthChecked(source, ip, token);
    var ok := CopyRepeated(dest, op0, op0 - offset, length);
    if !ok { return OutputError, ip, op0; }
    op := op0 + length + MINMATCH;
    status := if op == dest.Length then Finished else More;
  }

  /** The match that awaits the decoder is neither refused nor taken for the end. */
  lemma MatchPassed(source: seq<byte>, room: nat, ip: nat, out: seq<byte>, s: Sequence)
    requires AwaitsMatch(source, ip, out, s) && |out| + s.matchLength < room < INT_LIMIT
    ensures ip + 2 <= |source| && Load16(source, ip) == s.offset
    ensures var end := ip + 2 + |Extension(s.matchLength - MINMATCH)|;
            && 0 <= LengthAt(source, ip + 2, Nibble(s.matchLength - MINMATCH)).0
            && MatchTurn(source, room, ip, |out|, Nibble(s.matchLength - MINMATCH)) == Turned(More, end, |out| + s.matchLength)
  {
    MatchAwaited(source, ip, out, s);
  }

  /** Lengths do not wrap in a short input, nor where a step awaits the decoder. */
  lemma RunDoesNotWrap(source: seq<byte>, room: nat, total: nat, ip: nat, out: seq<byte>, s: Sequence, closing: bool)
    requires ip < |source| && (|source| <= SAFE_SIZE || Awaits(source, room, total, ip, out, s, closing))
    ensures 0 <= LengthAt(source, ip + 1, source[ip] / 16).0
  {
    if |source| <= SAFE_SIZE {
      LengthBounded(source, ip + 1, source[ip] / 16);
    } else {
      RunAwaited(source, total, ip, |out|, s.literals, Nibble(s.matchLength - MINMATCH), closing);
    }
  }

  lemma MatchDoesNotWrap(source: seq<byte>, ip: nat, out: seq<byte>, nibble: nat, s: Sequence)
    requires ip + 2 <= |source| && nibble <= 15
    requires |source| <= SAFE_SIZE || (AwaitsMatch(source, ip, out, s) && nibble == Nibble(s.matchLength - MINMATCH) && s.matchLength < INT_LIMIT)
    ensures 0 <= LengthAt(source, ip + 2, nibble).0
  {
    if |source| <= SAFE_SIZE {
      LengthBounded(source, ip + 2, nibble);
    } else {
      MatchParts(source, ip, s);
      LengthFits(source, ip + 2, s.matchLength - MINMATCH);
    }
  }

  /** The tests for the last run single out the closing one. */
  lemma RunPassed(source: seq<byte>, room: nat, total: nat, ip: nat, out: seq<byte>, s: Sequence, closing: bool)
    requires Awaits(source, room, total, ip, out, s, closing)
    ensures ip < |source|
    ensures var (length, start) := LengthAt(source, ip + 1, source[ip] / 16);
            && 0 <= length && start + length <= |source| && source[start..start + length] == s.literals
            && RunTurn(source, room, ip, |out|) == Turned(if closing then Finished else More, start + length, |out| + length)
            && (!closing ==> start + length == MatchPosition(ip, s))
  {
    RunAwaited(source, total, ip, |out|, s.literals, Nibble(s.matchLength - MINMATCH), closing);
  }

  /** The turn that reads what awaits the decoder. */
  lemma StepParts(source: seq<byte>, room: nat, total: nat, ip: nat, out: seq<byte>, s: Sequence, closing: bool)
    requires Awaits(source, room, total, ip, out, s, closing)
    ensures ip < |source| && MINMATCH <= s.matchLength && source[ip] % 16 == Nibble(s.matchLength - MINMATCH)
    ensures !closing ==> 0 < s.offset <= |out + s.literals|
    ensures var (length, start) := LengthAt(source, ip + 1, source[ip] / 16); var at := start + length;
            && 0 <= length && at <= |source| && source[start..at] == s.literals
            && RunTurn(source, room, ip, |out|) == Turned(if closing then Finished else More, at, |out| + length)
            && (!closing ==>
                  && 0 <= LengthAt(source, at + 2, source[ip] % 16).0 && Load16(source, at) == s.offset
                  && MatchTurn(source, room, at, |out| + length, source[ip] % 16) == Turned(More, MatchEnd(ip, s), |out| + length + s.matchLength))
  {
    RunPassed(source, room, total, ip, out, s, closing);
    RunAwaited(source, total, ip, |out|, s.literals, Nibble(s.matchLength - MINMATCH), closing);
    if !closing { MatchPassed(source, room, MatchPosition(ip, s), out + s.literals, s); }
  }

  /** A run, and a match behind it if there is one. */
  ghost predicate BothParts(source: seq<byte>, room: nat, ip: nat, out: seq<byte>, t: Turned, text: seq<byte>, u: Turned, after: seq<byte>)
    requires ip < |source| && |out| <= room
  {
    var (length, start) := LengthAt(source, ip + 1, source[ip] / 16);
    && 0 <= length && t == RunTurn(source, room, ip, |out|)
    && (!t.status.OutputError? ==> t.ip == start + length && t.op == |text| && text == out + source[start..t.ip])
    && if t.status.More? then
         && 0 <= LengthAt(source, t.ip + 2, source[ip] % 16).0 && u == MatchTurn(source, room, t.ip, t.op, source[ip] % 16)
         && (!u.status.OutputError? && 0 < Load16(source, t.ip) ==> after == CopyMatch(text, Load16(source, t.ip), u.op - t.op))
       else u == t && after == text
  }

  lemma AnyTurn(source: seq<byte>, room: nat, ip: nat, out: seq<byte>, t: Turned, text: seq<byte>, u: Turned, after: seq<byte>)
    requires ip < |source| <= SAFE_SIZE && |out| <= room && BothParts(source, room, ip, out, t, text, u, after)
    ensures u == Turn(source, room, ip, |out|) && var w := TurnText(source, room, ip, out); (w.Some? ==> after == w.value)
  {
    hide RunTurn, MatchTurn, LengthAt, Load16;
  }

  lemma KnownTurn(source: seq<byte>, room: nat, total: nat, ip: nat, out: seq<byte>, s: Sequence, closing: bool,
                  t: Turned, text: seq<byte>, u: Turned, after: seq<byte>)
    requires Awaits(source, room, total, ip, out, s, closing) && ip < |source| && |out| <= room
    requires BothParts(source, room, ip, out, t, text, u, after)
    ensures Led(ip, out, s, closing, u.status, u.ip, after)
  {
    hide Awaits, RunTurn, MatchTurn, LengthAt, CopyMatch, Load16;
    StepParts(source, room, total, ip, out, s, closing);
  }

  /** One turn of the main loop, for any input that is short or known. */
  method DecodeOne(source: seq<byte>, dest: array<byte>, ip0: nat, op0: nat, ghost s: Sequence, ghost closing: bool, ghost total: nat)
    returns (status: Progress, ip: nat, op: nat)
    requires ip0 < |source| && op0 <= dest.Length
    requires |source| <= SAFE_SIZE || Awaits(source, dest.Length, total, ip0, dest[..op0], s, closing)
    modifies dest
    ensures ip0 < ip <= |source| && op <= dest.Length
    ensures |source| <= SAFE_SIZE ==>
              && Turned(status, ip, op) == Turn(source, dest.Length, ip0, op0)
              && var text := TurnText(source, dest.Length, ip0, old(dest[..op0])); (text.Some? ==> dest[..op] == text.value)
    ensures Awaits(source, dest.Length, total, ip0, old(dest[..op0]), s, closing) ==>
              Led(ip0, old(dest[..op0]), s, closing, status, ip, dest[..op])
  {
    hide RunTurn, MatchTurn, Turn, TurnText, LengthAt, Load16, CopyMatch, AwaitsRun, AwaitsMatch;
    ghost var out := dest[..op0];
    RunDoesNotWrap(source, dest.Length, total, ip0, out, s, closing);
    var token;
    status, token, ip, op := CopyRunChecked(source, dest, ip0, op0);
    ghost var t, text := Turned(status, ip, op), dest[..op];
    if status.More? {
      TokenKnown(source, dest.Length, total, ip0, out, s, closing, t, text);
      MatchDoesNotWrap(source, ip, text, token % 16, s);
      status, ip, op := CopySequenceChecked(source, dest, token, ip, op);
    }
    assert BothParts(source, dest.Length, ip0, out, t, text, Turned(status, ip, op), dest[..op]);
    if |source| <= SAFE_SIZE { AnyTurn(source, dest.Length, ip0, out, t, text, Turned(status, ip, op), dest[..op]); }
    if Awaits(source, dest.Length, total, ip0, out, s, closing) {
      KnownTurn(source, dest.Length, total, ip0, out, s, closing, t, text, Turned(status, ip, op), dest[..op]);
    }
  }

  /** Behind a known run that is not the last, a known match awaits the decoder. */
  lemma TokenKnown(source: seq<byte>, room: nat, total: nat, ip: nat, out: seq<byte>, s: Sequence, closing: bool, t: Turned, text: seq<byte>)
    requires ip < |source| && |out| <= room && 0 <= LengthAt(source, ip + 1, source[ip] / 16).0
    requires t == RunTurn(source, room, ip, |out|) && t.status.More?
    requires var (length, start) := LengthAt(source, ip + 1, source[ip] / 16); t.ip == start + length && text == out + source[start..t.ip]
    requires |source| <= SAFE_SIZE || Awaits(source, room, total, ip, out, s, closing)
    ensures |source| <= SAFE_SIZE || (AwaitsMatch(source, t.ip, text, s) && source[ip] % 16 == Nibble(s.matchLength - MINMATCH) && s.matchLength < INT_LIMIT)
  {
    if SAFE_SIZE < |source| {
      RunPassed(source, room, total, ip, out, s, closing);
      RunAwaited(source, total, ip, |out|, s.literals, Nibble(s.matchLength - MINMATCH), closing);
    }
  }

  /** Where the checked decoder stands if the input is a well-formed block. */
  ghost predicate WellAt(b: Block, done: Sequences, source: seq<byte>, room: nat, ip: nat, out: seq<byte>) {
    && AtSequence(b, done, ip, out) && EndConditions(b)
    && |Meaning(b)| <= room < INT_LIMIT && source == Serialize(b)
  }

  /** The next step of a well-formed block. */
  lemma StepAwaited(b: Block, done: Sequences, source: seq<byte>, room: nat, ip: nat, out: seq<byte>)
    returns (s: Sequence, closing: bool, end: nat, after: seq<byte>)
    requires WellAt(b, done, source, room, ip, out)
    ensures closing <==> done == b.sequences
    ensures Awaits(source, room, |Meaning(b)|, ip, out, s, closing)
    ensures if closing then out + s.literals == after == Meaning(b) && s.matchLength == MINMATCH
            else end == MatchEnd(ip, s) < |source| && after == CopyMatch(out + s.literals, s.offset, s.matchLength)
                 && WellAt(b, Then(done, s), source, room, end, after)
  {
    assert source[0..|source|] == source;
    s, end, after := FindStep(b, done, source, ip, out);
    closing := done == b.sequences;
  }

  /** One turn of the main loop on a well-formed block makes one step of the decoding. */
  method DecodeStep(source: seq<byte>, dest: array<byte>, ip0: nat, op0: nat, ghost b: Block, ghost done: Sequences, ghost well: bool)
    returns (status: Progress, ip: nat, op: nat, ghost done': Sequences)
    requires ip0 < |source| && op0 <= dest.Length && (well || |source| <= SAFE_SIZE)
    requires well ==> WellAt(b, done, source, dest.Length, ip0, dest[..op0])
    modifies dest
    ensures ip0 < ip <= |source| && op <= dest.Length
    ensures |source| <= SAFE_SIZE ==>
              && Turned(status, ip, op) == Turn(source, dest.Length, ip0, op0)
              && var text := TurnText(source, dest.Length, ip0, old(dest[..op0])); (text.Some? ==> dest[..op] == text.value)
    ensures well ==>
              || (status.Finished? && dest[..op] == Meaning(b))
              || (status.More? && ip < |source| && WellAt(b, done', source, dest.Length, ip, dest[..op]))
  {
    ghost var s, closing, end, after := Sequence([], 0, MINMATCH), false, 0, [];
    if well { s, closing, end, after := StepAwaited(b, done, source, dest.Length, ip0, dest[..op0]); }
    status, ip, op := DecodeOne(source, dest, ip0, op0, s, closing, if well then |Meaning(b)| else 0);
    done' := Then(done, s);
  }

  /** LZ4_uncompress_unknownOutputSize. On every input of up to SAFE_SIZE bytes it stays
      inside both buffers and terminates with what `Outcome` and `Decoded` say: an error is
      reported as the negated input position. On a well-formed block of any size, even with room to spare in the output,
      it yields what the block stands for. */
  method UncompressUnknown(source: seq<byte>, dest: array<byte>, ghost b: Block) returns (r: int)
    requires |source| < INT_LIMIT && dest.Length < INT_LIMIT
    requires |source| <= SAFE_SIZE || StandsFor(source, b, dest.Length)
    modifies dest
    ensures -|source| <= r <= dest.Length
    ensures |source| <= SAFE_SIZE ==>
              && r == Outcome(source, dest.Length, 0, 0)
              && var text := Decoded(source, dest.Length, 0, []); (text.Some? ==> dest[..r] == text.value)
    ensures StandsFor(source, b, dest.Length) ==> r == |Meaning(b)| && dest[..r] == Meaning(b)
  {
    var ip, op := 0, 0;
    ghost var done := Empty;
    ghost var well := StandsFor(source, b, dest.Length);
    EmptyPrefix(b.sequences);
    if well { MoreToRead(b, done, ip, []); }
    while ip < |source|
      invariant 0 <= ip <= |source| && 0 <= op <= dest.Length
      invariant well ==> ip < |source| && WellAt(b, done, source, dest.Length, ip, dest[..op])
      invariant |source| <= SAFE_SIZE ==>
                  && Outcome(source, dest.Length, ip, op) == Outcome(source, dest.Length, 0, 0)
                  && var text := Decoded(source, dest.Length, 0, []); (text.Some? ==> Decoded(source, dest.Length, ip, dest[..op]) == text)
      decreases |source| - ip
    {
      var status;
      status, ip, op, done := DecodeStep(source, dest, ip, op, b, done, well);
      if status.OutputError? { return -(ip as int); }
      if status.Finished? { return op; }
    }
    r := op;
  }

  /** `source` is a block an encoder may have written, and its content fits. */
  ghost predicate StandsFor(source: seq<byte>, b: Block, room: nat) {
    Expandable(b.sequences) && EndConditions(b) && |Meaning(b)| <= room && source == Serialize(b)
  }

  // ---- Beyond the safe size ----------------------------------------------------------------

  /** With the output still empty, neither test for the last run is taken, and the decoder
      goes on reading before the beginning of the input. */
  predicate Escapes(source: seq<byte>, room: nat)
    requires source != []
  {
    var (length, ip) := LengthAt(source, 1, source[0] / 16);
    Clear(|source|, room, ip + length, length) && ip + length < 0
  }

  lemma {:induction false} RunOf255(source: seq<byte>, ip: nat, k: nat, length: nat)
    requires ip + k <= |source| && forall i :: ip <= i < ip + k ==> source[i] == 255
    ensures RunLength(source, ip, Int32(length)) == RunLength(source, ip + k, Int32(length + 255 * k))
    decreases k
  {
    if k > 0 {
      Int32Again(length, 255);
      RunOf255(source, ip + 1, k - 1, length + 255);
    }
  }

  /** A token that announces a run, bytes of 255, and zeros: the length wraps. */
  lemma LongRun(n: nat) returns (source: seq<byte>)
    requires SAFE_SIZE < n < INT_LIMIT
    ensures |source| == n && forall room: nat :: Escapes(source, room)
  {
    source := [0xF0] + seq(SAFE_SIZE, _ => 255) + seq(n - SAFE_SIZE - 1, _ => 0);
    RunOf255(source, 1, SAFE_SIZE, 15);
  }

  /** The sizes for which every input is decoded inside the buffers from its first run on
      are exactly those up to SAFE_SIZE. */
  lemma SafeSizes(n: nat)
    requires 0 < n < INT_LIMIT
    ensures (forall source: seq<byte>, room: nat :: |source| == n ==> !Escapes(source, room)) <==> n <= SAFE_SIZE
  {
    if n <= SAFE_SIZE {
      forall source: seq<byte>, room: nat | |source| == n ensures !Escapes(source, room) {
        LengthBounded(source, 1, source[0] / 16);
      }
    } else {
      var source := LongRun(n);
      assert Escapes(source, 0);
    }
  }
}
