/** LZ4_compress64kCtx and LZ4_compressCtx: the greedy encoder. */
module Lz4Encoder {
  import opened Bytes
  import opened Lz4Format
  import opened Lz4Copy
  import opened Lz4Greedy
  import opened Lz4MatchFinder

  // ---- Emitting one sequence ------------------------------------------------

  lemma DivMod(n: nat, k: nat, rest: nat)
    requires n == 255 * k + rest && rest < 255
    ensures n / 255 == k && n % 255 == rest
  {
  }

  /** The loop behind a saturated literal nibble: one 255 at a time. */
  method WriteLiteralRun(dest: array<byte>, op: nat, n: nat) returns (end: nat)
    requires op + n / 255 + 1 <= dest.Length
    modifies dest
    ensures end == op + n / 255 + 1 && dest[..end] == old(dest[..op]) + LengthBytes(n)
  {
    var len := n;
    end := op;
    while len > 254
      invariant 0 <= len && op <= end && n - len == 255 * (end - op)
      invariant dest[..op] == old(dest[..op]) && forall i :: op <= i < end ==> dest[i] == 255
    {
      dest[end] := 255;
      end, len := end + 1, len - 255;
    }
    DivMod(n, end - op, len);
    dest[end] := len;
    end := end + 1;
    LengthBytesShape(dest[op..end], n);
    assert dest[..end] == dest[..op] + dest[op..end];
  }

  /** The loop behind a saturated match nibble: two 255s at a time, then one. */
  method WriteMatchRun(dest: array<byte>, op: nat, n: nat) returns (end: nat)
    requires op + n / 255 + 1 <= dest.Length
    modifies dest
    ensures end == op + n / 255 + 1 && dest[..end] == old(dest[..op]) + LengthBytes(n)
  {
    var len := n;
    end := op;
    while len > 509
      invariant 0 <= len && op <= end && n - len == 255 * (end - op)
      invariant dest[..op] == old(dest[..op]) && forall i :: op <= i < end ==> dest[i] == 255
    {
      dest[end] := 255;
      dest[end + 1] := 255;
      end, len := end + 2, len - 510;
    }
    if len > 254 {
      len := len - 255;
      dest[end] := 255;
      end := end + 1;
    }
    DivMod(n, end - op, len);
    dest[end] := len;
    end := end + 1;
    LengthBytesShape(dest[op..end], n);
    assert dest[..end] == dest[..op] + dest[op..end];
  }

  /** The token and the length of a literal run, without the literals. */
  method WriteToken(dest: array<byte>, op: nat, length: nat) returns (end: nat)
    requires op + 1 + |Extension(length)| <= dest.Length
    modifies dest
    ensures end == op + 1 + |Extension(length)|
    ensures dest[..end] == old(dest[..op]) + ([Nibble(length) * 16] + Extension(length))
  {
    if length >= RUN_MASK {
      dest[op] := RUN_MASK * 16;
      assert dest[..op + 1] == old(dest[..op]) + [RUN_MASK * 16];
      end := WriteLiteralRun(dest, op + 1, length - RUN_MASK);
    } else {
      dest[op] := length * 16;
      end := op + 1;
    }
  }

  /** Token, literal length and the literals themselves, by a wild copy that needs
      eight spare bytes on both sides. */
  method WriteLiterals(source: seq<byte>, dest: array<byte>, anchor: nat, ip: nat, op: nat) returns (end: nat)
    requires anchor <= ip && ip + COPYLENGTH <= |source|
    requires op + |LiteralPart(source[anchor..ip], 0)| + COPYLENGTH <= dest.Length
    modifies dest
    ensures end == op + |LiteralPart(source[anchor..ip], 0)|
    ensures dest[..end] == old(dest[..op]) + LiteralPart(source[anchor..ip], 0)
  {
    var mid := WriteToken(dest, op, ip - anchor);
    end := mid + (ip - anchor);
    WildCopy(source, anchor, dest, mid, end);
    assert dest[..end] == dest[..mid] + dest[mid..end];
  }

  /** The literals that close the block: no match follows, so no copy overruns. */
  method WriteLastLiterals(source: seq<byte>, dest: array<byte>, anchor: nat, op: nat) returns (end: nat)
    requires anchor <= |source|
    requires op + |LiteralPart(source[anchor..], 0)| <= dest.Length
    modifies dest
    ensures end == op + |LiteralPart(source[anchor..], 0)|
    ensures dest[..end] == old(dest[..op]) + LiteralPart(source[anchor..], 0)
  {
    var lastRun := |source| - anchor;
    var mid := WriteToken(dest, op, lastRun);
    end := mid + lastRun;
    CopyExactly(source, anchor, dest, mid);
  }

  /** memcpy of everything from `anchor` on. */
  method CopyExactly(source: seq<byte>, anchor: nat, dest: array<byte>, d: nat)
    requires anchor <= |source| && d + (|source| - anchor) <= dest.Length
    modifies dest
    ensures dest[..d + (|source| - anchor)] == old(dest[..d]) + source[anchor..]
  {
    ghost var t := dest[..];
    forall i | 0 <= i < |source| - anchor { dest[d + i] := source[anchor + i]; }
    assert dest[..] == Splice(t, d, source[anchor..]);
  }

  /** LZ4_WRITE_LITTLEENDIAN_16, including its truncation to sixteen bits. */
  method WriteOffset(dest: array<byte>, op: nat, offset: nat)
    requires op + 2 <= dest.Length
    modifies dest
    ensures offset <= MAX_DISTANCE ==> dest[..op + 2] == old(dest[..op]) + [offset % 256, offset / 256]
  {
    var v := offset % 0x1_0000;
    dest[op], dest[op + 1] := v % 256, v / 256;
  }

  /** Raising the match nibble of a token turns `LiteralPart(l, 0)` into `LiteralPart(l, m)`. */
  lemma RaiseNibble(out: seq<byte>, literals: seq<byte>, m: nat, tail: seq<byte>, written: seq<byte>)
    requires m <= 15 && written == out + LiteralPart(literals, 0) + tail
    ensures written[|out|] + m < 256
    ensures written[|out| := written[|out|] + m] == out + LiteralPart(literals, m) + tail
  {
  }

  lemma WholeSequence(out: seq<byte>, s: Sequence)
    requires 0 < s.offset <= MAX_DISTANCE && MINMATCH <= s.matchLength
    ensures out + LiteralPart(s.literals, Nibble(s.matchLength - MINMATCH)) + [s.offset % 256, s.offset / 256]
            + Extension(s.matchLength - MINMATCH) == out + SequenceBytes(s)
  {
  }

  /** Writes the length of a match and adds its nibble to the token written earlier. */
  method WriteMatchLength(dest: array<byte>, token: nat, op: nat, len: nat, ghost out: seq<byte>, ghost s: Sequence)
    returns (end: nat)
    requires token == |out| && token < op && op + |Extension(len)| <= dest.Length
    requires 0 < s.offset <= MAX_DISTANCE && s.matchLength == len + MINMATCH
    requires dest[..op] == out + LiteralPart(s.literals, 0) + [s.offset % 256, s.offset / 256]
    modifies dest
    ensures end == op + |Extension(len)| && dest[..end] == out + SequenceBytes(s)
  {
    ghost var before := dest[..op];
    RaiseNibble(out, s.literals, Nibble(len), [s.offset % 256, s.offset / 256], before);
    dest[token] := dest[token] + (if len >= ML_MASK then ML_MASK else len);
    assert dest[..op] == before[token := before[token] + Nibble(len)];
    end := op;
    if len >= ML_MASK {
      end := WriteMatchRun(dest, op, len - ML_MASK);
    }
    WholeSequence(out, s);
  }

  // ---- What has been emitted ------------------------------------------------

  /** The sequences so far stand for the input up to `anchor` and are laid out in `out`. */
  ghost predicate Emitted(source: seq<byte>, ss: Sequences, anchor: nat, out: seq<byte>) {
    && anchor <= |source|
    && Expandable(ss)
    && Expand(ss) == source[..anchor]
    && out == SequencesBytes(ss)
    && StartsEarly(ss, |source|)
  }

  lemma AppendMeaning(source: seq<byte>, out: seq<byte>, s: Sequence, ip: nat, end: nat)
    requires ip <= end <= |source| && out + s.literals == source[..ip] && end - ip == s.matchLength
    requires Applicable(out, s) && Agree(source, ip, end, s.offset)
    ensures Apply(out, s) == source[..end]
  {
    assert source[..end][..ip] == source[..ip];
    PeriodicIsCopyMatch(source[..end], source[..ip], s.offset);
  }

  /** A match found in the input is one more sequence. */
  lemma AppendSequence(source: seq<byte>, ss: Sequences, anchor: nat, s: Sequence, ip: nat, end: nat, out: seq<byte>)
    requires Emitted(source, ss, anchor, out)
    requires anchor <= ip && ip + MINMATCH <= end <= |source| && ip + MFLIMIT <= |source|
    requires s.literals == source[anchor..ip] && s.matchLength == end - ip
    requires 0 < s.offset <= ip && s.offset <= MAX_DISTANCE && Agree(source, ip, end, s.offset)
    ensures Emitted(source, Then(ss, s), end, out + SequenceBytes(s))
    ensures |out| + |LiteralPart(s.literals, 0)| + 2 + |Extension(s.matchLength - MINMATCH)| == |out + SequenceBytes(s)|
    ensures |out + SequenceBytes(s)| + COPYLENGTH <= CompressBound(|source|)
  {
    assert Expand(ss) + s.literals == source[..ip];
    AppendMeaning(source, Expand(ss), s, ip, end);
    SequencesCost(Then(ss, s));
  }

  /** Until a match is counted, its literals alone must leave room for the offset. */
  lemma MatchRoom(source: seq<byte>, ss: Sequences, anchor: nat, ip: nat, out: seq<byte>)
    requires Emitted(source, ss, anchor, out) && anchor <= ip && ip + MFLIMIT <= |source|
    ensures |out| <= anchor + anchor / 255
    ensures |out| + |LiteralPart(source[anchor..ip], 0)| + COPYLENGTH <= CompressBound(|source|)
  {
    SequencesCost(ss);
  }

  // ---- The encoder ----------------------------------------------------------

  /** Literals written, match found: what holds at the label `_next_match`. `known` is
      where the table last learnt a position, `out` what stands before the token. */
  ghost predicate AtMatch(source: seq<byte>, ss: Sequences, anchor: nat, ip: nat, ref: nat, known: nat,
                          out: seq<byte>, written: seq<byte>)
  {
    && anchor <= ip <= known && known + MFLIMIT <= |source|
    && IsMatch(source, ip, ref) && Agree(source, ip, known + 4, ip - ref)
    && Emitted(source, ss, anchor, out)
    && written == out + LiteralPart(source[anchor..ip], 0)
  }

  /** A count that stops at a difference passes the bytes known to agree. */
  lemma CountReaches(source: seq<byte>, ip: nat, ref: nat, known: nat, end: nat)
    requires ref < ip <= known && known + MFLIMIT <= |source| && Agree(source, ip, known + 4, ip - ref)
    requires ip <= end && (end < |source| - LASTLITERALS ==> source[end] != source[end - (ip - ref)])
    ensures known + 4 <= end
  {
  }

  /** Once the match is counted, it is known what remains to be written and that it fits. */
  lemma MatchCounted(source: seq<byte>, ss: Sequences, anchor: nat, ip: nat, ref: nat, known: nat,
                     out: seq<byte>, written: seq<byte>, end: nat) returns (s: Sequence)
    requires AtMatch(source, ss, anchor, ip, ref, known, out, written)
    requires ip + 4 <= end <= |source| - LASTLITERALS && Agree(source, ip, end, ip - ref)
    requires end < |source| - LASTLITERALS ==> source[end] != source[end - (ip - ref)]
    ensures s == Sequence(source[anchor..ip], ip - ref, end - ip) && 0 < s.offset <= MAX_DISTANCE
    ensures known + 4 <= end && written == out + LiteralPart(s.literals, 0)
    ensures Emitted(source, Then(ss, s), end, out + SequenceBytes(s))
    ensures |written| + 2 + |Extension(end - ip - MINMATCH)| == |out + SequenceBytes(s)|
    ensures |out + SequenceBytes(s)| + COPYLENGTH <= CompressBound(|source|)
  {
    s := Sequence(source[anchor..ip], ip - ref, end - ip);
    CountReaches(source, ip, ref, known, end);
    AppendSequence(source, ss, anchor, s, ip, end, out);
  }

  /** From `_next_match` to the end of the match: offset, count, match length. */
  method EmitMatch(source: seq<byte>, dest: array<byte>, ghost anchor: nat, ip: nat, ref: nat, token: nat, op: nat,
                   ghost known: nat, ghost ss: Sequences, ghost out: seq<byte>)
    returns (end: nat, op': nat, ghost s: Sequence)
    requires CompressBound(|source|) <= dest.Length && op <= dest.Length && token == |out|
    requires AtMatch(source, ss, anchor, ip, ref, known, out, dest[..op])
    modifies dest
    ensures known + 4 <= end && end + LASTLITERALS <= |source|
    ensures op' <= dest.Length && Emitted(source, Then(ss, s), end, dest[..op'])
    ensures end == Reach(source, ip + MINMATCH, ip - ref) && s == Sequence(source[anchor..ip], ip - ref, end - ip)
    ensures op' + COPYLENGTH <= CompressBound(|source|)
  {
    hide Agree, Emitted, Reach, CompressBound, Extension, LiteralPart, SequenceBytes;
    ghost var written := dest[..op];
    MatchRoom(source, ss, anchor, ip, out);
    WriteOffset(dest, op, ip - ref);
    end := CountMatch(source, ip, ref);
    ReachIs(source, ip + MINMATCH, ip - ref, end);
    s := MatchCounted(source, ss, anchor, ip, ref, known, out, written, end);
    assert dest[..op + 2] == written + [s.offset % 256, s.offset / 256];
    op' := WriteMatchLength(dest, token, op + 2, end - ip - MINMATCH, out, s);
  }

  /** A match right behind the previous one: an empty literal run, token 0. */
  lemma MatchFollows(source: seq<byte>, ss: Sequences, ip: nat, ref: nat, out: seq<byte>)
    requires Emitted(source, ss, ip, out) && IsMatch(source, ip, ref) && ip + MFLIMIT <= |source|
    ensures AtMatch(source, ss, ip, ip, ref, ip, out, out + [0])
  {
    assert source[ip..ip] == [];
  }

  /** Records the end of a match in the table and asks for a match right there. */
  method TestNext(v: Variant, source: seq<byte>, table: array<nat>, ip: nat) returns (more: bool, ref: nat)
    requires Encodable(v, |source|) && table.Length == TableSize(v)
    requires 2 <= ip && ip + MFLIMIT <= |source| && Behind(table[..], ip)
    modifies table
    ensures Behind(table[..], ip + 1)
    ensures more ==> IsMatch(source, ip, ref)
    ensures var t := old(table[..])[Hash(v, source, ip - 2) := Stored(v, ip - 2)];
            ref == t[Hash(v, source, ip)] && table[..] == t[Hash(v, source, ip) := Stored(v, ip)]
    ensures more <==> Usable(v, source, ip, ref)
  {
    hide Hash, Agree, IsMatch, Usable;
    var h := Hash(v, source, ip - 2);
    table[h] := Stored(v, ip - 2);
    h := Hash(v, source, ip);
    ref := table[h];
    table[h] := Stored(v, ip);
    more := v.Small? || ref > ip - (MAX_DISTANCE + 1);
    var same := false;
    if more { same := SameWord(source, ip, ref); }
    UsableIs(v, source, ip, ref, same);
    more := more && same;
  }

  /** Emits the match at `ip` and every match that directly follows it, until there
      is none or the input is nearly exhausted. */
  method EmitMatches(v: Variant, source: seq<byte>, dest: array<byte>, table: array<nat>,
                     ghost anchor0: nat, ip0: nat, ref0: nat, token0: nat, op0: nat,
                     ghost known0: nat, ghost ss0: Sequences, ghost goal: Parsed)
    returns (ip: nat, op: nat, ghost ss: Sequences)
    requires Encodable(v, |source|) && table.Length == TableSize(v)
    requires CompressBound(|source|) <= dest.Length && token0 <= op0 <= dest.Length
    requires AtMatch(source, ss0, anchor0, ip0, ref0, known0, dest[..token0], dest[..op0])
    requires Behind(table[..], known0 + 1) && goal == Follow(v, source, table[..], anchor0, ip0, ref0, ss0)
    modifies dest, table
    ensures anchor0 < ip && op <= dest.Length && Emitted(source, ss, ip, dest[..op])
    ensures ip + LASTLITERALS <= |source| && ss.Then?
    ensures ip + MFLIMIT <= |source| ==> Behind(table[..], ip + 1)
    ensures goal == if ip + MFLIMIT > |source| then Parsed(ss, ip) else Scan(v, source, table[..], ip, ss)
  {
    hide Follow, Scan, Reach, Hash, Usable, Agree, Emitted;
    var ref, token := ref0, token0;
    ghost var anchor, known, out := anchor0, known0, dest[..token0];
    ip, op, ss := ip0, op0, ss0;
    while true
      invariant 0 <= ref && anchor0 <= anchor && op <= dest.Length && token == |out|
      invariant AtMatch(source, ss, anchor, ip, ref, known, out, dest[..op])
      invariant Behind(table[..], known + 1) && goal == Follow(v, source, table[..], anchor, ip, ref, ss)
      decreases |source| - ip
    {
      ghost var s, start, before := Sequence([], 0, 0), ip, ss;
      ip, op, s := EmitMatch(source, dest, anchor, ip, ref, token, op, known, ss, out);
      FollowStep(v, source, table[..], anchor, start, ref, before, ip);
      ss, anchor, known, out := Then(ss, s), ip, ip, dest[..op];
      if ip > |source| - MFLIMIT { return; }
      var more;
      more, ref := TestNext(v, source, table, ip);
      if !more { return; }
      token := op;
      dest[op] := 0;
      op := op + 1;
      assert dest[..op] == out + [0];
      MatchFollows(source, ss, ip, ref, out);
    }
  }

  lemma NothingEmitted(source: seq<byte>)
    ensures Emitted(source, Empty, 0, [])
  {
  }

  /** The main loop, up to `_last_literals`. */
  method EmitSequences(v: Variant, source: seq<byte>, dest: array<byte>, table: array<nat>)
    returns (anchor: nat, op: nat, ghost ss: Sequences)
    requires Encodable(v, |source|) && MINLENGTH <= |source| && CompressBound(|source|) <= dest.Length
    requires table.Length == TableSize(v) && Behind(table[..], 1)
    modifies dest, table
    ensures op <= dest.Length && Emitted(source, ss, anchor, dest[..op])
    ensures ss.Then? ==> anchor + LASTLITERALS <= |source|
    ensures Parsed(ss, anchor) == Scan(v, source, old(table[..]), 0, Empty)
  {
    hide Follow, Scan, FirstMatch, Back, Hash, Usable, Agree, CompressBound, Emitted, LiteralPart;
    ghost var goal := Scan(v, source, table[..], 0, Empty);
    anchor, op, ss := 0, 0, Empty;
    NothingEmitted(source);
    assert dest[..0] == [];
    var start := 1;
    while true
      invariant start == anchor + 1 <= |source| - MFLIMIT + 1
      invariant op <= dest.Length && Emitted(source, ss, anchor, dest[..op])
      invariant Behind(table[..], start) && goal == Scan(v, source, table[..], anchor, ss)
      decreases |source| - anchor
    {
      ghost var searched := table[..];
      var found, ip, ref := FindMatch(v, source, table, start);
      if !found {
        ScanStep(v, source, searched, anchor, ss, Nowhere, 0);
        return;
      }
      ScanStep(v, source, searched, anchor, ss, Found(ip, ref, table[..]), Back(source, anchor, ip, ip - ref));
      ghost var known := ip;
      ip, ref := CatchUp(source, anchor, ip, ref);
      var token := op;
      ghost var before := dest[..op];
      MatchRoom(source, ss, anchor, ip, before);
      op := WriteLiterals(source, dest, anchor, ip, op);
      assert dest[..token] == dest[..op][..token] == before;
      ip, op, ss := EmitMatches(v, source, dest, table, anchor, ip, ref, token, op, known, ss, goal);
      anchor := ip;
      if ip > |source| - MFLIMIT { return; }
      start := ip + 1;
    }
  }

  /** LZ4_compress64kCtx and LZ4_compressCtx. The block written stands for the input,
      obeys the end-of-block restrictions, and fits the advertised bound; the
      preconditions of every write above show that no wild copy leaves that bound.
      The size is returned in an int, which it fits for inputs up to MAX_INPUT. */
  method CompressCtx(v: Variant, source: seq<byte>, dest: array<byte>) returns (written: int, ghost b: Block)
    requires Encodable(v, |source|) && CompressBound(|source|) <= dest.Length
    modifies dest
    ensures Written(source, dest[..], written, b) && b == Greedy(v, source)
  {
    hide Greedy, Scan, Hash, CompressBound, Emitted, Written, LiteralPart, Behind;
    var anchor, op := 0, 0;
    ghost var ss := Empty;
    NothingEmitted(source);
    assert dest[..0] == [];
    if |source| >= MINLENGTH {
      var table := new nat[TableSize(v)](_ => 0);
      if v.General? {
        var h := Hash(v, source, 0);
        table[h] := 0;
      }
      ghost var zeros := table[..];
      AllBehind(zeros);
      anchor, op, ss := EmitSequences(v, source, dest, table);
      GreedyIs(v, source, zeros, Parsed(ss, anchor));
    } else {
      GreedyShort(v, source);
    }
    b := Block(ss, source[anchor..]);
    LastFits(source, ss, anchor, dest[..op]);
    ghost var out := dest[..op];
    var end := WriteLastLiterals(source, dest, anchor, op);
    written := Int32(end);
    assert dest[..][..end] == dest[..end];
    WrittenIs(source, ss, anchor, out, dest[..], end);
  }

  lemma AllBehind(zeros: seq<nat>)
    requires forall h :: 0 <= h < |zeros| ==> zeros[h] == 0
    ensures Behind(zeros, 1)
  {
  }

  lemma LastFits(source: seq<byte>, ss: Sequences, anchor: nat, out: seq<byte>)
    requires Emitted(source, ss, anchor, out)
    ensures anchor <= |source| && |out| + |LiteralPart(source[anchor..], 0)| <= CompressBound(|source|)
  {
    SerializedSize(Block(ss, source[anchor..]));
  }

  lemma WrittenIs(source: seq<byte>, ss: Sequences, anchor: nat, out: seq<byte>, dest: seq<byte>, end: nat)
    requires |source| < INT_LIMIT && Emitted(source, ss, anchor, out) && (ss.Then? ==> anchor + LASTLITERALS <= |source|)
    requires end <= |dest| && dest[..end] == out + LiteralPart(source[anchor..], 0)
    ensures Written(source, dest, Int32(end), Block(ss, source[anchor..]))
  {
    var b := Block(ss, source[anchor..]);
    SerializedSize(b);
    BoundFits(|source|);
    assert source == source[..anchor] + source[anchor..];
    assert Serialize(b) == dest[..end];
  }

  /** `dest` begins with a block that stands for the input, and `written` is its size. */
  ghost predicate Written(source: seq<byte>, dest: seq<byte>, written: int, b: Block) {
    && Expandable(b.sequences) && Meaning(b) == source && EndConditions(b)
    && |Serialize(b)| <= CompressBound(|source|) && Serialize(b) <= dest
    && written == Int32(|Serialize(b)|) && (|source| <= MAX_INPUT ==> written == |Serialize(b)|)
  }

  /** LZ4_compress: the small variant below 64 KB. */
  method Compress(source: seq<byte>, dest: array<byte>) returns (written: int, ghost b: Block)
    requires |source| < INT_LIMIT && CompressBound(|source|) <= dest.Length
    modifies dest
    ensures Written(source, dest[..], written, b) && b == Chosen(source)
    ensures |source| < 14 ==> written == |source| + 1
    ensures |source| >= 14 && AllEqual(source) ==> written == if |source| < 25 then 10 else 10 + (|source| - 25) / 255 + 1
  {
    hide Greedy, AllEqual, CompressBound, Serialize;
    ghost var v := if |source| < LZ4_64KLIMIT then Small else General;
    if |source| < 14 { ShortSize(v, source); }
    if |source| >= 14 && AllEqual(source) { EqualSize(v, source); }
    if |source| < LZ4_64KLIMIT {
      written, b := CompressCtx(Small, source, dest);
    } else {
      written, b := CompressCtx(General, source, dest);
    }
  }
}
