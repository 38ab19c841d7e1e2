/**
 The LZ4 block format: what a list of sequences means, how it is laid out in
 bytes, and when a decoder that recognises the last sequence only by position
 may rely on it.
 */
module Lz4Format {
  import opened Bytes

  const MINMATCH := 4
  const COPYLENGTH := 8
  const LASTLITERALS := 5
  const MFLIMIT := COPYLENGTH + MINMATCH
  const MINLENGTH := MFLIMIT + 1
  const MAX_DISTANCE := 0xFFFF
  const ML_MASK := 15
  const RUN_MASK := 15

  /** A run of literals followed by a match of `matchLength` bytes, `offset` back. */
  datatype Sequence = Sequence(literals: seq<byte>, offset: nat, matchLength: nat)

  /** Sequences in the order in which they are decoded. */
  datatype Sequences = Empty | Then(init: Sequences, s: Sequence)

  /** The sequences of one block and the literals that close it. */
  datatype Block = Block(sequences: Sequences, last: seq<byte>)

  // ---- Meaning -------------------------------------------------------------

  /** From `start` on, every byte repeats the one `offset` before it. (Stated over
      pairs of positions, so that one instance does not call for the next.) */
  ghost predicate Periodic(w: seq<byte>, start: nat, offset: nat) {
    forall i, j :: start <= i < |w| && 0 <= j == i - offset ==> w[i] == w[j]
  }

  /** Appends `n` bytes, each a copy of the byte `offset` before it. */
  function CopyMatch(out: seq<byte>, offset: nat, n: nat): (r: seq<byte>)
    requires 0 < offset <= |out|
    ensures |r| == |out| + n && r[..|out|] == out
    ensures Periodic(r, |out|, offset)
  {
    if n == 0 then out
    else
      var prefix := CopyMatch(out, offset, n - 1);
      prefix + [prefix[|prefix| - offset]]
  }

  /** The offset of `s` stays inside what `out` and its own literals provide. */
  predicate Applicable(out: seq<byte>, s: Sequence) {
    && 0 < s.offset <= MAX_DISTANCE
    && s.offset <= |out| + |s.literals|
    && MINMATCH <= s.matchLength
  }

  function Apply(out: seq<byte>, s: Sequence): (r: seq<byte>)
    requires Applicable(out, s)
    ensures |r| == |out| + |s.literals| + s.matchLength
    ensures r[..|out|] == out
  {
    CopyMatch(out + s.literals, s.offset, s.matchLength)
  }

  predicate Expandable(ss: Sequences)
    decreases ss, 0
  {
    match ss
    case Empty => true
    case Then(init, s) => Expandable(init) && Applicable(Expand(init), s)
  }

  /** The bytes that a list of sequences stands for. */
  function Expand(ss: Sequences): seq<byte>
    requires Expandable(ss)
    decreases ss, 1
  {
    match ss
    case Empty => []
    case Then(init, s) => Apply(Expand(init), s)
  }

  function Meaning(b: Block): seq<byte>
    requires Expandable(b.sequences)
  {
    Expand(b.sequences) + b.last
  }

  /** Copying byte by byte is the only way to extend `out` with period `offset`. */
  lemma {:induction false} PeriodicIsCopyMatch(w: seq<byte>, out: seq<byte>, offset: nat)
    requires 0 < offset <= |out| <= |w| && w[..|out|] == out
    requires Periodic(w, |out|, offset)
    ensures w == CopyMatch(out, offset, |w| - |out|)
  {
    if |w| == |out| {
      assert w == out;
    } else {
      var v := w[..|w| - 1];
      assert v[..|out|] == w[..|out|];
      PeriodicIsCopyMatch(v, out, offset);
      assert w == v + [v[|v| - offset]];
    }
  }

  // ---- Layout --------------------------------------------------------------

  /** What follows a saturated nibble: bytes of 255, closed by a smaller one. */
  function LengthBytes(n: nat): (r: seq<byte>)
    ensures |r| == n / 255 + 1
  {
    if n < 255 then [n] else [255] + LengthBytes(n - 255)
  }

  /** As many 255s as go into `n`, then the remainder. */
  lemma {:induction false} LengthBytesShape(r: seq<byte>, n: nat)
    requires |r| == n / 255 + 1 && r[n / 255] == n % 255
    requires forall i :: 0 <= i < n / 255 ==> r[i] == 255
    ensures r == LengthBytes(n)
  {
    if n >= 255 {
      LengthBytesShape(r[1..], n - 255);
      assert r == [255] + r[1..];
    }
  }

  function Nibble(n: nat): (r: nat)
    ensures r <= 15
  {
    if n >= 15 then 15 else n
  }

  function Extension(n: nat): (r: seq<byte>)
    ensures |r| == if n >= 15 then (n - 15) / 255 + 1 else 0
  {
    if n >= 15 then LengthBytes(n - 15) else []
  }

  /** The token, the literal run and the literals: the part before the offset. */
  function LiteralPart(literals: seq<byte>, matchNibble: nat): (r: seq<byte>)
    requires matchNibble <= 15
  {
    [Nibble(|literals|) * 16 + matchNibble] + Extension(|literals|) + literals
  }

  /** The offset and the rest of the match length. */
  function MatchPart(s: Sequence): (r: seq<byte>)
    requires 0 < s.offset <= MAX_DISTANCE && MINMATCH <= s.matchLength
  {
    [s.offset % 256, s.offset / 256] + Extension(s.matchLength - MINMATCH)
  }

  function SequenceBytes(s: Sequence): (r: seq<byte>)
    requires 0 < s.offset <= MAX_DISTANCE && MINMATCH <= s.matchLength
  {
    LiteralPart(s.literals, Nibble(s.matchLength - MINMATCH)) + MatchPart(s)
  }

  function SequencesBytes(ss: Sequences): seq<byte>
    requires Expandable(ss)
  {
    match ss
    case Empty => []
    case Then(init, s) => SequencesBytes(init) + SequenceBytes(s)
  }

  function Serialize(b: Block): seq<byte>
    requires Expandable(b.sequences)
  {
    SequencesBytes(b.sequences) + LiteralPart(b.last, 0)
  }

  // ---- Prefixes -------------------------------------------------------------

  predicate IsPrefix(done: Sequences, ss: Sequences) {
    done == ss || (ss.Then? && IsPrefix(done, ss.init))
  }

  /** The sequence that comes after `done`. */
  function Next(done: Sequences, ss: Sequences): (s: Sequence)
    requires IsPrefix(done, ss) && done != ss
    ensures IsPrefix(Then(done, s), ss)
  {
    if ss.init == done then ss.s else Next(done, ss.init)
  }

  function Count(ss: Sequences): nat {
    match ss case Empty => 0 case Then(init, _) => Count(init) + 1
  }

  /** What is decoded and read so far begins what is decoded and read in the end. */
  lemma {:induction false} PrefixOf(done: Sequences, ss: Sequences)
    requires IsPrefix(done, ss) && Expandable(ss)
    ensures Expandable(done) && Count(done) <= Count(ss)
    ensures Expand(done) <= Expand(ss) && SequencesBytes(done) <= SequencesBytes(ss)
  {
    if done != ss {
      PrefixOf(done, ss.init);
    }
  }

  // ---- End of block --------------------------------------------------------

  /** Every match begins at least twelve bytes before `n`. */
  predicate StartsEarly(ss: Sequences, n: nat)
    requires Expandable(ss)
  {
    match ss
    case Empty => true
    case Then(init, s) => StartsEarly(init, n) && |Expand(init)| + |s.literals| + MFLIMIT <= n
  }

  /** Nothing but literals in the last five bytes, and no match begins in the
      last twelve (section "End of block restrictions" of the LZ4 block format). */
  predicate EndConditions(b: Block)
    requires Expandable(b.sequences)
  {
    b.sequences.Then? ==> LASTLITERALS <= |b.last| && StartsEarly(b.sequences, |Meaning(b)|)
  }

  lemma {:induction false} PrefixStartsEarly(done: Sequences, ss: Sequences, n: nat)
    requires Expandable(ss) && IsPrefix(done, ss) && StartsEarly(ss, n)
    ensures Expandable(done) && StartsEarly(done, n)
  {
    if done != ss {
      PrefixStartsEarly(done, ss.init, n);
    }
  }

  // ---- Size ----------------------------------------------------------------

  /** LZ4_compressBound, before it is put into an int. */
  function CompressBound(n: nat): nat {
    n + n / 255 + 16
  }

  /** The largest input for which the bound is an int. */
  const MAX_INPUT := 2139095024

  /** LZ4_compressBound returns the bound exactly up to MAX_INPUT; beyond, it overflows. */
  lemma BoundFits(n: nat)
    requires n < INT_LIMIT
    ensures Int32(CompressBound(n)) == CompressBound(n) <==> n <= MAX_INPUT
  {
    if n <= MAX_INPUT {
      assert CompressBound(n) <= CompressBound(MAX_INPUT) < INT_LIMIT;
    } else {
      assert CompressBound(n) >= CompressBound(MAX_INPUT + 1) == INT_LIMIT;
    }
  }

  /** A sequence costs at most the bytes it stands for plus one in 255. */
  lemma SequenceCost(s: Sequence)
    requires 0 < s.offset <= MAX_DISTANCE && MINMATCH <= s.matchLength
    ensures var n := |s.literals| + s.matchLength; |SequenceBytes(s)| <= n + n / 255
  {
  }

  lemma {:induction false} SequencesCost(ss: Sequences)
    requires Expandable(ss)
    ensures |SequencesBytes(ss)| <= |Expand(ss)| + |Expand(ss)| / 255
  {
    if ss.Then? {
      SequencesCost(ss.init);
      SequenceCost(ss.s);
    }
  }

  /** Every block fits the advertised bound, whichever matches were chosen. */
  lemma SerializedSize(b: Block)
    requires Expandable(b.sequences)
    ensures |Serialize(b)| <= |Meaning(b)| + |Meaning(b)| / 255 + 2
    ensures |Serialize(b)| <= CompressBound(|Meaning(b)|)
  {
    SequencesCost(b.sequences);
  }
}
