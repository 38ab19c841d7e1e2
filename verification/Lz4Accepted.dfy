/**
 What the decoder accepts, among all inputs of up to SAFE_SIZE bytes: whatever ends in a run
 of literals is a block, and the output is what that block stands for.
 */
module Lz4Accepted {
  import opened Bytes
  import opened Options
  import opened Lz4Format
  import opened Lz4Decoder

  // ---- Lengths as they are stored --------------------------------------------------------------

  lemma {:induction false} RunStored(source: seq<byte>, ip: nat, base: nat)
    requires ip < |source| && base + 255 * (|source| - ip) < INT_LIMIT && RunLength(source, ip, base).1 < |source|
    ensures var (length, end) := RunLength(source, ip, base); base <= length && source[ip..end] == LengthBytes(length - base)
    decreases |source| - ip
  {
    var (length, end) := RunLength(source, ip, base);
    if source[ip] == 255 {
      RunStored(source, ip + 1, base + 255);
      assert source[ip..end] == [255] + source[ip + 1..end];
    } else {
      assert source[ip..end] == [source[ip]];
    }
  }

  lemma {:induction false} RunGrows(source: seq<byte>, ip: nat, base: nat)
    requires ip <= |source| && base + 255 * (|source| - ip) < INT_LIMIT
    ensures base <= RunLength(source, ip, base).0
    decreases |source| - ip
  {
    if ip < |source| && source[ip] == 255 { RunGrows(source, ip + 1, base + 255); }
  }

  lemma LengthStored(source: seq<byte>, ip: nat, nibble: nat)
    requires 1 <= ip <= |source| <= SAFE_SIZE && nibble <= 15 && (nibble < 15 || LengthAt(source, ip, nibble).1 < |source|)
    ensures var (length, end) := LengthAt(source, ip, nibble);
            0 <= length && nibble == Nibble(length) && source[ip..end] == Extension(length)
  {
    if nibble == 15 { RunStored(source, ip, 15); }
  }

  lemma LengthGrows(source: seq<byte>, ip: nat)
    requires 1 <= ip <= |source| <= SAFE_SIZE
    ensures 15 <= LengthAt(source, ip, 15).0
  {
    RunGrows(source, ip, 15);
  }

  lemma Assembled(source: seq<byte>, ip: nat, start: nat, at: nat)
    requires ip < start <= at <= |source| && source[ip] / 16 == Nibble(at - start) && source[ip + 1..start] == Extension(at - start)
    ensures source[ip..at] == LiteralPart(source[start..at], source[ip] % 16)
  {
    hide Nibble, Extension;
    assert source[ip..at] == [source[ip]] + source[ip + 1..start] + source[start..at];
  }

  /** A run that is no error is stored as the format has it. */
  lemma RunIsPart(source: seq<byte>, room: nat, ip: nat, op: nat)
    requires ip < |source| <= SAFE_SIZE && op <= room && 0 <= LengthAt(source, ip + 1, source[ip] / 16).0
    requires !RunTurn(source, room, ip, op).status.OutputError?
    ensures var (length, start) := LengthAt(source, ip + 1, source[ip] / 16); var t := RunTurn(source, room, ip, op);
            && t.ip == start + length && t.op == op + length
            && source[ip..t.ip] == LiteralPart(source[start..t.ip], source[ip] % 16)
  {
    hide LengthAt, LiteralPart, Nibble, Extension;
    var (length, start) := LengthAt(source, ip + 1, source[ip] / 16);
    if source[ip] / 16 == 15 { LengthGrows(source, ip + 1); }
    LengthStored(source, ip + 1, source[ip] / 16);
    Assembled(source, ip, start, start + length);
  }

  /** So is a match, if its length is not cut off by the end of the input. */
  lemma MatchIsPart(source: seq<byte>, room: nat, ip: nat, op: nat, nibble: nat, literals: seq<byte>)
    requires ip + 2 <= |source| <= SAFE_SIZE && nibble <= 15 && op <= room && 0 <= LengthAt(source, ip + 2, nibble).0
    requires var u := MatchTurn(source, room, ip, op, nibble); u.status.More? && u.ip < |source|
    requires 0 < Load16(source, ip)
    ensures var u := MatchTurn(source, room, ip, op, nibble); var s := Sequence(literals, Load16(source, ip), u.op - op);
            s.offset <= MAX_DISTANCE && MINMATCH <= s.matchLength && nibble == Nibble(s.matchLength - MINMATCH) && source[ip..u.ip] == MatchPart(s)
  {
    LengthStored(source, ip + 2, nibble);
    var (length, end) := LengthAt(source, ip + 2, nibble);
    var v := Load16(source, ip);
    assert source[ip..end] == [source[ip], source[ip + 1]] + source[ip + 2..end];
    assert v % 256 == source[ip] && v / 256 == source[ip + 1];
  }

  // ---- Whatever ends in a run is a block ---------------------------------------------------------

  /** The last turn is a run, and its token announces nothing behind it. */
  predicate EndsInRun(source: seq<byte>, room: nat, ip: nat, op: nat)
    requires ip <= |source| <= SAFE_SIZE && op <= room
    decreases |source| - ip
  {
    ip < |source|
    && (LengthBounded(source, ip + 1, source[ip] / 16);
        if RunTurn(source, room, ip, op).status.Finished? then source[ip] % 16 == 0
        else var t := Turn(source, room, ip, op); t.status.More? && EndsInRun(source, room, t.ip, t.op))
  }

  /** A turn with a match, taken apart. */
  lemma TurnParts(source: seq<byte>, room: nat, ip: nat, op: nat)
    requires ip < |source| <= SAFE_SIZE && op <= room && Turn(source, room, ip, op).status.More?
    ensures 0 <= LengthAt(source, ip + 1, source[ip] / 16).0
    ensures var t := RunTurn(source, room, ip, op);
            && t.status.More? && 0 <= LengthAt(source, t.ip + 2, source[ip] % 16).0
            && Turn(source, room, ip, op) == MatchTurn(source, room, t.ip, t.op, source[ip] % 16)
  {
    hide RunTurn, MatchTurn, LengthAt;
    LengthBounded(source, ip + 1, source[ip] / 16);
    LengthBounded(source, RunTurn(source, room, ip, op).ip + 2, source[ip] % 16);
  }

  /** What it makes of the output. */
  lemma TurnTextIs(source: seq<byte>, room: nat, ip: nat, out: seq<byte>)
    requires ip < |source| <= SAFE_SIZE && |out| <= room && 0 <= LengthAt(source, ip + 1, source[ip] / 16).0
    requires var t := RunTurn(source, room, ip, |out|);
             && t.status.More? && 0 <= LengthAt(source, t.ip + 2, source[ip] % 16).0 && Turn(source, room, ip, |out|).status.More?
             && Turn(source, room, ip, |out|) == MatchTurn(source, room, t.ip, t.op, source[ip] % 16)
    ensures var t, u, start := RunTurn(source, room, ip, |out|), Turn(source, room, ip, |out|), LengthAt(source, ip + 1, source[ip] / 16).1;
            TurnText(source, room, ip, out) ==
              if Load16(source, t.ip) == 0 then None
              else Some(CopyMatch(out + source[start..t.ip], Load16(source, t.ip), u.op - t.op))
  {
    hide RunTurn, MatchTurn, Turn, LengthAt, CopyMatch, Load16;
  }

  /** One turn reads one sequence. */
  lemma TurnReads(source: seq<byte>, room: nat, ip: nat, done: Sequences) returns (s: Sequence)
    requires ip < |source| <= SAFE_SIZE && Expandable(done) && |Expand(done)| <= room && source[..ip] == SequencesBytes(done)
    requires TurnText(source, room, ip, Expand(done)).Some?
    requires var u := Turn(source, room, ip, |Expand(done)|); u.status.More? && u.ip < |source|
    ensures var u := Turn(source, room, ip, |Expand(done)|);
            Expandable(Then(done, s)) && source[..u.ip] == SequencesBytes(Then(done, s))
            && TurnText(source, room, ip, Expand(done)) == Some(Expand(Then(done, s)))
  {
    hide Turn, TurnText, RunTurn, MatchTurn, LengthAt, Load16, CopyMatch, LiteralPart, MatchPart;
    var out := Expand(done);
    TurnParts(source, room, ip, |out|);
    TurnTextIs(source, room, ip, out);
    var start := LengthAt(source, ip + 1, source[ip] / 16).1;
    var t, u := RunTurn(source, room, ip, |out|), Turn(source, room, ip, |out|);
    var literals := source[start..t.ip];
    s := Sequence(literals, Load16(source, t.ip), u.op - t.op);
    RunIsPart(source, room, ip, |out|);
    MatchIsPart(source, room, t.ip, t.op, source[ip] % 16, literals);
    assert source[ip..u.ip] == source[ip..t.ip] + source[t.ip..u.ip] == SequenceBytes(s);
    assert source[..u.ip] == source[..ip] + source[ip..u.ip];
  }

  lemma {:induction false} RestIsBlock(source: seq<byte>, room: nat, ip: nat, done: Sequences) returns (b: Block)
    requires ip <= |source| <= SAFE_SIZE && Expandable(done) && |Expand(done)| <= room && source[..ip] == SequencesBytes(done)
    requires Decoded(source, room, ip, Expand(done)).Some? && EndsInRun(source, room, ip, |Expand(done)|)
    ensures Expandable(b.sequences) && source == Serialize(b) && Decoded(source, room, ip, Expand(done)) == Some(Meaning(b))
    decreases |source| - ip
  {
    hide LengthAt, MatchTurn, TurnText, LiteralPart;
    var out := Expand(done);
    LengthBounded(source, ip + 1, source[ip] / 16);
    var start := LengthAt(source, ip + 1, source[ip] / 16).1;
    var t, u := RunTurn(source, room, ip, |out|), Turn(source, room, ip, |out|);
    if t.status.Finished? {
      b := Block(done, source[start..t.ip]);
      RunIsPart(source, room, ip, |out|);
      LastText(source, room, ip, out);
      assert source == source[..ip] + source[ip..t.ip];
    } else {
      var s := TurnReads(source, room, ip, done);
      b := RestIsBlock(source, room, u.ip, Then(done, s));
    }
  }

  lemma LastText(source: seq<byte>, room: nat, ip: nat, out: seq<byte>)
    requires ip < |source| <= SAFE_SIZE && |out| <= room && 0 <= LengthAt(source, ip + 1, source[ip] / 16).0
    requires RunTurn(source, room, ip, |out|).status.Finished?
    ensures var t, start := RunTurn(source, room, ip, |out|), LengthAt(source, ip + 1, source[ip] / 16).1;
            start <= t.ip == |source| && TurnText(source, room, ip, out) == Some(out + source[start..t.ip])
  {
    hide LengthAt, MatchTurn;
  }

  /** Soundness of LZ4_uncompress_unknownOutputSize: if it accepts an input, however damaged,
      and has ended in a run of literals, then the input is a block and the output what that
      block stands for. Left out are offsets of zero (`Decoded`), inputs that break off
      behind a match, and those of which a match fills the output (`EndsInRun`). */
  lemma AcceptedIsBlock(source: seq<byte>, room: nat) returns (b: Block)
    requires |source| <= SAFE_SIZE && Decoded(source, room, 0, []).Some? && EndsInRun(source, room, 0, 0)
    ensures Expandable(b.sequences) && source == Serialize(b)
    ensures Decoded(source, room, 0, []) == Some(Meaning(b)) && Outcome(source, room, 0, 0) == |Meaning(b)|
  {
    assert source[..0] == [] && Expand(Empty) == [];
    b := RestIsBlock(source, room, 0, Empty);
  }

  // ---- And what an encoder may have written ends in a run ------------------------------------------

  lemma {:induction false} RestDecoded(source: seq<byte>, room: nat, ip: nat, b: Block, done: Sequences)
    requires |source| <= SAFE_SIZE && Expandable(done) && WellAt(b, done, source, room, ip, Expand(done))
    requires ip <= |source| && |Expand(done)| <= room
    ensures EndsInRun(source, room, ip, |Expand(done)|) && Decoded(source, room, ip, Expand(done)) == Some(Meaning(b))
    decreases |source| - ip
  {
    hide Awaits, AwaitsMatch, RunTurn, MatchTurn, TurnText, Turn, LengthAt, CopyMatch, EndConditions, MatchEnd, Serialize;
    var out := Expand(done);
    var s, closing, end, after := StepAwaited(b, done, source, room, ip, out);
    StepText(source, room, |Meaning(b)|, ip, out, s, closing);
    if !closing { RestDecoded(source, room, end, b, Then(done, s)); }
  }

  /** What awaits the decoder is what the next turn reads. */
  lemma StepText(source: seq<byte>, room: nat, total: nat, ip: nat, out: seq<byte>, s: Sequence, closing: bool)
    requires |source| <= SAFE_SIZE && |out| <= room && Awaits(source, room, total, ip, out, s, closing)
    ensures ip < |source| && 0 <= LengthAt(source, ip + 1, source[ip] / 16).0 && MINMATCH <= s.matchLength && source[ip] % 16 == Nibble(s.matchLength - MINMATCH)
    ensures RunTurn(source, room, ip, |out|).status == if closing then Finished else More
    ensures closing ==> Turn(source, room, ip, |out|).status.Finished? && TurnText(source, room, ip, out) == Some(out + s.literals)
    ensures !closing ==>
              && 0 < s.offset <= |out + s.literals| && Turn(source, room, ip, |out|).status.More? && Turn(source, room, ip, |out|).ip == MatchEnd(ip, s)
              && TurnText(source, room, ip, out) == Some(CopyMatch(out + s.literals, s.offset, s.matchLength))
  {
    hide Awaits, RunTurn, MatchTurn, LengthAt, CopyMatch, Load16, TurnText;
    StepParts(source, room, total, ip, out, s, closing);
    if closing { LastText(source, room, ip, out); } else { TurnTextIs(source, room, ip, out); }
  }

  /** Blocks that obey the end-of-block restrictions are accepted. */
  lemma BlockIsAccepted(source: seq<byte>, room: nat, b: Block)
    requires |source| <= SAFE_SIZE && room < INT_LIMIT && StandsFor(source, b, room)
    ensures EndsInRun(source, room, 0, 0) && Decoded(source, room, 0, []) == Some(Meaning(b))
  {
    EmptyPrefix(b.sequences);
    RestDecoded(source, room, 0, b, Empty);
  }
}
