/** Copying a match inside the output, eight bytes at a time although it may overlap itself. */
module Lz4MatchCopy {
  import opened Bytes
  import opened Lz4Format

  // ---- Periods ---------------------------------------------------------------

  /** A sequence of period `offset` also has every multiple of it as a period. */
  lemma PeriodsAdd(w: seq<byte>, start: nat, offset: nat, d: nat)
    requires 0 < offset <= d && Periodic(w, start, offset) && Periodic(w, start + d - offset, d)
    ensures Periodic(w, start + d, d + offset)
  {
    forall i, j | start + d <= i < |w| && 0 <= j == i - (d + offset)
      ensures w[i] == w[j]
    {
      assert w[i] == w[i - offset] && w[i - offset] == w[i - offset - d];
    }
  }

  lemma {:induction false} MultiplePeriod(w: seq<byte>, start: nat, offset: nat, m: nat)
    requires 0 < offset <= start && 0 < m && Periodic(w, start, offset)
    ensures Periodic(w, start + (m - 1) * offset, m * offset)
  {
    if m > 1 {
      MultiplePeriod(w, start, offset, m - 1);
      var d := (m - 1) * offset;
      assert d == (m - 2) * offset + offset && m * offset == d + offset;
      PeriodsAdd(w, start, offset, d);
    } else {
      assert m * offset == offset && (m - 1) * offset == 0;
    }
  }

  /** The dec table: how far back `ref` steps after four single bytes. */
  function Dec(offset: nat): (d: nat)
    requires offset < 8
  {
    [0, 3, 2, 3, 0, 0, 0, 0][offset]
  }

  /** The dec2 table; its entry ~0 is the step +1 in pointer arithmetic. */
  function Dec2(offset: nat): (d: int)
    requires offset < 8
  {
    [0, 0, 0, -1, 0, 1, 2, 3][offset]
  }

  /** What the tables are for: after four bytes the distance is a multiple of the
      offset and at least four; after eight it is one and at least eight. */
  lemma TableDistances(offset: nat) returns (m: nat, m2: nat)
    requires 0 < offset < 8
    ensures 0 < m && offset + Dec(offset) == m * offset && 4 <= offset + Dec(offset) <= offset + 4
    ensures 0 < m2 && offset + Dec(offset) + 4 + Dec2(offset) == m2 * offset
    ensures 8 <= offset + Dec(offset) + 4 + Dec2(offset) <= offset + 8
    ensures (offset + Dec(offset) + 4 + Dec2(offset)) % offset == 0
    ensures (m - 1) * offset <= 4 && (m2 - 1) * offset <= 8
  {
    if offset == 1 { m, m2 := 4, 8; }
    else if offset == 2 { m, m2 := 2, 4; }
    else if offset == 3 { m, m2 := 2, 3; }
    else if offset == 4 { m, m2 := 1, 2; }
    else if offset == 5 { m, m2 := 1, 2; }
    else if offset == 6 { m, m2 := 1, 2; }
    else { m, m2 := 1, 2; }
  }

  lemma TablePeriods(w: seq<byte>, start: nat, offset: nat)
    requires 0 < offset < 8 && offset <= start && Periodic(w, start, offset)
    ensures Periodic(w, start + 4, offset + Dec(offset))
    ensures Periodic(w, start + 8, offset + Dec(offset) + 4 + Dec2(offset))
    ensures (offset + Dec(offset) + 4 + Dec2(offset)) % offset == 0
  {
    var m, m2 := TableDistances(offset);
    MultiplePeriod(w, start, offset, m);
    PeriodicLater(w, start + (m - 1) * offset, start + 4, offset + Dec(offset));
    MultiplePeriod(w, start, offset, m2);
    PeriodicLater(w, start + (m2 - 1) * offset, start + 8, offset + Dec(offset) + 4 + Dec2(offset));
  }

  lemma PeriodicLater(w: seq<byte>, start: nat, later: nat, d: nat)
    requires start <= later && Periodic(w, start, d)
    ensures Periodic(w, later, d)
  {
  }

  // ---- Copies inside the output ------------------------------------------------

  /** One store of `n` bytes loaded from `ref`: A32 or A64. */
  method CopyWord(dest: array<byte>, ref: nat, op: nat, n: nat)
    requires ref + n <= dest.Length && op + n <= dest.Length
    modifies dest
    ensures dest[..] == Splice(old(dest[..]), op, old(dest[ref..ref + n]))
  {
    forall i | 0 <= i < n {
      dest[op + i] := dest[ref + i];
    }
  }

  /** A word copied from a whole period back continues the ideal output `w`. */
  method CopyPeriod(dest: array<byte>, ref: nat, op: nat, n: nat, ghost w: seq<byte>)
    requires ref <= op && op + n <= dest.Length
    modifies dest
    ensures n <= op - ref && op + n <= |w| && Periodic(w, op, op - ref) && old(dest[..op]) == w[..op]
            ==> dest[..op + n] == w[..op + n]
  {
    CopyWord(dest, ref, op, n);
    if n <= op - ref && op + n <= |w| && Periodic(w, op, op - ref) && old(dest[..op]) == w[..op] {
      forall i | 0 <= i < op + n
        ensures dest[i] == w[i]
      {
        if i < op {
          assert dest[i] == old(dest[..op])[i];
        } else {
          assert dest[i] == old(dest[..op])[ref + (i - op)] == w[ref + (i - op)];
          assert w[i] == w[ref + (i - op)];
        }
      }
    }
  }

  /** LZ4_SECURECOPY inside the output. */
  method SecureCopy(dest: array<byte>, ref0: nat, op0: nat, e: nat, ghost w: seq<byte>)
    returns (ref: nat, op: nat)
    requires ref0 <= op0 <= dest.Length && e + COPYLENGTH <= dest.Length
    modifies dest
    ensures op - ref == op0 - ref0 && op0 <= op
    ensures op0 >= e ==> op == op0 && dest[..] == old(dest[..])
    ensures op0 < e ==> e <= op < e + COPYLENGTH
    ensures COPYLENGTH <= op0 - ref0 && dest.Length <= |w| && Periodic(w, op0, op0 - ref0) && old(dest[..op0]) == w[..op0]
            ==> dest[..op] == w[..op]
  {
    ref, op := ref0, op0;
    ghost var ideal := COPYLENGTH <= op0 - ref0 && dest.Length <= |w| && Periodic(w, op0, op0 - ref0) && dest[..op0] == w[..op0];
    while op < e
      invariant 0 <= ref <= op && op - ref == op0 - ref0 && op0 <= op
      invariant op0 >= e ==> op == op0 && dest[..] == old(dest[..])
      invariant op < e + COPYLENGTH || op == op0
      invariant ideal ==> dest[..op] == w[..op]
    {
      CopyPeriod(dest, ref, op, COPYLENGTH, w);
      ref, op := ref + COPYLENGTH, op + COPYLENGTH;
    }
  }

  /** The first eight bytes of a match. Afterwards the distance is a multiple of the
      offset and at least eight, so that whole words may follow. */
  method CopyHead(dest: array<byte>, op0: nat, ref0: nat, ghost w: seq<byte>) returns (ref: nat, op: nat)
    requires ref0 <= op0 && op0 + COPYLENGTH <= dest.Length
    modifies dest
    ensures op == op0 + COPYLENGTH && ref < op
    ensures var offset := op0 - ref0;
            0 < offset && dest.Length <= |w| && Periodic(w, op0, offset) && old(dest[..op0]) == w[..op0]
            ==> dest[..op] == w[..op] && COPYLENGTH <= op - ref && (op - ref) % offset == 0 && Periodic(w, op, op - ref)
  {
    ref, op := ref0, op0;
    ghost var offset := op0 - ref0;
    ghost var ideal := 0 < offset && dest.Length <= |w| && Periodic(w, op0, offset) && dest[..op0] == w[..op0];
    if op - ref < 8 {
      var dec2 := Dec2(op - ref);
      var i := 0;
      while i < 4
        invariant 0 <= i <= 4 && op == op0 + i && ref == ref0 + i
        invariant ideal ==> dest[..op] == w[..op]
      {
        CopyPeriod(dest, ref, op, 1, w);
        ref, op, i := ref + 1, op + 1, i + 1;
      }
      if ideal { TablePeriods(w, op0, offset); }
      ref := ref - Dec(op - ref);
      CopyPeriod(dest, ref, op, 4, w);
      op := op + 4;
      ref := ref - dec2;
    } else {
      CopyPeriod(dest, ref, op, COPYLENGTH, w);
      ref, op := ref + COPYLENGTH, op + COPYLENGTH;
    }
  }

  /** The output as it would be if the match went on to the end of the buffer. */
  lemma IdealOutput(out: seq<byte>, offset: nat, more: nat) returns (w: seq<byte>)
    requires 0 < offset <= |out|
    ensures |w| == |out| + more && w[..|out|] == out && Periodic(w, |out|, offset)
  {
    w := CopyMatch(out, offset, more);
  }

  lemma IdealPrefix(w: seq<byte>, out: seq<byte>, offset: nat, n: nat)
    requires 0 < offset <= |out| && |out| + n <= |w|
    requires w[..|out|] == out && Periodic(w, |out|, offset)
    ensures w[..|out| + n] == CopyMatch(out, offset, n)
  {
    assert w[..|out| + n][..|out|] == out;
    PeriodicIsCopyMatch(w[..|out| + n], out, offset);
  }

  /** The rest of a match, up to `cpy`: whole words while they fit, then single bytes. */
  method CopyTail(dest: array<byte>, ref0: nat, op0: nat, cpy: nat, ghost w: seq<byte>) returns (ok: bool)
    requires ref0 < op0 <= dest.Length
    modifies dest
    ensures ok <==> cpy <= dest.Length
    ensures ok && COPYLENGTH <= op0 - ref0 && dest.Length <= |w| && Periodic(w, op0, op0 - ref0) && old(dest[..op0]) == w[..op0]
            ==> dest[..cpy] == w[..cpy]
  {
    var ref, op := ref0, op0;
    ghost var ideal := COPYLENGTH <= op0 - ref0 && dest.Length <= |w| && Periodic(w, op0, op0 - ref0) && dest[..op0] == w[..op0];
    if cpy > dest.Length - COPYLENGTH {
      if cpy > dest.Length { return false; }
      if op < dest.Length - COPYLENGTH {
        ref, op := SecureCopy(dest, ref, op, dest.Length - COPYLENGTH, w);
      }
      while op < cpy
        invariant 0 <= ref && op - ref == op0 - ref0 && op0 <= op <= dest.Length
        invariant ideal ==> dest[..op] == w[..op]
      {
        CopyPeriod(dest, ref, op, 1, w);
        ref, op := ref + 1, op + 1;
      }
    } else {
      ref, op := SecureCopy(dest, ref, op, cpy, w);
    }
    ok := true;
    assert dest[..cpy] == dest[..op][..cpy];
    assert ideal ==> w[..cpy] == w[..op][..cpy];
  }

  /** "copy repeated sequence": a match of `length` + 4 bytes starting at `op0`. Whatever
      the offset, the result is that of copying byte by byte; only an output too short is an error. */
  method CopyRepeated(dest: array<byte>, op0: nat, ref0: nat, length: nat) returns (ok: bool)
    requires ref0 <= op0 && op0 + COPYLENGTH <= dest.Length
    modifies dest
    ensures ok <==> op0 + length + MINMATCH <= dest.Length
    ensures ok && ref0 < op0 ==>
              dest[..op0 + length + MINMATCH] == CopyMatch(old(dest[..op0]), op0 - ref0, length + MINMATCH)
  {
    ghost var before := dest[..op0];
    ghost var w := [];
    if ref0 < op0 { w := IdealOutput(before, op0 - ref0, dest.Length - op0); }
    var ref, op := CopyHead(dest, op0, ref0, w);
    var cpy := op + length - 4;
    ok := CopyTail(dest, ref, op, cpy, w);
    if ok && ref0 < op0 { IdealPrefix(w, before, op0 - ref0, length + MINMATCH); }
  }
}
