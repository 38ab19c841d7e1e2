/** The unaligned eight-byte copies that both sides of the codec are built on. */
module Lz4Copy {
  import opened Bytes
  import opened Lz4Format

  /** LZ4_COPYPACKET from a read-only buffer. */
  method CopyPacket(source: seq<byte>, s: nat, dest: array<byte>, d: nat)
    requires s + 8 <= |source| && d + 8 <= dest.Length
    modifies dest
    ensures dest[..] == Splice(old(dest[..]), d, source[s..s + 8])
  {
    forall i | 0 <= i < 8 {
      dest[d + i] := source[s + i];
    }
  }

  /** Whole packets, until `e` is reached: `n` bytes in all. */
  method CopyPackets(source: seq<byte>, s: nat, dest: array<byte>, d: nat, e: nat) returns (ghost n: nat)
    requires d <= e && s + (e - d) + COPYLENGTH <= |source| && e + COPYLENGTH <= dest.Length
    modifies dest
    ensures e <= d + n <= e + COPYLENGTH && dest[..] == Splice(old(dest[..]), d, source[s..s + n])
  {
    ghost var t := dest[..];
    CopyPacket(source, s, dest, d);
    var from, to := s + 8, d + 8;
    while to < e
      invariant d <= to <= e + COPYLENGTH && to - d == from - s
      invariant dest[..] == Splice(t, d, source[s..from])
    {
      CopyPacket(source, from, dest, to);
      OnePacketMore(t, d, source, s, from);
      from, to := from + 8, to + 8;
    }
    n := to - d;
  }

  /** LZ4_WILDCOPY from a read-only buffer: whole packets until `e` is reached.
      It may run past `e`, by eight bytes at most. */
  method WildCopy(source: seq<byte>, s: nat, dest: array<byte>, d: nat, e: nat)
    requires d <= e && s + (e - d) + COPYLENGTH <= |source| && e + COPYLENGTH <= dest.Length
    modifies dest
    ensures dest[..d] == old(dest[..d])
    ensures dest[d..e] == source[s..s + (e - d)]
    ensures dest[e + COPYLENGTH..] == old(dest[e + COPYLENGTH..])
  {
    ghost var t := dest[..];
    ghost var n := CopyPackets(source, s, dest, d, e);
    WildSplice(t, d, source[s..s + n], e);
    TakeOfSlice(source, s, s + n, e - d);
    assert dest[..][..d] == dest[..d] && dest[..][d..e] == dest[d..e] && dest[..][e + COPYLENGTH..] == dest[e + COPYLENGTH..];
  }

  lemma TakeOfSlice(source: seq<byte>, s: nat, from: nat, n: nat)
    requires s + n <= from <= |source|
    ensures source[s..from][..n] == source[s..s + n]
  {
  }

  lemma OnePacketMore(t: seq<byte>, d: nat, source: seq<byte>, s: nat, from: nat)
    requires s <= from && from + 8 <= |source| && d + (from + 8 - s) <= |t|
    ensures Splice(Splice(t, d, source[s..from]), d + (from - s), source[from..from + 8]) == Splice(t, d, source[s..from + 8])
  {
    SpliceAppend(t, d, source[s..from], source[from..from + 8]);
    assert source[s..from] + source[from..from + 8] == source[s..from + 8];
  }

  /** What a copy that ran past `e` leaves behind. */
  lemma WildSplice(t: seq<byte>, d: nat, data: seq<byte>, e: nat)
    requires d <= e <= d + |data| <= e + COPYLENGTH <= |t|
    ensures var r := Splice(t, d, data);
            r[..d] == t[..d] && r[d..e] == data[..e - d] && r[e + COPYLENGTH..] == t[e + COPYLENGTH..]
  {
  }
}
