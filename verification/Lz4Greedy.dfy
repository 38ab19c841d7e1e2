/**
 Which block the encoder chooses, told without its buffers: where it looks for a match, how
 far a match reaches on either side, and where it goes on.
 */
module Lz4Greedy {
  import opened Bytes
  import opened Lz4Format

  const SKIPSTEPS := 64  // 1 << SKIPSTRENGTH
  const LZ4_64KLIMIT := 0x1_0000 + (MFLIMIT - 1)

  /** LZ4_compress64kCtx, whose table holds 16-bit positions and which never looks at
      the distance, and LZ4_compressCtx, whose table holds 32-bit positions. */
  datatype Variant = Small | General

  function TableSize(v: Variant): (n: nat)
    ensures n > 0
  {
    match v case Small => 8192 case General => 4096
  }

  /** The inputs each variant is meant for: an `int` length, and a short one for the small variant. */
  predicate Encodable(v: Variant, n: nat) {
    n < INT_LIMIT && (v.Small? ==> n < LZ4_64KLIMIT)
  }

  /** LZ4_HASH_VALUE and LZ4_HASH64K_VALUE. */
  function Hash(v: Variant, source: seq<byte>, p: nat): (h: nat)
    requires p + 4 <= |source|
    ensures h < TableSize(v)
  {
    var mixed := Load32(source, p) * 2654435761 % 0x1_0000_0000;
    match v case Small => mixed / 0x8_0000 case General => mixed / 0x10_0000
  }

  /** What remains of a position once it is stored in a table slot. */
  function Stored(v: Variant, p: nat): nat {
    match v case Small => p % 0x1_0000 case General => p % 0x1_0000_0000
  }

  /** The bytes from `from` to `to` repeat those `offset` before them. */
  ghost predicate Agree(source: seq<byte>, from: int, to: int, offset: nat) {
    forall i, j :: 0 <= from <= i < to <= |source| && 0 <= j == i - offset ==> source[i] == source[j]
  }

  /** A position from the table is good for a match: four bytes agree, and the larger
      variant asks whether it is near enough. */
  ghost predicate Usable(v: Variant, source: seq<byte>, ip: nat, ref: nat) {
    && ref < ip && ip + MINMATCH <= |source|
    && (v.General? ==> ip <= ref + MAX_DISTANCE)
    && Agree(source, ip, ip + MINMATCH, ip - ref)
  }

  // ---- One match -----------------------------------------------------------------------

  datatype Search = Nowhere | Found(ip: nat, ref: nat, table: seq<nat>)

  /** The first position, at steps that grow by one every 64 attempts, whose slot holds a
      usable one; every position looked at goes into its slot. */
  ghost function FirstMatch(v: Variant, source: seq<byte>, table: seq<nat>, ip: nat, attempts: nat): Search
    requires |table| == TableSize(v) && ip + MINMATCH <= |source| && SKIPSTEPS <= attempts
    decreases |source| - ip
  {
    var next := ip + attempts / SKIPSTEPS;
    if next + MFLIMIT > |source| then Nowhere
    else
      var h := Hash(v, source, ip);
      var t := table[h := Stored(v, ip)];
      if Usable(v, source, ip, table[h]) then Found(ip, table[h], t) else FirstMatch(v, source, t, next, attempts + 1)
  }

  lemma {:induction false} FoundThere(v: Variant, source: seq<byte>, table: seq<nat>, ip: nat, attempts: nat)
    requires |table| == TableSize(v) && ip + MINMATCH <= |source| && SKIPSTEPS <= attempts
    ensures match FirstMatch(v, source, table, ip, attempts)
            case Nowhere => true
            case Found(at, ref, t) => ip <= at && ref < at && at + MFLIMIT <= |source| && |t| == |table|
    decreases |source| - ip
  {
    var next := ip + attempts / SKIPSTEPS;
    if next + MFLIMIT <= |source| {
      var h := Hash(v, source, ip);
      if !Usable(v, source, ip, table[h]) { FoundThere(v, source, table[h := Stored(v, ip)], next, attempts + 1); }
    }
  }

  /** How far a match extends backwards over literals from `anchor` on. */
  function Back(source: seq<byte>, anchor: nat, ip: nat, offset: nat): (r: nat)
    requires offset <= ip <= |source| && anchor <= ip
    ensures anchor <= r <= ip && offset <= r
  {
    if ip > anchor && ip > offset && source[ip - 1] == source[ip - 1 - offset] then Back(source, anchor, ip - 1, offset) else ip
  }

  /** How far it goes on: to the first difference, or to the last five bytes. */
  function Reach(source: seq<byte>, ip: nat, offset: nat): (r: nat)
    requires offset <= ip
    ensures ip <= r && (ip <= |source| ==> r <= |source|)
    decreases |source| - ip
  {
    if ip + LASTLITERALS < |source| && source[ip] == source[ip - offset] then Reach(source, ip + 1, offset) else ip
  }

  lemma {:induction false} ReachIs(source: seq<byte>, ip: nat, offset: nat, end: nat)
    requires offset <= ip <= end && end + LASTLITERALS <= |source| && Agree(source, ip, end, offset)
    requires end + LASTLITERALS < |source| ==> source[end] != source[end - offset]
    ensures Reach(source, ip, offset) == end
    decreases end - ip
  {
    if ip < end { ReachIs(source, ip + 1, offset, end); }
  }

  // ---- All matches ----------------------------------------------------------------------

  /** The sequences so far, and where the literals behind them begin. */
  datatype Parsed = Parsed(ss: Sequences, anchor: nat)

  /** From a match at `ip` on. Right behind it the next one is tried for, with two more
      positions in the table; if there is none the search begins anew. */
  ghost function Follow(v: Variant, source: seq<byte>, table: seq<nat>, anchor: nat, ip: nat, ref: nat, ss: Sequences): (p: Parsed)
    requires |table| == TableSize(v) && anchor <= ip && ref < ip && ip + MFLIMIT <= |source|
    ensures p.anchor <= |source|
    decreases |source| - anchor, 0
  {
    var end := Reach(source, ip + MINMATCH, ip - ref);
    var ss' := Then(ss, Sequence(source[anchor..ip], ip - ref, end - ip));
    if end + MFLIMIT > |source| then Parsed(ss', end)
    else
      var t := table[Hash(v, source, end - 2) := Stored(v, end - 2)];
      var t' := t[Hash(v, source, end) := Stored(v, end)];
      var ref' := t[Hash(v, source, end)];
      if Usable(v, source, end, ref') then Follow(v, source, t', end, end, ref', ss') else Scan(v, source, t', end, ss')
  }

  /** From a position without a match on. */
  ghost function Scan(v: Variant, source: seq<byte>, table: seq<nat>, anchor: nat, ss: Sequences): (p: Parsed)
    requires |table| == TableSize(v) && anchor + MFLIMIT <= |source|
    ensures p.anchor <= |source|
    decreases |source| - anchor, 1
  {
    match FirstMatch(v, source, table, anchor + 1, SKIPSTEPS + 3)
    case Nowhere => Parsed(ss, anchor)
    case Found(ip, ref, t) =>
      FoundThere(v, source, table, anchor + 1, SKIPSTEPS + 3);
      var start := Back(source, anchor, ip, ip - ref);
      Follow(v, source, t, anchor, start, start - (ip - ref), ss)
  }

  lemma FollowStep(v: Variant, source: seq<byte>, table: seq<nat>, anchor: nat, ip: nat, ref: nat, ss: Sequences, end: nat)
    requires |table| == TableSize(v) && anchor <= ip && ref < ip && ip + MFLIMIT <= |source|
    requires end == Reach(source, ip + MINMATCH, ip - ref)
    ensures var ss' := Then(ss, Sequence(source[anchor..ip], ip - ref, end - ip));
            if end + MFLIMIT > |source| then Follow(v, source, table, anchor, ip, ref, ss) == Parsed(ss', end)
            else
              var t := table[Hash(v, source, end - 2) := Stored(v, end - 2)];
              var t', ref' := t[Hash(v, source, end) := Stored(v, end)], t[Hash(v, source, end)];
              && (Usable(v, source, end, ref') ==>
                    Follow(v, source, table, anchor, ip, ref, ss) == Follow(v, source, t', end, end, ref', ss'))
              && (!Usable(v, source, end, ref') ==>
                    Follow(v, source, table, anchor, ip, ref, ss) == Scan(v, source, t', end, ss'))
  {
    hide Scan, Reach, Usable, Hash, Stored;
  }

  lemma ScanStep(v: Variant, source: seq<byte>, table: seq<nat>, anchor: nat, ss: Sequences, found: Search, start: nat)
    requires |table| == TableSize(v) && anchor + MFLIMIT <= |source|
    requires found == FirstMatch(v, source, table, anchor + 1, SKIPSTEPS + 3)
    requires found.Found? ==> found.ref < found.ip <= |source| && anchor <= found.ip && start == Back(source, anchor, found.ip, found.ip - found.ref)
    ensures found.Nowhere? ==> Scan(v, source, table, anchor, ss) == Parsed(ss, anchor)
    ensures found.Found? ==>
              && |found.table| == TableSize(v) && found.ip - found.ref <= start && start + MFLIMIT <= |source| && anchor <= start
              && Scan(v, source, table, anchor, ss)
                 == Follow(v, source, found.table, anchor, start, start - (found.ip - found.ref), ss)
  {
    FoundThere(v, source, table, anchor + 1, SKIPSTEPS + 3);
  }

  /** The block for an input. */
  ghost function Greedy(v: Variant, source: seq<byte>): Block {
    if |source| < MINLENGTH then Block(Empty, source)
    else
      var p := Scan(v, source, seq(TableSize(v), _ => 0), 0, Empty);
      Block(p.ss, source[p.anchor..])
  }

  /** The block that LZ4_compress writes. */
  ghost function Chosen(source: seq<byte>): Block {
    Greedy(if |source| < LZ4_64KLIMIT then Small else General, source)
  }

  lemma GreedyIs(v: Variant, source: seq<byte>, zeros: seq<nat>, p: Parsed)
    requires MINLENGTH <= |source| && |zeros| == TableSize(v) && forall h :: 0 <= h < |zeros| ==> zeros[h] == 0
    requires p == Scan(v, source, zeros, 0, Empty)
    ensures p.anchor <= |source| && Greedy(v, source) == Block(p.ss, source[p.anchor..])
  {
    assert zeros == seq(TableSize(v), _ => 0);
  }

  lemma GreedyShort(v: Variant, source: seq<byte>)
    requires |source| < MINLENGTH
    ensures Greedy(v, source) == Block(Empty, source[0..])
  {
    assert source[0..] == source;
  }

  // ---- Inputs of one byte over and over ---------------------------------------------------

  predicate AllEqual(source: seq<byte>) {
    forall i, j :: 0 <= i < j < |source| ==> source[i] == source[j]
  }

  /** Very short inputs are not looked at. */
  lemma ShortBlock(v: Variant, source: seq<byte>)
    requires |source| <= MINLENGTH
    ensures Greedy(v, source) == Block(Empty, source)
  {
    assert source[0..] == source;
  }

  lemma ShortSize(v: Variant, source: seq<byte>)
    requires |source| <= MINLENGTH
    ensures Expandable(Greedy(v, source).sequences) && |Serialize(Greedy(v, source))| == |source| + 1
  {
    ShortBlock(v, source);
  }

  lemma {:induction false} ReachAll(source: seq<byte>, ip: nat)
    requires AllEqual(source) && 1 <= ip && ip + LASTLITERALS <= |source|
    ensures Reach(source, ip, 1) == |source| - LASTLITERALS
    decreases |source| - ip
  {
    if ip + LASTLITERALS < |source| { ReachAll(source, ip + 1); }
  }

  /** The match is found at the second byte and goes to the last five. */
  lemma EqualBlock(v: Variant, source: seq<byte>)
    requires AllEqual(source) && MINLENGTH < |source|
    ensures Greedy(v, source) == Block(Then(Empty, Sequence(source[..1], 1, |source| - 6)), source[|source| - 5..])
  {
    var table: seq<nat> := seq(TableSize(v), _ => 0);
    var h := Hash(v, source, 1);
    var t := table[h := Stored(v, 1)];
    assert table[h] == 0 && Usable(v, source, 1, 0);
    assert FirstMatch(v, source, table, 1, SKIPSTEPS + 3) == Found(1, 0, t);
    ReachAll(source, 5);
    assert Back(source, 0, 1, 1) == 1;
    assert Follow(v, source, t, 0, 1, 0, Empty) == Parsed(Then(Empty, Sequence(source[0..1], 1, |source| - 6)), |source| - 5);
    assert Scan(v, source, table, 0, Empty) == Follow(v, source, t, 0, 1, 0, Empty);
  }

  /** So `n` equal bytes take ten bytes, and one more for every 255 from the 25th on. */
  lemma EqualSize(v: Variant, source: seq<byte>)
    requires AllEqual(source) && MINLENGTH < |source|
    ensures Expandable(Greedy(v, source).sequences)
    ensures |Serialize(Greedy(v, source))| == if |source| < 25 then 10 else 10 + (|source| - 25) / 255 + 1
  {
    EqualBlock(v, source);
    var s := Sequence(source[..1], 1, |source| - 6);
    assert Applicable([], s);
    assert SequencesBytes(Then(Empty, s)) == [] + SequenceBytes(s);
    assert |SequenceBytes(s)| == 4 + |Extension(|source| - 10)|;
  }
}
