/** How the encoder looks for an earlier occurrence of the bytes at its position. */
module Lz4MatchFinder {
  import opened Bytes
  import opened Lz4Format
  import opened Lz4Greedy

  const STEPSIZE := 8

  ghost predicate Behind(table: seq<nat>, p: nat) {
    forall h :: 0 <= h < |table| ==> table[h] < p
  }

  /** `ref` is a usable match for `ip`: earlier, close enough, and four bytes agree. */
  ghost predicate IsMatch(source: seq<byte>, ip: nat, ref: nat) {
    && ref < ip <= ref + MAX_DISTANCE
    && ip + 4 <= |source|
    && Agree(source, ip, ip + 4, ip - ref)
  }

  /** `A32(ref) == A32(ip)`. */
  method SameWord(source: seq<byte>, ip: nat, ref: nat) returns (same: bool)
    requires ref < ip && ip + 4 <= |source|
    ensures same <==> Agree(source, ip, ip + 4, ip - ref)
  {
    Load32Equal(source, ref, ip);
    same := Load32(source, ref) == Load32(source, ip);
  }

  /** `A16(ref) == A16(ip)`. */
  method SameHalf(source: seq<byte>, ip: nat, ref: nat) returns (same: bool)
    requires ref < ip && ip + 2 <= |source|
    ensures same <==> Agree(source, ip, ip + 2, ip - ref)
  {
    Load16Equal(source, ref, ip);
    same := Load16(source, ref) == Load16(source, ip);
  }

  /** One turn of the search. */
  lemma SearchStep(v: Variant, source: seq<byte>, table: seq<nat>, ip: nat, attempts: nat)
    requires |table| == TableSize(v) && ip + MINMATCH <= |source| && SKIPSTEPS <= attempts
    ensures var next, h := ip + attempts / SKIPSTEPS, Hash(v, source, ip);
            FirstMatch(v, source, table, ip, attempts)
            == if next + MFLIMIT > |source| then Nowhere
               else if Usable(v, source, ip, table[h]) then Found(ip, table[h], table[h := Stored(v, ip)])
               else FirstMatch(v, source, table[h := Stored(v, ip)], next, attempts + 1)
  {
  }

  lemma UsableIs(v: Variant, source: seq<byte>, ip: nat, ref: nat, same: bool)
    requires Encodable(v, |source|) && ref < ip && ip + MFLIMIT <= |source|
    requires v.Small? || ref >= ip - MAX_DISTANCE ==> (same <==> Agree(source, ip, ip + 4, ip - ref))
    ensures Usable(v, source, ip, ref) <==> (v.Small? || ref >= ip - MAX_DISTANCE) && Agree(source, ip, ip + 4, ip - ref)
    ensures Usable(v, source, ip, ref) ==> IsMatch(source, ip, ref)
  {
  }

  lemma BehindNext(v: Variant, table: seq<nat>, h: nat, p: nat, next: nat)
    requires Behind(table, p) && h < |table| && p < next
    ensures Behind(table[h := Stored(v, p)], next)
  {
  }

  /** The do-while search: skip forward, ever faster, until the table knows a match. No match
      that the table knows at a position looked at is passed over. */
  method FindMatch(v: Variant, source: seq<byte>, table: array<nat>, start: nat)
    returns (found: bool, ip: nat, ref: nat)
    requires Encodable(v, |source|) && MINLENGTH <= |source|
    requires table.Length == TableSize(v) && Behind(table[..], start)
    requires 1 <= start <= |source| - MFLIMIT + 1
    modifies table
    ensures found ==> start <= ip < |source| - MFLIMIT && IsMatch(source, ip, ref) && Behind(table[..], ip + 1)
    ensures FirstMatch(v, source, old(table[..]), start, SKIPSTEPS + 3) == if found then Found(ip, ref, table[..]) else Nowhere
  {
    hide FirstMatch, Hash, Agree, Usable, IsMatch;
    var findMatchAttempts := SKIPSTEPS + 3;
    var forwardIp := start;
    var forwardH := Hash(v, source, forwardIp);
    ip, ref := start, 0;
    var mflimit := |source| - MFLIMIT;
    while true
      invariant start <= forwardIp <= mflimit + 1 && SKIPSTEPS <= findMatchAttempts
      invariant forwardH == Hash(v, source, forwardIp) && Behind(table[..], forwardIp)
      invariant FirstMatch(v, source, old(table[..]), start, SKIPSTEPS + 3) == FirstMatch(v, source, table[..], forwardIp, findMatchAttempts)
      decreases mflimit + 1 - forwardIp
    {
      var h := forwardH;
      var step := findMatchAttempts / SKIPSTEPS;
      findMatchAttempts := findMatchAttempts + 1;
      ip := forwardIp;
      forwardIp := ip + step;
      SearchStep(v, source, table[..], ip, findMatchAttempts - 1);
      if forwardIp > mflimit { return false, ip, ref; }
      forwardH := Hash(v, source, forwardIp);
      ref := table[h];
      BehindNext(v, table[..], h, ip, forwardIp);
      BehindNext(v, table[..], h, ip, ip + 1);
      ghost var before := table[..];
      table[h] := Stored(v, ip);
      assert table[..] == before[h := Stored(v, ip)];
      if v.Small? || ref >= ip - MAX_DISTANCE {
        var same := SameWord(source, ip, ref);
        UsableIs(v, source, ip, ref, same);
        if same { return true, ip, ref; }
      } else {
        UsableIs(v, source, ip, ref, false);
      }
    }
  }

  /** Extends a match backwards over literals not yet emitted. */
  method CatchUp(source: seq<byte>, anchor: nat, ip0: nat, ref0: nat) returns (ip: nat, ref: nat)
    requires anchor <= ip0 && IsMatch(source, ip0, ref0)
    ensures anchor <= ip <= ip0 && ip - ref == ip0 - ref0
    ensures Agree(source, ip, ip0 + 4, ip - ref) && IsMatch(source, ip, ref)
    ensures ip == Back(source, anchor, ip0, ip0 - ref0)
    ensures ip == anchor || ref == 0 || source[ip - 1] != source[ref - 1]
  {
    ip, ref := ip0, ref0;
    while ip > anchor && ref > 0 && source[ip - 1] == source[ref - 1]
      invariant anchor <= ip <= ip0 && ip - ref == ip0 - ref0
      invariant Agree(source, ip, ip0 + 4, ip - ref)
      invariant Back(source, anchor, ip, ip - ref) == Back(source, anchor, ip0, ip0 - ref0)
    {
      ip, ref := ip - 1, ref - 1;
    }
  }

  /** LZ4_NbCommonBytes of the difference of two words of `n` bytes: how many leading
      bytes agree. */
  function CommonBytes(source: seq<byte>, ip: nat, ref: nat, n: nat): (r: nat)
    requires ref < ip && ip + n <= |source|
    ensures r <= n && Agree(source, ip, ip + r, ip - ref)
    ensures r < n ==> source[ip + r] != source[ref + r]
    decreases n
  {
    if n == 0 || source[ip] != source[ref] then 0 else 1 + CommonBytes(source, ip + 1, ref + 1, n - 1)
  }

  method CountCommon(source: seq<byte>, ip: nat, ref: nat, n: nat) returns (r: nat)
    requires ref < ip && ip + n <= |source|
    ensures r <= n && Agree(source, ip, ip + r, ip - ref)
    ensures r < n ==> source[ip + r] != source[ip + r - (ip - ref)]
  {
    r := CommonBytes(source, ip, ref, n);
  }

  lemma AgreeOn(source: seq<byte>, a: nat, b: nat, c: nat, offset: nat)
    requires a <= b <= c && Agree(source, a, b, offset) && Agree(source, b, c, offset)
    ensures Agree(source, a, c, offset)
  {
  }

  /** Counts how far a match goes: by words of eight bytes, then four, two and one.
      It stops at the first difference or at the last five bytes, whichever is first. */
  method CountMatch(source: seq<byte>, ip0: nat, ref0: nat) returns (end: nat)
    requires IsMatch(source, ip0, ref0) && ip0 + MFLIMIT <= |source|
    ensures ip0 + 4 <= end <= |source| - LASTLITERALS
    ensures Agree(source, ip0, end, ip0 - ref0)
    ensures end < |source| - LASTLITERALS ==> source[end] != source[end - (ip0 - ref0)]
  {
    var ip, ref := ip0 + 4, ref0 + 4;
    var matchlimit := |source| - LASTLITERALS;
    while ip < matchlimit - (STEPSIZE - 1)
      invariant ip0 + 4 <= ip <= matchlimit && ip - ref == ip0 - ref0
      invariant Agree(source, ip0, ip, ip0 - ref0)
    {
      var common := CountCommon(source, ip, ref, STEPSIZE);
      AgreeOn(source, ip0, ip, ip + common, ip0 - ref0);
      if common < STEPSIZE { return ip + common; }
      ip, ref := ip + STEPSIZE, ref + STEPSIZE;
    }
    end := CountTail(source, ip0, ip, ref);
  }

  /** The last, at most seven, bytes of a match. */
  method CountTail(source: seq<byte>, ghost ip0: nat, ip1: nat, ref1: nat) returns (end: nat)
    requires ref1 < ip1 && ip1 - ref1 <= ip0 <= ip1
    requires |source| - LASTLITERALS - 7 <= ip1 <= |source| - LASTLITERALS
    requires Agree(source, ip0, ip1, ip1 - ref1)
    ensures ip1 <= end <= |source| - LASTLITERALS
    ensures Agree(source, ip0, end, ip1 - ref1)
    ensures end < |source| - LASTLITERALS ==> source[end] != source[end - (ip1 - ref1)]
  {
    var ip, ref := ip1, ref1;
    var matchlimit := |source| - LASTLITERALS;
    if ip < matchlimit - 3 {
      var same := SameWord(source, ip, ref);
      if same { ip, ref := ip + 4, ref + 4; }
    }
    end := CountLastThree(source, ip0, ip, ref);
  }

  /** The tail once no whole word is left to compare, or its word differs. */
  method CountLastThree(source: seq<byte>, ghost ip0: nat, ip1: nat, ref1: nat) returns (end: nat)
    requires ref1 < ip1 && ip1 - ref1 <= ip0 <= ip1 <= |source| - LASTLITERALS
    requires ip1 < |source| - LASTLITERALS - 3 ==> !Agree(source, ip1, ip1 + 4, ip1 - ref1)
    requires Agree(source, ip0, ip1, ip1 - ref1)
    ensures ip1 <= end <= |source| - LASTLITERALS
    ensures Agree(source, ip0, end, ip1 - ref1)
    ensures end < |source| - LASTLITERALS ==> source[end] != source[end - (ip1 - ref1)]
  {
    var ip, ref := ip1, ref1;
    var matchlimit := |source| - LASTLITERALS;
    if ip < matchlimit - 1 {
      var same := SameHalf(source, ip, ref);
      if same { ip, ref := ip + 2, ref + 2; }
    }
    if ip < matchlimit && source[ref] == source[ip] { ip := ip + 1; }
    end := ip;
  }
}
