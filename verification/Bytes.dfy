/** Bytes, little-endian numbers and block copies shared by the models. */
module Bytes {

  type byte = x: int | 0 <= x < 256

  /** The 16-bit little-endian number at `p`: the macro A16. */
  function Load16(s: seq<byte>, p: nat): (v: nat)
    requires p + 2 <= |s|
    ensures v < 0x1_0000
  {
    s[p] as int + 256 * (s[p + 1] as int)
  }

  /** The 32-bit little-endian number at `p`: the macro A32. */
  function Load32(s: seq<byte>, p: nat): (v: nat)
    requires p + 4 <= |s|
    ensures v < 0x1_0000_0000
  {
    Load16(s, p) + 0x1_0000 * Load16(s, p + 2)
  }

  /** Comparing two words compares their four bytes. */
  lemma Load32Equal(s: seq<byte>, p: nat, q: nat)
    requires p + 4 <= |s| && q + 4 <= |s|
    ensures Load32(s, p) == Load32(s, q) <==>
            s[p] == s[q] && s[p + 1] == s[q + 1] && s[p + 2] == s[q + 2] && s[p + 3] == s[q + 3]
  {
    Load16Equal(s, p, q);
    Load16Equal(s, p + 2, q + 2);
  }

  lemma Load16Equal(s: seq<byte>, p: nat, q: nat)
    requires p + 2 <= |s| && q + 2 <= |s|
    ensures Load16(s, p) == Load16(s, q) <==> s[p] == s[q] && s[p + 1] == s[q + 1]
  {
  }

  /** `t` with the bytes from `pos` on replaced by `data`. */
  function Splice<T>(t: seq<T>, pos: nat, data: seq<T>): (r: seq<T>)
    requires pos + |data| <= |t|
    ensures |r| == |t|
  {
    t[..pos] + data + t[pos + |data|..]
  }

  /** Adjacent replacements are one. */
  lemma SpliceAppend(t: seq<byte>, pos: nat, a: seq<byte>, b: seq<byte>)
    requires pos + |a| + |b| <= |t|
    ensures Splice(Splice(t, pos, a), pos + |a|, b) == Splice(t, pos, a + b)
  {
  }

  lemma SplicePrefix(t: seq<byte>, pos: nat, data: seq<byte>, n: nat)
    requires pos + |data| <= n <= |t|
    ensures Splice(t, pos, data)[..n] == Splice(t[..n], pos, data)
  {
  }

  /** A replacement in one part of a concatenation. */
  lemma SpliceRight(a: seq<byte>, b: seq<byte>, pos: nat, bytes: seq<byte>)
    requires pos + |bytes| <= |b|
    ensures Splice(a + b, |a| + pos, bytes) == a + Splice(b, pos, bytes)
  {
  }

  lemma SpliceLeft(a: seq<byte>, b: seq<byte>, pos: nat, bytes: seq<byte>)
    requires pos + |bytes| <= |a|
    ensures Splice(a + b, pos, bytes) == Splice(a, pos, bytes) + b
  {
  }

  /** A replacement done piece by piece: `done` bytes of `data` are in place. */
  ghost predicate PartlySpliced(r: seq<byte>, t: seq<byte>, pos: nat, data: seq<byte>, done: nat) {
    done <= |data| && pos + |data| <= |t| && r == Splice(t, pos, data[..done])
  }

  lemma SpliceStep(r: seq<byte>, r': seq<byte>, t: seq<byte>, pos: nat, data: seq<byte>, done: nat, n: nat)
    requires PartlySpliced(r, t, pos, data, done) && done + n <= |data|
    requires r' == Splice(r, pos + done, data[done..done + n])
    ensures PartlySpliced(r', t, pos, data, done + n)
  {
    SpliceAppend(t, pos, data[..done], data[done..done + n]);
    assert data[..done] + data[done..done + n] == data[..done + n];
  }

  lemma SpliceStart(t: seq<byte>, pos: nat, data: seq<byte>)
    requires pos + |data| <= |t|
    ensures PartlySpliced(t, t, pos, data, 0)
  {
    assert Splice(t, pos, data[..0]) == t;
  }

  lemma SpliceEnd(r: seq<byte>, t: seq<byte>, pos: nat, data: seq<byte>)
    requires PartlySpliced(r, t, pos, data, |data|)
    ensures r == Splice(t, pos, data)
  {
    assert data[..|data|] == data;
  }

  const INT_LIMIT := 0x8000_0000

  /** What an addition in a 32-bit int leaves of `x`: two's complement. */
  function Int32(x: int): (r: int)
    ensures -INT_LIMIT <= r < INT_LIMIT && (-INT_LIMIT <= x < INT_LIMIT ==> r == x)
  {
    var y := x % 0x1_0000_0000;
    if y < INT_LIMIT then y else y - 0x1_0000_0000
  }

  /** Wrapping early or late makes no difference. */
  lemma Int32Again(x: int, d: int)
    ensures Int32(Int32(x) + d) == Int32(x + d)
  {
  }

  // ---- Little-endian numbers ----------------------------------------------------------

  function Pow256(n: nat): (r: nat)
    ensures r > 0
  {
    if n == 0 then 1 else 256 * Pow256(n - 1)
  }

  /** The `n` low bytes of `v`, lowest first. */
  function LittleEndian(v: nat, n: nat): (r: seq<byte>)
    ensures |r| == n
  {
    if n == 0 then [] else [v % 256] + LittleEndian(v / 256, n - 1)
  }

  function Value(bs: seq<byte>): (v: nat) {
    if bs == [] then 0 else (bs[0] as int) + 256 * Value(bs[1..])
  }

  lemma {:induction false} ValueOfLittleEndian(v: nat, n: nat)
    requires v < Pow256(n)
    ensures Value(LittleEndian(v, n)) == v
  {
    if n > 0 {
      ValueOfLittleEndian(v / 256, n - 1);
      assert LittleEndian(v, n)[1..] == LittleEndian(v / 256, n - 1);
    }
  }

  lemma {:induction false} ValueBound(bs: seq<byte>)
    ensures Value(bs) < Pow256(|bs|)
  {
    if bs != [] { ValueBound(bs[1..]); }
  }

  /** Two's complement in `n` bytes. */
  function FromSigned(v: int, n: nat): (u: int) {
    if v < 0 then v + Pow256(n) else v
  }

  function ToSigned(u: nat, n: nat): int {
    if 2 * u >= Pow256(n) then u - Pow256(n) else u
  }

  predicate Fits(v: int, n: nat) {
    -(Pow256(n) as int) <= 2 * v < Pow256(n)
  }

  lemma SignedRoundTrip(v: int, n: nat)
    requires Fits(v, n)
    ensures 0 <= FromSigned(v, n) < Pow256(n)
    ensures ToSigned(Value(LittleEndian(FromSigned(v, n), n)), n) == v
  {
    ValueOfLittleEndian(FromSigned(v, n), n);
  }

  lemma {:induction false} LittleEndianAt(v: nat, n: nat, i: nat)
    requires i < n
    ensures LittleEndian(v, n)[i] == v / Pow256(i) % 256
  {
    if i > 0 {
      LittleEndianAt(v / 256, n - 1, i - 1);
      DivTwice(v, 256, Pow256(i - 1));
    }
  }

  lemma DivTwice(v: nat, a: nat, b: nat)
    requires 0 < a && 0 < b
    ensures 0 < a * b && v / a / b == v / (a * b)
  {
    var q, r := v / a, v % a;
    var q', r' := q / b, q % b;
    DivMod(v, a);
    DivMod(q, b);
    MulSum(q', b, r', a);
    MulLess(r', b, a);
    MulAtLeast(b, a);
    DivUnique(v, a * b, q', r' * a + r);
  }

  lemma DivMod(v: nat, d: nat)
    requires 0 < d
    ensures v == v / d * d + v % d && v % d < d
  {
  }

  lemma MulSum(x: int, y: int, z: int, a: int)
    ensures (x * y + z) * a == x * (a * y) + z * a
  {
    assert (x * y + z) * a == x * y * a + z * a;
    assert x * y * a == x * (y * a) == x * (a * y);
  }

  lemma MulLess(x: nat, y: nat, a: nat)
    requires x < y
    ensures x * a + a <= a * y && 0 <= x * a
  {
    assert (y - x - 1) * a >= 0;
    assert (y - x - 1) * a == y * a - x * a - a;
  }

  lemma MulAtLeast(x: nat, a: nat)
    requires 0 < x
    ensures a <= x * a == a * x
  {
  }

  lemma DivUnique(v: nat, d: nat, q: nat, r: nat)
    requires 0 < d && r < d && v == q * d + r
    ensures v / d == q
  {
    var p := v / d;
    DivMod(v, d);
    if q < p {
      MulLess(q, p, d);
    } else if p < q {
      MulLess(p, q, d);
    }
  }

  lemma SmallMod(x: nat, p: nat)
    requires x < p
    ensures x % p == x
  {
  }

  // ---- Big-endian numbers -------------------------------------------------------------

  /** The `n` low bytes of `v`, highest first. */
  function BigEndian(v: nat, n: nat): (r: seq<byte>)
    ensures |r| == n
  {
    if n == 0 then [] else BigEndian(v / 256, n - 1) + [v % 256]
  }

  function BigValue(bs: seq<byte>): (v: nat) {
    if bs == [] then 0 else 256 * BigValue(bs[..|bs| - 1]) + bs[|bs| - 1]
  }

  lemma {:induction false} BigValueOf(v: nat, n: nat)
    requires v < Pow256(n)
    ensures BigValue(BigEndian(v, n)) == v
  {
    if n > 0 {
      BigValueOf(v / 256, n - 1);
      assert BigEndian(v, n)[..n - 1] == BigEndian(v / 256, n - 1);
    }
  }

  lemma {:induction false} BigValueBound(bs: seq<byte>)
    ensures BigValue(bs) < Pow256(|bs|)
  {
    if bs != [] { BigValueBound(bs[..|bs| - 1]); }
  }

  /** The first bytes weigh as much as there are bytes behind them. */
  lemma {:induction false} BigValueSplit(a: seq<byte>, b: seq<byte>)
    ensures BigValue(a + b) == BigValue(a) * Pow256(|b|) + BigValue(b)
  {
    if b == [] {
      assert a + b == a;
    } else {
      var b' := b[..|b| - 1];
      assert (a + b)[..|a + b| - 1] == a + b';
      BigValueSplit(a, b');
      assert 256 * (BigValue(a) * Pow256(|b'|)) == BigValue(a) * Pow256(|b|) by {
        MulSum(BigValue(a), Pow256(|b'|), 0, 256);
      }
    }
  }

  lemma BigEndianOne(v: nat)
    requires v < 0x100
    ensures BigEndian(v, 1) == [v]
  {
    assert BigEndian(v / 256, 0) == [];
  }

  lemma BigEndianTwo(v: nat)
    requires v < 0x1_0000
    ensures BigEndian(v, 2) == [v / 0x100, v % 0x100]
  {
    BigEndianOne(v / 256);
  }

  lemma LittleEndianBytes(v: nat, n: nat)
    requires 4 <= n
    ensures var r := LittleEndian(v, n);
            r[0] == v % 0x100 && r[1] == v / 0x100 % 0x100 && r[2] == v / 0x1_0000 % 0x100 && r[3] == v / 0x100_0000 % 0x100
  {
    var v1 := v / 0x100;
    var v2 := v1 / 0x100;
    var v3 := v2 / 0x100;
    assert v2 == v / 0x1_0000 && v3 == v / 0x100_0000;
    var r3 := LittleEndian(v3, n - 3);
    var r2 := LittleEndian(v2, n - 2);
    var r1 := LittleEndian(v1, n - 1);
    assert r3[0] == v3 % 0x100 && r2 == [v2 % 0x100] + r3 && r1 == [v1 % 0x100] + r2;
  }
}
