/** The bit operations of MD5, as RFC 1321 defines them and as md5.hpp rewrites them. */
module Md5Mixing {
  type word = bv32

  // ---- RFC 1321, section 3.4 -----------------------------------------------------------------

  function F(x: word, y: word, z: word): word { (x & y) | (!x & z) }
  function G(x: word, y: word, z: word): word { (x & z) | (y & !z) }
  function H(x: word, y: word, z: word): word { x ^ y ^ z }
  function I(x: word, y: word, z: word): word { y ^ (x | !z) }

  function Auxiliary(t: nat, x: word, y: word, z: word): word {
    if t < 16 then F(x, y, z) else if t < 32 then G(x, y, z) else if t < 48 then H(x, y, z) else I(x, y, z)
  }

  /** X <<< s: the bits that leave on the left come back on the right. */
  function Rotated(x: word, s: word): word {
    if s == 4 then x.RotateLeft(4) else
    if s == 5 then x.RotateLeft(5) else
    if s == 6 then x.RotateLeft(6) else
    if s == 7 then x.RotateLeft(7) else
    if s == 9 then x.RotateLeft(9) else
    if s == 10 then x.RotateLeft(10) else
    if s == 11 then x.RotateLeft(11) else
    if s == 12 then x.RotateLeft(12) else
    if s == 14 then x.RotateLeft(14) else
    if s == 15 then x.RotateLeft(15) else
    if s == 16 then x.RotateLeft(16) else
    if s == 17 then x.RotateLeft(17) else
    if s == 20 then x.RotateLeft(20) else
    if s == 21 then x.RotateLeft(21) else
    if s == 22 then x.RotateLeft(22) else
    if s == 23 then x.RotateLeft(23) else
    x
  }

  // Addition modulo 2^32, under names of their own: the sum of a step, in which the order of
  // the four terms does not matter, and the addition of b.

  function Sum4(f: word, a: word, t: word, x: word): word { f + a + t + x }

  function Add(x: word, y: word): word { x + y }

  // ---- md5.hpp --------------------------------------------------------------------------------

  const SHIFTS: seq<word> := [7, 12, 17, 22, 5, 9, 14, 20, 4, 11, 16, 23, 6, 10, 15, 21]

  function MixF(b: word, c: word, d: word): word { d ^ (b & (c ^ d)) }
  function MixG(b: word, c: word, d: word): word { c ^ (d & (b ^ c)) }
  function MixH(b: word, c: word, d: word): word { b ^ c ^ d }
  function MixI(b: word, c: word, d: word): word { c ^ (b | !d) }

  function CalcF(i: nat, b: word, c: word, d: word): word {
    if i < 16 then MixF(b, c, d) else if i < 32 then MixG(b, c, d) else if i < 48 then MixH(b, c, d) else MixI(b, c, d)
  }

  function LeftRotate(value: word, bits: word): word
    requires bits <= 32
  {
    (value << bits) | (value >> (32 - bits))
  }

  lemma FIdentity(b: word, c: word, d: word)
    ensures d ^ (b & (c ^ d)) == (b & c) | (!b & d)
  {
  }

  lemma GIdentity(b: word, c: word, d: word)
    ensures c ^ (d & (b ^ c)) == (b & d) | (c & !d)
  {
  }

  lemma FAgrees(b: word, c: word, d: word)
    ensures MixF(b, c, d) == F(b, c, d)
  {
    FIdentity(b, c, d);
  }

  lemma GAgrees(b: word, c: word, d: word)
    ensures MixG(b, c, d) == G(b, c, d)
  {
    GIdentity(b, c, d);
  }

  lemma HAgrees(b: word, c: word, d: word)
    ensures MixH(b, c, d) == H(b, c, d)
  {
  }

  lemma IAgrees(b: word, c: word, d: word)
    ensures MixI(b, c, d) == I(b, c, d)
  {
  }

  lemma AuxiliaryAgrees(i: nat, b: word, c: word, d: word)
    ensures CalcF(i, b, c, d) == Auxiliary(i, b, c, d)
  {
    if i < 16 {
      FAgrees(b, c, d);
    } else if i < 32 {
      GAgrees(b, c, d);
    } else if i < 48 {
      HAgrees(b, c, d);
    } else {
      IAgrees(b, c, d);
    }
  }

  /** One of the amounts that occur. */
  predicate IsShift(s: word) {
    || s == 4 || s == 5 || s == 6 || s == 7 || s == 9 || s == 10 || s == 11 || s == 12 || s == 14
    || s == 15 || s == 16 || s == 17 || s == 20 || s == 21 || s == 22 || s == 23
  }

  lemma RotationAgrees(v: word, s: word)
    requires IsShift(s)
    ensures s <= 32 && LeftRotate(v, s) == Rotated(v, s)
  {
  }

  // ---- Output, section 3.5 ----------------------------------------------------------------------

  function ByteOf(w: word, k: nat): bv8
    requires k < 4
  {
    match k
    case 0 => (w & 0xff) as bv8
    case 1 => ((w >> 8) & 0xff) as bv8
    case 2 => ((w >> 16) & 0xff) as bv8
    case _ => ((w >> 24) & 0xff) as bv8
  }

  function SwapEndian(a: word): word {
    ((a & 0xff) << 24) | (((a >> 8) & 0xff) << 16) | (((a >> 16) & 0xff) << 8) | ((a >> 24) & 0xff)
  }

  /** Four bytes read with the first one highest. */
  function FromBytes(b0: bv8, b1: bv8, b2: bv8, b3: bv8): word {
    ((b0 as word) << 24) | ((b1 as word) << 16) | ((b2 as word) << 8) | (b3 as word)
  }

  lemma SwapReverses(a: word)
    ensures SwapEndian(a) == FromBytes(ByteOf(a, 0), ByteOf(a, 1), ByteOf(a, 2), ByteOf(a, 3))
  {
  }

  /** Two words side by side. */
  function Pair(high: word, low: word): bv64 {
    ((high as bv64) << 32) | (low as bv64)
  }

  function High(h: bv64): bv64 { h >> 32 }
  function Low(h: bv64): bv64 { h & 0xffff_ffff }
  function Wide(w: word): bv64 { w as bv64 }

  lemma PairHalves(high: word, low: word)
    ensures High(Pair(high, low)) == Wide(high) && Low(Pair(high, low)) == Wide(low)
  {
  }

  /** The first eight output bytes, read with the first one highest. */
  lemma PairOutput(a: word, b: word)
    ensures var h := Pair(SwapEndian(a), SwapEndian(b));
            && High(h) == Wide(FromBytes(ByteOf(a, 0), ByteOf(a, 1), ByteOf(a, 2), ByteOf(a, 3)))
            && Low(h) == Wide(FromBytes(ByteOf(b, 0), ByteOf(b, 1), ByteOf(b, 2), ByteOf(b, 3)))
  {
    PairHalves(SwapEndian(a), SwapEndian(b));
    SwapReverses(a);
    SwapReverses(b);
  }
}
