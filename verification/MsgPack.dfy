/**
 Packing and unpacking of integers, strings, vectors and maps in MessagePack. The static
 type that selects an overload in the original is a value here.
 */
module MsgPack {
  import opened Bytes

  datatype Type =
    | Signed(width: nat)
    | Unsigned(width: nat)
    | Text
    | ArrayOf(elem: Type)
    | MapOf(key: Type, value: Type)

  datatype Value = Int(i: int) | Str(bytes: seq<byte>) | List(items: seq<Value>) | Dict(pairs: seq<Pair>)

  /** The entries of a map in the order in which they are packed. */
  datatype Pair = Pair(key: Value, value: Value)

  const MAX_SIZE := 0xFFFF_FFFF

  predicate IsWidth(w: nat) {
    w == 1 || w == 2 || w == 4 || w == 8
  }

  predicate IsType(t: Type) {
    match t
    case Signed(w) => IsWidth(w)
    case Unsigned(w) => IsWidth(w)
    case Text => true
    case ArrayOf(e) => IsType(e)
    case MapOf(k, v) => IsType(k) && IsType(v)
  }

  predicate DistinctKeys(pairs: seq<Pair>) {
    forall i, j :: 0 <= i < j < |pairs| ==> pairs[i].key != pairs[j].key
  }

  predicate HasType(v: Value, t: Type)
    decreases t
  {
    match t
    case Signed(w) => v.Int? && IsWidth(w) && Fits(v.i, w)
    case Unsigned(w) => v.Int? && IsWidth(w) && 0 <= v.i < Pow256(w)
    case Text => v.Str? && |v.bytes| <= MAX_SIZE
    case ArrayOf(e) => v.List? && |v.items| <= MAX_SIZE && forall i :: 0 <= i < |v.items| ==> HasType(v.items[i], e)
    case MapOf(k, x) =>
      && v.Dict? && |v.pairs| <= MAX_SIZE && DistinctKeys(v.pairs)
      && forall i :: 0 <= i < |v.pairs| ==> HasType(v.pairs[i].key, k) && HasType(v.pairs[i].value, x)
  }

  // ---- The formats of the specification --------------------------------------------------------

  const UINT: map<nat, byte> := map[1 := 0xcc, 2 := 0xcd, 4 := 0xce, 8 := 0xcf]
  const INT: map<nat, byte> := map[1 := 0xd0, 2 := 0xd1, 4 := 0xd2, 8 := 0xd3]

  /** The shortest format of a signed integer. */
  function SignedBytes(i: int): (r: seq<byte>)
    requires Fits(i, 8)
    ensures |r| > 0
  {
    if 0 <= i <= 0x7f then [i]
    else if -32 <= i < 0 then [256 + i]
    else if Fits(i, 1) then SignedFormat(i, 1)
    else if Fits(i, 2) then SignedFormat(i, 2)
    else if Fits(i, 4) then SignedFormat(i, 4)
    else SignedFormat(i, 8)
  }

  function SignedFormat(i: int, w: nat): seq<byte>
    requires IsWidth(w) && Fits(i, w)
  {
    [INT[w]] + BigEndian(FromSigned(i, w), w)
  }

  /** The shortest format of an unsigned integer. */
  function UnsignedBytes(i: nat): (r: seq<byte>)
    requires i < Pow256(8)
    ensures |r| > 0
  {
    if i <= 0x7f then [i]
    else if i < Pow256(1) then UnsignedFormat(i, 1)
    else if i < Pow256(2) then UnsignedFormat(i, 2)
    else if i < Pow256(4) then UnsignedFormat(i, 4)
    else UnsignedFormat(i, 8)
  }

  function UnsignedFormat(i: nat, w: nat): seq<byte>
    requires IsWidth(w) && i < Pow256(w)
  {
    [UINT[w]] + BigEndian(i, w)
  }

  /** The header of a string, an array or a map: a fixed format up to `fix`, then a marker and
      a size. Strings alone have a format with a size of one byte. */
  function SizeHeader(n: nat, base: nat, fix: nat, m8: nat, m16: byte, m32: byte): (r: seq<byte>)
    requires n <= MAX_SIZE && base + fix < 256 && m8 < 256
    ensures |r| > 0
  {
    if n <= fix then [base + n]
    else if m8 > 0 && n <= 0xff then [m8] + BigEndian(n, 1)
    else if n <= 0xffff then [m16] + BigEndian(n, 2)
    else [m32] + BigEndian(n, 4)
  }

  function StrHeader(n: nat): (r: seq<byte>)
    requires n <= MAX_SIZE
    ensures |r| > 0
  {
    SizeHeader(n, 0xa0, 31, 0xd9, 0xda, 0xdb)
  }

  function ArrayHeader(n: nat): (r: seq<byte>)
    requires n <= MAX_SIZE
    ensures |r| > 0
  {
    SizeHeader(n, 0x90, 15, 0, 0xdc, 0xdd)
  }

  function MapHeader(n: nat): (r: seq<byte>)
    requires n <= MAX_SIZE
    ensures |r| > 0
  {
    SizeHeader(n, 0x80, 15, 0, 0xde, 0xdf)
  }

  function Encode(v: Value, t: Type): (r: seq<byte>)
    requires HasType(v, t)
    ensures |r| > 0
    decreases t, 1, 0
  {
    match t
    case Signed(w) => WidthsGrow(w); SignedBytes(v.i)
    case Unsigned(w) => WidthsGrow(w); UnsignedBytes(v.i)
    case Text => StrHeader(|v.bytes|) + v.bytes
    case ArrayOf(e) => ArrayHeader(|v.items|) + EncodeItems(v.items, e)
    case MapOf(k, x) => MapHeader(|v.pairs|) + EncodePairs(v.pairs, k, x)
  }

  function EncodeItems(items: seq<Value>, e: Type): seq<byte>
    requires forall i :: 0 <= i < |items| ==> HasType(items[i], e)
    decreases e, 2, |items|
  {
    if items == [] then [] else EncodeItems(items[..|items| - 1], e) + Encode(items[|items| - 1], e)
  }

  function EncodePairs(pairs: seq<Pair>, k: Type, x: Type): seq<byte>
    requires forall i :: 0 <= i < |pairs| ==> HasType(pairs[i].key, k) && HasType(pairs[i].value, x)
    decreases MapOf(k, x), 0, |pairs|
  {
    if pairs == [] then []
    else
      var last := pairs[|pairs| - 1];
      EncodePairs(pairs[..|pairs| - 1], k, x) + Encode(last.key, k) + Encode(last.value, x)
  }

  lemma WidthsGrow(w: nat)
    requires IsWidth(w)
    ensures Pow256(1) == 0x100 && Pow256(2) == 0x1_0000 && Pow256(4) == 0x1_0000_0000 && Pow256(8) == 0x1_0000_0000_0000_0000
    ensures Pow256(w) <= Pow256(8)
  {
    assert Pow256(0) == 1;
    assert Pow256(3) == 0x100_0000;
    assert Pow256(5) == 0x100_0000_0000 && Pow256(6) == 0x1_0000_0000_0000 && Pow256(7) == 0x100_0000_0000_0000;
  }

  // ---- What comes back ----------------------------------------------------------------------------

  /** No string longer than 255 bytes, no array or map of more than 15 elements, at any depth. */
  predicate Small(v: Value, t: Type)
    requires HasType(v, t)
    decreases t
  {
    match t
    case Signed(_) => true
    case Unsigned(_) => true
    case Text => |v.bytes| <= 255
    case ArrayOf(e) => |v.items| <= 15 && forall i :: 0 <= i < |v.items| ==> Small(v.items[i], e)
    case MapOf(k, x) =>
      |v.pairs| <= 15 && forall i :: 0 <= i < |v.pairs| ==> Small(v.pairs[i].key, k) && Small(v.pairs[i].value, x)
  }

  // ---- Packer ---------------------------------------------------------------------------------------

  /** `v >> 8 * i` */
  function ShiftBytes(v: nat, i: nat): nat {
    if i == 0 then v else ShiftBytes(v, i - 1) / 256
  }

  class Packer {
    var obj: seq<byte>

    constructor ()
      ensures obj == []
    {
      obj := [];
    }

    /** The loop that shifts out one byte after the other, highest first. */
    method WriteBe(v: nat, n: nat)
      requires v < Pow256(n)
      modifies this
      ensures obj == old(obj) + BigEndian(v, n)
    {
      var i := n;
      while i > 0
        invariant 0 <= i <= n && obj == old(obj) + BigEndian(ShiftBytes(v, i), n - i)
      {
        obj := obj + [ShiftBytes(v, i - 1) % 256];
        i := i - 1;
      }
    }

    /** The overloads for int8 to int64: a value that fits half the width goes to the next one. */
    method PackSigned(i: int, w: nat)
      requires IsWidth(w) && Fits(i, w) && Fits(i, 8)
      modifies this
      ensures obj == old(obj) + SignedBytes(i)
      decreases w
    {
      WidthsGrow(w);
      if w == 1 {
        if -32 <= i <= -1 {
          obj := obj + [0xe0 + 32 + i];
        } else if 0 <= i <= 0x7f {
          obj := obj + [i];
        } else {
          obj := obj + [INT[1]];
          WriteBe(FromSigned(i, 1), 1);
        }
      } else if Fits(i, w / 2) {
        PackSigned(i, w / 2);
      } else {
        obj := obj + [INT[w]];
        WriteBe(FromSigned(i, w), w);
      }
    }

    /** The overloads for uint8 to uint64. */
    method PackUnsigned(i: nat, w: nat)
      requires IsWidth(w) && i < Pow256(w) <= Pow256(8)
      modifies this
      ensures obj == old(obj) + UnsignedBytes(i)
      decreases w
    {
      WidthsGrow(w);
      if w == 1 {
        if i <= 0x7f {
          obj := obj + [i];
        } else {
          obj := obj + [UINT[1]];
          WriteBe(i, 1);
        }
      } else if i < Pow256(w / 2) {
        PackUnsigned(i, w / 2);
      } else {
        obj := obj + [UINT[w]];
        WriteBe(i, w);
      }
    }

    method PackSize(n: nat, base: nat, fix: nat, m8: nat, m16: byte, m32: byte)
      requires n <= MAX_SIZE && base + fix < 256 && m8 < 256
      modifies this
      ensures obj == old(obj) + SizeHeader(n, base, fix, m8, m16, m32)
    {
      WidthsGrow(1);
      if n <= fix {
        obj := obj + [base + n];
      } else if m8 > 0 && n <= 0xff {
        obj := obj + [m8];
        WriteBe(n, 1);
      } else if n <= 0xffff {
        obj := obj + [m16];
        WriteBe(n, 2);
      } else {
        obj := obj + [m32];
        WriteBe(n, 4);
      }
    }

    /** pack_type for every type; a string or container that is too long for any format is
        left out of the model. */
    method Pack(v: Value, t: Type)
      requires HasType(v, t)
      modifies this
      ensures obj == old(obj) + Encode(v, t)
      decreases t, 3
    {
      match t
      case Signed(w) =>
        WidthsGrow(w);
        PackSigned(v.i, w);
      case Unsigned(w) =>
        WidthsGrow(w);
        PackUnsigned(v.i, w);
      case Text =>
        PackSize(|v.bytes|, 0xa0, 31, 0xd9, 0xda, 0xdb);
        obj := obj + v.bytes;
      case ArrayOf(e) => PackArray(v.items, e);
      case MapOf(k, x) => PackMap(v.pairs, k, x);
    }

    method PackArray(items: seq<Value>, e: Type)
      requires |items| <= MAX_SIZE && forall i :: 0 <= i < |items| ==> HasType(items[i], e)
      modifies this
      ensures obj == old(obj) + (ArrayHeader(|items|) + EncodeItems(items, e))
      decreases ArrayOf(e), 1
    {
      PackSize(|items|, 0x90, 15, 0, 0xdc, 0xdd);
      PackItems(items, e);
    }

    method PackMap(pairs: seq<Pair>, k: Type, x: Type)
      requires |pairs| <= MAX_SIZE && forall i :: 0 <= i < |pairs| ==> HasType(pairs[i].key, k) && HasType(pairs[i].value, x)
      modifies this
      ensures obj == old(obj) + (MapHeader(|pairs|) + EncodePairs(pairs, k, x))
      decreases MapOf(k, x), 2
    {
      hide HasType, Encode, SizeHeader;
      PackSize(|pairs|, 0x80, 15, 0, 0xde, 0xdf);
      PackPairs(pairs, k, x);
    }

    method PackItem(v: Value, e: Type, ghost start: seq<byte>, ghost done: seq<byte>)
      requires HasType(v, e) && obj == start + done
      modifies this
      ensures obj == start + (done + Encode(v, e))
      decreases e, 4
    {
      Pack(v, e);
    }

    method PackItems(items: seq<Value>, e: Type)
      requires forall i :: 0 <= i < |items| ==> HasType(items[i], e)
      modifies this
      ensures obj == old(obj) + EncodeItems(items, e)
      decreases e, 5
    {
      var i := 0;
      while i < |items|
        invariant 0 <= i <= |items| && obj == old(obj) + EncodeItems(items[..i], e)
      {
        EncodeItemsNext(items, e, i);
        PackItem(items[i], e, old(obj), EncodeItems(items[..i], e));
        i := i + 1;
      }
      assert items[..|items|] == items;
    }

    method PackPair(p: Pair, k: Type, x: Type, ghost start: seq<byte>, ghost done: seq<byte>)
      requires HasType(p.key, k) && HasType(p.value, x) && obj == start + done
      modifies this
      ensures obj == start + (done + Encode(p.key, k) + Encode(p.value, x))
      decreases MapOf(k, x), 0
    {
      hide Encode, HasType;
      ghost var a, b := Encode(p.key, k), Encode(p.value, x);
      Pack(p.key, k);
      assert obj == start + (done + a);
      Pack(p.value, x);
      assert start + (done + a) + b == start + (done + a + b);
    }

    method PackPairs(pairs: seq<Pair>, k: Type, x: Type)
      requires forall i :: 0 <= i < |pairs| ==> HasType(pairs[i].key, k) && HasType(pairs[i].value, x)
      modifies this
      ensures obj == old(obj) + EncodePairs(pairs, k, x)
      decreases MapOf(k, x), 1
    {
      hide Encode, HasType;
      var i := 0;
      while i < |pairs|
        invariant 0 <= i <= |pairs| && obj == old(obj) + EncodePairs(pairs[..i], k, x)
      {
        EncodePairsNext(pairs, k, x, i);
        PackPair(pairs[i], k, x, old(obj), EncodePairs(pairs[..i], k, x));
        i := i + 1;
      }
      assert pairs[..|pairs|] == pairs;
    }
  }

  lemma EncodeItemsNext(items: seq<Value>, e: Type, i: nat)
    requires i < |items| && forall i :: 0 <= i < |items| ==> HasType(items[i], e)
    ensures EncodeItems(items[..i + 1], e) == EncodeItems(items[..i], e) + Encode(items[i], e)
  {
    assert items[..i + 1][..i] == items[..i];
  }

  lemma EncodePairsNext(pairs: seq<Pair>, k: Type, x: Type, i: nat)
    requires i < |pairs| && forall i :: 0 <= i < |pairs| ==> HasType(pairs[i].key, k) && HasType(pairs[i].value, x)
    ensures EncodePairs(pairs[..i + 1], k, x) == EncodePairs(pairs[..i], k, x) + Encode(pairs[i].key, k) + Encode(pairs[i].value, x)
  {
    assert pairs[..i + 1][..i] == pairs[..i];
  }

  // ---- Unpacker ---------------------------------------------------------------------------------------

  /** The bytes of `b` are at `pos`. */
  predicate At(data: seq<byte>, pos: nat, b: seq<byte>) {
    pos + |b| <= |data| && data[pos..pos + |b|] == b
  }

  lemma AtSplit(data: seq<byte>, pos: nat, a: seq<byte>, b: seq<byte>)
    ensures At(data, pos, a + b) <==> At(data, pos, a) && At(data, pos + |a|, b)
  {
    var n, m := |a|, |b|;
    if pos + n + m <= |data| {
      var whole := data[pos..pos + n + m];
      assert whole[..n] == data[pos..pos + n] && whole[n..] == data[pos + n..pos + n + m];
      assert whole == whole[..n] + whole[n..];
      assert (a + b)[..n] == a && (a + b)[n..] == b;
    }
  }

  /** static_cast to an integer type. */
  function Cast(t: Type, x: int): int
    requires t.Signed? || t.Unsigned?
  {
    if t.Unsigned? then x % Pow256(t.width) else ToSigned(x % Pow256(t.width), t.width)
  }

  lemma {:induction false} PowerGrows(i: nat, w: nat)
    requires i <= w
    ensures Pow256(i) <= Pow256(w)
  {
    if i < w { PowerGrows(i, w - 1); }
  }

  /** `out << 8 | byte` in an integer of `w` bytes */
  function ShiftIn(u: nat, b: byte, w: nat): nat {
    (u * 256) % Pow256(w) + b
  }

  /** Nothing is shifted out before all bytes are in. */
  lemma ShiftedIn(u: nat, b: byte, i: nat, w: nat)
    requires u < Pow256(i) && i < w
    ensures ShiftIn(u, b, w) == 256 * u + b < Pow256(i + 1)
  {
    PowerGrows(i + 1, w);
    SmallMod(u * 256, Pow256(w));
  }

  lemma BigValueMore(bs: seq<byte>, b: byte)
    ensures BigValue(bs + [b]) == 256 * BigValue(bs) + b
  {
    assert (bs + [b])[..|bs|] == bs;
  }

  /** What the first byte of a container announces. */
  datatype CountKind = Elements | Table | NoMarker

  const ADDRESSES := 0x8000_0000_0000

  /** Where unpacking a map consumes nothing and sets no error. */
  predicate Stuck(data: seq<byte>, pos: nat) {
    pos < |data| && !Begins(data[pos], 0x80, 0xde, 0xdf)
  }

  predicate Begins(b: byte, base: nat, m16: byte, m32: byte) {
    base <= b <= base + 15 || b == m16 || b == m32 || b == 0xe0
  }

  // ---- Any data ---------------------------------------------------------------------------------

  /** How many bytes the number that begins with `b` has behind it, or -1 if none begins so. */
  function Behind(b: byte): (n: int)
    ensures -1 <= n <= 8
  {
    if b <= 0x7f || b >= 0xe0 then 0
    else if b == 0xcc || b == 0xd0 then 1
    else if b == 0xcd || b == 0xd1 then 2
    else if b == 0xce || b == 0xd2 || b == 0xca then 4
    else if b == 0xcf || b == 0xd3 || b == 0xcb then 8
    else -1
  }

  predicate NumberAt(data: seq<byte>, pos: nat) {
    pos < |data| && 0 <= Behind(data[pos]) && pos + 1 + Behind(data[pos]) <= |data|
  }

  /** The number at `pos`, before it is cast. A float is left out. */
  function NumberRead(data: seq<byte>, pos: nat): int
    requires NumberAt(data, pos) && data[pos] != 0xca && data[pos] != 0xcb
  {
    var b, u := data[pos], BigValue(data[pos + 1..pos + 1 + Behind(data[pos])]);
    if b <= 0x7f then b
    else if b >= 0xe0 then b - 256
    else if b <= 0xcf then u
    else ToSigned(u, Behind(b))
  }

  /** A size and how many bytes it takes, if there is one. */
  datatype Head = NoHead | Head(size: nat, bytes: nat)

  /** Two and four bytes of size are read as eight. */
  function LongHead(data: seq<byte>, pos: nat): Head {
    if pos + 9 <= |data| then Head(BigValue(data[pos + 1..pos + 9]), 9) else NoHead
  }

  function StringHead(data: seq<byte>, pos: nat): Head {
    if |data| <= pos then NoHead
    else if 0xa0 <= data[pos] <= 0xbf then Head(data[pos] - 0xa0, 1)
    else if data[pos] == 0xd9 then if pos + 2 <= |data| then Head(data[pos + 1], 2) else NoHead
    else if data[pos] == 0xda || data[pos] == 0xdb then LongHead(data, pos)
    else NoHead
  }

  function CountHead(data: seq<byte>, pos: nat, base: nat, m16: byte, m32: byte): Head {
    if |data| <= pos then NoHead
    else if base <= data[pos] <= base + 15 then Head(data[pos] - base, 1)
    else if Begins(data[pos], base, m16, m32) then LongHead(data, pos)
    else NoHead
  }

  /** `data` is in memory from address `base` on. `failed`: an error has been set, or an
      exception thrown, after which nothing is returned at all. */
  class Unpacker {
    const base: nat
    const data: seq<byte>
    var pos: nat
    var failed: bool

    ghost predicate Valid()
      reads this
    {
      pos <= |data| && base + |data| < ADDRESSES
    }

    constructor (base: nat, data: seq<byte>)
      requires base + |data| < ADDRESSES
      ensures Valid() && this.data == data && pos == 0 && !failed
    {
      this.base, this.data, pos, failed := base, data, 0, false;
    }

    method SafeData() returns (b: byte)
      requires Valid()
      modifies this`failed
      ensures if pos < |data| then b == data[pos] && failed == old(failed) else b == 0 && failed
    {
      if pos < |data| { return data[pos]; }
      failed := true;
      b := 0;
    }

    method SafeIncrement(size: nat)
      requires Valid()
      modifies this`pos, this`failed
      ensures Valid() && old(pos) <= pos
      ensures if old(pos) + size <= |data| then pos == old(pos) + size && failed == old(failed) else pos == |data| && failed
    {
      if pos + size <= |data| {
        pos := pos + size;
      } else {
        pos := |data|;
        failed := true;
      }
    }

    /** read_be_unsigned and the loop of read_be_signed, for an integer of `w` bytes. */
    method ReadBe(w: nat) returns (u: nat)
      requires Valid() && 0 < w
      modifies this`pos, this`failed
      ensures Valid() && old(pos) <= pos && (old(failed) ==> failed)
      ensures u < Pow256(w)
      ensures if old(pos) + w <= |data| then pos == old(pos) + w && failed == old(failed) && u == BigValue(data[old(pos)..pos])
              else failed
    {
      u := 0;
      var i := 0;
      while i < w
        invariant 0 <= i <= w && Valid() && u < Pow256(i) && (old(failed) ==> failed)
        invariant old(pos) <= pos
        invariant if old(pos) + i <= |data| then pos == old(pos) + i && failed == old(failed) && u == BigValue(data[old(pos)..pos])
                  else failed
      {
        ghost var read := data[old(pos)..pos];
        var b := SafeData();
        ShiftedIn(u, b, i, w);
        u := ShiftIn(u, b, w);
        SafeIncrement(1);
        i := i + 1;
        assert old(pos) + i <= |data| ==> data[old(pos)..pos] == read + [b];
        BigValueMore(read, b);
      }
    }

    /** A marker and the number behind it. */
    method ReadMarked(w: nat, ghost u: nat) returns (r: nat)
      requires Valid() && IsWidth(w) && pos < |data|
      modifies this`pos, this`failed
      ensures Valid() && old(pos) < pos && (old(failed) ==> failed)
      ensures u < Pow256(w) && At(data, old(pos) + 1, BigEndian(u, w)) ==>
                r == u && pos == old(pos) + 1 + w && failed == old(failed)
      ensures r < Pow256(w)
      ensures if old(pos) + 1 + w <= |data| then pos == old(pos) + 1 + w && failed == old(failed) && r == BigValue(data[old(pos) + 1..pos])
              else failed
    {
      SafeIncrement(1);
      r := ReadBe(w);
      if u < Pow256(w) { BigValueOf(u, w); }
    }

    /** uint8 to uint64, the marker being `b`. */
    method ReadUint(b: byte, ghost w0: nat, ghost u: nat) returns (r: nat)
      requires Valid() && pos < |data| && 0xcc <= b <= 0xcf
      modifies this`pos, this`failed
      ensures Valid() && old(pos) < pos && (old(failed) ==> failed)
      ensures IsWidth(w0) && UINT[w0] == b && u < Pow256(w0) && At(data, old(pos) + 1, BigEndian(u, w0)) ==>
                r == u && pos == old(pos) + 1 + w0 && failed == old(failed)
      ensures var w := Behind(b);
              if old(pos) + 1 + w <= |data| then pos == old(pos) + 1 + w && failed == old(failed) && r == BigValue(data[old(pos) + 1..pos])
              else failed
    {
      var w := if b == 0xcc then 1 else if b == 0xcd then 2 else if b == 0xce then 4 else 8;
      r := ReadMarked(w, u);
    }

    /** int8 to int64, the marker being `b`. */
    method ReadInt(b: byte, ghost w0: nat, ghost u: nat) returns (r: int)
      requires Valid() && pos < |data| && 0xd0 <= b <= 0xd3
      modifies this`pos, this`failed
      ensures Valid() && old(pos) < pos && (old(failed) ==> failed)
      ensures IsWidth(w0) && INT[w0] == b && u < Pow256(w0) && At(data, old(pos) + 1, BigEndian(u, w0)) ==>
                r == ToSigned(u, w0) && pos == old(pos) + 1 + w0 && failed == old(failed)
      ensures var w := Behind(b);
              if old(pos) + 1 + w <= |data| then pos == old(pos) + 1 + w && failed == old(failed) && r == ToSigned(BigValue(data[old(pos) + 1..pos]), w)
              else failed
    {
      var w := if b == 0xd0 then 1 else if b == 0xd1 then 2 else if b == 0xd2 then 4 else 8;
      var v := ReadMarked(w, u);
      r := ToSigned(v, w);
    }

    /** unpack_number for an integer type. What a float is cast to is left open. */
    method UnpackNumber(t: Type, ghost i: int) returns (val: int)
      requires Valid() && IsType(t) && (t.Signed? || t.Unsigned?)
      modifies this`pos, this`failed
      ensures Valid() && (old(failed) ==> failed) && old(pos) <= pos && (failed || old(pos) < pos)
      ensures IntAt(data, old(pos), t, i) ==> val == i && pos == old(pos) + |Encode(Int(i), t)| && failed == old(failed)
      ensures if NumberAt(data, old(pos)) then
                && failed == old(failed) && pos == old(pos) + 1 + Behind(data[old(pos)])
                && (data[old(pos)] != 0xca && data[old(pos)] != 0xcb ==> val == Cast(t, NumberRead(data, old(pos))))
              else failed
    {
      ghost var here, w, u := IntAt(data, pos, t, i), 1, 0;
      if here {
        IntShape(data, pos, t, i);
        w, u := WidthOf(t, i), NumberOf(t, i);
      }
      val := UnpackShaped(t, here, i, w, u);
    }

    /** The same by the shape of the number: one byte, or a marker and `w` bytes that hold `u`. */
    method UnpackShaped(t: Type, ghost here: bool, ghost i: int, ghost w0: nat, ghost u: nat) returns (val: int)
      requires Valid() && IsType(t) && (t.Signed? || t.Unsigned?)
      requires here ==> Shaped(data, pos, t, i, w0, u)
      modifies this`pos, this`failed
      ensures Valid() && (old(failed) ==> failed) && old(pos) <= pos && (failed || old(pos) < pos)
      ensures here ==> val == i && pos == old(pos) + (if Fixed(i) then 1 else 1 + w0) && failed == old(failed)
      ensures if NumberAt(data, old(pos)) then
                && failed == old(failed) && pos == old(pos) + 1 + Behind(data[old(pos)])
                && (data[old(pos)] != 0xca && data[old(pos)] != 0xcb ==> val == Cast(t, NumberRead(data, old(pos))))
              else failed
    {
      var b := SafeData();
      val := 0;
      if b <= 0x7f {
        val := Cast(t, b);
        SafeIncrement(1);
      } else if b >= 0xe0 {
        val := Cast(t, b as int - 256);
        SafeIncrement(1);
      } else if 0xcc <= b <= 0xcf {
        var r := ReadUint(b, w0, u);
        val := Cast(t, r);
      } else if 0xd0 <= b <= 0xd3 {
        var r := ReadInt(b, w0, u);
        val := Cast(t, r);
      } else if b == 0xca || b == 0xcb {
        SafeIncrement(1);
        SafeIncrement(if b == 0xca then 4 else 8);
        val := *;
      } else {
        failed := true;
      }
    }

    /** A size that is read into a size_t, whatever its width on the wire. */
    method ReadSize(m: nat, ghost n: nat) returns (size: nat)
      requires Valid() && pos < |data|
      modifies this`pos, this`failed
      ensures Valid() && old(pos) < pos && (old(failed) ==> failed)
      ensures ((m == 2 && 16 <= n < Pow256(2)) || (m == 4 && Pow256(2) <= n <= MAX_SIZE)) && At(data, old(pos) + 1, BigEndian(n, m)) ==>
                failed || (|data| < size && n < size)
      ensures var h := LongHead(data, old(pos));
              if h.Head? then size == h.size && pos == old(pos) + h.bytes && failed == old(failed) else failed
    {
      SafeIncrement(1);
      ghost var at := pos;
      size := ReadBe(8);
      if ((m == 2 && 16 <= n < Pow256(2)) || (m == 4 && Pow256(2) <= n <= MAX_SIZE)) && At(data, at, BigEndian(n, m)) && at + 8 <= |data| {
        SizeTooLarge(data, at, n, m);
      }
    }

    /** The header of a string. */
    method ReadStrSize(ghost n: nat) returns (known: bool, size: nat)
      requires Valid()
      modifies this`pos, this`failed
      ensures Valid() && old(pos) <= pos && (failed || old(pos) < pos) && (old(failed) ==> failed) && (!known ==> failed)
      ensures n <= 255 && At(data, old(pos), StrHeader(n)) ==>
                known && size == n && pos == old(pos) + |StrHeader(n)| && failed == old(failed)
      ensures 255 < n <= MAX_SIZE && At(data, old(pos), StrHeader(n)) ==> failed || |data| < size
      ensures var h := StringHead(data, old(pos));
              if h.Head? then known && size == h.size && pos == old(pos) + h.bytes && failed == old(failed) else failed
    {
      WidthsGrow(1);
      ghost var here := n <= MAX_SIZE && At(data, pos, StrHeader(n));
      if here { HeaderSplit(data, pos, n, 0xa0, 31, 0xd9, 0xda, 0xdb); }
      var b := SafeData();
      known, size := true, 0;
      if 0xa0 <= b <= 0xbf {
        size := b - 0xa0;
        SafeIncrement(1);
      } else if b == 0xdb || b == 0xda {
        size := ReadSize(if b == 0xda then 2 else 4, n);
      } else if b == 0xd9 {
        size := ReadMarked(1, n);
      } else {
        failed, known := true, false;
      }
    }

    /** The end of the string is computed in 64 bits. A size so large that it wraps around
        passes the test, and std::string throws at a range that ends before it begins. */
    method UnpackString(ghost bytes: seq<byte>) returns (value: seq<byte>)
      requires Valid()
      modifies this`pos, this`failed
      ensures Valid() && old(pos) <= pos && (failed || old(pos) < pos) && (old(failed) ==> failed)
      ensures |bytes| <= 255 && At(data, old(pos), StrHeader(|bytes|) + bytes) ==>
                value == bytes && pos == old(pos) + |StrHeader(|bytes|)| + |bytes| && failed == old(failed)
      ensures 255 < |bytes| <= MAX_SIZE && At(data, old(pos), StrHeader(|bytes|) + bytes) ==> failed
      ensures var h := StringHead(data, old(pos));
              if h.Head? && old(pos) + h.bytes + h.size <= |data|
              then pos == old(pos) + h.bytes + h.size && value == data[old(pos) + h.bytes..pos] && failed == old(failed)
              else failed
    {
      ghost var n := |bytes|;
      if n <= MAX_SIZE { AtSplit(data, pos, StrHeader(n), bytes); }
      var known, size := ReadStrSize(n);
      value := [];
      if !known { return; }
      if (base + pos + size) % 0x1_0000_0000_0000_0000 <= base + |data| {
        if base + pos + size >= 0x1_0000_0000_0000_0000 {
          failed := true;
          return;
        }
        value := data[pos..pos + size];
        SafeIncrement(size);
      } else {
        failed := true;
      }
    }

    /** The header of an array or, with other markers, of a map. */
    method ReadCount(base: nat, m16: byte, m32: byte, ghost n: nat) returns (kind: CountKind, count: nat)
      requires Valid() && (base == 0x90 || base == 0x80) && base + 15 < m16 < m32 < 0xe0
      modifies this`pos, this`failed
      ensures Valid() && old(pos) <= pos && (old(failed) ==> failed) && (!kind.NoMarker? ==> failed || old(pos) < pos)
      ensures kind.NoMarker? ==> pos == old(pos) && (if pos < |data| then failed == old(failed) else failed)
      ensures old(pos) < |data| ==> (kind.NoMarker? <==> !Begins(data[old(pos)], base, m16, m32))
      ensures n <= 15 && At(data, old(pos), SizeHeader(n, base, 15, 0, m16, m32)) ==>
                kind == Elements && count == n && pos == old(pos) + |SizeHeader(n, base, 15, 0, m16, m32)| && failed == old(failed)
      ensures 15 < n <= MAX_SIZE && At(data, old(pos), SizeHeader(n, base, 15, 0, m16, m32)) ==>
                kind == Elements && (failed || (|data| < count && n < count))
      ensures var h := CountHead(data, old(pos), base, m16, m32);
              if h.Head? then count == h.size && pos == old(pos) + h.bytes && failed == old(failed) && (kind.Elements? <==> data[old(pos)] != 0xe0)
              else kind.NoMarker? || failed
    {
      WidthsGrow(1);
      if n <= MAX_SIZE && At(data, pos, SizeHeader(n, base, 15, 0, m16, m32)) { HeaderSplit(data, pos, n, base, 15, 0, m16, m32); }
      var b := SafeData();
      kind, count := Elements, 0;
      if base <= b && b <= base + 15 {
        count := b - base;
        SafeIncrement(1);
      } else if b == m32 || b == m16 {
        count := ReadSize(if b == m16 then 2 else 4, n);
      } else if b == 0xe0 {
        kind := Table;
        count := ReadSize(4, n);
      } else {
        kind := NoMarker;
      }
    }

    /** unpack_type for every type. Where `v` was packed, it is restored, with exactly its
        bytes consumed, if it is small; and if it is not small, it is not restored. */
    method Unpack(t: Type, ghost v: Value) returns (r: Value)
      requires Valid() && IsType(t)
      modifies this`pos, this`failed
      ensures Valid() && old(pos) <= pos && (old(failed) ==> failed)
      ensures failed || old(pos) < pos || (t.MapOf? && Stuck(data, pos) && r == Dict([]))
      ensures t.MapOf? && Stuck(data, old(pos)) ==> pos == old(pos) && failed == old(failed) && r == Dict([])
      ensures ValueAt(data, old(pos), t, v) ==> Restored(t, v, old(pos), old(failed), r, pos, failed)
      decreases t, 3
    {
      match t
      case Signed(_) =>
        var i := UnpackNumber(t, if v.Int? then v.i else 0);
        r := Int(i);
      case Unsigned(_) =>
        var i := UnpackNumber(t, if v.Int? then v.i else 0);
        r := Int(i);
      case Text =>
        var bytes := UnpackString(if v.Str? then v.bytes else []);
        r := Str(bytes);
      case ArrayOf(e) =>
        var items := UnpackArray(e, if v.List? then v.items else []);
        r := List(items);
      case MapOf(k, x) =>
        var pairs := UnpackMap(k, x, if v.Dict? then v.pairs else []);
        r := Dict(pairs);
    }

    /** unpack_array. What a Lua table becomes is left open. */
    method UnpackArray(e: Type, ghost items: seq<Value>) returns (list: seq<Value>)
      requires Valid() && IsType(e)
      modifies this`pos, this`failed
      ensures Valid() && old(pos) <= pos && (old(failed) ==> failed) && (failed || old(pos) < pos)
      ensures ValueAt(data, old(pos), ArrayOf(e), List(items)) ==>
                Restored(ArrayOf(e), List(items), old(pos), old(failed), List(list), pos, failed)
      ensures var h := CountHead(data, old(pos), 0x90, 0xdc, 0xdd);
              if h.Head? then data[old(pos)] != 0xe0 ==> |list| == h.size else failed
      decreases ArrayOf(e), 1
    {
      ghost var n, here, start, failed0 := |items|, ValueAt(data, pos, ArrayOf(e), List(items)), pos, failed;
      if here { AtSplit(data, pos, ArrayHeader(n), EncodeItems(items, e)); }
      var kind, count := ReadCount(0x90, 0xdc, 0xdd, n);
      list := [];
      if kind.Elements? {
        ghost var well := here && n <= 15;
        list := UnpackItems(count, e, items, well);
      } else if kind.Table? {
        list := *;
        LeftOpen();
      } else {
        failed := true;
      }
    }

    /** Any number of bytes is consumed, with or without an error. */
    method LeftOpen()
      requires Valid()
      modifies this`pos, this`failed
      ensures Valid() && old(pos) <= pos && (old(failed) ==> failed)
    {
      var next :| pos <= next <= |data|;
      pos := next;
      if * { failed := true; }
    }

    method UnpackItems(count: nat, e: Type, ghost items: seq<Value>, ghost well: bool) returns (list: seq<Value>)
      requires Valid() && IsType(e)
      requires well ==> count == |items| && ItemsAt(data, pos, e, items)
      modifies this`pos, this`failed
      ensures Valid() && old(pos) <= pos && (old(failed) ==> failed) && |list| == count
      ensures well ==> ItemsRestored(e, items, old(pos), old(failed), list, pos, failed)
      decreases e, 4
    {
      list := [];
      var i := 0;
      while i < count
        invariant 0 <= i <= count && |list| == i
        invariant Valid() && old(pos) <= pos && (old(failed) ==> failed)
        invariant well ==> ItemsRestored(e, items[..i], old(pos), old(failed), list, pos, failed)
      {
        ghost var item := if well then items[i] else Int(0);
        ghost var pos0, failed0 := pos, failed;
        if well { ItemAt(data, old(pos), e, items, i); }
        var val := Unpack(e, item);
        if well { ItemsRestoredMore(e, items, i, old(pos), old(failed), list, pos0, failed0, val, pos, failed); }
        list := list + [val];
        i := i + 1;
      }
      if well { assert items[..|items|] == items; }
    }

    /** unpack_map. A byte that begins no map gives an empty one and is not consumed. */
    method UnpackMap(k: Type, x: Type, ghost pairs: seq<Pair>) returns (m: seq<Pair>)
      requires Valid() && IsType(k) && IsType(x)
      modifies this`pos, this`failed
      ensures Valid() && old(pos) <= pos && (old(failed) ==> failed)
      ensures failed || old(pos) < pos || (Stuck(data, pos) && m == [])
      ensures Stuck(data, old(pos)) ==> pos == old(pos) && failed == old(failed) && m == []
      ensures ValueAt(data, old(pos), MapOf(k, x), Dict(pairs)) ==>
                Restored(MapOf(k, x), Dict(pairs), old(pos), old(failed), Dict(m), pos, failed)
      ensures CountHead(data, old(pos), 0x80, 0xde, 0xdf).NoHead? ==> failed || Stuck(data, old(pos))
      decreases MapOf(k, x), 2
    {
      ghost var n, here := |pairs|, ValueAt(data, pos, MapOf(k, x), Dict(pairs));
      if here { AtSplit(data, pos, MapHeader(n), EncodePairs(pairs, k, x)); }
      var kind, count := ReadCount(0x80, 0xde, 0xdf, n);
      m := [];
      if !kind.NoMarker? {
        ghost var well := here && n <= 15;
        m := UnpackPairs(count, k, x, pairs, well);
      }
      if here { MapRestored(k, x, pairs, old(pos), old(failed), m, pos, failed); }
    }

    /** One key, one value, and their insertion. */
    method UnpackPair(k: Type, x: Type, m: seq<Pair>, ghost pairs: seq<Pair>, ghost well: bool, ghost i: nat,
                      ghost start: nat, ghost failed0: bool) returns (m': seq<Pair>)
      requires Valid() && IsType(k) && IsType(x) && |m| <= i && GotOn(data, k, x, start, i, m, pos, failed)
      requires well ==> i < |pairs| && PairsAt(data, start, k, x, pairs)
                        && FirstRestored(k, x, pairs, i, start, failed0, m, pos, failed)
      modifies this`pos, this`failed
      ensures Valid() && old(pos) <= pos && (old(failed) ==> failed) && |m'| <= |m| + 1
      ensures GotOn(data, k, x, start, i + 1, m', pos, failed)
      ensures well ==> FirstRestored(k, x, pairs, i + 1, start, failed0, m', pos, failed)
      decreases MapOf(k, x), 0
    {
      hide Encode, Telling, At;
      ghost var pair := if well then pairs[i] else Pair(Int(0), Int(0));
      ghost var pos0, f0 := pos, failed;
      if well { PairAt(data, start, k, x, pairs, i); }
      var key := Unpack(k, pair.key);
      ghost var pos1, f1 := pos, failed;
      var val := Unpack(x, pair.value);
      if well { PairsRestoredMore(k, x, pairs, i, start, failed0, m, pos0, f0, key, pos1, f1, val, pos, failed); }
      m' := InsertOrAssign(m, key, val);
    }

    method UnpackPairs(count: nat, k: Type, x: Type, ghost pairs: seq<Pair>, ghost well: bool) returns (m: seq<Pair>)
      requires Valid() && IsType(k) && IsType(x)
      requires well ==> count == |pairs| && PairsAt(data, pos, k, x, pairs)
      modifies this`pos, this`failed
      ensures Valid() && old(pos) <= pos && (old(failed) ==> failed) && |m| <= count
      ensures GotOn(data, k, x, old(pos), count, m, pos, failed)
      ensures well ==> PairsRestored(k, x, pairs, old(pos), old(failed), m, pos, failed)
      decreases MapOf(k, x), 1
    {
      hide Encode, Telling, Small, At, FirstRestored, PairsRestored, GotOn;
      m := [];
      var i := 0;
      GotNowhere(data, k, x, pos, failed);
      if well { NoneRestored(k, x, pairs, pos, failed); }
      while i < count
        invariant 0 <= i <= count && |m| <= i
        invariant Valid() && old(pos) <= pos && (old(failed) ==> failed)
        invariant GotOn(data, k, x, old(pos), i, m, pos, failed)
        invariant well ==> FirstRestored(k, x, pairs, i, old(pos), old(failed), m, pos, failed)
      {
        m := UnpackPair(k, x, m, pairs, well, i, old(pos), old(failed));
        i := i + 1;
      }
      if well { AllRestored(k, x, pairs, old(pos), old(failed), m, pos, failed); }
    }
  }

  /** The first byte of a header, and the size behind it. */
  lemma HeaderSplit(data: seq<byte>, pos: nat, n: nat, base: nat, fix: nat, m8: nat, m16: byte, m32: byte)
    requires n <= MAX_SIZE && base + fix < 256 && m8 < 256 && At(data, pos, SizeHeader(n, base, fix, m8, m16, m32))
    ensures pos < |data|
    ensures n <= fix ==> data[pos] == base + n
    ensures fix < n <= 0xff && m8 > 0 ==> data[pos] == m8 && At(data, pos + 1, BigEndian(n, 1))
    ensures fix < n <= 0xffff && (m8 == 0 || 0xff < n) ==> data[pos] == m16 && At(data, pos + 1, BigEndian(n, 2))
    ensures fix < n && 0xffff < n ==> data[pos] == m32 && At(data, pos + 1, BigEndian(n, 4))
  {
    var header := SizeHeader(n, base, fix, m8, m16, m32);
    assert header == [header[0]] + header[1..];
    AtSplit(data, pos, [header[0]], header[1..]);
    assert data[pos..pos + 1][0] == header[0];
    if n > fix {
      var w := if m8 > 0 && n <= 0xff then 1 else if n <= 0xffff then 2 else 4;
      assert header[1..] == BigEndian(n, w);
    }
  }

  // ---- Elements at a position ------------------------------------------------------------------------

  predicate ValueAt(data: seq<byte>, pos: nat, t: Type, v: Value) {
    HasType(v, t) && At(data, pos, Encode(v, t))
  }

  predicate AllTyped(items: seq<Value>, e: Type) {
    forall i :: 0 <= i < |items| ==> HasType(items[i], e)
  }

  predicate AllSmall(items: seq<Value>, e: Type)
    requires AllTyped(items, e)
  {
    forall i :: 0 <= i < |items| ==> Small(items[i], e)
  }

  predicate ItemsAt(data: seq<byte>, pos: nat, e: Type, items: seq<Value>) {
    AllTyped(items, e) && At(data, pos, EncodeItems(items, e))
  }

  predicate PairsTyped(pairs: seq<Pair>, k: Type, x: Type) {
    forall i :: 0 <= i < |pairs| ==> HasType(pairs[i].key, k) && HasType(pairs[i].value, x)
  }

  predicate PairsSmall(pairs: seq<Pair>, k: Type, x: Type)
    requires PairsTyped(pairs, k, x)
  {
    forall i :: 0 <= i < |pairs| ==> Small(pairs[i].key, k) && Small(pairs[i].value, x)
  }

  predicate PairsAt(data: seq<byte>, pos: nat, k: Type, x: Type, pairs: seq<Pair>) {
    PairsTyped(pairs, k, x) && DistinctKeys(pairs) && At(data, pos, EncodePairs(pairs, k, x))
  }

  lemma AtPrefix(data: seq<byte>, pos: nat, a: seq<byte>, b: seq<byte>)
    requires At(data, pos, b) && a <= b
    ensures At(data, pos, a)
  {
    assert b == a + b[|a|..];
    AtSplit(data, pos, a, b[|a|..]);
  }

  lemma {:induction false} ItemsPrefix(e: Type, items: seq<Value>, i: nat)
    requires AllTyped(items, e) && i <= |items|
    ensures EncodeItems(items[..i], e) <= EncodeItems(items, e)
    decreases |items|
  {
    if i < |items| {
      var init := items[..|items| - 1];
      ItemsPrefix(e, init, i);
      assert init[..i] == items[..i];
    } else {
      assert items[..i] == items;
    }
  }

  lemma AtBehind(data: seq<byte>, pos: nat, whole: seq<byte>, a: seq<byte>, b: seq<byte>)
    requires At(data, pos, whole) && a + b <= whole
    ensures At(data, pos + |a|, b)
  {
    AtPrefix(data, pos, a + b, whole);
    AtSplit(data, pos, a, b);
  }

  /** Element `i` is behind the first `i` ones. */
  lemma {:induction false} ItemAt(data: seq<byte>, pos: nat, e: Type, items: seq<Value>, i: nat)
    requires ItemsAt(data, pos, e, items) && i < |items|
    ensures AllTyped(items[..i], e) && ValueAt(data, pos + |EncodeItems(items[..i], e)|, e, items[i])
  {
    ItemWithin(e, items, i);
    ThingAt(data, pos, EncodeItems(items, e), EncodeItems(items[..i], e), e, items[i]);
  }

  lemma {:induction false} ItemWithin(e: Type, items: seq<Value>, i: nat)
    requires AllTyped(items, e) && i < |items|
    ensures AllTyped(items[..i], e) && HasType(items[i], e)
    ensures EncodeItems(items[..i], e) + Encode(items[i], e) <= EncodeItems(items, e)
  {
    ItemsPrefix(e, items, i + 1);
    EncodeItemsNext(items, e, i);
  }

  lemma ThingAt(data: seq<byte>, pos: nat, whole: seq<byte>, a: seq<byte>, t: Type, v: Value)
    requires HasType(v, t) && At(data, pos, whole) && a + Encode(v, t) <= whole
    ensures ValueAt(data, pos + |a|, t, v)
  {
    AtBehind(data, pos, whole, a, Encode(v, t));
  }

  lemma AtThree(data: seq<byte>, pos: nat, p: seq<byte>, a: seq<byte>, b: seq<byte>)
    requires At(data, pos, p + a + b)
    ensures At(data, pos + |p|, a) && At(data, pos + |p| + |a|, b)
  {
    AtSplit(data, pos, p + a, b);
    AtSplit(data, pos, p, a);
  }

  lemma {:induction false} PairsPrefix(k: Type, x: Type, pairs: seq<Pair>, i: nat)
    requires PairsTyped(pairs, k, x) && i <= |pairs|
    ensures EncodePairs(pairs[..i], k, x) <= EncodePairs(pairs, k, x)
    decreases |pairs|
  {
    if i < |pairs| {
      var init := pairs[..|pairs| - 1];
      PairsPrefix(k, x, init, i);
      assert init[..i] == pairs[..i];
    } else {
      assert pairs[..i] == pairs;
    }
  }

  /** The bytes of the first `i` entries. */
  function EncodeFirst(pairs: seq<Pair>, k: Type, x: Type, i: nat): seq<byte>
    requires PairsTyped(pairs, k, x) && i <= |pairs|
  {
    EncodePairs(pairs[..i], k, x)
  }

  lemma {:induction false} PairAt(data: seq<byte>, pos: nat, k: Type, x: Type, pairs: seq<Pair>, i: nat)
    requires PairsTyped(pairs, k, x) && At(data, pos, EncodePairs(pairs, k, x)) && i < |pairs|
    ensures PairHere(data, pos + |EncodeFirst(pairs, k, x, i)|, k, x, pairs[i])
  {
    hide At, Within, PairHere, Encode;
    PairWithin(k, x, pairs, i);
    KeyAndValueAt(data, pos, EncodePairs(pairs, k, x), EncodeFirst(pairs, k, x, i), k, x, pairs[i]);
  }

  ghost predicate Within(whole: seq<byte>, init: seq<byte>, k: Type, x: Type, p: Pair) {
    HasType(p.key, k) && HasType(p.value, x) && init + Encode(p.key, k) + Encode(p.value, x) <= whole
  }

  ghost predicate PairHere(data: seq<byte>, at: nat, k: Type, x: Type, p: Pair) {
    ValueAt(data, at, k, p.key) && ValueAt(data, at + |Encode(p.key, k)|, x, p.value)
  }

  lemma {:induction false} PairWithin(k: Type, x: Type, pairs: seq<Pair>, i: nat)
    requires PairsTyped(pairs, k, x) && i < |pairs|
    ensures Within(EncodePairs(pairs, k, x), EncodeFirst(pairs, k, x, i), k, x, pairs[i])
  {
    PairsPrefix(k, x, pairs, i + 1);
    EncodePairsNext(pairs, k, x, i);
  }

  lemma AtParts(data: seq<byte>, pos: nat, whole: seq<byte>, init: seq<byte>, a: seq<byte>, b: seq<byte>)
    requires At(data, pos, whole) && init + a + b <= whole
    ensures At(data, pos + |init|, a) && At(data, pos + |init| + |a|, b)
  {
    AtPrefix(data, pos, init + a + b, whole);
    AtThree(data, pos, init, a, b);
  }

  lemma KeyAndValueAt(data: seq<byte>, pos: nat, whole: seq<byte>, init: seq<byte>, k: Type, x: Type, p: Pair)
    requires At(data, pos, whole) && Within(whole, init, k, x, p)
    ensures PairHere(data, pos + |init|, k, x, p)
  {
    AtParts(data, pos, whole, init, Encode(p.key, k), Encode(p.value, x));
  }

  /** insert_or_assign */
  function InsertOrAssign(m: seq<Pair>, key: Value, value: Value): (r: seq<Pair>)
    ensures (|r| == |m| + 1 && r == m + [Pair(key, value)]) || |r| == |m|
    ensures (forall i :: 0 <= i < |m| ==> m[i].key != key) ==> r == m + [Pair(key, value)]
    ensures Pair(key, value) in r
  {
    if m == [] then [Pair(key, value)]
    else if m[0].key == key then [Pair(key, value)] + m[1..]
    else
      var rest := InsertOrAssign(m[1..], key, value);
      assert m == [m[0]] + m[1..];
      [m[0]] + rest
  }

  predicate BothMaps(k: Type, x: Type) {
    k.MapOf? && x.MapOf?
  }

  /** What a byte that begins no map gives where maps are keys and values. */
  const BLANK := Pair(Dict([]), Dict([]))

  /** Each of `i` entries has consumed something, unless there is an error or it is stuck. */
  predicate GotOn(data: seq<byte>, k: Type, x: Type, start: nat, i: nat, m: seq<Pair>, pos: nat, failed: bool) {
    failed || start + i <= pos || (BothMaps(k, x) && Stuck(data, pos) && BLANK in m)
  }

  /** Unpacking a map makes nothing of a byte that begins none, and stays there; so where maps
      are both keys and values, an empty map under an empty map tells nothing. No map of more
      than 15 entries has such an entry, at any depth. */
  predicate Telling(v: Value, t: Type)
    requires HasType(v, t)
    decreases t
  {
    match t
    case ArrayOf(e) => forall i :: 0 <= i < |v.items| ==> Telling(v.items[i], e)
    case MapOf(k, x) =>
      && (BothMaps(k, x) && |v.pairs| > 15 ==> BLANK !in v.pairs)
      && forall i :: 0 <= i < |v.pairs| ==> Telling(v.pairs[i].key, k) && Telling(v.pairs[i].value, x)
    case _ => true
  }

  predicate AllTelling(items: seq<Value>, e: Type)
    requires AllTyped(items, e)
  {
    forall i :: 0 <= i < |items| ==> Telling(items[i], e)
  }

  predicate PairsTelling(pairs: seq<Pair>, k: Type, x: Type)
    requires PairsTyped(pairs, k, x)
  {
    forall i :: 0 <= i < |pairs| ==> Telling(pairs[i].key, k) && Telling(pairs[i].value, x)
  }

  /** What unpacking promises where `v` was packed. */
  predicate Restored(t: Type, v: Value, start: nat, failed: bool, r: Value, pos: nat, failed': bool)
    requires HasType(v, t)
  {
    && (Small(v, t) ==> r == v && pos == start + |Encode(v, t)| && failed' == failed)
    && (!Small(v, t) && Telling(v, t) ==> failed' || r != v)
  }

  predicate ItemsRestored(e: Type, items: seq<Value>, start: nat, failed: bool, r: seq<Value>, pos: nat, failed': bool)
    requires AllTyped(items, e)
  {
    && (AllSmall(items, e) ==> r == items && pos == start + |EncodeItems(items, e)| && failed' == failed)
    && (!AllSmall(items, e) && AllTelling(items, e) ==> failed' || r != items)
  }

  predicate PairsRestored(k: Type, x: Type, pairs: seq<Pair>, start: nat, failed: bool, r: seq<Pair>, pos: nat, failed': bool)
    requires PairsTyped(pairs, k, x)
  {
    && (PairsSmall(pairs, k, x) ==> r == pairs && pos == start + |EncodePairs(pairs, k, x)| && failed' == failed)
    && (!PairsSmall(pairs, k, x) && PairsTelling(pairs, k, x) ==> failed' || r != pairs)
  }

  /** The first `i` entries have been dealt with. */
  predicate FirstRestored(k: Type, x: Type, pairs: seq<Pair>, i: nat, start: nat, failed: bool, r: seq<Pair>, pos: nat, failed': bool) {
    i <= |pairs| && PairsTyped(pairs, k, x) && PairsRestored(k, x, pairs[..i], start, failed, r, pos, failed')
  }

  lemma GotNowhere(data: seq<byte>, k: Type, x: Type, pos: nat, failed: bool)
    ensures GotOn(data, k, x, pos, 0, [], pos, failed)
  {
  }

  lemma NoneRestored(k: Type, x: Type, pairs: seq<Pair>, pos: nat, failed: bool)
    requires PairsTyped(pairs, k, x)
    ensures FirstRestored(k, x, pairs, 0, pos, failed, [], pos, failed)
  {
    assert pairs[..0] == [];
  }

  lemma AllRestored(k: Type, x: Type, pairs: seq<Pair>, start: nat, failed: bool, r: seq<Pair>, pos: nat, failed': bool)
    requires FirstRestored(k, x, pairs, |pairs|, start, failed, r, pos, failed')
    ensures PairsTyped(pairs, k, x) && PairsRestored(k, x, pairs, start, failed, r, pos, failed')
  {
    assert pairs[..|pairs|] == pairs;
  }

  lemma {:induction false} ItemsSmallMore(e: Type, items: seq<Value>, i: nat)
    requires i < |items| && AllTyped(items, e)
    ensures AllSmall(items[..i + 1], e) <==> AllSmall(items[..i], e) && Small(items[i], e)
    ensures AllTelling(items[..i + 1], e) <==> AllTelling(items[..i], e) && Telling(items[i], e)
  {
    var more := items[..i + 1];
    assert more[i] == items[i];
    assert forall j :: 0 <= j < i ==> items[..i][j] == more[j];
  }

  lemma LastsEqual(r: seq<Value>, val: Value, items: seq<Value>, i: nat)
    requires i < |items| && |r| == i
    ensures r + [val] == items[..i + 1] <==> r == items[..i] && val == items[i]
  {
    assert items[..i + 1] == items[..i] + [items[i]];
    if r + [val] == items[..i + 1] {
      assert r == (r + [val])[..i] && val == (r + [val])[i];
    }
  }

  /** One element more. */
  lemma {:induction false} ItemsRestoredMore(e: Type, items: seq<Value>, i: nat, start: nat, failed: bool,
                                             r: seq<Value>, pos: nat, failed': bool, val: Value, pos': nat, failed'': bool)
    requires i < |items| && AllTyped(items, e) && |r| == i && (failed' ==> failed'')
    requires ItemsRestored(e, items[..i], start, failed, r, pos, failed')
    requires AllSmall(items[..i], e) ==> Restored(e, items[i], pos, failed', val, pos', failed'')
    ensures ItemsRestored(e, items[..i + 1], start, failed, r + [val], pos', failed'')
  {
    EncodeItemsNext(items, e, i);
    ItemsSmallMore(e, items, i);
    LastsEqual(r, val, items, i);
  }

  lemma {:induction false} PairRestored(k: Type, x: Type, pairs: seq<Pair>, i: nat, start: nat, failed: bool,
                                        m: seq<Pair>, pos: nat, failed': bool, key: Value, pos1: nat, failed1: bool,
                                        val: Value, pos2: nat, failed2: bool)
    requires i < |pairs| && PairsTyped(pairs, k, x) && DistinctKeys(pairs) && PairsSmall(pairs[..i + 1], k, x)
    requires m == pairs[..i] && pos == start + |EncodePairs(pairs[..i], k, x)| && failed' == failed
    requires Restored(k, pairs[i].key, pos, failed', key, pos1, failed1)
    requires Restored(x, pairs[i].value, pos1, failed1, val, pos2, failed2)
    ensures InsertOrAssign(m, key, val) == pairs[..i + 1] && pos2 == start + |EncodePairs(pairs[..i + 1], k, x)| && failed2 == failed
  {
    EncodePairsNext(pairs, k, x, i);
    assert pairs[..i + 1][i] == pairs[i];
    assert pairs[..i + 1] == pairs[..i] + [pairs[i]];
  }

  /** If the list comes out right, every step did. */
  lemma {:induction false} InsertedLast(m: seq<Pair>, key: Value, val: Value, pairs: seq<Pair>, i: nat)
    requires i < |pairs| && |m| <= i && InsertOrAssign(m, key, val) == pairs[..i + 1]
    ensures m == pairs[..i] && Pair(key, val) == pairs[i]
  {
    var m' := InsertOrAssign(m, key, val);
    assert m' == m + [Pair(key, val)];
    assert pairs[..i + 1] == pairs[..i] + [pairs[i]];
    assert m == m'[..i] && m'[i] == Pair(key, val);
  }

  lemma {:induction false} SmallMore(k: Type, x: Type, pairs: seq<Pair>, i: nat)
    requires i < |pairs| && PairsTyped(pairs, k, x)
    ensures PairsSmall(pairs[..i + 1], k, x) <==> PairsSmall(pairs[..i], k, x) && Small(pairs[i].key, k) && Small(pairs[i].value, x)
  {
    var more := pairs[..i + 1];
    assert more[i] == pairs[i];
    assert forall j :: 0 <= j < i ==> pairs[..i][j] == more[j];
  }

  lemma {:induction false} TellingMore(k: Type, x: Type, pairs: seq<Pair>, i: nat)
    requires i < |pairs| && PairsTyped(pairs, k, x)
    ensures PairsTelling(pairs[..i + 1], k, x) <==> PairsTelling(pairs[..i], k, x) && Telling(pairs[i].key, k) && Telling(pairs[i].value, x)
  {
    var more := pairs[..i + 1];
    assert more[i] == pairs[i];
    assert forall j :: 0 <= j < i ==> pairs[..i][j] == more[j];
  }

  /** A map, once its entries have been read or its size been read too large. */
  lemma {:induction false} MapRestored(k: Type, x: Type, pairs: seq<Pair>, start: nat, failed: bool, m: seq<Pair>, pos: nat, failed': bool)
    requires HasType(Dict(pairs), MapOf(k, x))
    requires |pairs| <= 15 ==> PairsRestored(k, x, pairs, start + |MapHeader(|pairs|)|, failed, m, pos, failed')
    requires |pairs| > 15 ==> failed' || (BothMaps(k, x) && BLANK in m)
    ensures Restored(MapOf(k, x), Dict(pairs), start, failed, Dict(m), pos, failed')
  {
    var t, v := MapOf(k, x), Dict(pairs);
    assert Small(v, t) <==> |pairs| <= 15 && PairsSmall(pairs, k, x);
    assert Telling(v, t) ==> PairsTelling(pairs, k, x);
  }

  /** If the pairs before were small, the key has been read, and then the value if the key is small. */
  predicate PairRead(k: Type, x: Type, pairs: seq<Pair>, i: nat, pos: nat, failed: bool, key: Value, pos1: nat, failed1: bool,
                     val: Value, pos2: nat, failed2: bool) {
    && i < |pairs| && PairsTyped(pairs, k, x) && PairsTyped(pairs[..i], k, x)
    && (PairsSmall(pairs[..i], k, x) ==>
          && Restored(k, pairs[i].key, pos, failed, key, pos1, failed1)
          && (Small(pairs[i].key, k) ==> Restored(x, pairs[i].value, pos1, failed1, val, pos2, failed2)))
  }

  lemma {:induction false} PairsRestoredMore(k: Type, x: Type, pairs: seq<Pair>, i: nat, start: nat, failed: bool,
                                             m: seq<Pair>, pos: nat, failed': bool, key: Value, pos1: nat, failed1: bool,
                                             val: Value, pos2: nat, failed2: bool)
    requires i < |pairs| && PairsTyped(pairs, k, x) && DistinctKeys(pairs) && |m| <= i && (failed' ==> failed1) && (failed1 ==> failed2)
    requires PairsRestored(k, x, pairs[..i], start, failed, m, pos, failed')
    requires PairRead(k, x, pairs, i, pos, failed', key, pos1, failed1, val, pos2, failed2)
    ensures PairsRestored(k, x, pairs[..i + 1], start, failed, InsertOrAssign(m, key, val), pos2, failed2)
  {
    SmallMore(k, x, pairs, i);
    TellingMore(k, x, pairs, i);
    if PairsSmall(pairs[..i + 1], k, x) {
      PairRestored(k, x, pairs, i, start, failed, m, pos, failed', key, pos1, failed1, val, pos2, failed2);
    } else if InsertOrAssign(m, key, val) == pairs[..i + 1] {
      InsertedLast(m, key, val, pairs, i);
    }
  }

  // ---- Sizes at a position ----------------------------------------------------------------------------

  /** A size of two or four bytes is read as one of eight: the bytes behind it get in, and it
      comes out too large by far. */
  lemma {:induction false} SizeTooLarge(data: seq<byte>, pos: nat, n: nat, m: nat)
    requires (m == 2 && 16 <= n < Pow256(2)) || (m == 4 && Pow256(2) <= n <= MAX_SIZE)
    requires At(data, pos, BigEndian(n, m)) && pos + 8 <= |data| < ADDRESSES
    ensures |data| < BigValue(data[pos..pos + 8]) && n < BigValue(data[pos..pos + 8])
  {
    hide BigEndian, BigValue;
    WidthsGrow(1);
    var a, b := data[pos..pos + m], data[pos + m..pos + 8];
    assert data[pos..pos + 8] == a + b;
    BigValueSplit(a, b);
    BigValueOf(n, m);
    assert Pow256(8 - m) == if m == 2 then 0x1_0000_0000_0000 else 0x1_0000_0000;
  }

  // ---- Integers at a position ------------------------------------------------------------------------

  predicate IntAt(data: seq<byte>, pos: nat, t: Type, i: int) {
    (t.Signed? || t.Unsigned?) && HasType(Int(i), t) && At(data, pos, Encode(Int(i), t))
  }

  /** An integer that is its own format. */
  predicate Fixed(i: int) {
    -32 <= i <= 0x7f
  }

  function WidthOf(t: Type, i: int): (w: nat)
    ensures IsWidth(w)
  {
    if t.Signed? then (if Fits(i, 1) then 1 else if Fits(i, 2) then 2 else if Fits(i, 4) then 4 else 8)
    else (if i < Pow256(1) then 1 else if i < Pow256(2) then 2 else if i < Pow256(4) then 4 else 8)
  }

  function NumberOf(t: Type, i: int): int {
    if t.Signed? then FromSigned(i, WidthOf(t, i)) else i
  }

  lemma CastFits(t: Type, i: int)
    requires (t.Signed? || t.Unsigned?) && HasType(Int(i), t)
    ensures Cast(t, i) == i
  {
    WidthsGrow(t.width);
  }

  /** An integer as it is laid out: itself, or a marker for its width and its bytes. */
  predicate Shaped(data: seq<byte>, pos: nat, t: Type, i: int, w: nat, u: nat)
    requires t.Signed? || t.Unsigned?
  {
    && pos < |data| && Cast(t, i) == i
    && (Fixed(i) ==> data[pos] == if 0 <= i then i else 256 + i)
    && (!Fixed(i) ==>
          && IsWidth(w) && u < Pow256(w) && At(data, pos + 1, BigEndian(u, w))
          && data[pos] == (if t.Signed? then INT[w] else UINT[w])
          && i == if t.Signed? then ToSigned(u, w) else u)
  }

  /** The first byte tells which format follows, and casting undoes the narrowing. */
  lemma IntShape(data: seq<byte>, pos: nat, t: Type, i: int)
    requires IntAt(data, pos, t, i)
    ensures 0 <= NumberOf(t, i) && Shaped(data, pos, t, i, WidthOf(t, i), NumberOf(t, i))
    ensures |Encode(Int(i), t)| == if Fixed(i) then 1 else 1 + WidthOf(t, i)
  {
    WidthsGrow(t.width);
    CastFits(t, i);
    var w, u := WidthOf(t, i), NumberOf(t, i);
    if !Fixed(i) {
      var marker := if t.Signed? then INT[w] else UINT[w];
      assert Encode(Int(i), t) == [marker] + BigEndian(u, w);
      AtSplit(data, pos, [marker], BigEndian(u, w));
      assert data[pos..pos + 1][0] == marker;
    } else {
      assert data[pos..pos + 1][0] == Encode(Int(i), t)[0];
    }
  }

  // ---- There and back ------------------------------------------------------------------------------------

  /** A packed value comes back, and nothing is left over, exactly if it is small: a size of
      two or four bytes is read as one of eight. */
  method RoundTrip(v: Value, t: Type, base: nat) returns (r: Value, failed: bool, left: nat)
    requires IsType(t) && HasType(v, t) && base + |Encode(v, t)| < ADDRESSES
    ensures Small(v, t) ==> r == v && !failed && left == 0
    ensures Telling(v, t) ==> (r == v && !failed <==> Small(v, t))
  {
    var packer := new Packer();
    packer.Pack(v, t);
    assert packer.obj == Encode(v, t);
    var unpacker := new Unpacker(base, packer.obj);
    assert unpacker.data[0..|unpacker.data|] == unpacker.data;
    r := unpacker.Unpack(t, v);
    failed, left := unpacker.failed, |unpacker.data| - unpacker.pos;
  }

  predicate AllOf(vs: seq<Value>, ts: seq<Type>) {
    |vs| == |ts| && forall i :: 0 <= i < |vs| ==> IsType(ts[i]) && HasType(vs[i], ts[i])
  }

  function EncodeAll(vs: seq<Value>, ts: seq<Type>): seq<byte>
    requires AllOf(vs, ts)
  {
    if vs == [] then [] else EncodeAll(vs[..|vs| - 1], ts[..|ts| - 1]) + Encode(vs[|vs| - 1], ts[|ts| - 1])
  }

  lemma EncodeAllNext(vs: seq<Value>, ts: seq<Type>, i: nat)
    requires AllOf(vs, ts) && i < |vs|
    ensures EncodeAll(vs[..i + 1], ts[..i + 1]) == EncodeAll(vs[..i], ts[..i]) + Encode(vs[i], ts[i])
  {
    assert vs[..i + 1][..i] == vs[..i] && ts[..i + 1][..i] == ts[..i];
  }

  lemma {:induction false} EncodeAllPrefix(vs: seq<Value>, ts: seq<Type>, i: nat)
    requires AllOf(vs, ts) && i <= |vs|
    ensures EncodeAll(vs[..i], ts[..i]) <= EncodeAll(vs, ts)
    decreases |vs|
  {
    if i < |vs| {
      var us, ss := vs[..|vs| - 1], ts[..|ts| - 1];
      EncodeAllPrefix(us, ss, i);
      assert us[..i] == vs[..i] && ss[..i] == ts[..i];
    } else {
      assert vs[..i] == vs && ts[..i] == ts;
    }
  }

  /** Values packed one behind the other come back in turn. */
  method RoundTripInTurn(vs: seq<Value>, ts: seq<Type>, base: nat) returns (rs: seq<Value>, failed: bool, left: nat)
    requires AllOf(vs, ts) && base + |EncodeAll(vs, ts)| < ADDRESSES && forall i :: 0 <= i < |vs| ==> Small(vs[i], ts[i])
    ensures rs == vs && !failed && left == 0
  {
    var packed := PackInTurn(vs, ts);
    var unpacker := new Unpacker(base, packed);
    rs := [];
    var i := 0;
    while i < |ts|
      invariant 0 <= i <= |ts| && rs == vs[..i] && unpacker.Valid() && !unpacker.failed
      invariant unpacker.pos == |EncodeAll(vs[..i], ts[..i])|
    {
      InTurnAt(vs, ts, i);
      var r := unpacker.Unpack(ts[i], vs[i]);
      EncodeAllNext(vs, ts, i);
      rs := rs + [r];
      i := i + 1;
    }
    assert vs[..|vs|] == vs && ts[..|ts|] == ts;
    failed, left := unpacker.failed, |unpacker.data| - unpacker.pos;
  }

  lemma {:induction false} InTurnAt(vs: seq<Value>, ts: seq<Type>, i: nat)
    requires AllOf(vs, ts) && i < |vs|
    ensures ValueAt(EncodeAll(vs, ts), |EncodeAll(vs[..i], ts[..i])|, ts[i], vs[i])
  {
    var all := EncodeAll(vs, ts);
    assert all[0..|all|] == all;
    EncodeAllPrefix(vs, ts, i + 1);
    AtPrefix(all, 0, EncodeAll(vs[..i + 1], ts[..i + 1]), all);
    EncodeAllNext(vs, ts, i);
    AtSplit(all, 0, EncodeAll(vs[..i], ts[..i]), Encode(vs[i], ts[i]));
  }

  method PackInTurn(vs: seq<Value>, ts: seq<Type>) returns (packed: seq<byte>)
    requires AllOf(vs, ts)
    ensures packed == EncodeAll(vs, ts)
  {
    var packer := new Packer();
    var i := 0;
    while i < |vs|
      invariant 0 <= i <= |vs| && packer.obj == EncodeAll(vs[..i], ts[..i])
    {
      packer.Pack(vs[i], ts[i]);
      EncodeAllNext(vs, ts, i);
      i := i + 1;
    }
    assert vs[..|vs|] == vs && ts[..|ts|] == ts;
    packed := packer.obj;
  }

  // ---- The formats in bytes ----------------------------------------------------------------------

  /** positive fixint, uint 8, uint 16, uint 32 and uint 64, each where the one before is too small. */
  lemma UnsignedFormats(i: nat)
    requires i < Pow256(8)
    ensures var r := UnsignedBytes(i);
            if i < 0x80 then r == [i]
            else if i < 0x100 then r == [0xcc, i]
            else if i < 0x1_0000 then r == [0xcd, i / 0x100, i % 0x100]
            else if i < 0x1_0000_0000 then r == [0xce] + BigEndian(i, 4)
            else r == [0xcf] + BigEndian(i, 8)
  {
    WidthsGrow(8);
    if i < 0x100 { BigEndianOne(i); } else if i < 0x1_0000 { BigEndianTwo(i); }
  }

  /** The same for signed integers: negative ones down to -32 are one byte, 111YYYYY, and the
      others int 8, int 16, int 32 and int 64. */
  lemma SignedFormats(i: int)
    requires Fits(i, 8)
    ensures var r := SignedBytes(i);
            if 0 <= i < 0x80 then r == [i]
            else if -0x20 <= i < 0 then r == [0xe0 + (i + 0x20)]
            else if -0x80 <= i < 0x80 then |r| == 2 && r[0] == 0xd0
            else if -0x8000 <= i < 0x8000 then |r| == 3 && r[0] == 0xd1
            else if -0x8000_0000 <= i < 0x8000_0000 then |r| == 5 && r[0] == 0xd2
            else |r| == 9 && r[0] == 0xd3
  {
    WidthsGrow(8);
  }

  /** fixstr and str 8, 16 and 32, fixarray and array 16 and 32, fixmap and map 16 and 32. */
  lemma HeaderFormats(n: nat)
    requires n <= MAX_SIZE
    ensures StrHeader(n) == if n < 32 then [0xa0 + n] else if n < 0x100 then [0xd9, n]
                            else if n < 0x1_0000 then [0xda, n / 0x100, n % 0x100] else [0xdb] + BigEndian(n, 4)
    ensures ArrayHeader(n) == if n < 16 then [0x90 + n] else if n < 0x1_0000 then [0xdc, n / 0x100, n % 0x100] else [0xdd] + BigEndian(n, 4)
    ensures MapHeader(n) == if n < 16 then [0x80 + n] else if n < 0x1_0000 then [0xde, n / 0x100, n % 0x100] else [0xdf] + BigEndian(n, 4)
  {
    if n < 0x100 { BigEndianOne(n); }
    if n < 0x1_0000 { BigEndianTwo(n); }
  }
}
