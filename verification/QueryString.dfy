/** Percent coding and query strings of the HTTP utilities. */
module QueryString {
  import opened Bytes

  // ---- Percent coding -----------------------------------------------------------------------

  const PERCENT: byte := 0x25
  const PLUS: byte := 0x2B
  const SPACE: byte := 0x20
  const AMPERSAND: byte := 0x26
  const EQUALS: byte := 0x3D

  /** The unreserved characters of section 2.3 of RFC 3986. */
  predicate Unreserved(c: byte) {
    0x30 <= c <= 0x39 || 0x41 <= c <= 0x5A || 0x61 <= c <= 0x7A || c == 0x2D || c == 0x2E || c == 0x5F || c == 0x7E
  }

  /** An upper-case hexadecimal digit (section 2.1). */
  function HexDigit(n: nat): byte
    requires n < 16
  {
    if n < 10 then 0x30 + n else 0x41 + (n - 10)
  }

  function EncodedByte(c: byte): (r: seq<byte>) {
    if Unreserved(c) then [c] else [PERCENT, HexDigit(c / 16), HexDigit(c % 16)]
  }

  function Encoded(value: seq<byte>): seq<byte> {
    if value == [] then [] else Encoded(value[..|value| - 1]) + EncodedByte(value[|value| - 1])
  }

  method Encode(value: seq<byte>) returns (result: seq<byte>)
    ensures result == Encoded(value)
  {
    result := [];
    var i := 0;
    while i < |value|
      invariant 0 <= i <= |value| && result == Encoded(value[..i])
    {
      var c := value[i];
      assert value[..i + 1][..i] == value[..i];
      if !Unreserved(c) {
        result := result + [PERCENT, HexDigit(c / 16), HexDigit(c % 16)];
      } else {
        result := result + [c];
      }
      i := i + 1;
    }
    assert value[..|value|] == value;
  }

  /** The value of a hexadecimal digit, or -1. */
  function HexValue(c: byte): (v: int)
    ensures -1 <= v < 16
  {
    if 0x30 <= c <= 0x39 then c - 0x30
    else if 0x41 <= c <= 0x46 then c - 0x41 + 10
    else if 0x61 <= c <= 0x66 then c - 0x61 + 10
    else -1
  }

  /** What strtol with base 16 makes of a text of two characters, as a char. */
  function Strtol16(a: byte, b: byte): byte {
    var first, second := HexValue(a), HexValue(b);
    if first >= 0 then (if second >= 0 then 16 * first + second else first)
    else if second >= 0 && (a == SPACE || 9 <= a <= 13 || a == PLUS) then second
    else if second >= 0 && a == 0x2D then (256 - second) % 256
    else 0
  }

  /** One character of an encoded text at `i`: what it stands for and how long it is. */
  function DecodedAt(s: seq<byte>, i: nat): (r: (byte, nat))
    requires i < |s|
    ensures 1 <= r.1 && i + r.1 <= |s|
  {
    if s[i] == PERCENT && i + 2 < |s| then (Strtol16(s[i + 1], s[i + 2]), 3)
    else if s[i] == PLUS then (SPACE, 1)
    else (s[i], 1)
  }

  function DecodedFrom(s: seq<byte>, i: nat): seq<byte>
    requires i <= |s|
    decreases |s| - i
  {
    if i == |s| then [] else [DecodedAt(s, i).0] + DecodedFrom(s, i + DecodedAt(s, i).1)
  }

  method Decode(value: seq<byte>) returns (result: seq<byte>)
    ensures result == DecodedFrom(value, 0)
  {
    result := [];
    var i := 0;
    while i < |value|
      invariant 0 <= i <= |value| && result + DecodedFrom(value, i) == DecodedFrom(value, 0)
    {
      ghost var at := i;
      var c := value[i];
      if c == PERCENT && i + 2 < |value| {
        c := Strtol16(value[i + 1], value[i + 2]);
        i := i + 2;
      } else if c == PLUS {
        c := SPACE;
      }
      i := i + 1;
      assert DecodedAt(value, at) == (c, i - at);
      Moved(result, c, DecodedFrom(value, i));
      result := result + [c];
    }
  }

  lemma Moved(a: seq<byte>, c: byte, b: seq<byte>)
    ensures a + ([c] + b) == a + [c] + b
  {
  }

  lemma HexRoundTrip(c: byte)
    ensures Strtol16(HexDigit(c / 16), HexDigit(c % 16)) == c
  {
  }

  /** An encoded byte decodes to itself, whatever follows. */
  lemma DecodedByte(s: seq<byte>, i: nat, c: byte)
    requires i + |EncodedByte(c)| <= |s| && s[i..i + |EncodedByte(c)|] == EncodedByte(c)
    ensures DecodedAt(s, i) == (c, |EncodedByte(c)|)
  {
    var e := EncodedByte(c);
    assert forall k :: 0 <= k < |e| ==> s[i + k] == e[k];
    if !Unreserved(c) {
      assert s[i] == e[0] && s[i + 1] == e[1] && s[i + 2] == e[2];
      HexRoundTrip(c);
    } else {
      assert s[i] == e[0];
    }
  }

  lemma DecodedStep(s: seq<byte>, i: nat, c: byte)
    requires i + |EncodedByte(c)| <= |s| && s[i..i + |EncodedByte(c)|] == EncodedByte(c)
    ensures DecodedFrom(s, i) == [c] + DecodedFrom(s, i + |EncodedByte(c)|)
  {
    DecodedByte(s, i, c);
  }

  /** Where byte `k` of the value is in the encoded text. */
  function Offset(value: seq<byte>, k: nat): nat
    requires k <= |value|
  {
    if k == 0 then 0 else Offset(value, k - 1) + |EncodedByte(value[k - 1])|
  }

  predicate EncodedAt(s: seq<byte>, value: seq<byte>, k: nat)
    requires k < |value|
  {
    var i, e := Offset(value, k), EncodedByte(value[k]);
    i + |e| <= |s| && s[i..i + |e|] == e
  }

  /** `s` consists of the encoded bytes of the value. */
  ghost predicate InParts(s: seq<byte>, value: seq<byte>) {
    |s| == Offset(value, |value|) && forall k :: 0 <= k < |value| ==> EncodedAt(s, value, k)
  }

  lemma {:induction false} OffsetSame(a: seq<byte>, b: seq<byte>, k: nat)
    requires k <= |a| && a <= b
    ensures Offset(a, k) == Offset(b, k)
  {
    if k > 0 { OffsetSame(a, b, k - 1); }
  }

  lemma {:induction false} EncodedParts(value: seq<byte>)
    ensures InParts(Encoded(value), value)
  {
    if value != [] {
      var n := |value| - 1;
      var init, e := value[..n], EncodedByte(value[n]);
      EncodedParts(init);
      OffsetSame(init, value, n);
      forall k | 0 <= k < |value| ensures EncodedAt(Encoded(init) + e, value, k) {
        if k < n {
          assert EncodedAt(Encoded(init), init, k);
          OffsetSame(init, value, k);
          StillThere(Encoded(init), e, init, value, k);
        } else {
          assert (Encoded(init) + e)[|Encoded(init)|..] == e;
        }
      }
    }
  }

  lemma StillThere(s: seq<byte>, e: seq<byte>, init: seq<byte>, value: seq<byte>, k: nat)
    requires k < |init| && init <= value && Offset(value, k) == Offset(init, k) && EncodedAt(s, init, k)
    ensures EncodedAt(s + e, value, k)
  {
    var i, n := Offset(init, k), |EncodedByte(init[k])|;
    assert (s + e)[i..i + n] == s[i..i + n];
  }

  lemma {:induction false} DecodedParts(s: seq<byte>, value: seq<byte>, k: nat)
    requires k <= |value| && InParts(s, value)
    ensures Offset(value, k) <= |s| && DecodedFrom(s, Offset(value, k)) == value[k..]
    decreases |value| - k
  {
    if k < |value| {
      DecodedParts(s, value, k + 1);
      DecodedPart(s, value, k);
      assert value[k..] == [value[k]] + value[k + 1..];
    }
  }

  lemma {:induction false} DecodedPart(s: seq<byte>, value: seq<byte>, k: nat)
    requires k < |value| && InParts(s, value)
    ensures Offset(value, k) <= Offset(value, k + 1) <= |s|
    ensures DecodedFrom(s, Offset(value, k)) == [value[k]] + DecodedFrom(s, Offset(value, k + 1))
  {
    assert EncodedAt(s, value, k);
    DecodedStep(s, Offset(value, k), value[k]);
  }

  /** Decoding undoes encoding, for every byte string. */
  lemma {:induction false} PercentRoundTrip(value: seq<byte>)
    ensures DecodedFrom(Encoded(value), 0) == value
  {
    EncodedParts(value);
    DecodedParts(Encoded(value), value, 0);
  }

  /** Nothing but unreserved characters and percent signs comes out. */
  lemma {:induction false} EncodedClean(value: seq<byte>)
    ensures forall i :: 0 <= i < |Encoded(value)| ==> Unreserved(Encoded(value)[i]) || Encoded(value)[i] == PERCENT
  {
    if value != [] { EncodedClean(value[..|value| - 1]); }
  }

  // ---- Query strings --------------------------------------------------------------------------

  datatype Field = Field(name: seq<byte>, value: seq<byte>)

  /** Pieces with an ampersand between them. */
  function Joined(pieces: seq<seq<byte>>): seq<byte>
    requires pieces != []
  {
    if |pieces| == 1 then pieces[0] else Joined(pieces[..|pieces| - 1]) + [AMPERSAND] + pieces[|pieces| - 1]
  }

  predicate AllFree(pieces: seq<seq<byte>>) {
    forall i :: 0 <= i < |pieces| ==> AMPERSAND !in pieces[i]
  }

  /** Where the last `c` is, or -1. */
  function LastOf(s: seq<byte>, c: byte): (r: int)
    ensures -1 <= r < |s| && (0 <= r ==> s[r] == c) && forall i :: r < i < |s| ==> s[i] != c
  {
    if s == [] then -1 else if s[|s| - 1] == c then |s| - 1 else LastOf(s[..|s| - 1], c)
  }

  lemma {:induction false} LastOfIs(x: seq<byte>, c: byte, p: seq<byte>)
    requires c !in p
    ensures LastOf(x + [c] + p, c) == |x|
  {
    var s := x + [c] + p;
    assert s[|x|] == c;
    assert forall i :: |x| < i < |s| ==> s[i] == p[i - |x| - 1];
  }

  lemma {:induction false} LastOfNone(s: seq<byte>, c: byte)
    requires c !in s
    ensures LastOf(s, c) == -1
  {
    if s != [] { LastOfNone(s[..|s| - 1], c); }
  }

  /** The pieces between the ampersands of a text. */
  function Pieces(s: seq<byte>): (r: seq<seq<byte>>)
    ensures r != []
    decreases |s|
  {
    var at := LastOf(s, AMPERSAND);
    if at < 0 then [s] else Pieces(s[..at]) + [s[at + 1..]]
  }

  /** The field a piece stands for; a piece without a name stands for none. */
  function FieldsOf(piece: seq<byte>): seq<Field> {
    var at := LastOf(piece, EQUALS);
    var name := if at < 0 then piece else piece[..at];
    if name == [] then [] else [Field(name, DecodedFrom(if at < 0 then [] else piece[at + 1..], 0))]
  }

  function Collected(pieces: seq<seq<byte>>): seq<Field> {
    if pieces == [] then [] else Collected(pieces[..|pieces| - 1]) + FieldsOf(pieces[|pieces| - 1])
  }

  function Text(f: Field): seq<byte> {
    f.name + [EQUALS] + Encoded(f.value)
  }

  function Texts(fields: seq<Field>): (r: seq<seq<byte>>)
    ensures |r| == |fields|
  {
    seq(|fields|, i requires 0 <= i < |fields| => Text(fields[i]))
  }

  /** The first `i` pieces, joined. */
  function FirstJoined(pieces: seq<seq<byte>>, i: nat): seq<byte>
    requires i <= |pieces|
  {
    if i == 0 then [] else Joined(pieces[..i])
  }

  lemma {:induction false} OneMoreJoined(pieces: seq<seq<byte>>, i: nat)
    requires i < |pieces|
    ensures FirstJoined(pieces, i + 1) == FirstJoined(pieces, i) + Separator(i == 0) + pieces[i]
  {
    assert pieces[..i + 1][..i] == pieces[..i];
    if i == 0 { assert pieces[..1] == [pieces[0]]; }
  }

  function Separator(first: bool): seq<byte> {
    if !first then [AMPERSAND] else []
  }

  method AppendField(result: seq<byte>, f: Field, first: bool) returns (result': seq<byte>)
    ensures result' == result + Separator(first) + Text(f)
  {
    var encoded := Encode(f.value);
    result' := result + Separator(first) + f.name + [EQUALS] + encoded;
  }

  /** The fields in the order in which the container yields them. */
  method Create(fields: seq<Field>) returns (result: seq<byte>)
    ensures result == if fields == [] then [] else Joined(Texts(fields))
  {
    result := [];
    var first := true;
    var i := 0;
    ghost var texts := Texts(fields);
    while i < |fields|
      invariant 0 <= i <= |fields| && first == (i == 0) && result == FirstJoined(texts, i)
    {
      OneMoreJoined(texts, i);
      result := AppendField(result, fields[i], first);
      first := false;
      i := i + 1;
    }
    assert texts[..|fields|] == texts;
  }

  /** `nameEnd` and `valuePos` are where the last `=` of the piece was seen, or -1. */
  predicate Seen(piece: seq<byte>, namePos: nat, nameEnd: int, valuePos: int) {
    var at := LastOf(piece, EQUALS);
    if at < 0 then nameEnd == -1 && valuePos == -1 else nameEnd == namePos + at && valuePos == nameEnd + 1
  }

  /** The end of a piece: its field, if it has one. */
  method EndPiece(s: seq<byte>, namePos: nat, nameEnd: int, valuePos: int, end: nat, result: seq<Field>)
    returns (result': seq<Field>)
    requires namePos <= end <= |s| && Seen(s[namePos..end], namePos, nameEnd, valuePos)
    ensures result' == result + FieldsOf(s[namePos..end])
  {
    ghost var piece := s[namePos..end];
    ghost var at := LastOf(piece, EQUALS);
    var name := s[namePos..if nameEnd == -1 then end else nameEnd];
    assert name == if at < 0 then piece else piece[..at];
    result' := result;
    if name != [] {
      var value := if valuePos == -1 then [] else s[valuePos..end];
      assert at >= 0 ==> value == piece[at + 1..];
      var decoded := Decode(value);
      result' := result + [Field(name, decoded)];
    }
  }

  /** The text before `from` is these pieces, each with an ampersand behind it. */
  ghost predicate Closed(s: seq<byte>, pieces: seq<seq<byte>>, from: nat) {
    AllFree(pieces) && from <= |s| && if pieces == [] then from == 0 else 0 < from && Joined(pieces) + [AMPERSAND] == s[..from]
  }

  /** No ampersand from `from` to `to`. */
  predicate NoneIn(s: seq<byte>, from: nat, to: nat) {
    to <= |s| && forall i :: from <= i < to ==> s[i] != AMPERSAND
  }

  lemma {:induction false} PieceAdded(s: seq<byte>, pieces: seq<seq<byte>>, from: nat, to: nat)
    requires from <= to <= |s| && Closed(s, pieces, from) && NoneIn(s, from, to)
    ensures var more := pieces + [s[from..to]];
            AllFree(more) && Joined(more) == s[..to] && Collected(more) == Collected(pieces) + FieldsOf(s[from..to])
  {
    var more := pieces + [s[from..to]];
    assert more[..|pieces|] == pieces;
    assert s[..from] + s[from..to] == s[..to];
  }

  lemma {:induction false} PieceClosed(s: seq<byte>, pieces: seq<seq<byte>>, from: nat, to: nat)
    requires from <= to < |s| && Closed(s, pieces, from) && NoneIn(s, from, to) && s[to] == AMPERSAND
    ensures var more := pieces + [s[from..to]];
            Closed(s, more, to + 1) && Collected(more) == Collected(pieces) + FieldsOf(s[from..to])
  {
    PieceAdded(s, pieces, from, to);
    OneMore(s, to);
  }

  lemma OneMore(s: seq<byte>, n: nat)
    requires n < |s|
    ensures s[..n] + [s[n]] == s[..n + 1]
  {
  }

  /** One more character of a piece. */
  lemma {:induction false} SeenMore(s: seq<byte>, namePos: nat, nameEnd: int, valuePos: int, c: nat)
    requires namePos <= c < |s| && Seen(s[namePos..c], namePos, nameEnd, valuePos)
    ensures if s[c] == EQUALS then Seen(s[namePos..c + 1], namePos, c, c + 1) else Seen(s[namePos..c + 1], namePos, nameEnd, valuePos)
  {
    var piece := s[namePos..c + 1];
    assert piece[..|piece| - 1] == s[namePos..c];
  }

  /** The state of the loop: `pieces` are closed, and another one is open from `namePos` to `c`. */
  ghost predicate Open(s: seq<byte>, pieces: seq<seq<byte>>, result: seq<Field>, namePos: nat, nameEnd: int, valuePos: int, c: nat) {
    && namePos <= c <= |s| && Closed(s, pieces, namePos) && result == Collected(pieces)
    && NoneIn(s, namePos, c) && Seen(s[namePos..c], namePos, nameEnd, valuePos)
  }

  lemma {:induction false} OpenMore(s: seq<byte>, pieces: seq<seq<byte>>, result: seq<Field>, namePos: nat, nameEnd: int, valuePos: int, c: nat)
    requires Open(s, pieces, result, namePos, nameEnd, valuePos, c) && c < |s| && s[c] != AMPERSAND
    ensures if s[c] == EQUALS then Open(s, pieces, result, namePos, c, c + 1, c + 1)
            else Open(s, pieces, result, namePos, nameEnd, valuePos, c + 1)
  {
    hide Seen, Closed, Collected;
    SeenMore(s, namePos, nameEnd, valuePos, c);
  }

  method ClosePiece(s: seq<byte>, result: seq<Field>, namePos: nat, nameEnd: int, valuePos: int, c: nat, ghost pieces: seq<seq<byte>>)
    returns (result': seq<Field>, ghost pieces': seq<seq<byte>>)
    requires Open(s, pieces, result, namePos, nameEnd, valuePos, c) && c < |s| && s[c] == AMPERSAND
    ensures Open(s, pieces', result', c + 1, -1, -1, c + 1)
  {
    pieces' := pieces + [s[namePos..c]];
    result' := EndPiece(s, namePos, nameEnd, valuePos, c, result);
    PieceClosed(s, pieces, namePos, c);
  }

  lemma {:induction false} EmptyText()
    ensures AllFree([[]]) && Joined([[]]) == [] && Pieces([]) == [[]] && Collected(Pieces([])) == []
  {
    assert Collected([[]]) == Collected([]) + FieldsOf([]);
  }

  lemma {:induction false} OpenStart(s: seq<byte>)
    ensures Open(s, [], [], 0, -1, -1, 0)
  {
    assert s[0..0] == [];
  }

  method LastPiece(s: seq<byte>, result: seq<Field>, namePos: nat, nameEnd: int, valuePos: int, ghost pieces: seq<seq<byte>>)
    returns (result': seq<Field>, ghost more: seq<seq<byte>>)
    requires Open(s, pieces, result, namePos, nameEnd, valuePos, |s|)
    ensures more != [] && AllFree(more) && Joined(more) == s && result' == Collected(more)
  {
    more := pieces + [s[namePos..|s|]];
    PieceAdded(s, pieces, namePos, |s|);
    assert s[..|s|] == s;
    result' := result;
    if namePos < |s| {
      result' := EndPiece(s, namePos, nameEnd, valuePos, |s|, result);
    }
  }

  lemma {:induction false} LastOfJoined(pieces: seq<seq<byte>>)
    requires pieces != [] && AllFree(pieces)
    ensures LastOf(Joined(pieces), AMPERSAND) == if |pieces| == 1 then -1 else |Joined(pieces[..|pieces| - 1])|
  {
    if |pieces| == 1 {
      LastOfNone(pieces[0], AMPERSAND);
    } else {
      LastOfIs(Joined(pieces[..|pieces| - 1]), AMPERSAND, pieces[|pieces| - 1]);
    }
  }

  /** There is one way to cut a text into pieces without ampersands. */
  lemma {:induction false} PiecesUnique(pieces: seq<seq<byte>>)
    requires pieces != [] && AllFree(pieces)
    ensures Pieces(Joined(pieces)) == pieces
  {
    LastOfJoined(pieces);
    var s, n := Joined(pieces), |pieces| - 1;
    if n > 0 {
      var init, last := pieces[..n], pieces[n];
      PiecesUnique(init);
      assert s == Joined(init) + [AMPERSAND] + last;
      assert s[..|Joined(init)|] == Joined(init) && s[|Joined(init)| + 1..] == last;
      assert pieces == init + [last];
    }
  }

  lemma {:induction false} PiecesFree(s: seq<byte>)
    ensures AllFree(Pieces(s))
    decreases |s|
  {
    var at := LastOf(s, AMPERSAND);
    if at >= 0 { PiecesFree(s[..at]); }
  }

  /** The fields of the pieces between the ampersands, in order. */
  method Parse(s: seq<byte>) returns (result: seq<Field>)
    ensures result == Collected(Pieces(s))
  {
    hide Open, Collected, Pieces, Joined, AllFree;
    result := [];
    if s == [] {
      EmptyText();
      return;
    }
    ghost var pieces := [];
    var namePos, nameEnd, valuePos := 0, -1, -1;
    var c := 0;
    OpenStart(s);
    while c < |s|
      invariant 0 <= namePos <= c <= |s| && Open(s, pieces, result, namePos, nameEnd, valuePos, c)
    {
      if s[c] == AMPERSAND {
        result, pieces := ClosePiece(s, result, namePos, nameEnd, valuePos, c, pieces);
        namePos, nameEnd, valuePos := c + 1, -1, -1;
      } else {
        OpenMore(s, pieces, result, namePos, nameEnd, valuePos, c);
        if s[c] == EQUALS { nameEnd, valuePos := c, c + 1; }
      }
      c := c + 1;
    }
    result, pieces := LastPiece(s, result, namePos, nameEnd, valuePos, pieces);
    PiecesUnique(pieces);
  }

  // ---- There and back ----------------------------------------------------------------------------

  predicate GoodName(name: seq<byte>) {
    name != [] && AMPERSAND !in name
  }

  predicate GoodNames(fields: seq<Field>) {
    forall i :: 0 <= i < |fields| ==> GoodName(fields[i].name)
  }

  lemma {:induction false} TextIsField(f: Field)
    requires GoodName(f.name)
    ensures AMPERSAND !in Text(f) && FieldsOf(Text(f)) == [f]
  {
    EncodedClean(f.value);
    PercentRoundTrip(f.value);
    var t, e := Text(f), Encoded(f.value);
    assert EQUALS !in e && AMPERSAND !in e;
    LastOfIs(f.name, EQUALS, e);
    assert t[..|f.name|] == f.name && t[|f.name| + 1..] == e;
  }

  lemma TextsMore(fields: seq<Field>, f: Field)
    ensures Texts(fields + [f]) == Texts(fields) + [Text(f)]
  {
  }

  lemma {:induction false} CollectedMore(pieces: seq<seq<byte>>, piece: seq<byte>)
    ensures Collected(pieces + [piece]) == Collected(pieces) + FieldsOf(piece)
  {
    assert (pieces + [piece])[..|pieces|] == pieces;
  }

  lemma FreeMore(pieces: seq<seq<byte>>, piece: seq<byte>)
    requires AllFree(pieces) && AMPERSAND !in piece
    ensures AllFree(pieces + [piece])
  {
  }

  lemma {:induction false} TextsAreFields(fields: seq<Field>)
    requires GoodNames(fields)
    ensures AllFree(Texts(fields)) && Collected(Texts(fields)) == fields
  {
    if fields != [] {
      var init, last := fields[..|fields| - 1], fields[|fields| - 1];
      assert fields == init + [last] && GoodName(last.name);
      TextsAreFields(init);
      TextIsField(last);
      TextsMore(init, last);
      FreeMore(Texts(init), Text(last));
      CollectedMore(Texts(init), Text(last));
    }
  }

  /** Whatever is parsed, the names are not empty and hold no ampersand. */
  lemma {:induction false} CollectedGood(pieces: seq<seq<byte>>)
    requires AllFree(pieces)
    ensures GoodNames(Collected(pieces))
  {
    if pieces != [] { CollectedGood(pieces[..|pieces| - 1]); }
  }

  lemma {:induction false} BadNameLost(fields: seq<Field>, back: seq<Field>)
    requires GoodNames(back) && multiset(back) == multiset(fields)
    ensures GoodNames(fields)
  {
    forall i | 0 <= i < |fields| ensures GoodName(fields[i].name) {
      assert fields[i] in multiset(fields);
      assert fields[i] in back;
    }
  }

  /** Parsing undoes creating exactly for field lists whose names are not empty and hold no
      ampersand; values, and equals signs in names, do not matter. */
  method RoundTrip(fields: seq<Field>) returns (back: seq<Field>)
    ensures multiset(back) == multiset(fields) <==> GoodNames(fields)
    ensures GoodNames(fields) ==> back == fields
  {
    var s := Create(fields);
    back := Parse(s);
    PiecesFree(s);
    CollectedGood(Pieces(s));
    if multiset(back) == multiset(fields) { BadNameLost(fields, back); }
    if GoodNames(fields) {
      TextsAreFields(fields);
      if fields == [] {
        EmptyText();
      } else {
        PiecesUnique(Texts(fields));
      }
    }
  }

  // ---- The characters ----------------------------------------------------------------------------

  /** Letters, digits, hyphen, period, underscore and tilde, and nothing else, stay as they are. */
  lemma UnreservedAre(c: byte)
    ensures EncodedByte(c) == [c] <==>
              var x := c as char;
              || 'a' <= x <= 'z' || 'A' <= x <= 'Z' || '0' <= x <= '9' || x == '-' || x == '.' || x == '_' || x == '~'
  {
  }

  /** Malformed escapes as strtol takes them: a sign or white space may come first, and what
      comes behind the number does not count. */
  lemma EscapeValues(a: byte, b: byte)
    ensures var x := a as char; var first, second := HexValue(a), HexValue(b);
            var blank := x == ' ' || '\t' <= x <= '\r';
            && (0 <= first && 0 <= second ==> Strtol16(a, b) == 16 * first + second)
            && (0 <= first && second < 0 ==> Strtol16(a, b) == first)
            && ((blank || x == '+') && 0 <= second ==> Strtol16(a, b) == second)
            && (x == '-' && 0 <= second ==> Strtol16(a, b) == if second == 0 then 0 else 256 - second)
            && (first < 0 && !((blank || x == '+' || x == '-') && 0 <= second) ==> Strtol16(a, b) == 0)
  {
  }

  /** Any other takes a percent sign and two upper-case digits. */
  lemma EscapedAre(c: byte)
    ensures EncodedByte(c) == [c] || EncodedByte(c) == ['%' as int, "0123456789ABCDEF"[c / 16] as int, "0123456789ABCDEF"[c % 16] as int]
  {
    var digits := "0123456789ABCDEF";
    forall n | 0 <= n < 16 ensures digits[n] as int == HexDigit(n) {}
  }

  /** An equals sign behind a name, an ampersand between two fields. */
  lemma CreatedSigns(f: Field, g: Field)
    ensures Joined(Texts([f, g])) == f.name + ['=' as int] + Encoded(f.value) + ['&' as int] + g.name + ['=' as int] + Encoded(g.value)
  {
    var texts := Texts([f, g]);
    assert texts[..1] == [Text(f)] && texts[1] == Text(g);
    assert Joined(texts) == Joined(texts[..1]) + [AMPERSAND] + texts[1];
  }

  /** A plus sign stands for a space, and escapes may be in either case. */
  lemma DecodedSigns(s: seq<byte>, i: nat)
    requires i < |s|
    ensures s[i] as char == '+' ==> DecodedAt(s, i) == (' ' as int, 1)
    ensures i + 2 < |s| && s[i] as char == '%' && s[i + 1] as char == '2' && (s[i + 2] as char == 'f' || s[i + 2] as char == 'F') ==>
              DecodedAt(s, i) == ('/' as int, 3)
    ensures s[i] as char != '+' && s[i] as char != '%' ==> DecodedAt(s, i) == (s[i], 1)
  {
  }

  /** Digits, and letters from a to f in either case, count from zero to fifteen. */
  lemma HexValues(c: byte)
    ensures var x := c as char;
            && ('0' <= x <= '9' ==> HexValue(c) == c - '0' as int)
            && ('a' <= x <= 'f' ==> HexValue(c) == 10 + (c - 'a' as int))
            && ('A' <= x <= 'F' ==> HexValue(c) == 10 + (c - 'A' as int))
            && (HexValue(c) == -1 <==> !('0' <= x <= '9') && !('a' <= x <= 'f') && !('A' <= x <= 'F'))
  {
  }
}
