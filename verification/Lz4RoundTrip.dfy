/** What was compressed comes back, from either encoder through either decoder. */
module Lz4RoundTrip {
  import opened Bytes
  import opened Lz4Format
  import opened Lz4Greedy
  import opened Lz4MatchFinder
  import Lz4Encoder
  import Lz4Decoder

  /** Through LZ4_uncompress, which is told the original size. */
  method RestoreKnownSize(v: Variant, source: seq<byte>) returns (restored: seq<byte>, consumed: int, written: int)
    requires Encodable(v, |source|)
    ensures restored == source && consumed == written
    ensures |source| <= MAX_INPUT ==> 0 < written <= CompressBound(|source|)
  {
    var packed := new byte[CompressBound(|source|)];
    ghost var b;
    written, b := Lz4Encoder.CompressCtx(v, source, packed);
    var dest := new byte[|source|];
    consumed := Lz4Decoder.Uncompress(packed[..], dest, b);
    restored := dest[..];
  }

  /** Through LZ4_uncompress_unknownOutputSize, which is told the compressed size and any
      capacity that suffices. It works if and only if the block `b` that was written has a
      size that fits an int; if not, there is nothing to tell the decoder. */
  method RestoreUnknownSize(v: Variant, source: seq<byte>, capacity: nat) returns (ok: bool, restored: seq<byte>, ghost b: Block)
    requires Encodable(v, |source|) && |source| <= capacity < INT_LIMIT
    ensures Expandable(b.sequences) && Meaning(b) == source
    ensures ok <==> |Serialize(b)| < INT_LIMIT
    ensures ok ==> restored == source
    ensures |source| <= MAX_INPUT ==> ok
  {
    var packed := new byte[CompressBound(|source|)];
    var written;
    written, b := Lz4Encoder.CompressCtx(v, source, packed);
    SizeIsNegative(|source|, |Serialize(b)|);
    if written <= 0 { return false, [], b; }
    var dest := new byte[capacity];
    var r := Lz4Decoder.UncompressUnknown(packed[..written], dest, b);
    ok, restored := true, dest[..r];
  }

  /** A size within the bound that does not fit an int is negative in it. */
  lemma SizeIsNegative(n: nat, size: nat)
    requires n < INT_LIMIT && size <= CompressBound(n)
    ensures if size < INT_LIMIT then Int32(size) == size else Int32(size) < 0
  {
    assert CompressBound(n) < 2 * INT_LIMIT;
  }
}
