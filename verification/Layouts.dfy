/** Records of fixed-width big-endian fields. */
module Layouts {
  import opened Bytes

  function Size(widths: seq<nat>): nat {
    if widths == [] then 0 else widths[0] + Size(widths[1..])
  }

  /** Append the fields one after the other. */
  function EncodeAll(values: seq<nat>, widths: seq<nat>): (b: ByteString)
    requires |values| == |widths|
    ensures |b| == Size(widths)
  {
    if widths == [] then [] else Encode(values[0], widths[0]) + EncodeAll(values[1..], widths[1..])
  }

  /** Read the fields one after the other. */
  function DecodeAll(b: ByteString, widths: seq<nat>): (values: seq<nat>)
    requires |b| >= Size(widths)
    ensures |values| == |widths|
  {
    if widths == [] then []
    else [BigEndian(b[..widths[0]])] + DecodeAll(b[widths[0]..], widths[1..])
  }

  ghost predicate Fits(values: seq<nat>, widths: seq<nat>) {
    |values| == |widths| && forall i | 0 <= i < |values| :: values[i] < Pow256(widths[i])
  }

  lemma {:induction false} DecodedFits(b: ByteString, widths: seq<nat>)
    requires |b| >= Size(widths)
    ensures Fits(DecodeAll(b, widths), widths)
  {
    if widths != [] {
      BigEndianBound(b[..widths[0]]);
      DecodedFits(b[widths[0]..], widths[1..]);
    }
  }

  /** Values that fit their fields survive a round trip. */
  lemma {:induction false} FieldsRoundTrip(values: seq<nat>, widths: seq<nat>)
    requires Fits(values, widths)
    ensures DecodeAll(EncodeAll(values, widths), widths) == values
  {
    if widths != [] {
      var b := EncodeAll(values, widths);
      assert b[..widths[0]] == Encode(values[0], widths[0]);
      assert b[widths[0]..] == EncodeAll(values[1..], widths[1..]);
      EncodeRoundTrip(values[0], widths[0]);
      FieldsRoundTrip(values[1..], widths[1..]);
    }
  }

  /** Every byte string of the right length is the encoding of the fields read from it. */
  lemma {:induction false} BytesRoundTrip(b: ByteString, widths: seq<nat>)
    requires |b| == Size(widths)
    ensures EncodeAll(DecodeAll(b, widths), widths) == b
  {
    if widths != [] {
      DecodeRoundTrip(b[..widths[0]]);
      BytesRoundTrip(b[widths[0]..], widths[1..]);
      assert b == b[..widths[0]] + b[widths[0]..];
      assert DecodeAll(b, widths)[1..] == DecodeAll(b[widths[0]..], widths[1..]);
    }
  }
}
