/** Bytes and the two text decodings the metadata code uses. */
module Codecs {
  import opened Wrappers

  newtype byte = x: int | 0 <= x < 256

  /** The decoding direction of a named Python codec: `None` where `bytes.decode(codec)`
      raises (bytes invalid in that codec, or an unknown codec name). */
  type Decoder = seq<byte> -> Option<string>

  /** ISO-8859-1 decoding: byte `n` becomes code point `n`. It is defined for every
      byte sequence, which is why it serves as the note's fallback. */
  function Latin1Decode(b: seq<byte>): (s: string)
    ensures |s| == |b|
    ensures forall i :: 0 <= i < |b| ==> s[i] as int == b[i] as int
  {
    seq(|b|, i requires 0 <= i < |b| => (b[i] as int) as char)
  }

  /** ISO-8859-1 encoding: `None` when some code point is above 255. */
  function Latin1Encode(s: string): (b: Option<seq<byte>>)
    ensures b.Some? <==> forall i :: 0 <= i < |s| ==> s[i] as int < 256
    ensures b.Some? ==> |b.value| == |s| && forall i :: 0 <= i < |s| ==> b.value[i] as int == s[i] as int
  {
    if forall i :: 0 <= i < |s| ==> s[i] as int < 256
    then Some(seq(|s|, i requires 0 <= i < |s| => s[i] as int as byte))
    else None
  }

  /** The fallback decoding loses nothing: encoding its text gives the bytes back. */
  lemma Latin1RoundTrip(b: seq<byte>)
    ensures Latin1Encode(Latin1Decode(b)) == Some(b)
  {
    var s := Latin1Decode(b);
    assert Latin1Encode(s).Some?;
    assert Latin1Encode(s).value == b;
  }

  /** And every text that can be encoded is the decoding of its encoding. */
  lemma Latin1RoundTripText(s: string)
    requires Latin1Encode(s).Some?
    ensures Latin1Decode(Latin1Encode(s).value) == s
  {
    var t := Latin1Decode(Latin1Encode(s).value);
    assert |t| == |s|;
    forall i | 0 <= i < |s| ensures t[i] == s[i] {
      assert t[i] as int == s[i] as int;
    }
  }
}
