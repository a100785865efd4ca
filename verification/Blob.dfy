/** The blob section of a KV cache: the KV bytes, then optional logits, each length-prefixed. */
module Blobs {
  import opened Bytes
  import opened Prelude
  import opened Format

  datatype Blob = Blob(kv: seq<byte>, logits: Option<seq<byte>>)

  /** Both parts are Rust vectors. */
  predicate Sized(blob: Blob) {
    |blob.kv| <= ISIZE_MAX && (blob.logits.Some? ==> |blob.logits.value| <= ISIZE_MAX)
  }

  function LogitsPart(logits: Option<seq<byte>>): seq<byte>
    requires logits.Some? ==> |logits.value| <= ISIZE_MAX
  {
    match logits
    case None => []
    case Some(l) => Le64(|l|) + l
  }

  function Encode(blob: Blob): seq<byte>
    requires Sized(blob)
  {
    [if blob.logits.Some? then 1 else 0] + Le64(|blob.kv|) + blob.kv + LogitsPart(blob.logits)
  }

  method EncodeSection(blob: Blob) returns (out: seq<byte>)
    requires Sized(blob)
    ensures out == Encode(blob)
  {
    hide Le, FromLe;
    out := [if blob.logits.Some? then 1 else 0];
    out := out + Le64(|blob.kv|);
    out := out + blob.kv;
    if blob.logits.Some? {
      ghost var front := out;
      out := out + Le64(|blob.logits.value|);
      out := out + blob.logits.value;
      assert out == front + LogitsPart(blob.logits);
    }
  }

  /** The logits, and nothing after them, from position `cursor`. */
  function DecodeLogits(b: seq<byte>, cursor: nat): Outcome<Option<seq<byte>>>
    requires 0 < cursor <= |b|
  {
    if b[0] == 0 then
      if |b| != cursor then Err(Malformed(TrailingAfterKv)) else Ok(None)
    else if b[0] == 1 then
      if |b| < cursor + 8 then Err(Malformed(LogitsLenTruncated))
      else
        var logitsLen := U64At(b, cursor);
        if cursor + 8 + logitsLen >= U64_LIMIT then Panic
        else if |b| != cursor + 8 + logitsLen then Err(Malformed(LogitsLenMismatch))
        else Ok(Some(b[cursor + 8..cursor + 8 + logitsLen]))
    else Err(Malformed(BadLogitsByte))
  }

  /** `Panic` when a declared length takes the cursor beyond 64 bits. */
  function Decode(b: seq<byte>): Outcome<Blob> {
    if |b| < 9 then Err(Malformed(BlobTooShort))
    else
      var kvLen := U64At(b, 1);
      if 9 + kvLen >= U64_LIMIT then Panic
      else if |b| < 9 + kvLen then Err(Malformed(KvTruncated))
      else
        var logits :- DecodeLogits(b, 9 + kvLen);
        Ok(Blob(b[9..9 + kvLen], logits))
  }

  /** Where the parts lie. */
  lemma Layout(blob: Blob)
    requires Sized(blob)
    ensures var b, end := Encode(blob), 9 + |blob.kv|;
            && |b| >= end && b[0] == (if blob.logits.Some? then 1 else 0)
            && b[1..9] == Le64(|blob.kv|) && b[9..end] == blob.kv
            && b[end..] == (if blob.logits.Some? then Le64(|blob.logits.value|) + blob.logits.value else [])
  {
    hide Le, FromLe;
    var b, end := Encode(blob), 9 + |blob.kv|;
    assert b[1..9] == Le64(|blob.kv|);
    assert b[9..end] == blob.kv;
  }

  /**
    Why a section is refused, when no length overflows: it is too short for the first length, or for the
    bytes announced; then, by its first byte, it does not end there, or it does not hold exactly the
    logits announced; or that byte is neither 0 nor 1.
   */
  lemma Refuses(b: seq<byte>)
    requires !LengthOverflows(b)
    ensures |b| < 9 ==> Decode(b) == Err(Malformed(BlobTooShort))
    ensures |b| >= 9 && |b| < 9 + U64At(b, 1) ==> Decode(b) == Err(Malformed(KvTruncated))
    ensures |b| >= 9 && |b| >= 9 + U64At(b, 1) ==>
              var end := 9 + U64At(b, 1);
              && (b[0] == 0 && |b| != end ==> Decode(b) == Err(Malformed(TrailingAfterKv)))
              && (b[0] == 1 && |b| < end + 8 ==> Decode(b) == Err(Malformed(LogitsLenTruncated)))
              && (b[0] == 1 && |b| >= end + 8 && |b| != end + 8 + U64At(b, end) ==>
                    Decode(b) == Err(Malformed(LogitsLenMismatch)))
              && (b[0] > 1 ==> Decode(b) == Err(Malformed(BadLogitsByte)))
  {
    hide Le, FromLe;
  }

  /** A declared length that overflows when it is added to the position it is read from. */
  predicate LengthOverflows(b: seq<byte>) {
    && |b| >= 9
    && var kvLen := U64At(b, 1);
    || 9 + kvLen >= U64_LIMIT
    || (b[0] == 1 && 9 + kvLen + 8 <= |b| && 9 + kvLen + 8 + U64At(b, 9 + kvLen) >= U64_LIMIT)
  }

  /**
    The length of the KV bytes makes decoding panic, or, if those are all there and logits are announced,
    the length of the logits; nothing else does.
   */
  lemma PanicsExactly(b: seq<byte>)
    ensures Decode(b) == Panic <==> LengthOverflows(b)
  {
    hide Le, FromLe;
  }

  /** Nine bytes that do: no logits, and 2^64 - 1 bytes announced. */
  lemma HugeLengthPanics()
    ensures Decode([0] + Le64(0xFFFF_FFFF_FFFF_FFFF)) == Panic
  {
    hide Le, FromLe;
    var b := [0] + Le64(0xFFFF_FFFF_FFFF_FFFF);
    assert b[1..9] == Le64(0xFFFF_FFFF_FFFF_FFFF);
    PanicsExactly(b);
  }

  /** What decodes to a blob is that blob's own encoding and nothing else. */
  lemma DecodeIffEncoded(b: seq<byte>, blob: Blob)
    requires |b| <= ISIZE_MAX
    ensures Decode(b) == Ok(blob) <==> Sized(blob) && b == Encode(blob)
  {
    hide Decode, Encode;
    if Decode(b) == Ok(blob) { DecodedReencodes(b, blob); }
    if Sized(blob) && b == Encode(blob) { EncodedDecodes(blob); }
  }

  lemma DecodedReencodes(b: seq<byte>, blob: Blob)
    requires |b| <= ISIZE_MAX && Decode(b) == Ok(blob)
    ensures Sized(blob) && b == Encode(blob)
  {
    hide Le, FromLe;
    var cursor := 9 + |blob.kv|;
    assert b[0..1] == [b[0]];
    if blob.logits.Some? {
      assert b == b[0..1] + b[1..9] + b[9..cursor] + (b[cursor..cursor + 8] + b[cursor + 8..]);
    } else {
      assert b == b[0..1] + b[1..9] + b[9..cursor] + [];
    }
  }

  lemma EncodedDecodes(blob: Blob)
    requires Sized(blob)
    requires |Encode(blob)| <= ISIZE_MAX
    ensures Decode(Encode(blob)) == Ok(blob)
  {
    hide Le, FromLe;
    var b, cursor := Encode(blob), 9 + |blob.kv|;
    assert b[1..9] == Le64(|blob.kv|);
    assert b[9..cursor] == blob.kv;
    if blob.logits.Some? {
      assert b[cursor..] == LogitsPart(blob.logits);
      assert b[cursor..cursor + 8] == b[cursor..][..8] == Le64(|blob.logits.value|);
      var end := cursor + 8 + |blob.logits.value|;
      assert |b| == end && b[cursor + 8..end] == b[cursor..][8..] == blob.logits.value;
      assert DecodeLogits(b, cursor) == Ok(blob.logits);
    }
  }
}
