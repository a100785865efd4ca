/** The fixed 64-byte SagaMeta section. */
module SagaMetas {
  import opened Bytes
  import opened Prelude
  import opened Format

  const META_LEN: nat := 64

  /** A 16-byte vault identifier. */
  type vault = b: seq<byte> | |b| == 16 witness seq(16, _ => 0)

  datatype SagaMeta = SagaMeta(
    tenantId: vault, builtAt: i64, recordCount: u64, embeddingDim: u32, centroidCount: u32)

  function Encode(m: SagaMeta): (b: seq<byte>)
    ensures |b| == META_LEN
  {
    m.tenantId + LeI64(m.builtAt) + Le64(m.recordCount) + Le32(m.embeddingDim) + Le32(m.centroidCount) + Zeros(24)
  }

  function Decode(b: seq<byte>): Outcome<SagaMeta> {
    if |b| != META_LEN then Err(Malformed(MetaLength))
    else Ok(SagaMeta(b[0..16], I64At(b, 16), U64At(b, 24), U32At(b, 32), U32At(b, 36)))
  }

  /** Fills a zeroed 64-byte array slice by slice. */
  method EncodeBlock(m: SagaMeta) returns (r: seq<byte>)
    ensures r == Encode(m)
  {
    hide Le, FromLe;
    var buf := new byte[META_LEN](_ => 0);
    CopyFromSlice(buf, 0, m.tenantId);
    CopyFromSlice(buf, 16, LeI64(m.builtAt));
    CopyFromSlice(buf, 24, Le64(m.recordCount));
    CopyFromSlice(buf, 32, Le32(m.embeddingDim));
    CopyFromSlice(buf, 36, Le32(m.centroidCount));
    assert buf[..] == buf[..40] + Zeros(24);
    return buf[..];
  }

  /** Where the fields lie; the last 24 bytes are zero. */
  lemma Layout(m: SagaMeta)
    ensures var b := Encode(m);
            && |b| == 64
            && b[0..16] == m.tenantId && b[16..24] == LeI64(m.builtAt) && b[24..32] == Le64(m.recordCount)
            && b[32..36] == Le32(m.embeddingDim) && b[36..40] == Le32(m.centroidCount) && b[40..64] == Zeros(24)
  {
    hide Le, FromLe;
    var b := Encode(m);
    var front := m.tenantId + LeI64(m.builtAt) + Le64(m.recordCount) + Le32(m.embeddingDim) + Le32(m.centroidCount);
    assert b == front + Zeros(24) && |front| == 40;
    assert b[40..64] == Zeros(24);
  }

  /** Blocks of any other length are refused. */
  lemma Refuses(b: seq<byte>)
    ensures Decode(b) == Err(Malformed(MetaLength)) <==> |b| != 64
  {
    hide Le, FromLe;
  }

  /** Exactly the 64-byte blocks that agree with the encoding on their first 40 bytes decode to `m`. */
  lemma DecodeIffPrefix(b: seq<byte>, m: SagaMeta)
    ensures Decode(b) == Ok(m) <==> |b| == META_LEN && b[..40] == Encode(m)[..40]
  {
    hide Le, FromLe;
    var e := Encode(m);
    if |b| == META_LEN {
      assert b[..40] == b[0..16] + b[16..24] + b[24..32] + b[32..36] + b[36..40];
      assert e[..40] == m.tenantId + LeI64(m.builtAt) + Le64(m.recordCount) + Le32(m.embeddingDim) + Le32(m.centroidCount);
      if b[..40] == e[..40] {
        Fields(b, m);
      }
    }
  }

  lemma Fields(b: seq<byte>, m: SagaMeta)
    requires |b| == META_LEN
    requires b[..40] == m.tenantId + LeI64(m.builtAt) + Le64(m.recordCount) + Le32(m.embeddingDim) + Le32(m.centroidCount)
    ensures Decode(b) == Ok(m)
  {
    hide Le, FromLe;
    var p := b[..40];
    assert b[0..16] == p[0..16] == m.tenantId;
    assert b[16..24] == p[16..24] == LeI64(m.builtAt);
    assert b[24..32] == p[24..32] == Le64(m.recordCount);
    assert b[32..36] == p[32..36] == Le32(m.embeddingDim);
    assert b[36..40] == p[36..40] == Le32(m.centroidCount);
    I64AtOfLe(b, 16, m.builtAt);
  }

  lemma RoundTrip(m: SagaMeta)
    ensures Decode(Encode(m)) == Ok(m)
  {
    hide Decode, Encode;
    DecodeIffPrefix(Encode(m), m);
  }
}
