/** The identity section of a KV cache: fixed fields, then a length-prefixed model name. */
module Identities {
  import opened Bytes
  import opened Prelude
  import opened Format
  import opened Utf8

  /** A 32-byte hash. */
  type hash = b: seq<byte> | |b| == 32 witness seq(32, _ => 0)

  datatype KvCacheMeta = KvCacheMeta(createdAt: i64, tokenizerVersion: u32, modelName: utf8)

  datatype Identity = Identity(modelFp: hash, adapterId: Option<hash>, prefixHash: hash, meta: KvCacheMeta)

  const FIXED: nat := 111
  const NAME_MAX: nat := 0xFFFF

  function Adapter(adapterId: Option<hash>): (b: seq<byte>)
    ensures |b| == 33
  {
    match adapterId
    case Some(aid) => [1] + aid
    case None => [0] + Zeros(32)
  }

  function EncodeFields(id: Identity): (b: seq<byte>)
    requires |id.meta.modelName| <= NAME_MAX
    ensures |b| == FIXED + |id.meta.modelName|
  {
    id.modelFp + Adapter(id.adapterId) + id.prefixHash + LeI64(id.meta.createdAt)
      + Le32(id.meta.tokenizerVersion) + Le16(|id.meta.modelName|) + id.meta.modelName
  }

  function Encode(id: Identity): Outcome<seq<byte>> {
    if |id.meta.modelName| > NAME_MAX then Err(Malformed(NameTooLong)) else Ok(EncodeFields(id))
  }

  method EncodeSection(id: Identity) returns (r: Outcome<seq<byte>>)
    ensures r == Encode(id)
  {
    hide Le, FromLe, IsUtf8;
    var nameBytes := id.meta.modelName;
    if |nameBytes| > NAME_MAX { return Err(Malformed(NameTooLong)); }
    var out: seq<byte> := [];
    out := out + id.modelFp;
    if id.adapterId.Some? {
      out := out + [1];
      out := out + id.adapterId.value;
    } else {
      out := out + [0];
      out := out + Zeros(32);
    }
    assert out == id.modelFp + Adapter(id.adapterId);
    out := out + id.prefixHash;
    out := out + LeI64(id.meta.createdAt);
    out := out + Le32(id.meta.tokenizerVersion);
    out := out + Le16(|nameBytes|);
    out := out + nameBytes;
    return Ok(out);
  }

  function Decode(b: seq<byte>): (r: Outcome<Identity>)
    ensures !r.Panic?
  {
    if |b| < FIXED then Err(Malformed(IdentityTooShort))
    else if b[32] != 0 && b[32] != 1 then Err(Malformed(BadAdapterByte))
    else
      var nameLen := U16At(b, 109);
      if |b| < FIXED + nameLen then Err(Malformed(NameTruncated))
      else if !IsUtf8(b[FIXED..FIXED + nameLen]) then Err(Malformed(NameNotUtf8))
      else
        var adapter: hash := b[33..65];
        Ok(Identity(b[0..32], if b[32] == 0 then None else Some(adapter), b[65..97],
                    KvCacheMeta(I64At(b, 97), U32At(b, 105), b[FIXED..FIXED + nameLen])))
  }

  /** Where the fields lie; without an adapter its 33 bytes are zero. */
  lemma Layout(id: Identity)
    requires |id.meta.modelName| <= 0xFFFF
    ensures var b := EncodeFields(id);
            && b[0..32] == id.modelFp
            && b[32] == (if id.adapterId.Some? then 1 else 0)
            && b[33..65] == (if id.adapterId.Some? then id.adapterId.value else Zeros(32))
            && b[65..97] == id.prefixHash && b[97..105] == LeI64(id.meta.createdAt)
            && b[105..109] == Le32(id.meta.tokenizerVersion) && b[109..111] == Le16(|id.meta.modelName|)
            && b[111..] == id.meta.modelName
  {
    hide Le, FromLe, IsUtf8, Adapter;
    var b, a := EncodeFields(id), Adapter(id.adapterId);
    assert b[0..32] == id.modelFp;
    assert b[32..65] == a;
    assert b[32] == b[32..65][0] && b[33..65] == b[32..65][1..];
    AdapterBytes(id.adapterId);
    assert b[65..97] == id.prefixHash;
    assert b[97..105] == LeI64(id.meta.createdAt);
    assert b[105..109] == Le32(id.meta.tokenizerVersion);
    assert b[109..111] == Le16(|id.meta.modelName|);
  }

  lemma AdapterBytes(adapterId: Option<hash>)
    ensures Adapter(adapterId)[0] == if adapterId.Some? then 1 else 0
    ensures Adapter(adapterId)[1..] == if adapterId.Some? then adapterId.value else Zeros(32)
  {
  }

  /**
    Why a section is refused: it is too short for the fixed fields, its adapter byte is neither 0 nor 1, it
    is too short for the name announced, or the name is not UTF-8; and if several, for the first of these.
   */
  lemma Refuses(b: seq<byte>)
    ensures |b| < 111 ==> Decode(b) == Err(Malformed(IdentityTooShort))
    ensures |b| >= 111 && b[32] > 1 ==> Decode(b) == Err(Malformed(BadAdapterByte))
    ensures |b| >= 111 && b[32] <= 1 && |b| < 111 + U16At(b, 109) ==> Decode(b) == Err(Malformed(NameTruncated))
    ensures |b| >= 111 && b[32] <= 1 && |b| >= 111 + U16At(b, 109) ==>
              if IsUtf8(b[111..111 + U16At(b, 109)]) then Decode(b).Ok? else Decode(b) == Err(Malformed(NameNotUtf8))
  {
    hide Le, FromLe, IsUtf8;
  }

  /**
    Which sections spell an identity: its encoding, but for the adapter bytes when there is no
    adapter and for anything after the name.
   */
  ghost predicate Spells(b: seq<byte>, id: Identity) {
    && |id.meta.modelName| <= NAME_MAX
    && |b| >= FIXED + |id.meta.modelName|
    && var e := EncodeFields(id);
    && b[..33] == e[..33]
    && (id.adapterId.Some? ==> b[33..65] == e[33..65])
    && b[65..|e|] == e[65..]
  }

  lemma Slices(id: Identity)
    requires |id.meta.modelName| <= NAME_MAX
    ensures var e := EncodeFields(id);
            && e[..33] == id.modelFp + Adapter(id.adapterId)[..1]
            && e[33..65] == Adapter(id.adapterId)[1..]
            && e[65..] == id.prefixHash + LeI64(id.meta.createdAt) + Le32(id.meta.tokenizerVersion)
                            + Le16(|id.meta.modelName|) + id.meta.modelName
  {
    hide Le, FromLe, IsUtf8;
  }

  lemma DecodedSpells(b: seq<byte>, id: Identity)
    requires Decode(b) == Ok(id)
    ensures Spells(b, id)
  {
    hide Le, FromLe, IsUtf8, EncodeFields;
    Slices(id);
    var n := |id.meta.modelName|;
    assert b[..33] == b[0..32] + [b[32]];
    assert b[65..FIXED + n] == b[65..97] + b[97..105] + b[105..109] + b[109..111] + b[111..FIXED + n];
  }

  lemma TailSlices(id: Identity)
    requires |id.meta.modelName| <= NAME_MAX
    ensures var t := EncodeFields(id)[65..];
            && t[0..32] == id.prefixHash
            && t[32..40] == LeI64(id.meta.createdAt)
            && t[40..44] == Le32(id.meta.tokenizerVersion)
            && t[44..46] == Le16(|id.meta.modelName|)
            && t[46..46 + |id.meta.modelName|] == id.meta.modelName
  {
    hide Le, FromLe, IsUtf8, EncodeFields;
    Slices(id);
  }

  lemma SpelledDecodes(b: seq<byte>, id: Identity)
    requires Spells(b, id)
    ensures Decode(b) == Ok(id)
  {
    hide Le, FromLe, IsUtf8, EncodeFields;
    Slices(id);
    TailSlices(id);
    var end := FIXED + |id.meta.modelName|;
    SubSlice(b, 0, 33, 0, 32);
    assert b[..33] == b[0..33];
    assert b[32] == b[..33][32] == Adapter(id.adapterId)[0];
    SubSlice(b, 65, end, 0, 32);
    SubSlice(b, 65, end, 32, 40);
    SubSlice(b, 65, end, 40, 44);
    SubSlice(b, 65, end, 44, 46);
    SubSlice(b, 65, end, 46, 46 + |id.meta.modelName|);
    I64AtOfLe(b, 97, id.meta.createdAt);
    assert id.adapterId.Some? ==> Adapter(id.adapterId)[1..] == id.adapterId.value;
  }

  /** Decoding accepts exactly the spellings of an identity, canonical or not. */
  lemma DecodeIffSpells(b: seq<byte>, id: Identity)
    ensures Decode(b) == Ok(id) <==> Spells(b, id)
  {
    hide Decode, Spells;
    if Decode(b) == Ok(id) { DecodedSpells(b, id); }
    if Spells(b, id) { SpelledDecodes(b, id); }
  }

  lemma RoundTrip(id: Identity)
    requires |id.meta.modelName| <= NAME_MAX
    ensures Decode(EncodeFields(id)) == Ok(id)
  {
    hide Decode, EncodeFields;
    DecodeIffSpells(EncodeFields(id), id);
  }
}
