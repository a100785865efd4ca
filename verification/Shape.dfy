/** The shape section of a KV cache: 18 bytes, or 23 with quantisation parameters. */
module Shapes {
  import opened Bytes
  import opened Prelude
  import opened Format

  datatype KvDtype = F16 | Bf16 | F8 | Q8 {
    function AsU8(): byte {
      match this
      case F16 => 1
      case Bf16 => 2
      case F8 => 3
      case Q8 => 4
    }

    static function FromU8(v: byte): Outcome<KvDtype> {
      if v == 1 then Ok(F16)
      else if v == 2 then Ok(Bf16)
      else if v == 3 then Ok(F8)
      else if v == 4 then Ok(Q8)
      else Err(Malformed(UnknownDtype))
    }

    function ElementBytes(): (n: nat)
      ensures 1 <= n <= 2
    {
      if F16? || Bf16? then 2 else 1
    }
  }

  datatype KvLayout = Contiguous | Paged {
    function AsU8(): byte {
      if Contiguous? then 1 else 2
    }

    static function FromU8(v: byte): Outcome<KvLayout> {
      if v == 1 then Ok(Contiguous)
      else if v == 2 then Ok(Paged)
      else Err(Malformed(UnknownLayout))
    }
  }

  datatype QuantParams = QuantParams(groupSize: u32, bits: byte)

  datatype KvCacheShape = KvCacheShape(
    numLayers: u32, nKvHeads: u32, headDim: u32, numTokens: u32,
    dtype: KvDtype, layout: KvLayout, quant: Option<QuantParams>)

  function Encode(s: KvCacheShape): (b: seq<byte>)
    ensures |b| == if s.quant.Some? then 23 else 18
  {
    Le32(s.numLayers) + Le32(s.nKvHeads) + Le32(s.headDim) + Le32(s.numTokens)
      + [s.dtype.AsU8()] + [s.layout.AsU8()]
      + match s.quant
        case None => []
        case Some(q) => Le32(q.groupSize) + [q.bits]
  }

  method EncodeSection(s: KvCacheShape) returns (out: seq<byte>)
    ensures out == Encode(s)
  {
    hide Le, FromLe;
    out := [];
    out := out + Le32(s.numLayers);
    out := out + Le32(s.nKvHeads);
    out := out + Le32(s.headDim);
    out := out + Le32(s.numTokens);
    out := out + [s.dtype.AsU8()];
    out := out + [s.layout.AsU8()];
    if s.quant.Some? {
      out := out + Le32(s.quant.value.groupSize);
      out := out + [s.quant.value.bits];
    }
  }

  function Decode(b: seq<byte>): (r: Outcome<KvCacheShape>)
    ensures !r.Panic?
  {
    if |b| != 18 && |b| != 23 then Err(Malformed(ShapeLength))
    else
      var quant := if |b| == 23 then Some(QuantParams(U32At(b, 18), b[22])) else None;
      var dtype :- KvDtype.FromU8(b[16]);
      var layout :- KvLayout.FromU8(b[17]);
      Ok(KvCacheShape(U32At(b, 0), U32At(b, 4), U32At(b, 8), U32At(b, 12), dtype, layout, quant))
  }

  /** Where the fields lie, and the numbers that stand for types and layouts. */
  lemma Layout(s: KvCacheShape)
    ensures var b := Encode(s);
            && b[0..4] == Le32(s.numLayers) && b[4..8] == Le32(s.nKvHeads) && b[8..12] == Le32(s.headDim)
            && b[12..16] == Le32(s.numTokens)
            && b[16] == (match s.dtype case F16 => 1 case Bf16 => 2 case F8 => 3 case Q8 => 4)
            && b[17] == (match s.layout case Contiguous => 1 case Paged => 2)
            && (s.quant.None? ==> |b| == 18)
            && (s.quant.Some? ==> |b| == 23 && b[18..22] == Le32(s.quant.value.groupSize) && b[22] == s.quant.value.bits)
  {
    hide Le, FromLe;
  }

  /** Why a section is refused: its length, then its type number, then its layout number; nothing else is. */
  lemma Refuses(b: seq<byte>)
    ensures |b| != 18 && |b| != 23 ==> Decode(b) == Err(Malformed(ShapeLength))
    ensures (|b| == 18 || |b| == 23) && !(1 <= b[16] <= 4) ==> Decode(b) == Err(Malformed(UnknownDtype))
    ensures (|b| == 18 || |b| == 23) && 1 <= b[16] <= 4 && !(1 <= b[17] <= 2) ==>
              Decode(b) == Err(Malformed(UnknownLayout))
    ensures (|b| == 18 || |b| == 23) && 1 <= b[16] <= 4 && 1 <= b[17] <= 2 ==> Decode(b).Ok?
  {
    hide Le, FromLe;
  }

  /** What decodes to a shape is that shape's own encoding and nothing else. */
  lemma DecodeIffEncoded(b: seq<byte>, s: KvCacheShape)
    ensures Decode(b) == Ok(s) <==> b == Encode(s)
  {
    hide Le, FromLe, Encode, Decode;
    if Decode(b) == Ok(s) { DecodedReencodes(b, s); }
    if b == Encode(s) { EncodedDecodes(s); }
  }

  lemma DecodedReencodes(b: seq<byte>, s: KvCacheShape)
    requires Decode(b) == Ok(s)
    ensures b == Encode(s)
  {
    hide Le, FromLe;
    var front := b[0..4] + b[4..8] + b[8..12] + b[12..16] + [b[16]] + [b[17]];
    if |b| == 18 {
      assert b == front + [];
    } else {
      assert b == front + (b[18..22] + [b[22]]);
    }
  }

  lemma EncodedDecodes(s: KvCacheShape)
    ensures Decode(Encode(s)) == Ok(s)
  {
    hide Le, FromLe;
    var b := Encode(s);
    assert b[0..4] == Le32(s.numLayers);
    assert b[4..8] == Le32(s.nKvHeads);
    assert b[8..12] == Le32(s.headDim);
    assert b[12..16] == Le32(s.numTokens);
    assert s.quant.Some? ==> b[18..22] == Le32(s.quant.value.groupSize);
  }
}
