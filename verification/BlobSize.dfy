/** How many bytes a KV blob of a given shape must have, in checked 64-bit arithmetic. */
module BlobSizes {
  import opened Bytes
  import opened Prelude
  import opened Format
  import opened Shapes
  import opened Arithmetic

  // ----- The checked computation -----

  function CheckedMul(a: nat, b: nat): Outcome<nat> {
    if Times(a, b) >= U64_LIMIT then Panic else Ok(Times(a, b))
  }

  function CheckedAdd(a: nat, b: nat): Outcome<nat> {
    if a + b >= U64_LIMIT then Panic else Ok(a + b)
  }

  /** `None`: layers * heads * dim * tokens * element bytes * 2, left to right. */
  function PlainBytes(s: KvCacheShape): Outcome<nat> {
    var a :- CheckedMul(s.numLayers, s.nKvHeads);
    var b :- CheckedMul(a, s.headDim);
    var c :- CheckedMul(b, s.numTokens);
    var d :- CheckedMul(c, s.dtype.ElementBytes());
    CheckedMul(d, 2)
  }

  /** The elements of one K or V tensor of one layer. */
  function Elements(s: KvCacheShape): Outcome<nat> {
    var a :- CheckedMul(s.nKvHeads, s.numTokens);
    CheckedMul(a, s.headDim)
  }

  function Packed(s: KvCacheShape, q: QuantParams): Outcome<nat> {
    var a :- Elements(s);
    var b :- CheckedMul(a, Val(q.bits));
    Ok(Quot(b, 8))
  }

  /** `Panic` also when the group size is zero. */
  function Scales(s: KvCacheShape, q: QuantParams): Outcome<nat> {
    var a :- Elements(s);
    if q.groupSize == 0 then Panic else CheckedMul(Quot(a, q.groupSize), s.dtype.ElementBytes())
  }

  function PerKv(s: KvCacheShape, q: QuantParams): Outcome<nat> {
    var packed :- Packed(s, q);
    var scales :- Scales(s, q);
    var both :- CheckedMul(2, scales);
    CheckedAdd(packed, both)
  }

  function QuantisedBytes(s: KvCacheShape, q: QuantParams): Outcome<nat> {
    var perKv :- PerKv(s, q);
    var tensors :- CheckedMul(s.numLayers, 2);
    CheckedMul(tensors, perKv)
  }

  /** `expected_blob_bytes`. */
  function Expected(s: KvCacheShape): (r: Outcome<nat>)
    ensures !r.Err?
  {
    match s.quant
    case None => PlainBytes(s)
    case Some(q) => QuantisedBytes(s, q)
  }

  // ----- The reference: counting bytes one by one -----

  /** Every layer has K and V; each of them a row per head and token. */
  ghost function Rows(s: KvCacheShape, row: nat): nat {
    Repeat(s.numLayers, Repeat(2, Repeat(s.nKvHeads, Repeat(s.numTokens, row))))
  }

  lemma RowsIsProduct(s: KvCacheShape, row: nat)
    ensures Rows(s, row) == Times(s.numLayers, Times(2, Times(s.nKvHeads, Times(s.numTokens, row))))
  {
    hide Times;
    RepeatIsProduct(s.numTokens, row);
    RepeatIsProduct(s.nKvHeads, Times(s.numTokens, row));
    RepeatIsProduct(2, Times(s.nKvHeads, Times(s.numTokens, row)));
    RepeatIsProduct(s.numLayers, Times(2, Times(s.nKvHeads, Times(s.numTokens, row))));
  }

  /** How wide an element is, by type: half-precision floats two bytes, 8-bit floats and integers one. */
  ghost function Width(d: KvDtype): nat {
    match d
    case F16 => 2
    case Bf16 => 2
    case F8 => 1
    case Q8 => 1
  }

  /** A plain row is `headDim` elements. */
  ghost function PlainRow(s: KvCacheShape): nat {
    Repeat(s.headDim, Width(s.dtype))
  }

  lemma Regroup(l: nat, h: nat, d: nat, t: nat, e: nat)
    ensures Times(Times(Times(Times(Times(l, h), d), t), e), 2)
         == Times(l, Times(2, Times(h, Times(t, Times(d, e)))))
  {
    hide Times;
    var lh, de := Times(l, h), Times(d, e);
    // ((lh d) t) e == lh (t (d e))
    Assoc(lh, d, t);
    Comm(d, t);
    Assoc(lh, Times(t, d), e);
    Assoc(t, d, e);
    // (l h) x == l (h x)
    var x := Times(t, de);
    Assoc(l, h, x);
    Assoc(l, Times(h, x), 2);
    Comm(Times(h, x), 2);
  }

  /** Unquantised, the result is the number of bytes there are to count. */
  lemma PlainCountsEveryByte(s: KvCacheShape)
    requires s.quant.None? && Expected(s).Ok?
    ensures Expected(s).value == Rows(s, PlainRow(s))
  {
    hide Times, Repeat;
    RepeatIsProduct(s.headDim, Width(s.dtype));
    RowsIsProduct(s, PlainRow(s));
    Regroup(s.numLayers, s.nKvHeads, s.headDim, s.numTokens, Width(s.dtype));
  }

  /**
    Overflow is checked from left to right, so it can strike before a zero factor is reached:
    unquantised sizes are computed exactly when layers * heads * dim and the whole product both
    fit 64 bits.
   */
  lemma PlainPanicsExactly(s: KvCacheShape)
    requires s.quant.None?
    ensures var perToken := Times(Times(s.numLayers, s.nKvHeads), s.headDim);
            Expected(s).Ok? <==>
              && perToken < U64_LIMIT
              && Times(Times(Times(perToken, s.numTokens), Width(s.dtype)), 2) < U64_LIMIT
  {
    hide Times;
    ProductBelow(s.numLayers, s.nKvHeads);
    var c := Times(Times(Times(s.numLayers, s.nKvHeads), s.headDim), s.numTokens);
    Grows(c, Width(s.dtype));
    Grows(Times(c, Width(s.dtype)), 2);
  }

  /** The size of one K or V tensor of a layer, with nothing cut off: packed bytes, scales and biases. */
  ghost function TensorBytes(s: KvCacheShape, q: QuantParams): nat
    requires q.groupSize > 0
  {
    var n := Times(Times(s.nKvHeads, s.numTokens), s.headDim);
    Quot(Times(n, Val(q.bits)), 8) + Times(2, Times(Quot(n, q.groupSize), Width(s.dtype)))
  }

  /**
    Quantised sizes are computed exactly when the group size is not zero and the elements of a tensor,
    their bits, its bytes and the whole size all fit 64 bits.
   */
  lemma QuantisedPanicsExactly(s: KvCacheShape, q: QuantParams)
    requires s.quant == Some(q)
    ensures var n := Times(Times(s.nKvHeads, s.numTokens), s.headDim);
            Expected(s).Ok? <==>
              && q.groupSize > 0
              && n < U64_LIMIT && Times(n, Val(q.bits)) < U64_LIMIT
              && TensorBytes(s, q) < U64_LIMIT
              && Times(Times(s.numLayers, 2), TensorBytes(s, q)) < U64_LIMIT
    ensures Expected(s).Ok? ==> Expected(s).value == Times(Times(s.numLayers, 2), TensorBytes(s, q))
  {
    hide Times, Quot;
    ProductBelow(s.nKvHeads, s.numTokens);
    ProductBelow(s.numLayers, 2);
    if q.groupSize > 0 {
      var n := Times(Times(s.nKvHeads, s.numTokens), s.headDim);
      var scales := Times(Quot(n, q.groupSize), Width(s.dtype));
      Grows(scales, 2);
      Comm(scales, 2);
    }
  }

  /** A group size of zero is a division by zero, whatever else the shape says. */
  lemma ZeroGroupsPanic(s: KvCacheShape)
    requires s.quant.Some? && s.quant.value.groupSize == 0
    ensures Expected(s) == Panic
  {
    hide Times, Quot;
    QuantisedPanicsExactly(s, s.quant.value);
  }

  /** The shapes whose size can be computed. */
  ghost predicate Computable(s: KvCacheShape) {
    match s.quant
    case None =>
      var perToken := Times(Times(s.numLayers, s.nKvHeads), s.headDim);
      && perToken < U64_LIMIT
      && Times(Times(Times(perToken, s.numTokens), Width(s.dtype)), 2) < U64_LIMIT
    case Some(q) =>
      var n := Times(Times(s.nKvHeads, s.numTokens), s.headDim);
      && q.groupSize > 0
      && n < U64_LIMIT && Times(n, Val(q.bits)) < U64_LIMIT
      && TensorBytes(s, q) < U64_LIMIT
      && Times(Times(s.numLayers, 2), TensorBytes(s, q)) < U64_LIMIT
  }

  lemma PanicsUnlessComputable(s: KvCacheShape)
    ensures Expected(s) == Panic <==> !Computable(s)
  {
    hide Times, Quot, TensorBytes;
    match s.quant
    case None => PlainPanicsExactly(s);
    case Some(q) => QuantisedPanicsExactly(s, q);
  }

  lemma ProductBelow(m: u32, n: u32)
    ensures Times(m, n) < U64_LIMIT
  {
    hide Times;
    Mono(m, n, 0xFFFF_FFFF);
    Mono(0xFFFF_FFFF, m, 0xFFFF_FFFF);
    LargestSquare();
  }

  lemma LargestSquare()
    ensures Times(0xFFFF_FFFF, 0xFFFF_FFFF) < U64_LIMIT
  {
  }

  /** A cache of no tokens whose size nevertheless overflows on the way to zero. */
  lemma ZeroTokensCanPanic()
    ensures Expected(KvCacheShape(0x1000_0000, 0x1000_0000, 0x1000_0000, 0, F16, Contiguous, None)) == Panic
  {
    assert Times(Times(0x1000_0000, 0x1000_0000), 0x1000_0000) >= U64_LIMIT;
  }

  // ----- Quantised sizes -----

  lemma PerKvParts(s: KvCacheShape, q: QuantParams)
    requires PerKv(s, q).Ok?
    ensures q.groupSize > 0
    ensures var n := Times(Times(s.nKvHeads, s.numTokens), s.headDim);
            && Packed(s, q) == Ok(Quot(Times(n, Val(q.bits)), 8))
            && Scales(s, q) == Ok(Times(Quot(n, q.groupSize), Width(s.dtype)))
            && PerKv(s, q).value == Packed(s, q).value + Times(2, Scales(s, q).value)
  {
    hide Times, Quot;
  }

  /** The documentation's scale bytes for one K or V tensor: whole groups per row. */
  ghost function DocumentedScales(s: KvCacheShape, q: QuantParams): nat
    requires q.groupSize > 0
  {
    Times(Times(Times(s.nKvHeads, s.numTokens), Quot(s.headDim, q.groupSize)), Width(s.dtype))
  }

  /**
    The documented scale size divides the head dimension first, the code divides the whole
    product. They agree exactly when the elements left over from all rows do not fill a group.
   */
  lemma ScalesMeetDocumentation(s: KvCacheShape, q: QuantParams)
    requires q.groupSize > 0 && Scales(s, q).Ok?
    ensures Scales(s, q).value == DocumentedScales(s, q)
       <==> Times(Times(s.nKvHeads, s.numTokens), Rem(s.headDim, q.groupSize)) < q.groupSize
  {
    hide Times, Quot, Rem;
    var n, d, g, e := Times(s.nKvHeads, s.numTokens), s.headDim, q.groupSize, Width(s.dtype);
    DivSplit(n, d, g);
    UniqueQuotient(Times(n, d), g, Times(n, Quot(d, g)), Times(n, Rem(d, g)));
    Cancel(Quot(Times(n, d), g), Times(n, Quot(d, g)), e);
  }

  /** Two rows of three elements in groups of two: the code counts three scales, the documentation two. */
  lemma ScalesCanDiffer()
    ensures var s := KvCacheShape(1, 1, 3, 2, Q8, Contiguous, Some(QuantParams(2, 8)));
            Scales(s, s.quant.value) == Ok(3) && DocumentedScales(s, s.quant.value) == 2
  {
    assert Times(Times(1, 2), 3) == 6 && Quot(6, 2) == 3 && Times(3, 1) == 3;
    assert Quot(3, 2) == 1 && Times(Times(Times(1, 2), 1), 1) == 2;
  }

  /** A quantised row: its packed bits, and a scale and a bias for each group. */
  ghost function QuantisedRow(s: KvCacheShape, q: QuantParams): nat
    requires q.groupSize > 0
  {
    Quot(Times(s.headDim, Val(q.bits)), 8) + Repeat(Quot(s.headDim, q.groupSize), Times(2, Width(s.dtype)))
  }

  /** Rows are whole: groups divide the head dimension and packed rows end on a byte. */
  ghost predicate WholeRows(s: KvCacheShape, q: QuantParams) {
    q.groupSize > 0 && Rem(s.headDim, q.groupSize) == 0 && Rem(Times(s.headDim, Val(q.bits)), 8) == 0
  }

  lemma RowsOfGroups(n: nat, packed: nat, groups: nat, e: nat)
    ensures Times(n, packed) + Times(2, Times(Times(n, groups), e))
         == Times(n, packed + Times(groups, Times(2, e)))
  {
    hide Times;
    Distrib(n, packed, Times(groups, Times(2, e)));
    Assoc(n, groups, Times(2, e));
    Comm(2, e);
    Assoc(Times(n, groups), e, 2);
    Comm(Times(Times(n, groups), e), 2);
  }

  /** With whole rows, the result is the number of bytes there are to count. */
  lemma QuantisedCountsEveryByte(s: KvCacheShape, q: QuantParams)
    requires s.quant == Some(q) && WholeRows(s, q) && Expected(s).Ok?
    ensures Expected(s).value == Rows(s, QuantisedRow(s, q))
  {
    hide Times, Quot, Rem, Repeat;
    var n, d, g, b, e :=
      Times(s.nKvHeads, s.numTokens), s.headDim, q.groupSize, Val(q.bits), Width(s.dtype);
    var row := QuantisedRow(s, q);
    PerKvParts(s, q);
    Assoc(n, d, b);
    ExactDivision(n, Times(d, b), 8);
    ExactDivision(n, d, g);
    RepeatIsProduct(Quot(d, g), Times(2, e));
    RowsOfGroups(n, Quot(Times(d, b), 8), Quot(d, g), e);
    assert PerKv(s, q).value == Times(n, row);
    RowsIsProduct(s, row);
    Assoc(s.nKvHeads, s.numTokens, row);
    Assoc(s.numLayers, 2, Times(n, row));
  }

  lemma RowsAdd(s: KvCacheShape, more: u32, total: u32, row: nat)
    requires total == s.numTokens + more
    ensures Rows(s.(numTokens := total), row) == Rows(s, row) + Rows(s.(numTokens := more), row)
  {
    hide Times, Rows;
    var l, h, t := s.numLayers, s.nKvHeads, s.numTokens;
    RowsIsProduct(s, row);
    RowsIsProduct(s.(numTokens := more), row);
    RowsIsProduct(s.(numTokens := total), row);
    Comm(t, row);
    Comm(more, row);
    Comm(total, row);
    Distrib(row, t, more);
    var x, y := Times(t, row), Times(more, row);
    Distrib(h, x, y);
    Distrib(2, Times(h, x), Times(h, y));
    Distrib(l, Times(2, Times(h, x)), Times(2, Times(h, y)));
  }

  lemma MonoQuot(a: nat, b: nat, g: nat)
    requires a <= b && g > 0
    ensures Quot(a, g) <= Quot(b, g)
  {
    hide Times, Quot, Rem;
    QuotRem(a, g);
    QuotRem(b, g);
    if Quot(b, g) < Quot(a, g) {
      Mono(g, Quot(b, g) + 1, Quot(a, g));
      Distrib(g, Quot(b, g), 1);
      Small(g);
    }
  }

  /** The size of a blob: all the bytes of a plain one, all the tensors of a quantised one. */
  ghost function FullSize(s: KvCacheShape): nat
    requires Computable(s)
  {
    match s.quant
    case None => Rows(s, PlainRow(s))
    case Some(q) => Times(Times(s.numLayers, 2), TensorBytes(s, q))
  }

  /** What can be computed is the size, and nothing else ever results. */
  lemma ExpectedExactly(s: KvCacheShape)
    ensures Expected(s) == if Computable(s) then Ok(FullSize(s)) else Panic
  {
    hide Times, Quot, TensorBytes, Repeat;
    PanicsUnlessComputable(s);
    match s.quant
    case None => if Expected(s).Ok? { PlainCountsEveryByte(s); }
    case Some(q) => QuantisedPanicsExactly(s, q);
  }

  /** If a size can be computed, so can the size for fewer tokens. */
  lemma FewerTokensFit(s: KvCacheShape, q: QuantParams, fewer: u32)
    requires s.quant == Some(q) && fewer <= s.numTokens && Expected(s).Ok?
    ensures Expected(s.(numTokens := fewer)).Ok?
  {
    hide Times, Quot;
    var t := s.(numTokens := fewer);
    QuantisedPanicsExactly(s, q);
    QuantisedPanicsExactly(t, q);
    Mono(s.nKvHeads, fewer, s.numTokens);
    var m, n := Times(Times(s.nKvHeads, fewer), s.headDim), Times(Times(s.nKvHeads, s.numTokens), s.headDim);
    Mono(s.headDim, Times(s.nKvHeads, fewer), Times(s.nKvHeads, s.numTokens));
    Mono(Val(q.bits), m, n);
    MonoQuot(Times(m, Val(q.bits)), Times(n, Val(q.bits)), 8);
    MonoQuot(m, n, q.groupSize);
    Mono(Width(s.dtype), Quot(m, q.groupSize), Quot(n, q.groupSize));
    Mono(2, Times(Quot(m, q.groupSize), Width(s.dtype)), Times(Quot(n, q.groupSize), Width(s.dtype)));
    Mono(Times(s.numLayers, 2), TensorBytes(t, q), TensorBytes(s, q));
  }

  /** With whole rows the size is additive in the tokens. */
  lemma QuantisedIsAdditive(s: KvCacheShape, q: QuantParams, more: u32, total: u32)
    requires s.quant == Some(q) && WholeRows(s, q) && total == s.numTokens + more
    requires Expected(s.(numTokens := total)).Ok?
    ensures Expected(s).Ok? && Expected(s.(numTokens := more)).Ok?
    ensures Expected(s.(numTokens := total)).value == Expected(s).value + Expected(s.(numTokens := more)).value
  {
    hide Times, Quot, Rem, Repeat, Expected, Rows;
    FewerTokensFit(s.(numTokens := total), q, s.numTokens);
    FewerTokensFit(s.(numTokens := total), q, more);
    QuantisedCountsEveryByte(s, q);
    QuantisedCountsEveryByte(s.(numTokens := more), q);
    QuantisedCountsEveryByte(s.(numTokens := total), q);
    RowsAdd(s, more, total, QuantisedRow(s, q));
  }

  /** In general each floor loses less than one byte, or one group, per K or V tensor. */
  lemma FloorsLoseLessThanOne(s: KvCacheShape, q: QuantParams)
    requires PerKv(s, q).Ok?
    ensures q.groupSize > 0
    ensures var n := Times(Times(s.nKvHeads, s.numTokens), s.headDim);
            var packed, groups := Packed(s, q).value, Quot(n, q.groupSize);
            && Times(8, packed) <= Times(n, Val(q.bits)) < Times(8, packed) + 8
            && Times(q.groupSize, groups) <= n < Times(q.groupSize, groups) + q.groupSize
            && PerKv(s, q).value == packed + Times(2, Times(groups, Width(s.dtype)))
  {
    hide Times, Quot, Rem;
    PerKvParts(s, q);
    var n := Times(Times(s.nKvHeads, s.numTokens), s.headDim);
    QuotRem(Times(n, Val(q.bits)), 8);
    QuotRem(n, q.groupSize);
  }
}
