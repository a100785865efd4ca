/** The centroid section: entries of one cluster size and `dim` 32-bit floats each, back to back. */
module Centroids {
  import opened Bytes
  import opened Prelude
  import opened Format

  /** Floats are kept as their bit patterns. */
  datatype Centroid = Centroid(clusterSize: u32, vector: seq<word>)

  function EntrySize(dim: u32): nat {
    4 + dim * 4
  }

  /** Bytes taken by `n` entries. */
  function Size(n: nat, dim: u32): nat {
    n * EntrySize(dim)
  }

  lemma OneMore(n: nat, dim: u32)
    ensures Size(n + 1, dim) == Size(n, dim) + EntrySize(dim)
    ensures Size(0, dim) == 0
  {
  }

  predicate VectorsFit(centroids: seq<Centroid>, dim: u32) {
    forall i :: 0 <= i < |centroids| ==> |centroids[i].vector| == dim
  }

  function EncodeVector(v: seq<word>): (b: seq<byte>)
    ensures |b| == 4 * |v|
  {
    if v == [] then [] else LeWord(v[0]) + EncodeVector(v[1..])
  }

  function EncodeCentroid(c: Centroid): (b: seq<byte>)
    ensures |b| == 4 + 4 * |c.vector|
  {
    Le32(c.clusterSize) + EncodeVector(c.vector)
  }

  function EncodeAll(centroids: seq<Centroid>): seq<byte> {
    if centroids == [] then [] else EncodeCentroid(centroids[0]) + EncodeAll(centroids[1..])
  }

  function Encode(centroids: seq<Centroid>, dim: u32): Outcome<seq<byte>> {
    if VectorsFit(centroids, dim) then Ok(EncodeAll(centroids)) else Err(Malformed(VectorLength))
  }

  method EncodeSection(centroids: seq<Centroid>, dim: u32) returns (r: Outcome<seq<byte>>)
    ensures r == Encode(centroids, dim)
  {
    hide Le, FromLe, LeWord;
    var out: seq<byte> := [];
    for i := 0 to |centroids|
      invariant VectorsFit(centroids[..i], dim)
      invariant out + EncodeAll(centroids[i..]) == EncodeAll(centroids)
    {
      var c := centroids[i];
      if |c.vector| != dim { return Err(Malformed(VectorLength)); }
      assert centroids[..i + 1] == centroids[..i] + [c];
      assert centroids[i..][1..] == centroids[i + 1..];
      Shift(out, Le32(c.clusterSize), EncodeVector(c.vector), EncodeAll(centroids[i + 1..]));
      out := out + Le32(c.clusterSize);
      out := AppendVector(out, c.vector);
    }
    assert centroids[..|centroids|] == centroids && centroids[|centroids|..] == [];
    assert out + [] == out;
    return Ok(out);
  }

  lemma Shift(done: seq<byte>, a: seq<byte>, b: seq<byte>, todo: seq<byte>)
    ensures done + a + b + todo == done + ((a + b) + todo)
  {
  }

  /** The inner loop: every float of one vector. */
  method AppendVector(before: seq<byte>, vector: seq<word>) returns (out: seq<byte>)
    ensures out == before + EncodeVector(vector)
  {
    hide LeWord;
    out := before;
    for j := 0 to |vector|
      invariant out + EncodeVector(vector[j..]) == before + EncodeVector(vector)
    {
      assert vector[j..][1..] == vector[j + 1..];
      out := out + LeWord(vector[j]);
    }
    assert vector[|vector|..] == [] && out + [] == out;
  }

  // ----- Decoding -----

  function DecodeVector(b: seq<byte>, dim: nat): (v: seq<word>)
    requires |b| == 4 * dim
    ensures |v| == dim
    decreases dim
  {
    if dim == 0 then [] else [WordAt(b, 0)] + DecodeVector(b[4..], dim - 1)
  }

  function DecodeAll(b: seq<byte>, count: nat, dim: u32): (cs: seq<Centroid>)
    requires |b| == Size(count, dim)
    ensures |cs| == count
    decreases count
  {
    if count == 0 then []
    else
      OneMore(count - 1, dim);
      var size := EntrySize(dim);
      [Centroid(U32At(b, 0), DecodeVector(b[4..size], dim))] + DecodeAll(b[size..], count - 1, dim)
  }

  /** `Panic` when the expected length itself leaves 64 bits. */
  function Decode(b: seq<byte>, count: u32, dim: u32): Outcome<seq<Centroid>> {
    var expected := Size(count, dim);
    if expected >= U64_LIMIT then Panic
    else if |b| != expected then Err(Malformed(CentroidSectionLength))
    else Ok(DecodeAll(b, count, dim))
  }

  method DecodeSection(buf: seq<byte>, count: u32, dim: u32) returns (r: Outcome<seq<Centroid>>)
    ensures r == Decode(buf, count, dim)
  {
    hide Le, FromLe, DecodeAll, DecodeVector, Size;
    var expected := Size(count, dim);
    if expected >= U64_LIMIT { return Panic; }
    if |buf| != expected { return Err(Malformed(CentroidSectionLength)); }
    var out: seq<Centroid> := [];
    var cur := 0;
    OneMore(0, dim);
    assert buf[0..] == buf;
    for i := 0 to count
      invariant cur == Size(i, dim) && cur + Size(count - i, dim) == |buf|
      invariant out + DecodeAll(buf[cur..], count - i, dim) == DecodeAll(buf, count, dim)
    {
      OneMore(i, dim);
      OneMore(count - i - 1, dim);
      DecodeStep(buf, cur, count - i, dim);
      var clusterSize := U32At(buf, cur);
      cur := cur + 4;
      var vector := DecodeOneVector(buf, cur, dim);
      cur := cur + 4 * dim;
      ShiftDecoded(out, Centroid(clusterSize, vector), DecodeAll(buf[cur..], count - i - 1, dim));
      out := out + [Centroid(clusterSize, vector)];
    }
    DecodeNone(buf[cur..], dim);
    assert out + [] == out;
    return Ok(out);
  }

  /** One turn of the outer loop, in terms of the cursor. */
  lemma DecodeStep(buf: seq<byte>, cur: nat, left: nat, dim: u32)
    requires left > 0 && cur + Size(left, dim) == |buf|
    ensures Size(left - 1, dim) + EntrySize(dim) == Size(left, dim)
    ensures DecodeAll(buf[cur..], left, dim)
         == [Centroid(U32At(buf, cur), DecodeVector(buf[cur + 4..cur + 4 + 4 * dim], dim))]
              + DecodeAll(buf[cur + 4 + 4 * dim..], left - 1, dim)
  {
    hide Le, FromLe, DecodeVector, Size;
    OneMore(left - 1, dim);
    var here, next := buf[cur..], cur + 4 + 4 * dim;
    assert here[0..4] == buf[cur..cur + 4];
    assert here[4..EntrySize(dim)] == buf[cur + 4..next] && here[EntrySize(dim)..] == buf[next..];
  }

  lemma DecodeNone(b: seq<byte>, dim: u32)
    requires |b| == 0
    ensures DecodeAll(b, 0, dim) == []
  {
  }

  lemma ShiftDecoded(done: seq<Centroid>, c: Centroid, todo: seq<Centroid>)
    ensures done + ([c] + todo) == done + [c] + todo
  {
  }

  /** The inner loop: `dim` words from `at`. */
  method DecodeOneVector(buf: seq<byte>, at: nat, dim: u32) returns (vector: seq<word>)
    requires at + 4 * dim <= |buf|
    ensures vector == DecodeVector(buf[at..at + 4 * dim], dim)
  {
    hide DecodeVector, LeWord, WordOf;
    ghost var end := at + 4 * dim;
    vector := [];
    var cur := at;
    for j := 0 to dim
      invariant cur == at + 4 * j
      invariant vector + DecodeVector(buf[cur..end], dim - j) == DecodeVector(buf[at..end], dim)
    {
      VectorStep(buf, cur, end, dim - j);
      ShiftWords(vector, WordAt(buf, cur), DecodeVector(buf[cur + 4..end], dim - j - 1));
      vector := vector + [WordAt(buf, cur)];
      cur := cur + 4;
    }
    VectorNone(buf[cur..end]);
  }

  lemma VectorStep(buf: seq<byte>, cur: nat, end: nat, left: nat)
    requires left > 0 && cur + 4 * left == end <= |buf|
    ensures DecodeVector(buf[cur..end], left) == [WordAt(buf, cur)] + DecodeVector(buf[cur + 4..end], left - 1)
  {
    hide LeWord, WordOf;
    var here := buf[cur..end];
    assert here[0..4] == buf[cur..cur + 4] && here[4..] == buf[cur + 4..end];
  }

  lemma VectorNone(b: seq<byte>)
    requires |b| == 0
    ensures DecodeVector(b, 0) == []
  {
  }

  lemma ShiftWords(done: seq<word>, w: word, todo: seq<word>)
    ensures done + ([w] + todo) == done + [w] + todo
  {
  }

  // ----- A bijection -----

  lemma {:induction false} EncodeAllLen(centroids: seq<Centroid>, dim: u32)
    requires VectorsFit(centroids, dim)
    ensures |EncodeAll(centroids)| == Size(|centroids|, dim)
  {
    hide EncodeCentroid, Size;
    if centroids != [] {
      EncodeAllLen(centroids[1..], dim);
      OneMore(|centroids| - 1, dim);
    } else {
      OneMore(0, dim);
    }
  }

  lemma {:induction false} VectorRoundTrip(v: seq<word>)
    ensures DecodeVector(EncodeVector(v), |v|) == v
  {
    hide LeWord, WordOf;
    if v != [] {
      var b := EncodeVector(v);
      assert b[0..4] == LeWord(v[0]) && b[4..] == EncodeVector(v[1..]);
      WordOfLeWord(v[0]);
      VectorRoundTrip(v[1..]);
    }
  }

  lemma {:induction false} VectorReencodes(b: seq<byte>, dim: nat)
    requires |b| == 4 * dim
    ensures EncodeVector(DecodeVector(b, dim)) == b
    decreases dim
  {
    hide LeWord, WordOf;
    if dim > 0 {
      VectorReencodes(b[4..], dim - 1);
      assert DecodeVector(b, dim)[1..] == DecodeVector(b[4..], dim - 1);
      assert b == b[0..4] + b[4..];
    }
  }

  lemma {:induction false} AllRoundTrip(centroids: seq<Centroid>, dim: u32)
    requires VectorsFit(centroids, dim)
    requires |EncodeAll(centroids)| == Size(|centroids|, dim)
    ensures DecodeAll(EncodeAll(centroids), |centroids|, dim) == centroids
    decreases |centroids|
  {
    hide Le, FromLe, EncodeVector, DecodeVector, Size;
    if centroids != [] {
      var c, rest, size := centroids[0], centroids[1..], EntrySize(dim);
      OneMore(|rest|, dim);
      EncodeAllLen(rest, dim);
      AllRoundTrip(rest, dim);
      var b := EncodeAll(centroids);
      assert b[0..4] == Le32(c.clusterSize);
      assert b[4..size] == EncodeVector(c.vector);
      assert b[size..] == EncodeAll(rest);
      VectorRoundTrip(c.vector);
      assert [c] + rest == centroids;
    }
  }

  lemma {:induction false} AllReencodes(b: seq<byte>, count: nat, dim: u32)
    requires |b| == Size(count, dim)
    ensures VectorsFit(DecodeAll(b, count, dim), dim)
    ensures EncodeAll(DecodeAll(b, count, dim)) == b
    decreases count
  {
    hide Le, FromLe, EncodeVector, DecodeVector, Size;
    if count > 0 {
      var size := EntrySize(dim);
      OneMore(count - 1, dim);
      AllReencodes(b[size..], count - 1, dim);
      VectorReencodes(b[4..size], dim);
      assert DecodeAll(b, count, dim)[1..] == DecodeAll(b[size..], count - 1, dim);
      assert b == b[0..4] + b[4..size] + b[size..];
    } else {
      OneMore(0, dim);
    }
  }

  /** Where entry `i` lies, and component `j` of its vector. */
  lemma {:induction false} Layout(centroids: seq<Centroid>, dim: u32, i: nat)
    requires VectorsFit(centroids, dim) && i < |centroids|
    ensures var b, at := EncodeAll(centroids), Size(i, dim);
            && at + EntrySize(dim) <= |b|
            && b[at..at + 4] == Le32(centroids[i].clusterSize)
            && b[at + 4..at + EntrySize(dim)] == EncodeVector(centroids[i].vector)
    decreases |centroids|
  {
    hide Le, FromLe, Size, EncodeVector;
    var c, rest := centroids[0], centroids[1..];
    OneMore(0, dim);
    var b := EncodeAll(centroids);
    assert b == EncodeCentroid(c) + EncodeAll(rest);
    if i == 0 {
      assert b[0..4] == Le32(c.clusterSize);
      assert b[4..EntrySize(dim)] == EncodeVector(c.vector);
    } else {
      Layout(rest, dim, i - 1);
      OneMore(i - 1, dim);
      var at, size := Size(i - 1, dim), EntrySize(dim);
      assert b[size..] == EncodeAll(rest);
      assert b[at + size..at + size + 4] == EncodeAll(rest)[at..at + 4];
      assert b[at + size + 4..at + size + size] == EncodeAll(rest)[at + 4..at + size];
    }
  }

  lemma {:induction false} VectorLayout(v: seq<word>, j: nat)
    requires j < |v|
    ensures EncodeVector(v)[4 * j..4 * j + 4] == LeWord(v[j])
    decreases j
  {
    hide LeWord;
    if j > 0 {
      VectorLayout(v[1..], j - 1);
      assert EncodeVector(v)[4..] == EncodeVector(v[1..]);
      assert EncodeVector(v)[4 * j..4 * j + 4] == EncodeVector(v[1..])[4 * (j - 1)..4 * (j - 1) + 4];
    }
  }

  /** An entry takes four bytes and four more for each component; a section of any other length is refused. */
  lemma Refuses(b: seq<byte>, count: u32, dim: u32)
    ensures count * (4 + 4 * dim) >= 0x1_0000_0000_0000_0000 ==> Decode(b, count, dim) == Panic
    ensures count * (4 + 4 * dim) < 0x1_0000_0000_0000_0000 ==>
              if |b| == count * (4 + 4 * dim) then Decode(b, count, dim).Ok?
              else Decode(b, count, dim) == Err(Malformed(CentroidSectionLength))
  {
    hide DecodeAll;
  }

  /** What decodes to a list of centroids is that list's own encoding and nothing else. */
  lemma DecodeIffEncoded(b: seq<byte>, count: u32, dim: u32, centroids: seq<Centroid>)
    requires Size(count, dim) < U64_LIMIT
    ensures Decode(b, count, dim) == Ok(centroids)
       <==> |centroids| == count && VectorsFit(centroids, dim) && b == EncodeAll(centroids)
  {
    hide EncodeAll, DecodeAll;
    if |b| == Size(count, dim) {
      AllReencodes(b, count, dim);
    }
    if |centroids| == count && VectorsFit(centroids, dim) {
      EncodeAllLen(centroids, dim);
      AllRoundTrip(centroids, dim);
    }
  }
}
