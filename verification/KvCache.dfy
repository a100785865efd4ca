/** KvCacheV1 files: identity, shape and blob, with the size invariant between the last two. */
module KvCaches {
  import opened Bytes
  import opened Prelude
  import opened Format
  import opened Headers
  import opened Streams
  import opened Container
  import opened Images
  import opened Crc32c
  import Identities
  import Shapes
  import Blobs
  import BlobSizes

  datatype Cache = Cache(
    modelFp: Identities.hash,
    adapterId: Option<Identities.hash>,
    prefixHash: Identities.hash,
    shape: Shapes.KvCacheShape,
    meta: Identities.KvCacheMeta,
    kvBlob: seq<byte>,
    nextLogits: Option<seq<byte>>)

  // ----- Writing -----

  function IdentityOf(cache: Cache): Identities.Identity {
    Identities.Identity(cache.modelFp, cache.adapterId, cache.prefixHash, cache.meta)
  }

  function BlobOf(cache: Cache): Blobs.Blob {
    Blobs.Blob(cache.kvBlob, cache.nextLogits)
  }

  predicate NameFits(cache: Cache) {
    |cache.meta.modelName| <= Identities.NAME_MAX
  }

  function CacheParts(cache: Cache): (parts: seq<Part>)
    requires NameFits(cache) && Blobs.Sized(BlobOf(cache))
    ensures |parts| == 3
  {
    Parts(Identities.EncodeFields(IdentityOf(cache)), Shapes.Encode(cache.shape), Blobs.Encode(BlobOf(cache)))
  }

  predicate Writable(cache: Cache) {
    NameFits(cache) && Blobs.Sized(BlobOf(cache)) && Fits(CacheParts(cache))
  }

  /** The file that `write_kv_cache` writes; the size invariant is not checked on this side. */
  function CacheImage(cache: Cache): seq<byte>
    requires Writable(cache)
  {
    Image(KV_CACHE_V1, cache.meta.createdAt, CacheParts(cache))
  }

  /** The length of that file. */
  function FileLen(cache: Cache): nat {
    HEADER_LEN + TableLen(3)
      + Identities.FIXED + |cache.meta.modelName|
      + (if cache.shape.quant.Some? then 23 else 18)
      + 9 + |cache.kvBlob| + (if cache.nextLogits.Some? then 8 + |cache.nextLogits.value| else 0)
      + FILE_CHECKSUM_LEN
  }

  /** What can be written, in terms a caller can check. */
  lemma WritableExactly(cache: Cache)
    ensures Writable(cache) <==> NameFits(cache) && FileLen(cache) <= ISIZE_MAX
    ensures Writable(cache) ==> |CacheImage(cache)| == FileLen(cache)
  {
    hide Identities.EncodeFields, Shapes.Encode, Image, TotalLen;
    if NameFits(cache) && Blobs.Sized(BlobOf(cache)) {
      PartsLen(Identities.EncodeFields(IdentityOf(cache)), Shapes.Encode(cache.shape), Blobs.Encode(BlobOf(cache)));
      assert |Blobs.Encode(BlobOf(cache))|
          == 9 + |cache.kvBlob| + if cache.nextLogits.Some? then 8 + |cache.nextLogits.value| else 0;
    }
  }

  /** Whose file it is, and when it was made: what a written file's header says. */
  lemma WrittenHeader(cache: Cache)
    requires Writable(cache)
    ensures && ParseHeader(CacheImage(cache)).Ok?
              && var h := ParseHeader(CacheImage(cache)).value;
              && h.format == KvCache && h.version == 1 && h.flags == 0 && h.createdAt == cache.meta.createdAt
              && |h.sections| == 3
              && h.sections[0].typeId == 1 && h.sections[1].typeId == 2 && h.sections[2].typeId == 3
  {
    hide Identities.EncodeFields, Shapes.Encode, Blobs.Encode, Image, ParseHeader, Checksum, TotalLen;
    PartsLen(Identities.EncodeFields(IdentityOf(cache)), Shapes.Encode(cache.shape), Blobs.Encode(BlobOf(cache)));
    ImageSays(KV_CACHE_V1, cache.meta.createdAt, Identities.EncodeFields(IdentityOf(cache)), Shapes.Encode(cache.shape), Blobs.Encode(BlobOf(cache)));
  }

  method WriteKvCache(cache: Cache, writer: Stream) returns (r: Outcome<()>)
    requires Blobs.Sized(BlobOf(cache))
    requires NameFits(cache) ==> Fits(CacheParts(cache))
    modifies writer`pos, writer`data
    ensures !NameFits(cache) ==> r == Err(Malformed(NameTooLong)) && writer.data == old(writer.data)
    ensures NameFits(cache) ==> r == Ok(()) || (!writer.reliable && r == Err(Io))
    ensures r.Ok? ==> Writable(cache) && writer.data == Overwrite(old(writer.data), 0, CacheImage(cache))
    ensures r.Ok? && old(writer.data) == [] ==>
              && ParseHeader(writer.data).Ok?
              && var h := ParseHeader(writer.data).value;
              && h.format == KvCache && h.version == 1 && h.flags == 0 && h.createdAt == cache.meta.createdAt
              && |h.sections| == 3
              && h.sections[0].typeId == 1 && h.sections[1].typeId == 2 && h.sections[2].typeId == 3
  {
    hide Image, Fits, Identities.EncodeFields, Shapes.Encode, Blobs.Encode, Overwrite;
    var identityBytes := Identities.EncodeSection(IdentityOf(cache));
    if !identityBytes.Ok? { return identityBytes.PropagateFailure(); }
    var shapeBytes := Shapes.EncodeSection(cache.shape);
    var blobBytes := Blobs.EncodeSection(BlobOf(cache));
    r := WriteThree(KV_CACHE_V1, cache.meta.createdAt, identityBytes.value, shapeBytes, blobBytes, writer);
    if r.Ok? {
      OverwriteFresh(CacheImage(cache));
      WrittenHeader(cache);
    }
  }

  // ----- Reading -----

  /** Decode the three sections in order, each only once it has been checked; then compare the sizes. */
  function DecodeThree(i: Outcome<seq<byte>>, s: Outcome<seq<byte>>, b: Outcome<seq<byte>>): Outcome<Cache> {
    var idBytes :- i;
    var id :- Identities.Decode(idBytes);
    var shapeBytes :- s;
    var shape :- Shapes.Decode(shapeBytes);
    var blobBytes :- b;
    var blob :- Blobs.Decode(blobBytes);
    var expected :- BlobSizes.Expected(shape);
    if |blob.kv| != expected then Err(Malformed(BlobSizeMismatch(expected, |blob.kv|)))
    else Ok(Cache(id.modelFp, id.adapterId, id.prefixHash, shape, id.meta, blob.kv, blob.logits))
  }

  /** All three sections must be present before any of them is read. */
  function Select(
    i: Option<Outcome<seq<byte>>>, s: Option<Outcome<seq<byte>>>, b: Option<Outcome<seq<byte>>>): Outcome<Cache>
  {
    if i.None? then Err(MissingSection(1))
    else if s.None? then Err(MissingSection(2))
    else if b.None? then Err(MissingSection(3))
    else DecodeThree(i.value, s.value, b.value)
  }

  /** What `read_kv_cache` makes of a whole file. */
  function ReadKvCache(all: seq<byte>): Outcome<Cache> {
    var header :- Open(all, KV_CACHE_V1);
    Select(Fetch(all, header.sections, 1), Fetch(all, header.sections, 2), Fetch(all, header.sections, 3))
  }

  method ReadKvCacheFrom(reader: Stream) returns (r: Outcome<Cache>)
    modifies reader`pos
    ensures r == ReadKvCache(reader.data) || (!reader.reliable && r == Err(Io))
  {
    hide Open, CheckedSection, DecodeThree, Last;
    var ok := reader.Seek(0);
    if !ok { return Err(Io); }
    var slurped := reader.ReadToEnd();
    if slurped.None? { return Err(Io); }
    var all := slurped.value;
    assert all == reader.data;
    var header := OpenImage(all, KV_CACHE_V1);
    if !header.Ok? { return header.PropagateFailure(); }
    var idEntry, shapeEntry, blobEntry := LocateThree(header.value.sections);
    if idEntry.None? { return Err(MissingSection(1)); }
    if shapeEntry.None? { return Err(MissingSection(2)); }
    if blobEntry.None? { return Err(MissingSection(3)); }
    r := ReadSections(all, idEntry.value, shapeEntry.value, blobEntry.value);
  }

  /** Step 4: read, check and decode each payload, then compare the sizes. */
  method ReadSections(all: seq<byte>, idEntry: SectionEntry, shapeEntry: SectionEntry, blobEntry: SectionEntry)
    returns (r: Outcome<Cache>)
    requires |all| >= FILE_CHECKSUM_LEN
    ensures r == DecodeThree(
      CheckedSection(all, idEntry), CheckedSection(all, shapeEntry), CheckedSection(all, blobEntry))
  {
    hide CheckedSection, Identities.Decode, Shapes.Decode, Blobs.Decode, BlobSizes.Expected;
    var idBytes := CheckedSection(all, idEntry);
    if !idBytes.Ok? { return idBytes.PropagateFailure(); }
    var id := Identities.Decode(idBytes.value);
    if !id.Ok? { return id.PropagateFailure(); }
    var shapeBytes := CheckedSection(all, shapeEntry);
    if !shapeBytes.Ok? { return shapeBytes.PropagateFailure(); }
    var shape := Shapes.Decode(shapeBytes.value);
    if !shape.Ok? { return shape.PropagateFailure(); }
    var blobBytes := CheckedSection(all, blobEntry);
    if !blobBytes.Ok? { return blobBytes.PropagateFailure(); }
    var blob := Blobs.Decode(blobBytes.value);
    if !blob.Ok? { return blob.PropagateFailure(); }
    var expected := BlobSizes.Expected(shape.value);
    if !expected.Ok? { return expected.PropagateFailure(); }
    var got := |blob.value.kv|;
    if got != expected.value { return Err(Malformed(BlobSizeMismatch(expected.value, got))); }
    return Ok(Cache(id.value.modelFp, id.value.adapterId, id.value.prefixHash, shape.value, id.value.meta,
                    blob.value.kv, blob.value.logits));
  }

  // ----- Round trips -----

  lemma ReadImage(createdAt: i64, i: seq<byte>, s: seq<byte>, b: seq<byte>)
    requires Fits(Parts(i, s, b))
    ensures ReadKvCache(Image(KV_CACHE_V1, createdAt, Parts(i, s, b))) == DecodeThree(Ok(i), Ok(s), Ok(b))
  {
    hide Open, CheckedSection, DecodeThree, Image, ImageHeader, Last, Fits, Parts;
    ImageOpens(KV_CACHE_V1, createdAt, Parts(i, s, b));
    ThreeSections(KV_CACHE_V1, createdAt, i, s, b);
  }

  /**
    Reading back a written cache, for every cache that can be written: the cache itself exactly when its
    blob has the size its shape calls for, the size error when it has another, and a panic exactly when
    that size cannot be computed.
   */
  lemma CacheRoundTrip(cache: Cache)
    requires Writable(cache)
    ensures ReadKvCache(CacheImage(cache))
         == if !BlobSizes.Computable(cache.shape) then Panic
            else if |cache.kvBlob| == BlobSizes.FullSize(cache.shape) then Ok(cache)
            else Err(Malformed(BlobSizeMismatch(BlobSizes.FullSize(cache.shape), |cache.kvBlob|)))
  {
    hide Identities.Decode, Identities.EncodeFields, Shapes.Decode, Shapes.Encode, Blobs.Decode, Blobs.Encode,
         BlobSizes.Expected, BlobSizes.Computable, BlobSizes.FullSize, Image, ReadKvCache, TotalLen;
    BlobSizes.ExpectedExactly(cache.shape);
    var i, s, b :=
      Identities.EncodeFields(IdentityOf(cache)), Shapes.Encode(cache.shape), Blobs.Encode(BlobOf(cache));
    PartsLen(i, s, b);
    ReadImage(cache.meta.createdAt, i, s, b);
    Identities.RoundTrip(IdentityOf(cache));
    Shapes.DecodeIffEncoded(s, cache.shape);
    Blobs.DecodeIffEncoded(b, BlobOf(cache));
  }

  lemma DecodedIsWritable(i: Outcome<seq<byte>>, s: Outcome<seq<byte>>, b: Outcome<seq<byte>>)
    requires DecodeThree(i, s, b).Ok?
    ensures var cache := DecodeThree(i, s, b).value;
            NameFits(cache) && BlobSizes.Expected(cache.shape) == Ok(|cache.kvBlob|)
  {
    hide Identities.Decode, Shapes.Decode, Blobs.Decode, BlobSizes.Expected, Identities.EncodeFields;
    var cache := DecodeThree(i, s, b).value;
    Identities.DecodedSpells(i.value, IdentityOf(cache));
  }

  /** What is accepted has a name that can be written, and a blob of the size its shape calls for. */
  lemma ReadIsConsistent(all: seq<byte>)
    requires ReadKvCache(all).Ok?
    ensures var cache := ReadKvCache(all).value;
            && NameFits(cache) && BlobSizes.Expected(cache.shape) == Ok(|cache.kvBlob|)
            && BlobSizes.Computable(cache.shape) && |cache.kvBlob| == BlobSizes.FullSize(cache.shape)
  {
    hide Open, Fetch, BlobSizes.Expected, BlobSizes.Computable, BlobSizes.FullSize;
    BlobSizes.ExpectedExactly(ReadKvCache(all).value.shape);
    var sections := Open(all, KV_CACHE_V1).value.sections;
    DecodedIsWritable(Fetch(all, sections, 1).value, Fetch(all, sections, 2).value, Fetch(all, sections, 3).value);
  }

  /** An accepted file opens, and each of its three sections is found and intact. */
  lemma AcceptedFetches(all: seq<byte>)
    requires ReadKvCache(all).Ok?
    ensures Open(all, KV_CACHE_V1).Ok?
    ensures var sections := Open(all, KV_CACHE_V1).value.sections;
            Fetched(all, sections, 1) && Fetched(all, sections, 2) && Fetched(all, sections, 3)
  {
    hide Open, Fetch, DecodeThree;
    var sections := Open(all, KV_CACHE_V1).value.sections;
    DecodedNeedsAll(Fetch(all, sections, 1).value, Fetch(all, sections, 2).value, Fetch(all, sections, 3).value);
  }

  lemma DecodedNeedsAll(i: Outcome<seq<byte>>, s: Outcome<seq<byte>>, b: Outcome<seq<byte>>)
    requires DecodeThree(i, s, b).Ok?
    ensures i.Ok? && s.Ok? && b.Ok?
  {
    hide Identities.Decode, Shapes.Decode, Blobs.Decode, BlobSizes.Expected;
  }

  // ----- Rewriting -----

  /** What was read can be written if the selected sections' lengths add up to a possible vector. */
  lemma ReadIsWritable(all: seq<byte>)
    requires ReadKvCache(all).Ok? && RewrittenLen(Open(all, KV_CACHE_V1).value.sections) <= ISIZE_MAX
    ensures Writable(ReadKvCache(all).value)
  {
    hide Open, Fetch, Last, Writable, DecodeThree;
    var sections := Open(all, KV_CACHE_V1).value.sections;
    AcceptedFetches(all);
    FetchedLength(all, sections, 1);
    FetchedLength(all, sections, 2);
    FetchedLength(all, sections, 3);
    DecodedLengths(
      Fetch(all, sections, 1).value.value, Fetch(all, sections, 2).value.value, Fetch(all, sections, 3).value.value);
  }

  lemma DecodedLengths(i: seq<byte>, s: seq<byte>, b: seq<byte>)
    requires DecodeThree(Ok(i), Ok(s), Ok(b)).Ok?
    requires HEADER_LEN + TableLen(3) + |i| + |s| + |b| + FILE_CHECKSUM_LEN <= ISIZE_MAX
    ensures Writable(DecodeThree(Ok(i), Ok(s), Ok(b)).value)
  {
    hide Identities.Decode, Shapes.Decode, Shapes.Encode, Blobs.Decode, BlobSizes.Expected, Identities.EncodeFields, Writable;
    var cache := DecodeThree(Ok(i), Ok(s), Ok(b)).value;
    Identities.DecodedSpells(i, IdentityOf(cache));
    Shapes.DecodeIffEncoded(s, cache.shape);
    Blobs.DecodeIffEncoded(b, BlobOf(cache));
    WritableExactly(cache);
  }

  /**
    Rewriting what was read gives a file that reads the same, however odd the first one was; and
    rewriting that one again changes nothing.
   */
  lemma RewritingNormalises(all: seq<byte>)
    requires ReadKvCache(all).Ok? && RewrittenLen(Open(all, KV_CACHE_V1).value.sections) <= ISIZE_MAX
    ensures Writable(ReadKvCache(all).value)
    ensures var image := CacheImage(ReadKvCache(all).value);
            ReadKvCache(image) == ReadKvCache(all) && CacheImage(ReadKvCache(image).value) == image
  {
    hide ReadKvCache, CacheImage, BlobSizes.Expected, BlobSizes.Computable, BlobSizes.FullSize, Open, Writable;
    ReadIsWritable(all);
    ReadIsConsistent(all);
    BlobSizes.ExpectedExactly(ReadKvCache(all).value.shape);
    CacheRoundTrip(ReadKvCache(all).value);
  }

  /** Any accepted file of at most 2^61 bytes can be rewritten so. */
  lemma SmallFilesNormalise(all: seq<byte>)
    requires ReadKvCache(all).Ok? && |all| <= 0x2000_0000_0000_0000
    ensures Writable(ReadKvCache(all).value)
    ensures var image := CacheImage(ReadKvCache(all).value);
            ReadKvCache(image) == ReadKvCache(all) && CacheImage(ReadKvCache(image).value) == image
  {
    hide ReadKvCache, CacheImage, Open, Writable, RewrittenLen, Fetched;
    AcceptedFetches(all);
    OpenedIsLong(all, KV_CACHE_V1);
    SmallFilesFit(all, Open(all, KV_CACHE_V1).value.sections);
    RewritingNormalises(all);
  }

  // ----- Refusals -----

  /** What keeps a file from being read, in the order it is looked for. */
  lemma ReadRefuses(all: seq<byte>)
    ensures Open(all, KV_CACHE_V1).Err? ==> ReadKvCache(all) == Err(Open(all, KV_CACHE_V1).error)
    ensures Open(all, KV_CACHE_V1).Ok? ==>
              var sections := Open(all, KV_CACHE_V1).value.sections;
              var first, second, third := Last(sections, 1), Last(sections, 2), Last(sections, 3);
              && (first.None? ==> ReadKvCache(all) == Err(MissingSection(1)))
              && (first.Some? && second.None? ==> ReadKvCache(all) == Err(MissingSection(2)))
              && (first.Some? && second.Some? && third.None? ==> ReadKvCache(all) == Err(MissingSection(3)))
              && (first.Some? && second.Some? && third.Some? ==>
                    DecodedInOrder(CheckedSection(all, first.value), CheckedSection(all, second.value),
                                   CheckedSection(all, third.value), ReadKvCache(all)))
  {
    hide Open, Last, CheckedSection, DecodeThree, DecodedInOrder;
    if Open(all, KV_CACHE_V1).Ok? {
      var sections := Open(all, KV_CACHE_V1).value.sections;
      var i, s, b := Fetch(all, sections, 1), Fetch(all, sections, 2), Fetch(all, sections, 3);
      if i.Some? && s.Some? && b.Some? { InOrder(i.value, s.value, b.value); }
    }
  }

  /** Each section is checked and decoded before the next one is checked; then the sizes are compared. */
  ghost predicate DecodedInOrder(i: Outcome<seq<byte>>, s: Outcome<seq<byte>>, b: Outcome<seq<byte>>, r: Outcome<Cache>) {
    if i.Err? then r == Err(i.error)
    else
      i.Ok? && (
        if Identities.Decode(i.value).Err? then r == Err(Identities.Decode(i.value).error)
        else if s.Err? then r == Err(s.error)
        else s.Ok? && ShapedInOrder(Shapes.Decode(s.value), b, r))
  }

  ghost predicate ShapedInOrder(shape: Outcome<Shapes.KvCacheShape>, b: Outcome<seq<byte>>, r: Outcome<Cache>) {
    if shape.Err? then r == Err(shape.error)
    else if b.Err? then r == Err(b.error)
    else
      shape.Ok? && b.Ok? && (
        if Blobs.Decode(b.value).Err? then r == Err(Blobs.Decode(b.value).error)
        else if Blobs.LengthOverflows(b.value) || !BlobSizes.Computable(shape.value) then r == Panic
        else Blobs.Decode(b.value).Ok? && SizedInOrder(shape.value, |Blobs.Decode(b.value).value.kv|, r))
  }

  ghost predicate SizedInOrder(shape: Shapes.KvCacheShape, got: nat, r: Outcome<Cache>)
    requires BlobSizes.Computable(shape)
  {
    if got == BlobSizes.FullSize(shape) then r.Ok?
    else r == Err(Malformed(BlobSizeMismatch(BlobSizes.FullSize(shape), got)))
  }

  lemma InOrder(i: Outcome<seq<byte>>, s: Outcome<seq<byte>>, b: Outcome<seq<byte>>)
    requires !i.Panic? && !s.Panic? && !b.Panic?
    ensures DecodedInOrder(i, s, b, DecodeThree(i, s, b))
  {
    hide Identities.Decode, Shapes.Decode, Blobs.Decode, Blobs.LengthOverflows,
         BlobSizes.Expected, BlobSizes.Computable, BlobSizes.FullSize;
    if b.Ok? { Blobs.PanicsExactly(b.value); }
    if s.Ok? && Shapes.Decode(s.value).Ok? { BlobSizes.ExpectedExactly(Shapes.Decode(s.value).value); }
  }

  // ----- Panics -----

  /**
    Reading panics exactly when all three sections are intact, the first two decode, and either a length
    in the blob overflows, or the blob decodes and the shape's size cannot be computed.
   */
  lemma PanicsExactly(all: seq<byte>)
    ensures ReadKvCache(all) == Panic <==>
              && Open(all, KV_CACHE_V1).Ok?
              && var sections := Open(all, KV_CACHE_V1).value.sections;
              && Fetched(all, sections, 1) && Fetched(all, sections, 2) && Fetched(all, sections, 3)
              && Identities.Decode(Fetch(all, sections, 1).value.value).Ok?
              && var shape, blob := Shapes.Decode(Fetch(all, sections, 2).value.value), Fetch(all, sections, 3).value.value;
              && shape.Ok?
              && (Blobs.LengthOverflows(blob) || (Blobs.Decode(blob).Ok? && !BlobSizes.Computable(shape.value)))
  {
    hide Open, Last, CheckedSection, DecodeThree, Identities.Decode, Shapes.Decode, Blobs.Decode,
         Blobs.LengthOverflows, BlobSizes.Computable, BlobSizes.FullSize;
    if Open(all, KV_CACHE_V1).Ok? {
      var sections := Open(all, KV_CACHE_V1).value.sections;
      var i, s, b := Fetch(all, sections, 1), Fetch(all, sections, 2), Fetch(all, sections, 3);
      if i.Some? && s.Some? && b.Some? { DecodePanicsExactly(i.value, s.value, b.value); }
    }
  }

  lemma DecodePanicsExactly(i: Outcome<seq<byte>>, s: Outcome<seq<byte>>, b: Outcome<seq<byte>>)
    requires !i.Panic? && !s.Panic? && !b.Panic?
    ensures DecodeThree(i, s, b) == Panic <==>
              && i.Ok? && s.Ok? && b.Ok?
              && Identities.Decode(i.value).Ok? && Shapes.Decode(s.value).Ok?
              && (|| Blobs.LengthOverflows(b.value)
                  || (Blobs.Decode(b.value).Ok? && !BlobSizes.Computable(Shapes.Decode(s.value).value)))
  {
    hide Identities.Decode, Shapes.Decode, Blobs.Decode, Blobs.LengthOverflows, BlobSizes.Expected, BlobSizes.Computable, BlobSizes.FullSize;
    if b.Ok? { Blobs.PanicsExactly(b.value); }
    if s.Ok? && Shapes.Decode(s.value).Ok? { BlobSizes.ExpectedExactly(Shapes.Decode(s.value).value); }
  }

  /** Every cache with a group size of zero is written without complaint, and reading it divides by zero. */
  lemma ZeroGroupsPanic(cache: Cache)
    requires Writable(cache) && cache.shape.quant.Some? && cache.shape.quant.value.groupSize == 0
    ensures ReadKvCache(CacheImage(cache)) == Panic
  {
    hide Writable, CacheImage, ReadKvCache, BlobSizes.Expected, BlobSizes.Computable, BlobSizes.FullSize;
    BlobSizes.ZeroGroupsPanic(cache.shape);
    BlobSizes.ExpectedExactly(cache.shape);
    CacheRoundTrip(cache);
  }

  // ----- Independence from the layout -----

  /**
    Two files that open read the same if for each of the three ids their last entries cover the same
    bytes with the same checksum, or are both missing, or both out of range in the same way.
   */
  lemma SameCacheViews(f: seq<byte>, fh: Header, g: seq<byte>, gh: Header)
    requires Open(f, KV_CACHE_V1) == Ok(fh) && Open(g, KV_CACHE_V1) == Ok(gh)
    requires forall id :: 1 <= id <= 3 ==> ViewOf(f, fh.sections, id) == ViewOf(g, gh.sections, id)
    ensures ReadKvCache(f) == ReadKvCache(g)
  {
    hide Open, Fetch, Select, ViewOf;
    SameViewSameSection(f, fh.sections, g, gh.sections, 1);
    SameViewSameSection(f, fh.sections, g, gh.sections, 2);
    SameViewSameSection(f, fh.sections, g, gh.sections, 3);
  }

  /**
    So with unique ids in range, unknown sections, order, offsets, gaps, flags, timestamps and reserved
    bytes make no difference.
   */
  lemma CacheLayoutIndependence(f: seq<byte>, fh: Header, g: seq<byte>, gh: Header)
    requires Open(f, KV_CACHE_V1) == Ok(fh) && Open(g, KV_CACHE_V1) == Ok(gh)
    requires KnownInRange(f, fh.sections) && KnownInRange(g, gh.sections)
    requires KnownContents(f, fh.sections) == KnownContents(g, gh.sections)
    requires UniqueIds(KnownContents(f, fh.sections))
    ensures ReadKvCache(f) == ReadKvCache(g)
  {
    hide Open, ReadKvCache, ViewOf, KnownContents, UniqueIds, KnownInRange;
    forall id | 1 <= id <= 3
      ensures ViewOf(f, fh.sections, id) == ViewOf(g, gh.sections, id)
    {
      SameContentsSameView(f, fh.sections, g, gh.sections, id);
    }
    SameCacheViews(f, fh, g, gh);
  }

  /**
    A cache's three payloads read back from any file that carries them, whatever else its table
    lists, in whatever order, and wherever its bytes lie.
   */
  lemma AnyLayoutReads(cache: Cache, h: Header, rest: seq<byte>)
    requires Writable(cache) && BlobSizes.Expected(cache.shape) == Ok(|cache.kvBlob|)
    requires h.format == KvCache && h.version == 1
    requires CarriesParts(h, rest, CacheParts(cache))
    ensures ReadKvCache(Seal(EncodeHeader(h) + rest)) == Ok(cache)
  {
    hide Open, Fetch, DecodeThree, Seal, EncodeHeader, CarriesParts, BlobSizes.Expected, BlobSizes.Computable, BlobSizes.FullSize, ReadKvCache,
         Identities.EncodeFields, Shapes.Encode, Blobs.Encode, Image, Fits;
    var p := CacheParts(cache);
    CarriedPartsAreFetched(h, rest, p, KV_CACHE_V1);
    BlobSizes.ExpectedExactly(cache.shape);
    CacheRoundTrip(cache);
    ReadImage(cache.meta.createdAt, p[0].payload, p[1].payload, p[2].payload);
    ReadOpened(Seal(EncodeHeader(h) + rest), h);
  }

  lemma ReadOpened(f: seq<byte>, h: Header)
    requires Open(f, KV_CACHE_V1) == Ok(h)
    ensures ReadKvCache(f) == Select(Fetch(f, h.sections, 1), Fetch(f, h.sections, 2), Fetch(f, h.sections, 3))
  {
    hide Open, Fetch, Select;
  }

  // ----- Damage -----

  /** Any damage to a sealed file within four consecutive bytes is reported as a failed file checksum. */
  lemma CacheBurstDetected(f: seq<byte>, g: seq<byte>, k: nat)
    requires |f| >= FILE_CHECKSUM_LEN + HEADER_LEN && Sealed(f)
    requires DifferWithin4(f, g, k) && f != g
    ensures ReadKvCache(g) == Err(FileChecksumFailed)
  {
    hide Open, Sealed;
    BurstIsRefused(f, g, k, KV_CACHE_V1);
  }
}
