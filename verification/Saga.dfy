/** SagaV1 files: three sections, of which the first says how to decode the second. */
module Sagas {
  import opened Bytes
  import opened Prelude
  import opened Format
  import opened Headers
  import opened Streams
  import opened Container
  import opened Images
  import opened Crc32c
  import SagaMetas
  import Centroids
  import Tags

  datatype Saga = Saga(
    tenantId: SagaMetas.vault,
    builtAt: i64,
    recordCount: u64,
    embeddingDim: u32,
    centroids: seq<Centroids.Centroid>,
    tags: seq<Tags.TagEntry>)

  // ----- Writing -----

  /** Every vector has the declared dimension and every tag fits its length field. */
  predicate Encodable(saga: Saga) {
    Centroids.VectorsFit(saga.centroids, saga.embeddingDim) && Tags.TagsFit(saga.tags)
  }

  function MetaOf(saga: Saga): SagaMetas.SagaMeta {
    SagaMetas.SagaMeta(
      saga.tenantId, saga.builtAt, saga.recordCount, saga.embeddingDim, CastU32(|saga.centroids|))
  }

  function SagaParts(saga: Saga): (parts: seq<Part>)
    requires Encodable(saga)
    ensures |parts| == 3
  {
    Parts(SagaMetas.Encode(MetaOf(saga)), Centroids.EncodeAll(saga.centroids), Tags.Section(saga.tags))
  }

  predicate Writable(saga: Saga) {
    Encodable(saga) && Fits(SagaParts(saga))
  }

  /** The file that `write_saga` writes. */
  function SagaImage(saga: Saga): seq<byte>
    requires Writable(saga)
  {
    Image(SAGA_V1, saga.builtAt, SagaParts(saga))
  }

  /** What can be written, in terms of the sizes of the two lists; and the length of the file. */
  lemma WritableExactly(saga: Saga)
    requires Encodable(saga)
    ensures var len := HEADER_LEN + TableLen(3) + SagaMetas.META_LEN
                       + Centroids.Size(|saga.centroids|, saga.embeddingDim) + |Tags.Section(saga.tags)| + FILE_CHECKSUM_LEN;
            && (Writable(saga) <==> len <= ISIZE_MAX)
            && (Writable(saga) ==> |SagaImage(saga)| == len)
  {
    hide Centroids.EncodeAll, Centroids.Size, Tags.Section, SagaMetas.Encode, Image, TotalLen;
    PartsLen(SagaMetas.Encode(MetaOf(saga)), Centroids.EncodeAll(saga.centroids), Tags.Section(saga.tags));
    Centroids.EncodeAllLen(saga.centroids, saga.embeddingDim);
  }

  /** Whose file it is, and when it was made: what a written file's header says. */
  lemma WrittenHeader(saga: Saga)
    requires Writable(saga)
    ensures && ParseHeader(SagaImage(saga)).Ok?
              && var h := ParseHeader(SagaImage(saga)).value;
              && h.format == FormatId.Saga && h.version == 1 && h.flags == 0 && h.createdAt == saga.builtAt
              && |h.sections| == 3
              && h.sections[0].typeId == 1 && h.sections[1].typeId == 2 && h.sections[2].typeId == 3
  {
    hide Centroids.EncodeAll, Tags.Section, SagaMetas.Encode, Image, ParseHeader, Checksum, TotalLen;
    PartsLen(SagaMetas.Encode(MetaOf(saga)), Centroids.EncodeAll(saga.centroids), Tags.Section(saga.tags));
    ImageSays(SAGA_V1, saga.builtAt, SagaMetas.Encode(MetaOf(saga)), Centroids.EncodeAll(saga.centroids), Tags.Section(saga.tags));
  }

  method WriteSaga(saga: Saga, writer: Stream) returns (r: Outcome<()>)
    requires Encodable(saga) ==> Fits(SagaParts(saga))
    modifies writer`pos, writer`data
    ensures !Centroids.VectorsFit(saga.centroids, saga.embeddingDim) ==> r == Err(Malformed(VectorLength))
    ensures Centroids.VectorsFit(saga.centroids, saga.embeddingDim) && !Tags.TagsFit(saga.tags) ==>
              r == Err(Malformed(TagTooLong))
    ensures Encodable(saga) ==> r == Ok(()) || (!writer.reliable && r == Err(Io))
    ensures r.Ok? ==> Writable(saga) && writer.data == Overwrite(old(writer.data), 0, SagaImage(saga))
    ensures !Encodable(saga) ==> writer.data == old(writer.data)
    ensures r.Ok? && old(writer.data) == [] ==>
              && ParseHeader(writer.data).Ok?
              && var h := ParseHeader(writer.data).value;
              && h.format == FormatId.Saga && h.version == 1 && h.flags == 0 && h.createdAt == saga.builtAt
              && |h.sections| == 3
              && h.sections[0].typeId == 1 && h.sections[1].typeId == 2 && h.sections[2].typeId == 3
  {
    hide Image, Fits, Tags.Section, Centroids.EncodeAll, SagaMetas.Encode, Overwrite;
    var meta := MetaOf(saga);
    var metaBytes := SagaMetas.EncodeBlock(meta);
    var centroidBytes := Centroids.EncodeSection(saga.centroids, saga.embeddingDim);
    if !centroidBytes.Ok? { return centroidBytes.PropagateFailure(); }
    var tagBytes := Tags.EncodeSection(saga.tags);
    if !tagBytes.Ok? { return tagBytes.PropagateFailure(); }
    r := WriteThree(SAGA_V1, saga.builtAt, metaBytes, centroidBytes.value, tagBytes.value, writer);
    if r.Ok? {
      OverwriteFresh(SagaImage(saga));
      WrittenHeader(saga);
    }
  }

  // ----- Reading -----

  /** Decode the three sections in order, each only once it has been checked. */
  function DecodeThree(m: Outcome<seq<byte>>, c: Outcome<seq<byte>>, t: Outcome<seq<byte>>): Outcome<Saga> {
    var metaBytes :- m;
    var meta :- SagaMetas.Decode(metaBytes);
    var centroidBytes :- c;
    var centroids :- Centroids.Decode(centroidBytes, meta.centroidCount, meta.embeddingDim);
    var tagBytes :- t;
    var tags :- Tags.Decode(tagBytes);
    Ok(Saga.Saga(meta.tenantId, meta.builtAt, meta.recordCount, meta.embeddingDim, centroids, tags))
  }

  /** What `read_saga` makes of a whole file. */
  function ReadSaga(all: seq<byte>): Outcome<Saga> {
    var header :- Open(all, SAGA_V1);
    Select(Fetch(all, header.sections, 1), Fetch(all, header.sections, 2), Fetch(all, header.sections, 3))
  }

  /** All three sections must be present before any of them is read. */
  function Select(
    m: Option<Outcome<seq<byte>>>, c: Option<Outcome<seq<byte>>>, t: Option<Outcome<seq<byte>>>): Outcome<Saga>
  {
    if m.None? then Err(MissingSection(1))
    else if c.None? then Err(MissingSection(2))
    else if t.None? then Err(MissingSection(3))
    else DecodeThree(m.value, c.value, t.value)
  }

  method ReadSagaFrom(reader: Stream) returns (r: Outcome<Saga>)
    modifies reader`pos
    ensures r == ReadSaga(reader.data) || (!reader.reliable && r == Err(Io))
  {
    hide Open, CheckedSection, DecodeThree, Last;
    var ok := reader.Seek(0);
    if !ok { return Err(Io); }
    var slurped := reader.ReadToEnd();
    if slurped.None? { return Err(Io); }
    var all := slurped.value;
    assert all == reader.data;
    var header := OpenImage(all, SAGA_V1);
    if !header.Ok? { return header.PropagateFailure(); }
    var metaEntry, centroidEntry, tagEntry := LocateThree(header.value.sections);
    if metaEntry.None? { return Err(MissingSection(1)); }
    if centroidEntry.None? { return Err(MissingSection(2)); }
    if tagEntry.None? { return Err(MissingSection(3)); }
    r := ReadSections(all, metaEntry.value, centroidEntry.value, tagEntry.value);
  }

  /** Step 4: read, check and decode each payload. */
  method ReadSections(all: seq<byte>, metaEntry: SectionEntry, centroidEntry: SectionEntry, tagEntry: SectionEntry)
    returns (r: Outcome<Saga>)
    requires |all| >= FILE_CHECKSUM_LEN
    ensures r == DecodeThree(
      CheckedSection(all, metaEntry), CheckedSection(all, centroidEntry), CheckedSection(all, tagEntry))
  {
    hide CheckedSection, SagaMetas.Decode, Centroids.Decode, Tags.Decode;
    var metaBytes := CheckedSection(all, metaEntry);
    if !metaBytes.Ok? { return metaBytes.PropagateFailure(); }
    var meta := SagaMetas.Decode(metaBytes.value);
    if !meta.Ok? { return meta.PropagateFailure(); }
    var centroidBytes := CheckedSection(all, centroidEntry);
    if !centroidBytes.Ok? { return centroidBytes.PropagateFailure(); }
    var centroids := Centroids.DecodeSection(
      centroidBytes.value, meta.value.centroidCount, meta.value.embeddingDim);
    if !centroids.Ok? { return centroids.PropagateFailure(); }
    var tagBytes := CheckedSection(all, tagEntry);
    if !tagBytes.Ok? { return tagBytes.PropagateFailure(); }
    var tags := Tags.DecodeSection(tagBytes.value);
    if !tags.Ok? { return tags.PropagateFailure(); }
    return Ok(Saga.Saga(meta.value.tenantId, meta.value.builtAt, meta.value.recordCount,
                        meta.value.embeddingDim, centroids.value, tags.value));
  }

  // ----- Round trips -----

  lemma ReadImage(createdAt: i64, m: seq<byte>, c: seq<byte>, t: seq<byte>)
    requires Fits(Parts(m, c, t))
    ensures ReadSaga(Image(SAGA_V1, createdAt, Parts(m, c, t))) == DecodeThree(Ok(m), Ok(c), Ok(t))
  {
    hide Open, CheckedSection, DecodeThree, Image, ImageHeader, Last, Fits, Parts;
    ImageOpens(SAGA_V1, createdAt, Parts(m, c, t));
    ThreeSections(SAGA_V1, createdAt, m, c, t);
  }

  lemma {:induction false} FewerIsSmaller(m: nat, n: nat, dim: u32)
    requires m < n
    ensures Centroids.Size(m, dim) < Centroids.Size(n, dim)
    decreases n
  {
    hide Centroids.Size;
    Centroids.OneMore(n - 1, dim);
    if m < n - 1 { FewerIsSmaller(m, n - 1, dim); }
  }

  lemma CentroidsBack(saga: Saga)
    requires Centroids.VectorsFit(saga.centroids, saga.embeddingDim)
    requires |Centroids.EncodeAll(saga.centroids)| < U64_LIMIT
    ensures var r := Centroids.Decode(
              Centroids.EncodeAll(saga.centroids), CastU32(|saga.centroids|), saga.embeddingDim);
            if |saga.centroids| < U32_LIMIT then r == Ok(saga.centroids)
            else r == Err(Malformed(CentroidSectionLength))
  {
    hide Centroids.Size, Centroids.EncodeAll, Centroids.DecodeAll;
    var n, dim := |saga.centroids|, saga.embeddingDim;
    Centroids.EncodeAllLen(saga.centroids, dim);
    if n < U32_LIMIT {
      Centroids.DecodeIffEncoded(Centroids.EncodeAll(saga.centroids), n, dim, saga.centroids);
    } else {
      FewerIsSmaller(CastU32(n), n, dim);
    }
  }

  /**
    Reading back a written saga. The two lists are counted in 32 bits, so the result is the saga
    bit for bit exactly when both have fewer than 2^32 elements; otherwise the file is refused.
   */
  lemma SagaRoundTrip(saga: Saga)
    requires Writable(saga)
    ensures ReadSaga(SagaImage(saga))
         == if |saga.centroids| >= U32_LIMIT then Err(Malformed(CentroidSectionLength))
            else if |saga.tags| >= U32_LIMIT then Err(Malformed(TrailingAfterTags))
            else Ok(saga)
  {
    hide Centroids.EncodeAll, Centroids.Decode, Tags.Section, Tags.Decode, SagaMetas.Encode, SagaMetas.Decode,
         Image, ReadSaga, TotalLen;
    var m, c, t := SagaMetas.Encode(MetaOf(saga)), Centroids.EncodeAll(saga.centroids), Tags.Section(saga.tags);
    PartsLen(m, c, t);
    ReadImage(saga.builtAt, m, c, t);
    SagaMetas.RoundTrip(MetaOf(saga));
    CentroidsBack(saga);
    Tags.SectionRoundTrip(saga.tags);
  }

  /** Whatever a file looks like, what is read from it can be written again. */
  lemma ReadIsEncodable(all: seq<byte>)
    requires ReadSaga(all).Ok?
    ensures var saga := ReadSaga(all).value;
            Encodable(saga) && |saga.centroids| < U32_LIMIT && |saga.tags| < U32_LIMIT
  {
    hide Open, Fetch;
    var sections := Open(all, SAGA_V1).value.sections;
    DecodedIsEncodable(Fetch(all, sections, 1).value, Fetch(all, sections, 2).value, Fetch(all, sections, 3).value);
  }

  lemma DecodedIsEncodable(m: Outcome<seq<byte>>, c: Outcome<seq<byte>>, t: Outcome<seq<byte>>)
    requires DecodeThree(m, c, t).Ok?
    ensures var saga := DecodeThree(m, c, t).value;
            Encodable(saga) && |saga.centroids| < U32_LIMIT && |saga.tags| < U32_LIMIT
  {
    hide SagaMetas.Decode, Tags.Decode, Centroids.DecodeAll, Centroids.EncodeAll, Centroids.Size, Tags.Section;
    var meta, saga := SagaMetas.Decode(m.value).value, DecodeThree(m, c, t).value;
    Centroids.DecodeIffEncoded(c.value, meta.centroidCount, meta.embeddingDim, saga.centroids);
    Tags.DecodeIffEncoded(t.value, saga.tags);
  }

  /** An accepted file opens, and each of its three sections is found and intact. */
  lemma AcceptedFetches(all: seq<byte>)
    requires ReadSaga(all).Ok?
    ensures Open(all, SAGA_V1).Ok?
    ensures var sections := Open(all, SAGA_V1).value.sections;
            Fetched(all, sections, 1) && Fetched(all, sections, 2) && Fetched(all, sections, 3)
  {
    hide Open, Fetch, DecodeThree;
    var sections := Open(all, SAGA_V1).value.sections;
    DecodedNeedsAll(Fetch(all, sections, 1).value, Fetch(all, sections, 2).value, Fetch(all, sections, 3).value);
  }

  lemma DecodedNeedsAll(m: Outcome<seq<byte>>, c: Outcome<seq<byte>>, t: Outcome<seq<byte>>)
    requires DecodeThree(m, c, t).Ok?
    ensures m.Ok? && c.Ok? && t.Ok?
  {
    hide SagaMetas.Decode, Tags.Decode, Centroids.Decode;
  }

  // ----- Rewriting -----

  /** What was read can be written exactly when the selected sections' lengths add up to a possible vector. */
  lemma ReadIsWritable(all: seq<byte>)
    requires ReadSaga(all).Ok?
    ensures Writable(ReadSaga(all).value) <==> RewrittenLen(Open(all, SAGA_V1).value.sections) <= ISIZE_MAX
  {
    hide Open, Fetch, Last, Writable, DecodeThree;
    var sections := Open(all, SAGA_V1).value.sections;
    AcceptedFetches(all);
    FetchedLength(all, sections, 1);
    FetchedLength(all, sections, 2);
    FetchedLength(all, sections, 3);
    DecodedLengths(
      Fetch(all, sections, 1).value.value, Fetch(all, sections, 2).value.value, Fetch(all, sections, 3).value.value);
  }

  lemma DecodedLengths(m: seq<byte>, c: seq<byte>, t: seq<byte>)
    requires DecodeThree(Ok(m), Ok(c), Ok(t)).Ok?
    ensures Writable(DecodeThree(Ok(m), Ok(c), Ok(t)).value)
       <==> HEADER_LEN + TableLen(3) + |m| + |c| + |t| + FILE_CHECKSUM_LEN <= ISIZE_MAX
  {
    hide Tags.Decode, Centroids.DecodeAll, Centroids.EncodeAll, Centroids.Size, Tags.Section, Writable;
    var meta, saga := SagaMetas.Decode(m).value, DecodeThree(Ok(m), Ok(c), Ok(t)).value;
    DecodedIsEncodable(Ok(m), Ok(c), Ok(t));
    Centroids.DecodeIffEncoded(c, meta.centroidCount, meta.embeddingDim, saga.centroids);
    Centroids.EncodeAllLen(saga.centroids, saga.embeddingDim);
    Tags.DecodeIffEncoded(t, saga.tags);
    WritableExactly(saga);
  }

  /**
    Rewriting what was read gives a file that reads the same, however odd the first one was; and
    rewriting that one again changes nothing.
   */
  lemma RewritingNormalises(all: seq<byte>)
    requires ReadSaga(all).Ok? && RewrittenLen(Open(all, SAGA_V1).value.sections) <= ISIZE_MAX
    ensures Writable(ReadSaga(all).value)
    ensures var image := SagaImage(ReadSaga(all).value);
            ReadSaga(image) == ReadSaga(all) && SagaImage(ReadSaga(image).value) == image
  {
    hide ReadSaga, SagaImage, Open, Writable;
    ReadIsWritable(all);
    ReadIsEncodable(all);
    SagaRoundTrip(ReadSaga(all).value);
  }

  /** Any accepted file of at most 2^61 bytes can be rewritten so. */
  lemma SmallFilesNormalise(all: seq<byte>)
    requires ReadSaga(all).Ok? && |all| <= 0x2000_0000_0000_0000
    ensures Writable(ReadSaga(all).value)
    ensures var image := SagaImage(ReadSaga(all).value);
            ReadSaga(image) == ReadSaga(all) && SagaImage(ReadSaga(image).value) == image
  {
    hide ReadSaga, SagaImage, Open, Writable, RewrittenLen, Fetched;
    AcceptedFetches(all);
    OpenedIsLong(all, SAGA_V1);
    SmallFilesFit(all, Open(all, SAGA_V1).value.sections);
    RewritingNormalises(all);
  }

  // ----- Refusals -----

  /** What keeps a file from being read, in the order it is looked for. */
  lemma ReadRefuses(all: seq<byte>)
    ensures Open(all, SAGA_V1).Err? ==> ReadSaga(all) == Err(Open(all, SAGA_V1).error)
    ensures Open(all, SAGA_V1).Ok? ==>
              var sections := Open(all, SAGA_V1).value.sections;
              var first, second, third := Last(sections, 1), Last(sections, 2), Last(sections, 3);
              && (first.None? ==> ReadSaga(all) == Err(MissingSection(1)))
              && (first.Some? && second.None? ==> ReadSaga(all) == Err(MissingSection(2)))
              && (first.Some? && second.Some? && third.None? ==> ReadSaga(all) == Err(MissingSection(3)))
              && (first.Some? && second.Some? && third.Some? ==>
                    DecodedInOrder(CheckedSection(all, first.value), CheckedSection(all, second.value),
                                   CheckedSection(all, third.value), ReadSaga(all)))
  {
    hide Open, Last, CheckedSection, DecodeThree, DecodedInOrder;
    if Open(all, SAGA_V1).Ok? {
      var sections := Open(all, SAGA_V1).value.sections;
      var m, c, t := Fetch(all, sections, 1), Fetch(all, sections, 2), Fetch(all, sections, 3);
      if m.Some? && c.Some? && t.Some? { InOrder(m.value, c.value, t.value); }
    }
  }

  /** Each section is checked and decoded before the next one is checked; the first error is the result. */
  ghost predicate DecodedInOrder(m: Outcome<seq<byte>>, c: Outcome<seq<byte>>, t: Outcome<seq<byte>>, r: Outcome<Saga>) {
    if m.Err? then r == Err(m.error)
    else
      m.Ok? && (
        if |m.value| != 64 then r == Err(Malformed(MetaLength))
        else if c.Err? then r == Err(c.error)
        else c.Ok? && CountedInOrder(U32At(m.value, 36), U32At(m.value, 32), c.value, t, r))
  }

  ghost predicate CountedInOrder(count: u32, dim: u32, c: seq<byte>, t: Outcome<seq<byte>>, r: Outcome<Saga>) {
    if count * (4 + 4 * dim) >= U64_LIMIT then r == Panic
    else if |c| != count * (4 + 4 * dim) then r == Err(Malformed(CentroidSectionLength))
    else if t.Err? then r == Err(t.error)
    else t.Ok? && (if Tags.Decode(t.value).Err? then r == Err(Tags.Decode(t.value).error) else r.Ok?)
  }

  lemma InOrder(m: Outcome<seq<byte>>, c: Outcome<seq<byte>>, t: Outcome<seq<byte>>)
    requires !m.Panic? && !c.Panic? && !t.Panic?
    ensures DecodedInOrder(m, c, t, DecodeThree(m, c, t))
  {
    hide Tags.Decode, Centroids.Decode, Centroids.DecodeAll, Le, FromLe;
    if m.Ok? && |m.value| == 64 && c.Ok? {
      Centroids.Refuses(c.value, U32At(m.value, 36), U32At(m.value, 32));
    }
  }

  // ----- Panics -----

  /**
    Reading panics exactly when all three sections are there, the first two are intact, and the first
    declares more centroids than could be measured in 64 bits.
   */
  lemma PanicsExactly(all: seq<byte>)
    ensures ReadSaga(all) == Panic <==>
              && Open(all, SAGA_V1).Ok?
              && var sections := Open(all, SAGA_V1).value.sections;
              && Fetched(all, sections, 1) && Fetched(all, sections, 2) && Last(sections, 3).Some?
              && TooManyToMeasure(Fetch(all, sections, 1).value.value)
  {
    hide Open, Last, CheckedSection, DecodeThree, TooManyToMeasure;
    if Open(all, SAGA_V1).Ok? {
      var sections := Open(all, SAGA_V1).value.sections;
      var m, c, t := Fetch(all, sections, 1), Fetch(all, sections, 2), Fetch(all, sections, 3);
      if m.Some? && c.Some? && t.Some? { DecodePanicsExactly(m.value, c.value, t.value); }
    }
  }

  /** Metadata that declares a centroid section of 2^64 bytes or more. */
  predicate TooManyToMeasure(m: seq<byte>) {
    |m| == SagaMetas.META_LEN && U32At(m, 36) * (4 + 4 * U32At(m, 32)) >= U64_LIMIT
  }

  lemma DecodePanicsExactly(m: Outcome<seq<byte>>, c: Outcome<seq<byte>>, t: Outcome<seq<byte>>)
    requires !m.Panic? && !c.Panic? && !t.Panic?
    ensures DecodeThree(m, c, t) == Panic <==> m.Ok? && TooManyToMeasure(m.value) && c.Ok?
  {
    hide Tags.Decode, Centroids.DecodeAll, Centroids.Size, Le, FromLe;
    if m.Ok? && |m.value| == SagaMetas.META_LEN { Measured(U32At(m.value, 36), U32At(m.value, 32)); }
  }

  lemma Measured(count: u32, dim: u32)
    ensures Centroids.Size(count, dim) == count * (4 + 4 * dim)
  {
  }

  /** A file whose metadata does: nothing else in it but that. */
  lemma HugeCountsPanic(m: SagaMetas.SagaMeta)
    requires m.centroidCount == m.embeddingDim == 0xFFFF_FFFF
    ensures Fits(Parts(SagaMetas.Encode(m), [], []))
    ensures ReadSaga(Image(SAGA_V1, 0, Parts(SagaMetas.Encode(m), [], []))) == Panic
  {
    hide SagaMetas.Encode, SagaMetas.Decode, ReadSaga, Image, TotalLen;
    PartsLen(SagaMetas.Encode(m), [], []);
    ReadImage(0, SagaMetas.Encode(m), [], []);
    SagaMetas.RoundTrip(m);
  }

  /** A saga of 2^32 empty centroids is written without complaint and cannot be read. */
  lemma TooManyCentroids(saga: Saga)
    requires saga.embeddingDim == 0 && saga.tags == []
    requires saga.centroids == seq(U32_LIMIT, _ => Centroids.Centroid(0, []))
    ensures Writable(saga) && ReadSaga(SagaImage(saga)) == Err(Malformed(CentroidSectionLength))
  {
    hide Writable, SagaImage, ReadSaga;
    assert Centroids.VectorsFit(saga.centroids, 0);
    assert Centroids.Size(U32_LIMIT, 0) == 4 * U32_LIMIT;
    assert |Tags.Section([])| == 4;
    WritableExactly(saga);
    SagaRoundTrip(saga);
  }

  // ----- Independence from the layout -----

  /**
    Two files that open read the same if for each of the three ids their last entries cover the same
    bytes with the same checksum, or are both missing, or both out of range in the same way.
   */
  lemma SameSagaViews(f: seq<byte>, fh: Header, g: seq<byte>, gh: Header)
    requires Open(f, SAGA_V1) == Ok(fh) && Open(g, SAGA_V1) == Ok(gh)
    requires forall id :: 1 <= id <= 3 ==> ViewOf(f, fh.sections, id) == ViewOf(g, gh.sections, id)
    ensures ReadSaga(f) == ReadSaga(g)
  {
    hide Open, Fetch, Select, ViewOf;
    SameViewSameSection(f, fh.sections, g, gh.sections, 1);
    SameViewSameSection(f, fh.sections, g, gh.sections, 2);
    SameViewSameSection(f, fh.sections, g, gh.sections, 3);
  }

  /**
    So with unique ids in range, unknown sections, order, offsets, gaps, flags, timestamps and reserved
    bytes make no difference.
   */
  lemma SagaLayoutIndependence(f: seq<byte>, fh: Header, g: seq<byte>, gh: Header)
    requires Open(f, SAGA_V1) == Ok(fh) && Open(g, SAGA_V1) == Ok(gh)
    requires KnownInRange(f, fh.sections) && KnownInRange(g, gh.sections)
    requires KnownContents(f, fh.sections) == KnownContents(g, gh.sections)
    requires UniqueIds(KnownContents(f, fh.sections))
    ensures ReadSaga(f) == ReadSaga(g)
  {
    hide Open, ReadSaga, ViewOf, KnownContents, UniqueIds, KnownInRange;
    forall id | 1 <= id <= 3
      ensures ViewOf(f, fh.sections, id) == ViewOf(g, gh.sections, id)
    {
      SameContentsSameView(f, fh.sections, g, gh.sections, id);
    }
    SameSagaViews(f, fh, g, gh);
  }

  /**
    A saga's three payloads read back from any file that carries them, whatever else its table
    lists, in whatever order, and wherever its bytes lie.
   */
  lemma AnyLayoutReads(saga: Saga, h: Header, rest: seq<byte>)
    requires Writable(saga) && |saga.centroids| < U32_LIMIT && |saga.tags| < U32_LIMIT
    requires h.format == FormatId.Saga && h.version == 1
    requires CarriesParts(h, rest, SagaParts(saga))
    ensures ReadSaga(Seal(EncodeHeader(h) + rest)) == Ok(saga)
  {
    hide Open, Fetch, DecodeThree, Seal, EncodeHeader, CarriesParts, ReadSaga,
         SagaMetas.Encode, Centroids.EncodeAll, Tags.Section, Image, Fits;
    var p := SagaParts(saga);
    CarriedPartsAreFetched(h, rest, p, SAGA_V1);
    SagaRoundTrip(saga);
    ReadImage(saga.builtAt, p[0].payload, p[1].payload, p[2].payload);
    ReadOpened(Seal(EncodeHeader(h) + rest), h);
  }

  lemma ReadOpened(f: seq<byte>, h: Header)
    requires Open(f, SAGA_V1) == Ok(h)
    ensures ReadSaga(f) == Select(Fetch(f, h.sections, 1), Fetch(f, h.sections, 2), Fetch(f, h.sections, 3))
  {
    hide Open, Fetch, Select;
  }

  // ----- Damage -----

  /** Any damage to a sealed file within four consecutive bytes is reported as a failed file checksum. */
  lemma SagaBurstDetected(f: seq<byte>, g: seq<byte>, k: nat)
    requires |f| >= FILE_CHECKSUM_LEN + HEADER_LEN && Sealed(f)
    requires DifferWithin4(f, g, k) && f != g
    ensures ReadSaga(g) == Err(FileChecksumFailed)
  {
    hide Open, Sealed;
    BurstIsRefused(f, g, k, SAGA_V1);
  }
}
