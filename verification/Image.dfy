/** The file image both writers assemble: header, table, payloads back to back, trailing checksum. */
module Images {
  import opened Bytes
  import opened Prelude
  import opened Format
  import opened Crc32c
  import opened Headers
  import opened Streams
  import opened Container

  datatype Part = Part(typeId: u16, payload: seq<byte>)

  function TotalLen(parts: seq<Part>): nat {
    if parts == [] then 0 else |parts[0].payload| + TotalLen(parts[1..])
  }

  function Payloads(parts: seq<Part>): (b: seq<byte>)
    ensures |b| == TotalLen(parts)
  {
    if parts == [] then [] else parts[0].payload + Payloads(parts[1..])
  }

  function LaidOut(parts: seq<Part>, at: nat): (es: seq<SectionEntry>)
    requires at + TotalLen(parts) <= ISIZE_MAX
    ensures |es| == |parts|
    decreases |parts|
  {
    if parts == [] then []
    else
      var p := parts[0];
      [SectionEntry(p.typeId, 0, at, |p.payload|, Checksum(p.payload))]
        + LaidOut(parts[1..], at + |p.payload|)
  }

  /** The image is a Rust vector, so its length is at most `isize::MAX`. */
  predicate Fits(parts: seq<Part>) {
    HEADER_LEN + TableLen(|parts|) + TotalLen(parts) + FILE_CHECKSUM_LEN <= ISIZE_MAX
  }

  function ImageHeader(fv: FormatVersion, createdAt: i64, parts: seq<Part>): (h: Header)
    requires Fits(parts)
    ensures |h.sections| == |parts|
  {
    Header(fv.format, fv.version, 0, createdAt, TableLen(|parts|) + TotalLen(parts),
           LaidOut(parts, HEADER_LEN + TableLen(|parts|)))
  }

  function Image(fv: FormatVersion, createdAt: i64, parts: seq<Part>): (f: seq<byte>)
    requires Fits(parts)
    ensures |f| == HEADER_LEN + ImageHeader(fv, createdAt, parts).bodyLen + FILE_CHECKSUM_LEN
  {
    Seal(EncodeHeader(ImageHeader(fv, createdAt, parts)) + Payloads(parts))
  }

  // ----- The layout tiles the file -----

  /** Each entry starts where the one before it ended; the first at `at`, the last ending at `end`. */
  ghost predicate Tiles(sections: seq<SectionEntry>, at: nat, end: nat) {
    if sections == [] then at == end
    else sections[0].offset == at && Tiles(sections[1..], at + sections[0].length, end)
  }

  /** Entry `i` names part `i`, covers its payload and carries its checksum. */
  ghost predicate Holds(f: seq<byte>, e: SectionEntry, p: Part) {
    && e.typeId == p.typeId && e.flags == 0
    && e.offset + e.length <= |f| && f[e.offset..e.offset + e.length] == p.payload
    && e.checksum == Checksum(p.payload)
  }

  lemma {:induction false} LaidOutTiles(parts: seq<Part>, at: nat)
    requires at + TotalLen(parts) <= ISIZE_MAX
    ensures Tiles(LaidOut(parts, at), at, at + TotalLen(parts))
    decreases |parts|
  {
    hide Checksum;
    if parts != [] {
      LaidOutTiles(parts[1..], at + |parts[0].payload|);
      assert LaidOut(parts, at)[1..] == LaidOut(parts[1..], at + |parts[0].payload|);
    }
  }

  lemma {:induction false} LaidOutHolds(parts: seq<Part>, at: nat, f: seq<byte>, i: nat)
    requires i < |parts| && at + TotalLen(parts) <= ISIZE_MAX
    requires at + TotalLen(parts) <= |f| && f[at..at + TotalLen(parts)] == Payloads(parts)
    ensures var e := LaidOut(parts, at)[i];
            Holds(f, e, parts[i]) && at <= e.offset && e.offset + e.length <= at + TotalLen(parts)
    decreases |parts|
  {
    hide Checksum;
    var p, rest := parts[0], parts[1..];
    var next := at + |p.payload|;
    var all := f[at..at + TotalLen(parts)];
    if i == 0 {
      assert f[at..next] == all[..|p.payload|];
    } else {
      assert f[next..next + TotalLen(rest)] == all[|p.payload|..];
      LaidOutHolds(rest, next, f, i - 1);
    }
  }

  /**
    In a written image the sections are consecutive from the end of the table up to the trailer,
    each holds its payload with its checksum, and the header's body length accounts for the rest.
   */
  lemma ImageTiles(fv: FormatVersion, createdAt: i64, parts: seq<Part>)
    requires Fits(parts)
    ensures var f := Image(fv, createdAt, parts);
            var h := ImageHeader(fv, createdAt, parts);
            && Tiles(h.sections, h.FirstPayloadOffset(), |f| - FILE_CHECKSUM_LEN)
            && HEADER_LEN + h.bodyLen + FILE_CHECKSUM_LEN == |f|
            && forall i :: 0 <= i < |parts| ==>
                 var e := h.sections[i];
                 && Holds(f, e, parts[i])
                 && h.FirstPayloadOffset() <= e.offset && e.offset + e.length <= |f| - FILE_CHECKSUM_LEN
  {
    hide Checksum, EncodeHeader, LeWord, LaidOut, Holds, Tiles, Payloads, TotalLen;
    var f, h := Image(fv, createdAt, parts), ImageHeader(fv, createdAt, parts);
    var at := h.FirstPayloadOffset();
    assert f[at..at + TotalLen(parts)] == Payloads(parts);
    LaidOutTiles(parts, at);
    forall i | 0 <= i < |parts|
      ensures var e := h.sections[i];
              && Holds(f, e, parts[i])
              && h.FirstPayloadOffset() <= e.offset && e.offset + e.length <= |f| - FILE_CHECKSUM_LEN
    {
      LaidOutHolds(parts, at, f, i);
    }
  }

  /** A written image opens, and its header is the one that was written. */
  lemma ImageOpens(fv: FormatVersion, createdAt: i64, parts: seq<Part>)
    requires Fits(parts) && |parts| < U32_LIMIT && fv.version == 1
    ensures Sealed(Image(fv, createdAt, parts))
    ensures ParseHeader(Image(fv, createdAt, parts)) == Ok(ImageHeader(fv, createdAt, parts))
    ensures Open(Image(fv, createdAt, parts), fv) == Ok(ImageHeader(fv, createdAt, parts))
  {
    hide Checksum, EncodeHeader, ParseHeader, LeWord, Sealed, LaidOut;
    var h := ImageHeader(fv, createdAt, parts);
    var body := EncodeHeader(h) + Payloads(parts);
    SealSeals(body);
    HeaderRoundTrip(h, body);
    HeaderRoundTrip(h, Image(fv, createdAt, parts));
  }

  lemma HoldsIsChecked(f: seq<byte>, e: SectionEntry, p: Part)
    requires |f| >= FILE_CHECKSUM_LEN && Holds(f, e, p)
    requires e.offset + e.length <= |f| - FILE_CHECKSUM_LEN && e.offset + e.length < U64_LIMIT
    ensures CheckedSection(f, e) == Ok(p.payload)
  {
    hide Checksum;
  }

  // ----- The three-section images of both formats -----

  function Parts(a: seq<byte>, b: seq<byte>, c: seq<byte>): (parts: seq<Part>)
    ensures |parts| == 3
  {
    [Part(1, a), Part(2, b), Part(3, c)]
  }

  lemma Cons(p: Part, rest: seq<Part>, at: nat)
    ensures TotalLen([p] + rest) == |p.payload| + TotalLen(rest)
    ensures Payloads([p] + rest) == p.payload + Payloads(rest)
    ensures at + TotalLen([p] + rest) <= ISIZE_MAX ==>
      LaidOut([p] + rest, at)
        == [SectionEntry(p.typeId, 0, at, |p.payload|, Checksum(p.payload))] + LaidOut(rest, at + |p.payload|)
  {
    hide Checksum;
    assert ([p] + rest)[1..] == rest;
  }

  lemma ConsParts(a: seq<byte>, b: seq<byte>, c: seq<byte>)
    ensures Parts(a, b, c) == [Part(1, a)] + ([Part(2, b)] + ([Part(3, c)] + []))
  {
  }

  lemma PartsLen(a: seq<byte>, b: seq<byte>, c: seq<byte>)
    ensures TotalLen(Parts(a, b, c)) == |a| + |b| + |c|
    ensures Payloads(Parts(a, b, c)) == a + b + c
  {
    ConsParts(a, b, c);
    Cons(Part(3, c), [], 0);
    Cons(Part(2, b), [Part(3, c)] + [], 0);
    Cons(Part(1, a), [Part(2, b)] + ([Part(3, c)] + []), 0);
    assert a + (b + (c + [])) == a + b + c;
  }

  lemma ThreeEntries(a: seq<byte>, b: seq<byte>, c: seq<byte>, at: nat)
    requires at + |a| + |b| + |c| <= ISIZE_MAX
    ensures TotalLen(Parts(a, b, c)) == |a| + |b| + |c|
    ensures LaidOut(Parts(a, b, c), at) == [
      SectionEntry(1, 0, at, |a|, Checksum(a)),
      SectionEntry(2, 0, at + |a|, |b|, Checksum(b)),
      SectionEntry(3, 0, at + |a| + |b|, |c|, Checksum(c))]
  {
    hide Checksum;
    PartsLen(a, b, c);
    ConsParts(a, b, c);
    Cons(Part(1, a), [Part(2, b)] + ([Part(3, c)] + []), at);
    Cons(Part(2, b), [Part(3, c)] + [], at + |a|);
    Cons(Part(3, c), [], at + |a| + |b|);
  }

  lemma ThreeLast(x: SectionEntry, y: SectionEntry, z: SectionEntry)
    requires x.typeId == 1 && y.typeId == 2 && z.typeId == 3
    ensures Last([x, y, z], 1) == Some(x) && Last([x, y, z], 2) == Some(y) && Last([x, y, z], 3) == Some(z)
  {
    assert [x, y, z][..2] == [x, y];
    assert [x, y][..1] == [x];
  }

  /** Looking up and checking each of the three sections of a written image yields its payload. */
  lemma ThreeSections(fv: FormatVersion, createdAt: i64, a: seq<byte>, b: seq<byte>, c: seq<byte>)
    requires Fits(Parts(a, b, c))
    ensures var f := Image(fv, createdAt, Parts(a, b, c));
            var s := ImageHeader(fv, createdAt, Parts(a, b, c)).sections;
            && Last(s, 1) == Some(s[0]) && CheckedSection(f, s[0]) == Ok(a)
            && Last(s, 2) == Some(s[1]) && CheckedSection(f, s[1]) == Ok(b)
            && Last(s, 3) == Some(s[2]) && CheckedSection(f, s[2]) == Ok(c)
  {
    hide Checksum, CheckedSection, Seal, EncodeHeader;
    var parts := Parts(a, b, c);
    var f, s := Image(fv, createdAt, parts), ImageHeader(fv, createdAt, parts).sections;
    ImageTiles(fv, createdAt, parts);
    HoldsIsChecked(f, s[0], parts[0]);
    HoldsIsChecked(f, s[1], parts[1]);
    HoldsIsChecked(f, s[2], parts[2]);
    assert s == [s[0], s[1], s[2]];
    ThreeLast(s[0], s[1], s[2]);
  }

  /** What the header of a written image says, field by field. */
  lemma ImageSays(fv: FormatVersion, createdAt: i64, a: seq<byte>, b: seq<byte>, c: seq<byte>)
    requires 152 + |a| + |b| + |c| <= ISIZE_MAX && fv.version == 1
    ensures Fits(Parts(a, b, c))
    ensures ParseHeader(Image(fv, createdAt, Parts(a, b, c)))
         == Ok(Header(fv.format, 1, 0, createdAt, 84 + |a| + |b| + |c|, [
                 SectionEntry(1, 0, 148, |a|, Checksum(a)),
                 SectionEntry(2, 0, 148 + |a|, |b|, Checksum(b)),
                 SectionEntry(3, 0, 148 + |a| + |b|, |c|, Checksum(c))]))
  {
    hide Checksum, Image, LaidOut, TotalLen, ParseHeader, Open, Sealed, Parts;
    PartsLen(a, b, c);
    ThreeEntries(a, b, c, 148);
    ImageOpens(fv, createdAt, Parts(a, b, c));
  }

  // ----- The same sections in another layout -----

  /**
    The last entry of each of the three ids covers that part's payload, with its checksum, in a
    file that is this header, then `rest`, then a trailer. Other entries may say anything.
   */
  ghost predicate CarriesParts(h: Header, rest: seq<byte>, parts: seq<Part>)
    requires |parts| == 3
  {
    && |h.sections| < U32_LIMIT
    && Carries(h, rest, 1, parts[0].payload)
    && Carries(h, rest, 2, parts[1].payload)
    && Carries(h, rest, 3, parts[2].payload)
  }

  ghost predicate Carries(h: Header, rest: seq<byte>, id: u16, payload: seq<byte>) {
    var last := Last(h.sections, id);
    last.Some? && Covers(EncodeHeader(h) + rest, last.value, payload)
  }

  ghost predicate Covers(body: seq<byte>, e: SectionEntry, payload: seq<byte>) {
    && e.offset + e.length <= |body| && e.offset + e.length < U64_LIMIT
    && body[e.offset..e.offset + e.length] == payload
    && e.checksum == Checksum(payload)
  }

  lemma CarriedPartsAreFetched(h: Header, rest: seq<byte>, parts: seq<Part>, fv: FormatVersion)
    requires |parts| == 3 && CarriesParts(h, rest, parts)
    requires h.format == fv.format && h.version == fv.version == 1
    ensures var f := Seal(EncodeHeader(h) + rest);
            && Open(f, fv) == Ok(h)
            && Fetch(f, h.sections, 1) == Some(Ok(parts[0].payload))
            && Fetch(f, h.sections, 2) == Some(Ok(parts[1].payload))
            && Fetch(f, h.sections, 3) == Some(Ok(parts[2].payload))
  {
    hide Checksum, EncodeHeader, ParseHeader, LeWord, Sealed, Last, Covers;
    var body := EncodeHeader(h) + rest;
    SealSeals(body);
    HeaderRoundTrip(h, body);
    assert Body(Seal(body)) == body;
    CoveredIsChecked(body, Last(h.sections, 1).value, parts[0].payload);
    CoveredIsChecked(body, Last(h.sections, 2).value, parts[1].payload);
    CoveredIsChecked(body, Last(h.sections, 3).value, parts[2].payload);
  }

  lemma CoveredIsChecked(body: seq<byte>, e: SectionEntry, payload: seq<byte>)
    requires Covers(body, e, payload)
    ensures CheckedSection(Seal(body), e) == Ok(payload)
  {
    hide Checksum, LeWord;
    assert Seal(body)[e.offset..e.offset + e.length] == body[e.offset..e.offset + e.length];
  }

  // ----- Writing -----

  /** Steps 2 to 5 of both writers. */
  method WriteThree(fv: FormatVersion, createdAt: i64, a: seq<byte>, b: seq<byte>, c: seq<byte>, writer: Stream)
    returns (r: Outcome<()>)
    requires Fits(Parts(a, b, c))
    modifies writer`pos, writer`data
    ensures r == Ok(()) || (!writer.reliable && r == Err(Io))
    ensures r.Ok? ==> writer.data == Overwrite(old(writer.data), 0, Image(fv, createdAt, Parts(a, b, c)))
  {
    hide Checksum, EncodeHeader, LeWord, LaidOut, TotalLen;
    PartsLen(a, b, c);
    // Where each payload will lie.
    var tableLen := TableLen(3);
    var aOffset := HEADER_LEN + tableLen;
    var bOffset := aOffset + |a|;
    var cOffset := bOffset + |b|;
    var bodyLen := tableLen + |a| + |b| + |c|;
    var header := Header(fv.format, fv.version, 0, createdAt, bodyLen, [
      SectionEntry(1, 0, aOffset, |a|, Checksum(a)),
      SectionEntry(2, 0, bOffset, |b|, Checksum(b)),
      SectionEntry(3, 0, cOffset, |c|, Checksum(c))]);
    ThreeEntries(a, b, c, aOffset);
    assert header == ImageHeader(fv, createdAt, Parts(a, b, c));
    // Everything up to the trailer, in memory.
    var cursor := new Stream([], true, Cursor);
    var written := Write(header, cursor);
    var image := cursor.data;
    assert image == EncodeHeader(header);
    image := image + a;
    image := image + b;
    image := image + c;
    assert image == EncodeHeader(header) + (a + b + c);
    var trailer := Checksum(image);
    image := image + LeWord(trailer);
    // One write for the whole of it.
    var ok := writer.Seek(0);
    if !ok { return Err(Io); }
    ok := writer.WriteAll(image);
    if !ok { return Err(Io); }
    ok := writer.Flush();
    if !ok { return Err(Io); }
    return Ok(());
  }

  /** Writing into a fresh file leaves exactly the image in it. */
  lemma OverwriteFresh(bytes: seq<byte>)
    ensures Overwrite([], 0, bytes) == bytes
  {
  }
}
