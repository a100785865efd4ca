/**
  What both formats share: the trailing file checksum, opening a file, finding and checking a
  section, and the image that both writers assemble.
 */
module Container {
  import opened Bytes
  import opened Prelude
  import opened Format
  import opened Crc32c
  import opened Headers
  import opened Streams

  // ----- The trailing checksum -----

  function Body(f: seq<byte>): seq<byte>
    requires |f| >= FILE_CHECKSUM_LEN
  {
    f[..|f| - FILE_CHECKSUM_LEN]
  }

  /** The last four bytes are the CRC32C of all the others. */
  predicate Sealed(f: seq<byte>)
    requires |f| >= FILE_CHECKSUM_LEN
  {
    WordAt(f, |f| - FILE_CHECKSUM_LEN) == Checksum(Body(f))
  }

  function Seal(body: seq<byte>): (f: seq<byte>)
    ensures |f| == |body| + FILE_CHECKSUM_LEN && Body(f) == body
  {
    body + LeWord(Checksum(body))
  }

  lemma SealSeals(body: seq<byte>)
    ensures Sealed(Seal(body))
  {
    hide Checksum, LeWord, WordOf;
    assert Seal(body)[|body|..|body| + 4] == LeWord(Checksum(body));
    WordOfLeWord(Checksum(body));
  }

  /** A file is sealed exactly when the register ends in the residue, wherever the trailer starts. */
  lemma SealedIffResidue(f: seq<byte>)
    requires |f| >= FILE_CHECKSUM_LEN
    ensures Sealed(f) <==> Run(ONES, f) == RESIDUE
  {
    hide Checksum, WordOf, LeWord, Run, Step32, Pack;
    TrailerSplit(f);
    TrailerResidue(Body(f), f[|f| - 4..|f| - 4 + 4]);
  }

  lemma TrailerSplit(f: seq<byte>)
    requires |f| >= FILE_CHECKSUM_LEN
    ensures f == Body(f) + f[|f| - 4..|f| - 4 + 4]
  {
  }

  /** No change within four consecutive bytes keeps a file sealed, not even one across the trailer. */
  lemma BurstUnseals(f: seq<byte>, g: seq<byte>, k: nat)
    requires |f| >= FILE_CHECKSUM_LEN && Sealed(f)
    requires DifferWithin4(f, g, k) && f != g
    ensures !Sealed(g)
  {
    hide Sealed, Run;
    SealedIffResidue(f);
    SealedIffResidue(g);
    BurstChangesRun(ONES, f, g, k);
  }

  // ----- Opening a file -----

  /** Steps 1 and 2 of both readers: trailer, header and table, format, version. */
  function Open(all: seq<byte>, expected: FormatVersion): (r: Outcome<Header>)
    ensures !r.Panic?
    ensures r.Ok? ==> |all| >= FILE_CHECKSUM_LEN + HEADER_LEN && Sealed(all) && ParseHeader(Body(all)) == r
    ensures r.Ok? ==> r.value.format == expected.format && r.value.version == 1
  {
    if |all| < FILE_CHECKSUM_LEN + HEADER_LEN then Err(Truncated)
    else if !Sealed(all) then Err(FileChecksumFailed)
    else
      var header :- ParseHeader(Body(all));
      var found := FormatVersion(header.format, header.version);
      if found.format != expected.format then Err(FormatMismatch(found, expected))
      else if !Compatible(found) then Err(UnsupportedVersion(found.format, found.version))
      else Ok(header)
  }

  /**
    Why a file is not opened: it is too short to hold a header and a trailer, its trailer is wrong, its
    header does not parse, it is of another format, or of another version; and if several are wrong, for
    the first of these.
   */
  lemma OpenRefuses(all: seq<byte>, expected: FormatVersion)
    ensures |all| < 68 ==> Open(all, expected) == Err(Truncated)
    ensures |all| >= 68 && WordAt(all, |all| - 4) != Checksum(all[..|all| - 4]) ==>
              Open(all, expected) == Err(FileChecksumFailed)
    ensures |all| >= 68 && WordAt(all, |all| - 4) == Checksum(all[..|all| - 4]) ==>
              match ParseHeader(all[..|all| - 4])
              case Ok(h) =>
                && (h.format != expected.format ==>
                      Open(all, expected) == Err(FormatMismatch(FormatVersion(h.format, h.version), expected)))
                && (h.format == expected.format && h.version != 1 ==>
                      Open(all, expected) == Err(UnsupportedVersion(h.format, h.version)))
                && (h.format == expected.format && h.version == 1 ==> Open(all, expected) == Ok(h))
              case Err(e) => Open(all, expected) == Err(e)
              case Panic => false
  {
    hide Checksum, ParseHeader, LeWord, WordOf;
  }

  lemma OpenedIsLong(all: seq<byte>, expected: FormatVersion)
    requires Open(all, expected).Ok?
    ensures |all| >= FILE_CHECKSUM_LEN
  {
    hide Open;
  }

  method OpenImage(all: seq<byte>, expected: FormatVersion) returns (r: Outcome<Header>)
    ensures r == Open(all, expected)
  {
    hide Checksum, ParseHeader, Le, FromLe, WordOf, LeWord;
    if |all| < FILE_CHECKSUM_LEN + HEADER_LEN { return Err(Truncated); }
    var bodyEnd := |all| - FILE_CHECKSUM_LEN;
    var storedTrailer := WordAt(all, bodyEnd);
    var computedTrailer := Checksum(all[..bodyEnd]);
    if storedTrailer != computedTrailer { return Err(FileChecksumFailed); }
    var cursor := new Stream(all[..bodyEnd], true, Cursor);
    var header := Read(cursor);
    if !header.Ok? { return header; }
    var found := FormatVersion(header.value.format, header.value.version);
    if found.format != expected.format { return Err(FormatMismatch(found, expected)); }
    if !Compatible(found) { return Err(UnsupportedVersion(found.format, found.version)); }
    return header;
  }

  /** A damaged file is refused before anything in it is looked at. */
  lemma BurstIsRefused(f: seq<byte>, g: seq<byte>, k: nat, expected: FormatVersion)
    requires |f| >= FILE_CHECKSUM_LEN + HEADER_LEN && Sealed(f)
    requires DifferWithin4(f, g, k) && f != g
    ensures Open(g, expected) == Err(FileChecksumFailed)
  {
    hide Sealed;
    BurstUnseals(f, g, k);
  }

  // ----- Sections -----

  predicate IsLast(sections: seq<SectionEntry>, id: u16, k: nat)
    requires k < |sections|
  {
    sections[k].typeId == id && forall j :: k < j < |sections| ==> sections[j].typeId != id
  }

  /** The last table entry with this type id: what the readers' scan ends up with. */
  function Last(sections: seq<SectionEntry>, id: u16): (r: Option<SectionEntry>)
    ensures r.Some? ==> r.value in sections && r.value.typeId == id
    ensures r.Some? ==> exists k :: 0 <= k < |sections| && sections[k] == r.value && IsLast(sections, id, k)
    ensures r.None? ==> forall e :: e in sections ==> e.typeId != id
  {
    if sections == [] then None
    else if sections[|sections| - 1].typeId == id then Some(sections[|sections| - 1])
    else Last(sections[..|sections| - 1], id)
  }

  /** The scan over the table, keeping the last entry of each required id and skipping the rest. */
  method LocateThree(sections: seq<SectionEntry>)
    returns (first: Option<SectionEntry>, second: Option<SectionEntry>, third: Option<SectionEntry>)
    ensures first == Last(sections, 1) && second == Last(sections, 2) && third == Last(sections, 3)
  {
    first, second, third := None, None, None;
    for i := 0 to |sections|
      invariant first == Last(sections[..i], 1)
      invariant second == Last(sections[..i], 2)
      invariant third == Last(sections[..i], 3)
    {
      var sec := sections[i];
      assert sections[..i + 1][..i] == sections[..i];
      if sec.typeId == 1 { first := Some(sec); }
      else if sec.typeId == 2 { second := Some(sec); }
      else if sec.typeId == 3 { third := Some(sec); }
    }
    assert sections[..|sections|] == sections;
  }

  /** `read_section`. */
  function ReadSection(all: seq<byte>, offset: u64, length: u64): (r: Outcome<seq<byte>>)
    requires |all| >= FILE_CHECKSUM_LEN
    ensures !r.Panic?
  {
    if offset + length >= U64_LIMIT then Err(Malformed(SectionOverflow))
    else if offset + length > |all| - FILE_CHECKSUM_LEN then Err(Truncated)
    else Ok(all[offset..offset + length])
  }

  /** A section's bytes, once its own checksum has been verified. */
  function CheckedSection(all: seq<byte>, e: SectionEntry): (r: Outcome<seq<byte>>)
    requires |all| >= FILE_CHECKSUM_LEN
    ensures !r.Panic?
  {
    var bytes :- ReadSection(all, e.offset, e.length);
    if Checksum(bytes) != e.checksum then Err(SectionChecksumFailed(e.typeId)) else Ok(bytes)
  }

  /**
    Why a section is not read: its end cannot be expressed in 64 bits, or lies beyond the trailer's start,
    or its bytes do not have the declared checksum.
   */
  lemma SectionRefused(all: seq<byte>, e: SectionEntry)
    requires |all| >= 4
    ensures e.offset + e.length >= 0x1_0000_0000_0000_0000 ==> CheckedSection(all, e) == Err(Malformed(SectionOverflow))
    ensures |all| - 4 < e.offset + e.length < 0x1_0000_0000_0000_0000 ==> CheckedSection(all, e) == Err(Truncated)
    ensures e.offset + e.length <= |all| - 4 && e.offset + e.length < 0x1_0000_0000_0000_0000 ==>
              var bytes := all[e.offset..e.offset + e.length];
              CheckedSection(all, e)
                == if Checksum(bytes) == e.checksum then Ok(bytes) else Err(SectionChecksumFailed(e.typeId))
  {
    hide Checksum;
  }

  /** The section a reader selects for `id`, read and checked; `None` when the table has no such entry. */
  function Fetch(all: seq<byte>, sections: seq<SectionEntry>, id: u16): Option<Outcome<seq<byte>>>
    requires |all| >= FILE_CHECKSUM_LEN
  {
    match Last(sections, id)
    case None => None
    case Some(e) => Some(CheckedSection(all, e))
  }

  predicate Fetched(all: seq<byte>, sections: seq<SectionEntry>, id: u16)
    requires |all| >= FILE_CHECKSUM_LEN
  {
    Fetch(all, sections, id).Some? && Fetch(all, sections, id).value.Ok?
  }

  // ----- Layout independence -----

  /** What a reader can see of a table entry: its id, its checksum and the bytes it covers. */
  datatype Content = Content(typeId: u16, checksum: word, bytes: seq<byte>)

  predicate InRange(all: seq<byte>, e: SectionEntry) {
    e.offset + e.length + FILE_CHECKSUM_LEN <= |all| && e.offset + e.length < U64_LIMIT
  }

  function ContentOf(all: seq<byte>, e: SectionEntry): Content
    requires InRange(all, e)
  {
    Content(e.typeId, e.checksum, all[e.offset..e.offset + e.length])
  }

  /** What a reader can see of an id: the last entry that has it, and of that not where its bytes lie. */
  datatype View = Absent | Overflowing | BeyondEnd | Covering(content: Content)

  function ViewOf(all: seq<byte>, sections: seq<SectionEntry>, id: u16): View {
    match Last(sections, id)
    case None => Absent
    case Some(e) =>
      if e.offset + e.length >= U64_LIMIT then Overflowing
      else if e.offset + e.length + FILE_CHECKSUM_LEN > |all| then BeyondEnd
      else Covering(ContentOf(all, e))
  }

  /** Nothing else decides what a reader fetches: not earlier entries, other ids, order, offsets or flags. */
  lemma SameViewSameSection(f: seq<byte>, fs: seq<SectionEntry>, g: seq<byte>, gs: seq<SectionEntry>, id: u16)
    requires |f| >= FILE_CHECKSUM_LEN && |g| >= FILE_CHECKSUM_LEN
    requires ViewOf(f, fs, id) == ViewOf(g, gs, id)
    ensures Fetch(f, fs, id) == Fetch(g, gs, id)
  {
    hide Checksum;
    if Last(fs, id).Some? && Last(gs, id).Some? && InRange(f, Last(fs, id).value) {
      CheckedFromContent(f, Last(fs, id).value);
      CheckedFromContent(g, Last(gs, id).value);
    }
  }

  lemma CheckedFromContent(all: seq<byte>, e: SectionEntry)
    requires InRange(all, e)
    ensures var c := ContentOf(all, e);
            CheckedSection(all, e)
              == if Checksum(c.bytes) != c.checksum then Err(SectionChecksumFailed(c.typeId)) else Ok(c.bytes)
  {
    hide Checksum;
  }

  predicate Known(e: SectionEntry) {
    1 <= e.typeId <= 3
  }

  ghost predicate KnownInRange(all: seq<byte>, sections: seq<SectionEntry>) {
    forall e :: e in sections && Known(e) ==> InRange(all, e)
  }

  /** The known sections' contents, with order, offsets, flags and unknown sections forgotten. */
  ghost function KnownContents(all: seq<byte>, sections: seq<SectionEntry>): set<Content>
    requires KnownInRange(all, sections)
  {
    set e | e in sections && Known(e) :: ContentOf(all, e)
  }

  ghost predicate UniqueIds(contents: set<Content>) {
    forall c, d :: c in contents && d in contents && c.typeId == d.typeId ==> c == d
  }

  /** When ids are unique and in range, the set of known contents is all there is to see. */
  lemma SameContentsSameView(f: seq<byte>, fs: seq<SectionEntry>, g: seq<byte>, gs: seq<SectionEntry>, id: u16)
    requires KnownInRange(f, fs) && KnownInRange(g, gs)
    requires KnownContents(f, fs) == KnownContents(g, gs) && UniqueIds(KnownContents(f, fs))
    requires 1 <= id <= 3
    ensures ViewOf(f, fs, id) == ViewOf(g, gs, id)
  {
    var lf, lg := Last(fs, id), Last(gs, id);
    if lf.Some? {
      var c := ContentOf(f, lf.value);
      assert c in KnownContents(g, gs);
      var e :| e in gs && Known(e) && ContentOf(g, e) == c;
      assert lg.Some?;
    }
    if lg.Some? {
      var d := ContentOf(g, lg.value);
      assert d in KnownContents(f, fs);
      var e :| e in fs && Known(e) && ContentOf(f, e) == d;
      assert lf.Some? && ContentOf(f, lf.value) in KnownContents(f, fs);
    }
  }

  // ----- How much was selected -----

  function LengthOf(e: Option<SectionEntry>): nat {
    if e.Some? then e.value.length else 0
  }

  /** The length of a file with nothing but the three selected payloads. */
  function RewrittenLen(sections: seq<SectionEntry>): nat {
    HEADER_LEN + TableLen(3) + LengthOf(Last(sections, 1)) + LengthOf(Last(sections, 2)) + LengthOf(Last(sections, 3))
      + FILE_CHECKSUM_LEN
  }

  /** In a file of at most 2^61 bytes the selected sections are never too much for a vector, even if they overlap. */
  lemma SmallFilesFit(all: seq<byte>, sections: seq<SectionEntry>)
    requires FILE_CHECKSUM_LEN <= |all| <= 0x2000_0000_0000_0000
    requires Fetched(all, sections, 1) && Fetched(all, sections, 2) && Fetched(all, sections, 3)
    ensures RewrittenLen(sections) <= ISIZE_MAX
  {
    hide Checksum, Last;
    FetchedLength(all, sections, 1);
    FetchedLength(all, sections, 2);
    FetchedLength(all, sections, 3);
  }

  lemma FetchedLength(all: seq<byte>, sections: seq<SectionEntry>, id: u16)
    requires |all| >= FILE_CHECKSUM_LEN && Fetched(all, sections, id)
    ensures |Fetch(all, sections, id).value.value| == LengthOf(Last(sections, id)) <= |all|
  {
    hide Checksum, Last;
  }
}
