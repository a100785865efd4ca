/** The scrubber: an independent check of every section, reading in chunks. */
module Scrub {
  import opened Bytes
  import opened Prelude
  import opened Reads
  import opened Format
  import opened Crc32c
  import opened Headers
  import opened Streams
  import opened Container
  import opened Images
  import Sagas
  import KvCaches

  const SCRUB_CHUNK_BYTES: nat := 65536

  datatype ScrubOutcome = Clean | ChecksumMismatch(expected: word, got: word) | ReadError

  datatype ScrubFinding = ScrubFinding(typeId: u16, offset: u64, length: u64, outcome: ScrubOutcome)

  datatype ScrubReport = ScrubReport(format: Option<FormatId>, findings: seq<ScrubFinding>, headerError: Option<Error>)

  // ----- One section -----

  /** The one-shot verdict on a section: seek to it, take all of it, compare checksums. */
  function Verdict(kind: Kind, f: seq<byte>, e: SectionEntry): ScrubOutcome {
    if e.offset > kind.MaxSeek() then ReadError
    else if e.length > 0 && e.offset + e.length > |f| then ReadError
    else
      var got := Checksum(if e.length == 0 then [] else f[e.offset..e.offset + e.length]);
      if got == e.checksum then Clean else ChecksumMismatch(e.checksum, got)
  }

  /** A section that lies in the file is clean exactly when its bytes have the declared checksum. */
  lemma VerdictInRange(kind: Kind, f: seq<byte>, e: SectionEntry)
    requires e.offset + e.length <= |f| && e.offset <= kind.MaxSeek()
    ensures Verdict(kind, f, e) == Clean <==> Checksum(f[e.offset..e.offset + e.length]) == e.checksum
    ensures Verdict(kind, f, e) != ReadError
  {
    hide Checksum;
    assert e.length == 0 ==> f[e.offset..e.offset + e.length] == [];
  }

  function Finding(e: SectionEntry, outcome: ScrubOutcome): ScrubFinding {
    ScrubFinding(e.typeId, e.offset, e.length, outcome)
  }

  // ----- One section, read by read -----

  /** What comes of one read after another, from a checksum so far, with this many bytes to go. */
  function Streamed(crc: word, remaining: nat, pieces: seq<Piece>, declared: word): ScrubOutcome
    decreases |pieces|
  {
    if remaining == 0 then if crc == declared then Clean else ChecksumMismatch(declared, crc)
    else if pieces == [] || pieces[0].bytes == [] || |pieces[0].bytes| > remaining then ReadError
    else Streamed(Append(crc, pieces[0].bytes), remaining - |pieces[0].bytes|, pieces[1..], declared)
  }

  /** What the scrubber makes of a section from the reads it made for it. */
  function FromPieces(kind: Kind, e: SectionEntry, pieces: seq<Piece>): ScrubOutcome {
    if e.offset > kind.MaxSeek() then ReadError else Streamed(0, e.length, pieces, e.checksum)
  }

  /** No read asks for more than there is to go; the last one meets the end of the file or leaves nothing to go. */
  predicate Enough(remaining: nat, pieces: seq<Piece>)
    decreases |pieces|
  {
    if pieces == [] then remaining == 0
    else
      && remaining > 0 && |pieces[0].bytes| <= remaining
      && if pieces[0].bytes == [] then |pieces| == 1 else Enough(remaining - |pieces[0].bytes|, pieces[1..])
  }

  /** The reads made for one section: none if its offset cannot be sought. */
  predicate ReadsSection(kind: Kind, e: SectionEntry, pieces: seq<Piece>) {
    if e.offset > kind.MaxSeek() then pieces == [] else Follow(pieces, e.offset) && Enough(e.length, pieces)
  }

  lemma {:induction false} StreamedFrom(f: seq<byte>, at: nat, crc: word, remaining: nat, pieces: seq<Piece>, declared: word)
    requires AllFrom(f, pieces) && Follow(pieces, at) && Enough(remaining, pieces)
    ensures remaining > 0 && at + remaining > |f| ==> Streamed(crc, remaining, pieces, declared) == ReadError
    ensures remaining == 0 || at + remaining <= |f| ==>
      var got := if remaining == 0 then crc else Append(crc, f[at..at + remaining]);
      Streamed(crc, remaining, pieces, declared) == if got == declared then Clean else ChecksumMismatch(declared, got)
    decreases |pieces|
  {
    hide Append;
    if pieces != [] {
      assert From(f, pieces[0]);
      var n := |pieces[0].bytes|;
      if n > 0 {
        var rest := pieces[1..];
        assert AllFrom(f, rest);
        StreamedFrom(f, at + n, Append(crc, pieces[0].bytes), remaining - n, rest, declared);
        if n < remaining && at + remaining <= |f| {
          AppendConcat(crc, f[at..at + n], f[at + n..at + remaining]);
          assert f[at..at + n] + f[at + n..at + remaining] == f[at..at + remaining];
        }
      }
    }
  }

  /** However short the reads come, what the scrubber makes of them is the one-shot verdict. */
  lemma PiecesGiveVerdict(kind: Kind, f: seq<byte>, e: SectionEntry, pieces: seq<Piece>)
    requires AllFrom(f, pieces) && ReadsSection(kind, e, pieces)
    ensures FromPieces(kind, e, pieces) == Verdict(kind, f, e)
  {
    hide Append, AllFrom;
    if e.offset <= kind.MaxSeek() {
      StreamedFrom(f, e.offset, 0, e.length, pieces, e.checksum);
      EmptyIsZero();
    }
  }

  // ----- One section, by the loop -----

  /** Reads one after another from `at`, none of them empty, that leave `remaining` bytes of `length` to go. */
  ghost predicate Underway(at: nat, length: nat, pieces: seq<Piece>, remaining: nat) {
    && Follow(pieces, at) && |Joined(pieces)| + remaining == length
    && forall i :: 0 <= i < |pieces| ==> pieces[i].bytes != []
  }

  lemma {:induction false} OneMoreRead(at: nat, length: nat, pieces: seq<Piece>, remaining: nat, p: Piece)
    requires Underway(at, length, pieces, remaining) && remaining > 0
    requires p.at == at + (length - remaining) && |p.bytes| <= remaining
    ensures Joined(pieces + [p]) == Joined(pieces) + p.bytes
    ensures p.bytes != [] ==> Underway(at, length, pieces + [p], remaining - |p.bytes|)
    ensures p.bytes == [] ==> Follow(pieces + [p], at) && Enough(length, pieces + [p])
    ensures p.bytes == [] ==> forall crc, declared :: Streamed(crc, length, pieces + [p], declared) == ReadError
    decreases |pieces|
  {
    if pieces == [] {
      assert pieces + [p] == [p];
    } else {
      var q, rest := pieces[0], pieces[1..];
      assert (pieces + [p])[1..] == rest + [p];
      OneMoreRead(at + |q.bytes|, length - |q.bytes|, rest, remaining, p);
    }
  }

  lemma {:induction false} AllRead(at: nat, length: nat, pieces: seq<Piece>, crc: word, declared: word)
    requires Underway(at, length, pieces, 0)
    ensures Enough(length, pieces)
    ensures var got := Append(crc, Joined(pieces));
            Streamed(crc, length, pieces, declared) == if got == declared then Clean else ChecksumMismatch(declared, got)
    decreases |pieces|
  {
    hide Append;
    AppendNothing(crc);
    if pieces != [] {
      var q, rest := pieces[0], pieces[1..];
      AllRead(at + |q.bytes|, length - |q.bytes|, rest, Append(crc, q.bytes), declared);
      AppendConcat(crc, q.bytes, Joined(rest));
    }
  }

  /** The section can be read: its offset can be sought, and unless it is empty it lies in the file. */
  predicate Readable(kind: Kind, f: seq<byte>, e: SectionEntry) {
    && e.offset <= (if kind == File then 0x7FFF_FFFF_FFFF_FFFF else 0xFFFF_FFFF_FFFF_FFFF)
    && (e.length == 0 || e.offset + e.length <= |f|)
  }

  /** Its bytes. */
  function Covered(f: seq<byte>, e: SectionEntry): seq<byte>
    requires e.length == 0 || e.offset + e.length <= |f|
  {
    if e.length == 0 then [] else f[e.offset..e.offset + e.length]
  }

  /** What an outcome says of a section: what was declared, and the checksum its bytes have. */
  ghost predicate Means(kind: Kind, f: seq<byte>, e: SectionEntry, outcome: ScrubOutcome) {
    && (outcome == ReadError <==> !Readable(kind, f, e))
    && (Readable(kind, f, e) ==>
          && (outcome == Clean <==> Checksum(Covered(f, e)) == e.checksum)
          && (outcome != Clean ==> outcome == ChecksumMismatch(e.checksum, Checksum(Covered(f, e)))))
  }

  lemma VerdictMeans(kind: Kind, f: seq<byte>, e: SectionEntry)
    ensures Means(kind, f, e, Verdict(kind, f, e))
  {
    hide Append;
  }

  /** An empty section is clean exactly if its checksum is declared to be zero. */
  lemma EmptyMeans(f: seq<byte>, e: SectionEntry)
    requires e.length == 0
    ensures Checksum(Covered(f, e)) == 0
  {
    EmptyIsZero();
  }

  /**
    Whatever the portions the reads come in, the outcome is the one-shot verdict: a read error exactly if
    the section cannot be read, clean exactly if its bytes have the declared checksum, and else a mismatch
    that names both checksums.
   */
  method VerifySection(reader: Stream, section: SectionEntry) returns (r: ScrubFinding, ghost pieces: seq<Piece>)
    modifies reader`pos
    ensures r == Finding(section, Verdict(reader.kind, reader.data, section))
         || (!reader.reliable && r == Finding(section, ReadError))
    ensures r.typeId == section.typeId && r.offset == section.offset && r.length == section.length
    ensures reader.reliable ==> Means(reader.kind, reader.data, section, r.outcome)
    ensures AllFrom(reader.data, pieces)
    ensures reader.reliable ==>
      ReadsSection(reader.kind, section, pieces) && r.outcome == FromPieces(reader.kind, section, pieces)
  {
    hide Append, Verdict, Means, Streamed, Follow, Enough, Underway, AllFrom;
    pieces := [];
    NothingRead(reader.data, section.offset, section.length);
    VerdictMeans(reader.kind, reader.data, section);
    var ok := reader.Seek(section.offset);
    if !ok {
      if section.offset > reader.kind.MaxSeek() { Unsought(reader.kind, reader.data, section); }
      return Finding(section, ReadError), pieces;
    }
    var builder := new Crc32cBuilder();
    var remaining := section.length;
    var size := if section.length < 1 then 1 else section.length;
    var buf := new byte[if SCRUB_CHUNK_BYTES < size then SCRUB_CHUNK_BYTES else size];
    while remaining > 0
      invariant 0 <= remaining <= section.length
      invariant reader.pos == section.offset + (section.length - remaining)
      invariant builder.Valid() && builder.fed == Joined(pieces)
      invariant Underway(section.offset, section.length, pieces, remaining) && AllFrom(reader.data, pieces)
      decreases remaining
    {
      var want := if remaining < buf.Length then remaining else buf.Length;
      ghost var at := reader.pos;
      var got := reader.Read(buf, want);
      if got.None? { return Finding(section, ReadError), pieces; }
      var n := got.value;
      ghost var piece := Piece(at, buf[..n]);
      OneMoreRead(section.offset, section.length, pieces, remaining, piece);
      OneMoreFrom(reader.data, pieces, piece);
      pieces := pieces + [piece];
      if n == 0 {
        PiecesGiveVerdict(reader.kind, reader.data, section, pieces);
        return Finding(section, ReadError), pieces;
      }
      builder.Update(buf[..n]);
      remaining := remaining - n;
    }
    AllRead(section.offset, section.length, pieces, 0, section.checksum);
    FollowsFrom(section.offset, section.length, pieces);
    PiecesGiveVerdict(reader.kind, reader.data, section, pieces);
    var got := builder.Finalize();
    if got != section.checksum { return Finding(section, ChecksumMismatch(section.checksum, got)), pieces; }
    return Finding(section, Clean), pieces;
  }

  lemma NothingRead(f: seq<byte>, at: nat, length: nat)
    ensures AllFrom(f, []) && Underway(at, length, [], length) && Joined([]) == []
  {
  }

  lemma Unsought(kind: Kind, f: seq<byte>, e: SectionEntry)
    requires e.offset > kind.MaxSeek()
    ensures Verdict(kind, f, e) == ReadError
  {
    hide Checksum;
  }

  lemma OneMoreFrom(f: seq<byte>, pieces: seq<Piece>, p: Piece)
    requires AllFrom(f, pieces) && From(f, p)
    ensures AllFrom(f, pieces + [p])
  {
  }

  lemma FollowsFrom(at: nat, length: nat, pieces: seq<Piece>)
    requires Underway(at, length, pieces, 0)
    ensures Follow(pieces, at)
  {
    hide Follow;
  }

  // ----- A whole file -----

  /** What `scrub_file` reports about a file it can open. */
  function Report(kind: Kind, f: seq<byte>): ScrubReport {
    match ParseHeader(f)
    case Ok(h) => ScrubReport(Some(h.format), Findings(kind, f, h.sections), None)
    case Err(e) => ScrubReport(None, [], Some(e))
    case Panic => ScrubReport(None, [], None)
  }

  function Findings(kind: Kind, f: seq<byte>, sections: seq<SectionEntry>): (r: seq<ScrubFinding>)
    ensures |r| == |sections|
    ensures forall i :: 0 <= i < |r| ==> r[i] == Finding(sections[i], Verdict(kind, f, sections[i]))
  {
    seq(|sections|, i requires 0 <= i < |sections| => Finding(sections[i], Verdict(kind, f, sections[i])))
  }

  /** What the scrubber reports from the bytes read for the header and the reads made for each section. */
  function ReportFrom(kind: Kind, top: seq<byte>, groups: seq<seq<Piece>>): ScrubReport
    requires ParseHeader(top).Ok? ==> |groups| == |ParseHeader(top).value.sections|
  {
    match ParseHeader(top)
    case Ok(h) =>
      ScrubReport(
        Some(h.format),
        seq(|h.sections|, i requires 0 <= i < |h.sections| =>
          Finding(h.sections[i], FromPieces(kind, h.sections[i], groups[i]))),
        None)
    case Err(e) => ScrubReport(None, [], Some(e))
    case Panic => ScrubReport(None, [], None)
  }

  /** One after another. */
  function Flat(groups: seq<seq<Piece>>): seq<Piece> {
    if groups == [] then [] else groups[0] + Flat(groups[1..])
  }

  /**
    The reads of a whole scrub: the header and its table, up to the end of the file if they are cut short,
    and then each section.
   */
  predicate ReadsFile(kind: Kind, top: seq<Piece>, groups: seq<seq<Piece>>) {
    && Follow(top, 0)
    && (ParseHeader(Joined(top)) == Err(Truncated) ==> top != [] && top[|top| - 1].bytes == [])
    && match ParseHeader(Joined(top))
       case Ok(h) =>
         |groups| == |h.sections|
         && forall i :: 0 <= i < |groups| ==> ReadsSection(kind, h.sections[i], groups[i])
       case _ => groups == []
  }

  lemma {:induction false} EachGroupFrom(f: seq<byte>, groups: seq<seq<Piece>>, i: nat)
    requires AllFrom(f, Flat(groups)) && i < |groups|
    ensures AllFrom(f, groups[i])
    decreases |groups|
  {
    hide AllFrom;
    AllFromSplit(f, groups[0], Flat(groups[1..]));
    if i > 0 { EachGroupFrom(f, groups[1..], i - 1); }
  }

  /** However its reads come, and whatever else goes on, a scrub whose reads are all of `f` reports on `f`. */
  lemma ReadsGiveReport(kind: Kind, f: seq<byte>, top: seq<Piece>, groups: seq<seq<Piece>>)
    requires AllFrom(f, top + Flat(groups)) && ReadsFile(kind, top, groups)
    ensures ReportFrom(kind, Joined(top), groups) == Report(kind, f)
  {
    hide AllFrom, Follow, Joined, FromPieces, Verdict, ParseHeader, ReadsSection;
    AllFromSplit(f, top, Flat(groups));
    JoinedIsSlice(f, top, 0);
    if ParseHeader(Joined(top)) == Err(Truncated) {
      assert f[0..] == f;
    } else {
      ParseOfPrefix(Joined(top), f);
    }
    if ParseHeader(f).Ok? {
      var sections := ParseHeader(f).value.sections;
      forall i | 0 <= i < |sections|
        ensures FromPieces(kind, sections[i], groups[i]) == Verdict(kind, f, sections[i])
      {
        EachGroupFrom(f, groups, i);
        PiecesGiveVerdict(kind, f, sections[i], groups[i]);
      }
    }
  }

  /** A finding as it should be, or one that says the section could not be read. */
  predicate AsFound(f: ScrubFinding, want: ScrubFinding) {
    f == want || f == want.(outcome := ReadError)
  }

  /**
    The entry can be sought and, unless it is empty, lies in the file and declares the checksum of its
    bytes; if it is empty, it declares zero.
   */
  ghost predicate SoundEntry(kind: Kind, f: seq<byte>, e: SectionEntry) {
    && e.offset <= (if kind == File then 0x7FFF_FFFF_FFFF_FFFF else 0xFFFF_FFFF_FFFF_FFFF)
    && if e.length == 0 then e.checksum == 0
       else e.offset + e.length <= |f| && Checksum(f[e.offset..e.offset + e.length]) == e.checksum
  }

  ghost predicate Sound(kind: Kind, f: seq<byte>) {
    ParseHeader(f).Ok? && forall e :: e in ParseHeader(f).value.sections ==> SoundEntry(kind, f, e)
  }

  lemma CleanIffSoundEntry(kind: Kind, f: seq<byte>, e: SectionEntry)
    ensures Verdict(kind, f, e) == Clean <==> SoundEntry(kind, f, e)
  {
    hide Checksum, Verdict;
    VerdictMeans(kind, f, e);
    if e.length == 0 { EmptyMeans(f, e); }
  }

  /** A report is clean exactly if its file's header parses and every entry is sound. */
  lemma CleanIffSound(kind: Kind, f: seq<byte>)
    ensures IsClean(Report(kind, f)) <==> Sound(kind, f)
  {
    hide ParseHeader, Verdict, SoundEntry;
    match ParseHeader(f)
    case Ok(h) =>
      forall i | 0 <= i < |h.sections|
        ensures Verdict(kind, f, h.sections[i]) == Clean <==> SoundEntry(kind, f, h.sections[i])
      {
        CleanIffSoundEntry(kind, f, h.sections[i]);
      }
      if IsClean(Report(kind, f)) {
        forall e | e in h.sections
          ensures SoundEntry(kind, f, e)
        {
          var i :| 0 <= i < |h.sections| && h.sections[i] == e;
          assert Report(kind, f).findings[i].outcome == Clean;
        }
      }
    case _ =>
  }

  /** What a report says. */
  lemma ReportMeans(kind: Kind, f: seq<byte>)
    ensures var r := Report(kind, f);
            match ParseHeader(f)
            case Ok(h) =>
              && r.format == Some(h.format) && r.headerError == None && |r.findings| == |h.sections|
              && (forall i :: 0 <= i < |h.sections| ==>
                    && r.findings[i].typeId == h.sections[i].typeId
                    && r.findings[i].offset == h.sections[i].offset
                    && r.findings[i].length == h.sections[i].length
                    && Means(kind, f, h.sections[i], r.findings[i].outcome))
            case Err(e) => r.format == None && r.headerError == Some(e) && r.findings == [] && !IsClean(r)
            case Panic => false
  {
    hide ParseHeader, Verdict, Means;
    match ParseHeader(f)
    case Ok(h) =>
      forall i | 0 <= i < |h.sections|
        ensures Means(kind, f, h.sections[i], Verdict(kind, f, h.sections[i]))
      {
        VerdictMeans(kind, f, h.sections[i]);
      }
    case _ =>
  }

  /**
    The report names the error of a header that does not parse, and else has one finding for each table
    entry, which says what is true of that section. It is clean exactly if the file is sound. Failing reads
    may hide a verdict behind a read error; they never turn one into another.
   */
  method ScrubFile(file: Stream) returns (r: ScrubReport)
    modifies file`pos
    ensures file.reliable ==>
              match ParseHeader(file.data)
              case Ok(h) =>
                && r.format == Some(h.format) && r.headerError == None && |r.findings| == |h.sections|
                && (forall i :: 0 <= i < |h.sections| ==>
                      && r.findings[i].typeId == h.sections[i].typeId
                      && r.findings[i].offset == h.sections[i].offset
                      && r.findings[i].length == h.sections[i].length
                      && Means(file.kind, file.data, h.sections[i], r.findings[i].outcome))
              case Err(e) => r.format == None && r.headerError == Some(e) && r.findings == [] && !IsClean(r)
              case Panic => false
    ensures file.reliable ==> (IsClean(r) <==> Sound(file.kind, file.data))
    ensures file.reliable ==> r == Report(file.kind, file.data)
    ensures var want := Report(file.kind, file.data);
            || r == ScrubReport(None, [], Some(Io))
            || (&& r.format == want.format && r.headerError == want.headerError
                && |r.findings| == |want.findings|
                && forall j :: 0 <= j < |r.findings| ==> AsFound(r.findings[j], want.findings[j]))
  {
    hide ParseHeader, Verdict, Means, Sound, IsClean;
    CleanIffSound(file.kind, file.data);
    ReportMeans(file.kind, file.data);
    var header := Read(file);
    if !header.Ok? { return ScrubReport(None, [], Some(header.error)); }
    var sections := header.value.sections;
    var findings: seq<ScrubFinding> := [];
    for i := 0 to |sections|
      invariant |findings| == i
      invariant file.reliable ==>
        forall j :: 0 <= j < i ==> findings[j] == Finding(sections[j], Verdict(file.kind, file.data, sections[j]))
      invariant forall j :: 0 <= j < i ==>
        AsFound(findings[j], Finding(sections[j], Verdict(file.kind, file.data, sections[j])))
    {
      var finding, _ := VerifySection(file, sections[i]);
      findings := findings + [finding];
    }
    r := ScrubReport(Some(header.value.format), findings, None);
    assert file.reliable ==> r == Report(file.kind, file.data);
  }

  // ----- Summaries of a report -----

  predicate IsClean(r: ScrubReport) {
    r.headerError.None? && forall i :: 0 <= i < |r.findings| ==> r.findings[i].outcome == Clean
  }

  function BadCount(findings: seq<ScrubFinding>): nat {
    if findings == [] then 0
    else (if findings[0].outcome == Clean then 0 else 1) + BadCount(findings[1..])
  }

  lemma {:induction false} NoneBadIffAllClean(findings: seq<ScrubFinding>)
    ensures BadCount(findings) == 0 <==> forall i :: 0 <= i < |findings| ==> findings[i].outcome == Clean
  {
    if findings != [] {
      NoneBadIffAllClean(findings[1..]);
      assert forall i :: 1 <= i < |findings| ==> findings[i] == findings[1..][i - 1];
    }
  }

  function FindingError(f: ScrubFinding): Error
    requires f.outcome != Clean
  {
    if f.outcome.ChecksumMismatch? then SectionChecksumFailed(f.typeId) else Malformed(ScrubSection(f.typeId))
  }

  /** The scan reports the header error, else the first bad finding, and nothing exactly on a clean report. */
  method ReportToResult(r: ScrubReport) returns (res: Outcome<()>)
    ensures res == Ok(()) <==>
      r.headerError == None && forall i :: 0 <= i < |r.findings| ==> r.findings[i].outcome == Clean
    ensures r.headerError.Some? ==> res == Err(Malformed(ScrubHeader))
    ensures r.headerError.None? && res.Err? ==>
      exists k :: 0 <= k < |r.findings| && r.findings[k].outcome != Clean
               && res.error == (match r.findings[k].outcome
                                case ChecksumMismatch(_, _) => SectionChecksumFailed(r.findings[k].typeId)
                                case _ => Malformed(ScrubSection(r.findings[k].typeId)))
               && forall j :: 0 <= j < k ==> r.findings[j].outcome == Clean
    ensures !res.Panic?
  {
    if r.headerError.Some? { return Err(Malformed(ScrubHeader)); }
    for i := 0 to |r.findings|
      invariant forall j :: 0 <= j < i ==> r.findings[j].outcome == Clean
    {
      if r.findings[i].outcome != Clean { return Err(FindingError(r.findings[i])); }
    }
    return Ok(());
  }

  /** Each number of findings that are not clean is that number of positions. */
  lemma {:induction false} BadCountCounts(findings: seq<ScrubFinding>)
    ensures BadCount(findings) == |set i | 0 <= i < |findings| && findings[i].outcome != Clean|
    decreases |findings|
  {
    if findings != [] {
      var n, front := |findings| - 1, findings[..|findings| - 1];
      BadCountCounts(front);
      BadCountLast(findings);
      var bad := set i | 0 <= i < |findings| && findings[i].outcome != Clean;
      var before := set i | 0 <= i < |front| && front[i].outcome != Clean;
      assert bad == before + if findings[n].outcome != Clean then {n} else {};
    }
  }

  lemma {:induction false} BadCountLast(findings: seq<ScrubFinding>)
    requires findings != []
    ensures BadCount(findings)
         == BadCount(findings[..|findings| - 1]) + if findings[|findings| - 1].outcome == Clean then 0 else 1
    decreases |findings|
  {
    if |findings| > 1 {
      BadCountLast(findings[1..]);
      assert findings[1..][..|findings| - 2] == findings[..|findings| - 1][1..];
    } else {
      assert findings[..0] == [];
    }
  }

  // ----- Agreement with the writers -----

  lemma HeldIsClean(f: seq<byte>, e: SectionEntry, p: Part)
    requires Holds(f, e, p) && |f| <= ISIZE_MAX
    ensures Verdict(File, f, e) == Clean
  {
    hide Checksum;
    VerdictInRange(File, f, e);
  }

  /** Every written image scrubs clean. */
  lemma WrittenScrubsClean(fv: FormatVersion, createdAt: i64, parts: seq<Part>)
    requires Fits(parts) && |parts| < U32_LIMIT && fv.version == 1
    ensures var r := Report(File, Image(fv, createdAt, parts));
            IsClean(r) && r.format == Some(fv.format) && |r.findings| == |parts|
  {
    hide Verdict, ParseHeader, Image, ImageHeader, Holds, Tiles, LaidOut, Open;
    var f, h := Image(fv, createdAt, parts), ImageHeader(fv, createdAt, parts);
    ImageOpens(fv, createdAt, parts);
    ImageTiles(fv, createdAt, parts);
    ImageFits(fv, createdAt, parts);
    forall i | 0 <= i < |parts|
      ensures Verdict(File, f, h.sections[i]) == Clean
    {
      HeldIsClean(f, h.sections[i], parts[i]);
    }
  }

  lemma SagaScrubsClean(saga: Sagas.Saga)
    requires Sagas.Writable(saga)
    ensures IsClean(Report(File, Sagas.SagaImage(saga)))
  {
    hide IsClean, Report, Image, Sagas.SagaParts, Fits;
    WrittenScrubsClean(SAGA_V1, saga.builtAt, Sagas.SagaParts(saga));
  }

  lemma CacheScrubsClean(cache: KvCaches.Cache)
    requires KvCaches.Writable(cache)
    ensures IsClean(Report(File, KvCaches.CacheImage(cache)))
  {
    hide IsClean, Report, Image, KvCaches.CacheParts, Fits;
    WrittenScrubsClean(KV_CACHE_V1, cache.meta.createdAt, KvCaches.CacheParts(cache));
  }

  lemma ImageFits(fv: FormatVersion, createdAt: i64, parts: seq<Part>)
    requires Fits(parts)
    ensures |Image(fv, createdAt, parts)| <= ISIZE_MAX
    ensures ImageHeader(fv, createdAt, parts).format == fv.format
  {
  }

  // ----- Agreement with the readers -----

  /** What parses from a file without its trailer parses the same from the whole file. */
  lemma ParseWithTrailer(f: seq<byte>)
    requires |f| >= FILE_CHECKSUM_LEN && ParseHeader(Body(f)).Ok?
    ensures ParseHeader(f) == ParseHeader(Body(f))
  {
    hide ParseHeader;
    ParseOfPrefix(Body(f), f);
  }

  lemma FetchedIsClean(f: seq<byte>, sections: seq<SectionEntry>, id: u16)
    requires FILE_CHECKSUM_LEN <= |f| <= ISIZE_MAX
    requires Fetched(f, sections, id)
    ensures Last(sections, id).Some? && Verdict(File, f, Last(sections, id).value) == Clean
  {
    hide Checksum, Last;
    VerdictInRange(File, f, Last(sections, id).value);
  }

  /** The entry selected for this id is there and scrubs clean. */
  ghost predicate SelectedClean(f: seq<byte>, id: u16) {
    && ParseHeader(f).Ok?
    && var last := Last(ParseHeader(f).value.sections, id);
    && last.Some? && Verdict(File, f, last.value) == Clean
  }

  lemma AllFetchedClean(f: seq<byte>, h: Header)
    requires FILE_CHECKSUM_LEN <= |f| <= ISIZE_MAX && ParseHeader(Body(f)) == Ok(h)
    requires Fetched(f, h.sections, 1) && Fetched(f, h.sections, 2) && Fetched(f, h.sections, 3)
    ensures SelectedClean(f, 1) && SelectedClean(f, 2) && SelectedClean(f, 3)
  {
    hide ParseHeader, Verdict, Last, Fetch;
    ParseWithTrailer(f);
    FetchedIsClean(f, h.sections, 1);
    FetchedIsClean(f, h.sections, 2);
    FetchedIsClean(f, h.sections, 3);
  }

  /** The three entries the reader selected from an accepted file all scrub clean. */
  lemma AcceptedSagaScrubs(f: seq<byte>)
    requires |f| <= ISIZE_MAX && Sagas.ReadSaga(f).Ok?
    ensures SelectedClean(f, 1) && SelectedClean(f, 2) && SelectedClean(f, 3)
  {
    hide Fetched, ParseHeader, SelectedClean, Sealed, Open, Sagas.ReadSaga;
    Sagas.AcceptedFetches(f);
    AllFetchedClean(f, Open(f, SAGA_V1).value);
  }

  lemma AcceptedCacheScrubs(f: seq<byte>)
    requires |f| <= ISIZE_MAX && KvCaches.ReadKvCache(f).Ok?
    ensures SelectedClean(f, 1) && SelectedClean(f, 2) && SelectedClean(f, 3)
  {
    hide Fetched, ParseHeader, SelectedClean, Sealed, Open, KvCaches.ReadKvCache;
    KvCaches.AcceptedFetches(f);
    AllFetchedClean(f, Open(f, KV_CACHE_V1).value);
  }

  // ----- Damage to one payload -----

  /** `g` is `f` but for at most four consecutive bytes, all inside the range of `e`. */
  ghost predicate DamagedInside(f: seq<byte>, g: seq<byte>, k: nat, e: SectionEntry) {
    && f != g && DifferWithin4(f, g, k)
    && forall j :: 0 <= j < |f| && !(e.offset <= j < e.offset + e.length) ==> f[j] == g[j]
  }

  lemma DamagedIsMismatch(f: seq<byte>, g: seq<byte>, k: nat, e: SectionEntry)
    requires e.offset + e.length <= |f| <= ISIZE_MAX
    requires DamagedInside(f, g, k, e) && Verdict(File, f, e) == Clean
    ensures var v := Verdict(File, g, e);
            v.ChecksumMismatch? && v.expected == e.checksum && v.got != e.checksum
  {
    hide Checksum;
    var a, b := f[e.offset..e.offset + e.length], g[e.offset..e.offset + e.length];
    var at := if k < e.offset then 0 else k - e.offset;
    forall i | 0 <= i < |a| && !(at <= i < at + 4)
      ensures a[i] == b[i]
    {
      assert f[e.offset + i] == g[e.offset + i];
    }
    if a == b {
      SameSliceSameFile(f, g, e.offset, e.offset + e.length);
    }
    BurstChangesChecksum(a, b, at);
    VerdictInRange(File, f, e);
    VerdictInRange(File, g, e);
  }

  lemma SameSliceSameFile(f: seq<byte>, g: seq<byte>, lo: nat, hi: nat)
    requires |f| == |g| && lo <= hi <= |f| && f[lo..hi] == g[lo..hi]
    requires forall j :: 0 <= j < |f| && !(lo <= j < hi) ==> f[j] == g[j]
    ensures f == g
  {
    forall j | 0 <= j < |f|
      ensures f[j] == g[j]
    {
      if lo <= j < hi {
        assert f[j] == f[lo..hi][j - lo] == g[lo..hi][j - lo];
      }
    }
  }

  lemma UndamagedIsUnchanged(f: seq<byte>, g: seq<byte>, k: nat, e: SectionEntry, other: SectionEntry)
    requires DamagedInside(f, g, k, e)
    requires other.offset + other.length <= |f|
    requires other.offset + other.length <= e.offset || e.offset + e.length <= other.offset
    ensures Verdict(File, g, other) == Verdict(File, f, other)
  {
    hide Checksum;
    assert f[other.offset..other.offset + other.length] == g[other.offset..other.offset + other.length];
  }

  lemma {:induction false} LaidOutApart(parts: seq<Part>, at: nat, i: nat, j: nat)
    requires at + TotalLen(parts) <= ISIZE_MAX && i < j < |parts|
    ensures LaidOut(parts, at)[i].offset + LaidOut(parts, at)[i].length <= LaidOut(parts, at)[j].offset
    decreases |parts|
  {
    hide Checksum;
    var p, rest := parts[0], parts[1..];
    if i > 0 {
      LaidOutApart(rest, at + |p.payload|, i - 1, j - 1);
    } else {
      StartsAfter(rest, at + |p.payload|, j - 1);
    }
  }

  lemma {:induction false} StartsAfter(parts: seq<Part>, at: nat, j: nat)
    requires at + TotalLen(parts) <= ISIZE_MAX && j < |parts|
    ensures at <= LaidOut(parts, at)[j].offset
    decreases |parts|
  {
    hide Checksum;
    if j > 0 { StartsAfter(parts[1..], at + |parts[0].payload|, j - 1); }
  }

  /** The sections of an image do not overlap. */
  lemma SectionsApart(fv: FormatVersion, createdAt: i64, parts: seq<Part>, i: nat, j: nat)
    requires Fits(parts) && i < |parts| && j < |parts| && i != j
    ensures var s := ImageHeader(fv, createdAt, parts).sections;
            s[i].offset + s[i].length <= s[j].offset || s[j].offset + s[j].length <= s[i].offset
  {
    hide LaidOut;
    var at := HEADER_LEN + TableLen(|parts|);
    if i < j { LaidOutApart(parts, at, i, j); } else { LaidOutApart(parts, at, j, i); }
  }

  lemma HeaderSurvives(fv: FormatVersion, createdAt: i64, parts: seq<Part>, g: seq<byte>, k: nat, i: nat)
    requires Fits(parts) && |parts| < U32_LIMIT && fv.version == 1 && i < |parts|
    requires DamagedInside(Image(fv, createdAt, parts), g, k, ImageHeader(fv, createdAt, parts).sections[i])
    ensures ParseHeader(g) == Ok(ImageHeader(fv, createdAt, parts))
  {
    hide EncodeHeader, ParseHeader, LaidOut, Checksum, Holds, Tiles;
    var f, h := Image(fv, createdAt, parts), ImageHeader(fv, createdAt, parts);
    ImageTiles(fv, createdAt, parts);
    var start := h.FirstPayloadOffset();
    assert EncodeHeader(h) == f[..start] == g[..start];
    HeaderRoundTrip(h, g);
  }

  /**
    Altering at most four consecutive bytes inside one payload of a written file turns exactly
    that section's finding into a mismatch; the header and all other findings stay as they were.
   */
  lemma DamageIsLocated(fv: FormatVersion, createdAt: i64, parts: seq<Part>, g: seq<byte>, k: nat, i: nat)
    requires Fits(parts) && |parts| < U32_LIMIT && fv.version == 1 && i < |parts|
    requires DamagedInside(Image(fv, createdAt, parts), g, k, ImageHeader(fv, createdAt, parts).sections[i])
    ensures var before, after := Report(File, Image(fv, createdAt, parts)), Report(File, g);
            && after.format == before.format && after.headerError == before.headerError
            && |after.findings| == |before.findings| == |parts|
            && after.findings[i].outcome.ChecksumMismatch?
            && after.findings[i] == Finding(ImageHeader(fv, createdAt, parts).sections[i], after.findings[i].outcome)
            && forall j :: 0 <= j < |parts| && j != i ==> after.findings[j] == before.findings[j]
  {
    hide Verdict, ParseHeader, Image, ImageHeader, Holds, Tiles, LaidOut, Open, DamagedInside;
    var f, h := Image(fv, createdAt, parts), ImageHeader(fv, createdAt, parts);
    ImageOpens(fv, createdAt, parts);
    ImageTiles(fv, createdAt, parts);
    ImageFits(fv, createdAt, parts);
    HeaderSurvives(fv, createdAt, parts, g, k, i);
    HeldIsClean(f, h.sections[i], parts[i]);
    DamagedIsMismatch(f, g, k, h.sections[i]);
    forall j | 0 <= j < |parts| && j != i
      ensures Verdict(File, g, h.sections[j]) == Verdict(File, f, h.sections[j])
    {
      SectionsApart(fv, createdAt, parts, i, j);
      UndamagedIsUnchanged(f, g, k, h.sections[i], h.sections[j]);
    }
  }
}
