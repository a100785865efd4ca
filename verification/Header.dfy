/** The 64-byte header and the section table that follows it. */
module Headers {
  import opened Bytes
  import opened Prelude
  import opened Format
  import opened Streams

  /** Bytes taken by `n` table entries. */
  function TableLen(n: nat): nat {
    28 * n
  }

  /** Where a section's payload lies in the file, and its CRC32C. */
  datatype SectionEntry = SectionEntry(typeId: u16, flags: u16, offset: u64, length: u64, checksum: word)

  datatype Header = Header(
    format: FormatId, version: u16, flags: u32, createdAt: i64, bodyLen: u64, sections: seq<SectionEntry>)
  {
    function SectionTableLen(): nat {
      TableLen(|sections|)
    }

    function FirstPayloadOffset(): nat {
      HEADER_LEN + SectionTableLen()
    }
  }

  // ----- Section entries -----

  /** What an entry's 28 bytes say. */
  function EntryOf(b: seq<byte>): SectionEntry
    requires |b| == SECTION_ENTRY_LEN
  {
    SectionEntry(U16At(b, 0), U16At(b, 2), U64At(b, 4), U64At(b, 12), WordAt(b, 20))
  }

  function EncodeEntry(e: SectionEntry): (b: seq<byte>)
    ensures |b| == SECTION_ENTRY_LEN
  {
    Le16(e.typeId) + Le16(e.flags) + Le64(e.offset) + Le64(e.length) + LeWord(e.checksum) + Zeros(4)
  }

  lemma EntryRoundTrip(e: SectionEntry)
    ensures EntryOf(EncodeEntry(e)) == e
  {
    hide Le, FromLe, LeWord, WordOf;
    var b := EncodeEntry(e);
    assert b[0..2] == Le16(e.typeId);
    assert b[2..4] == Le16(e.flags);
    assert b[4..12] == Le64(e.offset);
    assert b[12..20] == Le64(e.length);
    assert b[20..24] == LeWord(e.checksum);
    WordOfLeWord(e.checksum);
  }

  /** Reading an entry is unaffected by its last four bytes. */
  lemma EntryIgnoresReserved(a: seq<byte>, b: seq<byte>)
    requires |a| == |b| == SECTION_ENTRY_LEN && a[..24] == b[..24]
    ensures EntryOf(a) == EntryOf(b)
  {
    hide Le, FromLe, LeWord, WordOf;
    assert a[0..2] == a[..24][0..2] == b[0..2];
    assert a[2..4] == a[..24][2..4] == b[2..4];
    assert a[4..12] == a[..24][4..12] == b[4..12];
    assert a[12..20] == a[..24][12..20] == b[12..20];
    assert a[20..24] == a[..24][20..24] == b[20..24];
  }

  /** An entry is what the first 24 bytes of its encoding spell. */
  lemma EntrySpelled(b: seq<byte>, e: SectionEntry)
    requires |b| == SECTION_ENTRY_LEN
    ensures EntryOf(b) == e <==> EncodeEntry(e)[..24] == b[..24]
  {
    hide EntryOf, EncodeEntry;
    if EncodeEntry(e)[..24] == b[..24] {
      EntryIgnoresReserved(EncodeEntry(e), b);
      EntryRoundTrip(e);
    }
    if EntryOf(b) == e { SpellsItself(b); }
  }

  lemma SpellsItself(b: seq<byte>)
    requires |b| == SECTION_ENTRY_LEN
    ensures EncodeEntry(EntryOf(b))[..24] == b[..24]
  {
    hide Le, FromLe, LeWord, WordOf;
    assert b[..24] == b[0..2] + b[2..4] + b[4..12] + b[12..20] + b[20..24];
  }

  /** The one entry whose encoding starts with the first 24 bytes; whatever follows them is not looked at. */
  method ReadEntryFrom(buf: seq<byte>) returns (r: Outcome<SectionEntry>)
    ensures r.Ok? <==> |buf| >= SECTION_ENTRY_LEN
    ensures r.Ok? ==> EncodeEntry(r.value)[..24] == buf[..24]
    ensures !r.Ok? ==> r == Err(Truncated)
  {
    if |buf| < SECTION_ENTRY_LEN { return Err(Truncated); }
    var b := buf[..SECTION_ENTRY_LEN];
    SpellsItself(b);
    assert b[..24] == buf[..24];
    return Ok(SectionEntry(U16At(b, 0), U16At(b, 2), U64At(b, 4), U64At(b, 12), WordAt(b, 20)));
  }

  /** Where an entry's fields lie. */
  lemma EntryLayout(e: SectionEntry)
    ensures var b := EncodeEntry(e);
            && |b| == 28
            && b[0..2] == Le16(e.typeId) && b[2..4] == Le16(e.flags) && b[4..12] == Le64(e.offset)
            && b[12..20] == Le64(e.length) && b[20..24] == LeWord(e.checksum) && b[24..28] == [0, 0, 0, 0]
  {
    hide Le, FromLe, LeWord, WordOf;
  }

  /** Fills the 28 bytes of `out` at `off`. */
  method WriteEntryTo(e: SectionEntry, out: array<byte>, off: nat)
    requires off + SECTION_ENTRY_LEN <= out.Length
    modifies out
    ensures out[..off + SECTION_ENTRY_LEN] == old(out[..off]) + EncodeEntry(e)
    ensures forall i :: off + SECTION_ENTRY_LEN <= i < out.Length ==> out[i] == old(out[i])
  {
    hide Le, FromLe, LeWord, WordOf;
    CopyFromSlice(out, off, Le16(e.typeId));
    CopyFromSlice(out, off + 2, Le16(e.flags));
    CopyFromSlice(out, off + 4, Le64(e.offset));
    CopyFromSlice(out, off + 12, Le64(e.length));
    CopyFromSlice(out, off + 20, LeWord(e.checksum));
    CopyFromSlice(out, off + 24, Zeros(4));
  }

  // ----- The section table -----

  function Table(sections: seq<SectionEntry>): (b: seq<byte>)
    ensures |b| == TableLen(|sections|)
  {
    if sections == [] then []
    else Table(sections[..|sections| - 1]) + EncodeEntry(sections[|sections| - 1])
  }

  lemma {:induction false} TableAt(sections: seq<SectionEntry>, i: nat)
    requires i < |sections|
    ensures TableLen(i + 1) <= TableLen(|sections|)
    ensures Table(sections)[TableLen(i)..TableLen(i + 1)] == EncodeEntry(sections[i])
    decreases |sections|
  {
    hide Le, FromLe, LeWord, WordOf;
    var front := sections[..|sections| - 1];
    if i < |front| {
      TableAt(front, i);
      assert Table(sections)[TableLen(i)..TableLen(i + 1)]
          == Table(front)[TableLen(i)..TableLen(i + 1)];
    }
  }

  /** Entry `i` of a table that starts at `HEADER_LEN`. */
  function EntryAt(f: seq<byte>, i: nat): SectionEntry
    requires HEADER_LEN + TableLen(i + 1) <= |f|
  {
    var off := HEADER_LEN + TableLen(i);
    EntryOf(f[off..off + SECTION_ENTRY_LEN])
  }

  function Entries(f: seq<byte>, count: nat): (es: seq<SectionEntry>)
    requires HEADER_LEN + TableLen(count) <= |f|
    ensures |es| == count
    ensures forall i :: 0 <= i < count ==> es[i] == EntryAt(f, i)
  {
    seq(count, i requires 0 <= i < count => EntryAt(f, i))
  }

  // ----- The header -----

  function EncodeFixed(h: Header): (b: seq<byte>)
    ensures |b| == HEADER_LEN
  {
    MAGIC + Le16(h.format.AsU16()) + Le16(h.version) + Le32(h.flags) + LeI64(h.createdAt) + Le64(h.bodyLen)
      + Le32(CastU32(|h.sections|)) + Le32(HEADER_LEN) + Zeros(24)
  }

  /** What `Header::write` puts at the start of the file. */
  function EncodeHeader(h: Header): (b: seq<byte>)
    ensures |b| == h.FirstPayloadOffset()
  {
    EncodeFixed(h) + Table(h.sections)
  }

  /** The fields of the fixed header that `Header::read` goes on to use. */
  datatype Fixed = Fixed(format: FormatId, version: u16, flags: u32, createdAt: i64, bodyLen: u64, count: u32)

  function ParseFixed(b: seq<byte>): (r: Outcome<Fixed>)
    requires |b| == HEADER_LEN
    ensures !r.Panic?
  {
    if b[0..8] != MAGIC then Err(MagicMismatch(b[0..8]))
    else
      match FormatId.FromU16(U16At(b, 8))
      case None => Err(UnknownFormat(U16At(b, 8)))
      case Some(format) =>
        if U32At(b, 36) != HEADER_LEN then Err(Malformed(TableOffset(U32At(b, 36))))
        else Ok(Fixed(format, U16At(b, 10), U32At(b, 12), I64At(b, 16), U64At(b, 24), U32At(b, 32)))
  }

  /** What `Header::read` makes of a whole file. */
  function ParseHeader(f: seq<byte>): (r: Outcome<Header>)
    ensures !r.Panic?
  {
    if |f| < HEADER_LEN then Err(Truncated)
    else
      var x :- ParseFixed(f[..HEADER_LEN]);
      if |f| < HEADER_LEN + TableLen(x.count) then Err(Truncated)
      else Ok(Header(x.format, x.version, x.flags, x.createdAt, x.bodyLen, Entries(f, x.count)))
  }

  /** A prefix that is long enough to parse parses as the whole does. */
  lemma ParseOfPrefix(b: seq<byte>, f: seq<byte>)
    requires b <= f && ParseHeader(b) != Err(Truncated)
    ensures ParseHeader(f) == ParseHeader(b)
  {
    hide ParseFixed, EntryOf;
    assert b[..HEADER_LEN] == f[..HEADER_LEN];
    if ParseFixed(f[..HEADER_LEN]).Ok? {
      var count := ParseFixed(f[..HEADER_LEN]).value.count;
      forall i | 0 <= i < count
        ensures EntryAt(b, i) == EntryAt(f, i)
      {
        var off := HEADER_LEN + TableLen(i);
        assert b[off..off + SECTION_ENTRY_LEN] == f[off..off + SECTION_ENTRY_LEN];
      }
      assert Entries(b, count) == Entries(f, count);
    }
  }

  lemma FixedRoundTrip(h: Header)
    ensures ParseFixed(EncodeFixed(h))
         == Ok(Fixed(h.format, h.version, h.flags, h.createdAt, h.bodyLen, CastU32(|h.sections|)))
  {
    hide Le, FromLe, LeWord, WordOf;
    var b := EncodeFixed(h);
    assert b[0..8] == MAGIC;
    assert b[8..10] == Le16(h.format.AsU16());
    assert b[10..12] == Le16(h.version);
    assert b[12..16] == Le32(h.flags);
    assert b[16..24] == LeI64(h.createdAt);
    assert b[24..32] == Le64(h.bodyLen);
    assert b[32..36] == Le32(CastU32(|h.sections|));
    assert b[36..40] == Le32(HEADER_LEN);
    I64AtOfLe(b, 16, h.createdAt);
  }

  /** Where a written header's fields lie: `SKEGHULL` first, the format by its number, and the table at 64. */
  lemma HeaderLayout(h: Header)
    ensures var b := EncodeHeader(h);
            && |b| == 64 + 28 * |h.sections|
            && b[0..8] == [0x53, 0x4B, 0x45, 0x47, 0x48, 0x55, 0x4C, 0x4C]
            && b[8..10] == Le16(match h.format case Kv => 1 case Vamana => 2 case Saga => 3 case KvCache => 4)
            && b[10..12] == Le16(h.version) && b[12..16] == Le32(h.flags) && b[16..24] == LeI64(h.createdAt)
            && b[24..32] == Le64(h.bodyLen) && b[32..36] == Le32(CastU32(|h.sections|)) && b[36..40] == Le32(64)
            && b[40..64] == Zeros(24)
            && forall i :: 0 <= i < |h.sections| ==> b[64 + 28 * i..92 + 28 * i] == EncodeEntry(h.sections[i])
  {
    hide Le, FromLe, LeWord, WordOf, EncodeEntry, Table;
    var b, x := EncodeHeader(h), EncodeFixed(h);
    FixedLayout(h);
    assert forall i, j :: 0 <= i <= j <= 64 ==> b[i..j] == x[i..j];
    forall i | 0 <= i < |h.sections|
      ensures b[64 + 28 * i..92 + 28 * i] == EncodeEntry(h.sections[i])
    {
      TableAt(h.sections, i);
      assert b[64 + 28 * i..92 + 28 * i] == Table(h.sections)[TableLen(i)..TableLen(i + 1)];
    }
  }

  lemma FixedLayout(h: Header)
    ensures var b := EncodeFixed(h);
            && b[0..8] == [0x53, 0x4B, 0x45, 0x47, 0x48, 0x55, 0x4C, 0x4C]
            && b[8..10] == Le16(match h.format case Kv => 1 case Vamana => 2 case Saga => 3 case KvCache => 4)
            && b[10..12] == Le16(h.version) && b[12..16] == Le32(h.flags) && b[16..24] == LeI64(h.createdAt)
            && b[24..32] == Le64(h.bodyLen) && b[32..36] == Le32(CastU32(|h.sections|)) && b[36..40] == Le32(64)
            && b[40..64] == Zeros(24)
  {
    hide Le, FromLe;
  }

  // ----- Which files parse -----

  /** The header's fields, the count among them, and each entry are what the bytes that are looked at say. */
  ghost predicate Spelt(f: seq<byte>, h: Header) {
    && |h.sections| < U32_LIMIT && |f| >= 64 + 28 * |h.sections|
    && f[..40] == EncodeHeader(h)[..40]
    && forall i :: 0 <= i < |h.sections| ==> f[64 + 28 * i..88 + 28 * i] == EncodeEntry(h.sections[i])[..24]
  }

  /** A file parses to a header exactly if it spells it. */
  lemma ParsesIffSpelt(f: seq<byte>, h: Header)
    ensures ParseHeader(f) == Ok(h) <==> Spelt(f, h)
  {
    hide ParseHeader, Spelt;
    if ParseHeader(f) == Ok(h) { ParsedIsSpelt(f, h); }
    if Spelt(f, h) { SpeltParses(f, h); }
  }

  lemma ParsedIsSpelt(f: seq<byte>, h: Header)
    requires ParseHeader(f) == Ok(h)
    ensures Spelt(f, h)
  {
    hide Le, FromLe, LeWord, WordOf, EncodeEntry, EntryOf, Table;
    var b := f[..HEADER_LEN];
    FixedFields(b, EncodeFixed(h));
    assert f[..40] == b[..40] == EncodeFixed(h)[..40] == EncodeHeader(h)[..40];
    forall i | 0 <= i < |h.sections|
      ensures f[64 + 28 * i..88 + 28 * i] == EncodeEntry(h.sections[i])[..24]
    {
      var off := HEADER_LEN + TableLen(i);
      EntrySpelled(f[off..off + SECTION_ENTRY_LEN], h.sections[i]);
      assert f[off..off + SECTION_ENTRY_LEN][..24] == f[off..off + 24];
    }
  }

  /** Forty bytes are their eight fields. */
  lemma FixedFields(a: seq<byte>, b: seq<byte>)
    requires |a| == |b| == HEADER_LEN
    ensures a[..40] == b[..40] <==>
              && a[0..8] == b[0..8] && a[8..10] == b[8..10] && a[10..12] == b[10..12] && a[12..16] == b[12..16]
              && a[16..24] == b[16..24] && a[24..32] == b[24..32] && a[32..36] == b[32..36] && a[36..40] == b[36..40]
  {
    var x := a[0..8] + a[8..10] + a[10..12] + a[12..16] + a[16..24] + a[24..32] + a[32..36] + a[36..40];
    var y := b[0..8] + b[8..10] + b[10..12] + b[12..16] + b[16..24] + b[24..32] + b[32..36] + b[36..40];
    assert x == a[..40] && y == b[..40];
    if a[..40] == b[..40] { SameFields(a, b); }
  }

  lemma SameFields(a: seq<byte>, b: seq<byte>)
    requires |a| == |b| == HEADER_LEN && a[..40] == b[..40]
    ensures a[0..8] == b[0..8] && a[8..10] == b[8..10] && a[10..12] == b[10..12] && a[12..16] == b[12..16]
    ensures a[16..24] == b[16..24] && a[24..32] == b[24..32] && a[32..36] == b[32..36] && a[36..40] == b[36..40]
  {
    forall i, j | 0 <= i <= j <= 40
      ensures a[i..j] == b[i..j]
    {
      SubSlice(a, 0, 40, i, j);
      SubSlice(b, 0, 40, i, j);
      assert a[0..40] == a[..40] == b[..40] == b[0..40];
    }
  }

  lemma SpeltParses(f: seq<byte>, h: Header)
    requires Spelt(f, h)
    ensures ParseHeader(f) == Ok(h)
  {
    hide Le, FromLe, LeWord, WordOf, EncodeEntry, EntryOf, Table, ParseFixed, EncodeFixed;
    var b := f[..HEADER_LEN];
    assert b[..40] == f[..40] == EncodeHeader(h)[..40] == EncodeFixed(h)[..40];
    FixedIgnoresReserved(b, EncodeFixed(h));
    FixedRoundTrip(h);
    forall i | 0 <= i < |h.sections|
      ensures EntryAt(f, i) == h.sections[i]
    {
      var off := HEADER_LEN + TableLen(i);
      assert f[off..off + SECTION_ENTRY_LEN][..24] == f[off..off + 24];
      EntrySpelled(f[off..off + SECTION_ENTRY_LEN], h.sections[i]);
    }
    assert Entries(f, |h.sections|) == h.sections;
  }

  /**
    Every other file is refused: a short one, one that does not start with `SKEGHULL`, one whose format
    number is none of the four, one whose table is not said to start at 64, one whose table is cut short;
    and if several are wrong, for the first of these.
   */
  lemma ParseRefuses(f: seq<byte>)
    ensures |f| < 64 ==> ParseHeader(f) == Err(Truncated)
    ensures |f| >= 64 && f[0..8] != [0x53, 0x4B, 0x45, 0x47, 0x48, 0x55, 0x4C, 0x4C] ==>
              ParseHeader(f) == Err(MagicMismatch(f[0..8]))
    ensures |f| >= 64 && f[0..8] == [0x53, 0x4B, 0x45, 0x47, 0x48, 0x55, 0x4C, 0x4C] ==>
              && (!(1 <= U16At(f, 8) <= 4) ==> ParseHeader(f) == Err(UnknownFormat(U16At(f, 8))))
              && (1 <= U16At(f, 8) <= 4 && U32At(f, 36) != 64 ==>
                    ParseHeader(f) == Err(Malformed(TableOffset(U32At(f, 36)))))
              && (1 <= U16At(f, 8) <= 4 && U32At(f, 36) == 64 && |f| < 64 + 28 * U32At(f, 32) ==>
                    ParseHeader(f) == Err(Truncated))
              && (1 <= U16At(f, 8) <= 4 && U32At(f, 36) == 64 && |f| >= 64 + 28 * U32At(f, 32) ==>
                    ParseHeader(f).Ok?)
  {
    hide Le, FromLe, EntryOf;
    if |f| >= 64 {
      var b := f[..64];
      assert b[0..8] == f[0..8] && b[8..10] == f[8..10] && b[32..36] == f[32..36] && b[36..40] == f[36..40];
      assert U16At(b, 8) == U16At(f, 8) && U32At(b, 32) == U32At(f, 32) && U32At(b, 36) == U32At(f, 36);
    }
  }

  lemma EntriesOfTable(h: Header, f: seq<byte>, count: nat)
    requires EncodeHeader(h) <= f
    requires count <= |h.sections|
    ensures Entries(f, count) == h.sections[..count]
  {
    hide Le, FromLe, LeWord, WordOf, EncodeEntry, EntryOf, EncodeFixed, Table;
    forall i | 0 <= i < count
      ensures EntryAt(f, i) == h.sections[i]
    {
      TableAt(h.sections, i);
      EntryRoundTrip(h.sections[i]);
      var off := HEADER_LEN + TableLen(i);
      assert f[off..off + SECTION_ENTRY_LEN] == Table(h.sections)[TableLen(i)..TableLen(i + 1)];
    }
  }

  /**
    Reading what was written, whatever follows it. The section count is stored in 32 bits, so a
    table of 2^32 entries or more comes back cut to its length modulo 2^32.
   */
  lemma HeaderRoundTrip(h: Header, f: seq<byte>)
    requires EncodeHeader(h) <= f
    ensures ParseHeader(f) == Ok(h.(sections := h.sections[..CastU32(|h.sections|)]))
    ensures ParseHeader(f) == Ok(h) <==> |h.sections| < U32_LIMIT
  {
    hide Le, FromLe, LeWord, WordOf, EncodeFixed, ParseFixed, Table;
    FixedRoundTrip(h);
    EntriesOfTable(h, f, CastU32(|h.sections|));
    assert f[..HEADER_LEN] == EncodeFixed(h);
    var kept := h.sections[..CastU32(|h.sections|)];
    assert |h.sections| < U32_LIMIT ==> kept == h.sections;
    assert |h.sections| >= U32_LIMIT ==> |kept| != |h.sections|;
    var read := h.(sections := kept);
    assert read == h <==> kept == h.sections;
  }

  /** `f` and `g` agree except in header bytes 40..64 and the last four bytes of each table entry. */
  ghost predicate SameButReserved(f: seq<byte>, g: seq<byte>, count: nat) {
    && |f| == |g|
    && forall i :: 0 <= i < |f| && !Reserved(i, count) ==> f[i] == g[i]
  }

  ghost predicate Reserved(i: nat, count: nat) {
    || 40 <= i < 64
    || (HEADER_LEN <= i < HEADER_LEN + TableLen(count) && (i - HEADER_LEN) % SECTION_ENTRY_LEN >= 24)
  }

  lemma HeaderIgnoresReserved(f: seq<byte>, g: seq<byte>)
    requires |f| >= HEADER_LEN && SameButReserved(f, g, U32At(f, 32))
    ensures ParseHeader(f) == ParseHeader(g)
  {
    hide Le, FromLe, LeWord, WordOf, EntryOf, ParseFixed;
    var count := U32At(f, 32);
    FixedIgnoresReserved(f[..HEADER_LEN], g[..HEADER_LEN]);
    CountField(f[..HEADER_LEN]);
    assert f[..HEADER_LEN][32..36] == f[32..36];
    if HEADER_LEN + TableLen(count) <= |f| {
      forall i | 0 <= i < count
        ensures EntryAt(f, i) == EntryAt(g, i)
      {
        EntryAtIgnoresReserved(f, g, count, i);
      }
      assert Entries(f, count) == Entries(g, count);
    }
  }

  lemma CountField(b: seq<byte>)
    requires |b| == HEADER_LEN
    ensures ParseFixed(b).Ok? ==> ParseFixed(b).value.count == U32At(b, 32)
  {
  }

  lemma FixedIgnoresReserved(a: seq<byte>, b: seq<byte>)
    requires |a| == |b| == HEADER_LEN && a[..40] == b[..40]
    ensures ParseFixed(a) == ParseFixed(b)
  {
    hide Le, FromLe;
    assert a[0..8] == a[..40][0..8] == b[0..8];
    assert a[8..10] == a[..40][8..10] == b[8..10];
    assert a[10..12] == a[..40][10..12] == b[10..12];
    assert a[12..16] == a[..40][12..16] == b[12..16];
    assert a[16..24] == a[..40][16..24] == b[16..24];
    assert a[24..32] == a[..40][24..32] == b[24..32];
    assert a[32..36] == a[..40][32..36] == b[32..36];
    assert a[36..40] == a[..40][36..40] == b[36..40];
  }

  lemma EntryAtIgnoresReserved(f: seq<byte>, g: seq<byte>, count: nat, i: nat)
    requires HEADER_LEN + TableLen(count) <= |f| && SameButReserved(f, g, count) && i < count
    ensures EntryAt(f, i) == EntryAt(g, i)
  {
    hide Le, FromLe, LeWord, WordOf, EntryOf;
    var off := HEADER_LEN + TableLen(i);
    forall j | off <= j < off + 24
      ensures f[j] == g[j]
    {
      ModOfMultiple(i, j - off);
    }
    var a, b := f[off..off + SECTION_ENTRY_LEN], g[off..off + SECTION_ENTRY_LEN];
    assert a[..24] == b[..24];
    EntryIgnoresReserved(a, b);
  }

  lemma ModOfMultiple(i: nat, k: nat)
    requires k < SECTION_ENTRY_LEN
    ensures (TableLen(i) + k) % SECTION_ENTRY_LEN == k
  {
  }

  // ----- Reading and writing through a stream -----

  method Read(reader: Stream) returns (r: Outcome<Header>)
    modifies reader`pos
    ensures r == ParseHeader(reader.data) || (!reader.reliable && r == Err(Io))
    ensures r.Ok? ==> reader.pos == r.value.FirstPayloadOffset()
  {
    hide Le, FromLe, LeWord, WordOf, ParseFixed;
    var ok := reader.Seek(0);
    if !ok { return Err(Io); }
    var buf := new byte[HEADER_LEN];
    var got := reader.ReadExact(buf);
    if got == Failed { return Err(Io); }
    if got == UnexpectedEof { return Err(Truncated); }
    assert buf[..] == reader.data[..HEADER_LEN];
    var fixed := ParseFixed(buf[..]);
    if !fixed.Ok? { return fixed.PropagateFailure(); }

    ok := reader.Seek(HEADER_LEN);
    if !ok { return Err(Io); }
    var tableBuf := new byte[TableLen(fixed.value.count)];
    got := reader.ReadExact(tableBuf);
    if got == Failed { return Err(Io); }
    if got == UnexpectedEof { return Err(Truncated); }
    var sections := ReadTable(tableBuf[..], fixed.value.count, reader.data);
    return Ok(Header(fixed.value.format, fixed.value.version, fixed.value.flags,
                     fixed.value.createdAt, fixed.value.bodyLen, sections));
  }

  method ReadTable(tableBuf: seq<byte>, count: u32, ghost f: seq<byte>) returns (sections: seq<SectionEntry>)
    requires |tableBuf| == TableLen(count)
    requires HEADER_LEN + TableLen(count) <= |f| && tableBuf == f[HEADER_LEN..HEADER_LEN + TableLen(count)]
    ensures sections == Entries(f, count)
  {
    hide EntryOf, EncodeEntry;
    sections := [];
    for i := 0 to count
      invariant |sections| == i && forall j :: 0 <= j < i ==> sections[j] == EntryAt(f, j)
    {
      var off := TableLen(i);
      var slice := tableBuf[off..off + SECTION_ENTRY_LEN];
      SubSlice(f, HEADER_LEN, HEADER_LEN + TableLen(count), off, off + SECTION_ENTRY_LEN);
      assert slice[..SECTION_ENTRY_LEN] == slice;
      var entry := ReadEntryFrom(slice);
      EntrySpelled(slice, entry.value);
      sections := sections + [entry.value];
    }
  }

  method Write(h: Header, writer: Stream) returns (r: Outcome<()>)
    modifies writer`pos, writer`data
    ensures r == Ok(()) || (!writer.reliable && r == Err(Io))
    ensures r.Ok? ==> writer.data == Overwrite(old(writer.data), 0, EncodeHeader(h))
    ensures r.Ok? ==> writer.pos == h.FirstPayloadOffset()
  {
    hide EncodeFixed, Table, Overwrite;
    var ok := writer.Seek(0);
    if !ok { return Err(Io); }
    ghost var before := writer.data;
    var buf := new byte[HEADER_LEN](_ => 0);
    FillFixed(h, buf);
    ok := writer.WriteAll(buf[..]);
    if !ok { return Err(Io); }
    var table := new byte[TableLen(|h.sections|)];
    FillTable(h.sections, table);
    ok := writer.WriteAll(table[..]);
    if !ok { return Err(Io); }
    OverwriteTwice(before, EncodeFixed(h), Table(h.sections));
    return Ok(());
  }

  method FillFixed(h: Header, buf: array<byte>)
    requires buf.Length == HEADER_LEN && forall i :: 0 <= i < HEADER_LEN ==> buf[i] == 0
    modifies buf
    ensures buf[..] == EncodeFixed(h)
  {
    hide Le, FromLe;
    CopyFromSlice(buf, 0, MAGIC);
    CopyFromSlice(buf, 8, Le16(h.format.AsU16()));
    CopyFromSlice(buf, 10, Le16(h.version));
    CopyFromSlice(buf, 12, Le32(h.flags));
    CopyFromSlice(buf, 16, LeI64(h.createdAt));
    CopyFromSlice(buf, 24, Le64(h.bodyLen));
    CopyFromSlice(buf, 32, Le32(CastU32(|h.sections|)));
    CopyFromSlice(buf, 36, Le32(HEADER_LEN));
    assert buf[..] == buf[..40] + Zeros(24);
  }

  method FillTable(sections: seq<SectionEntry>, table: array<byte>)
    requires table.Length == TableLen(|sections|)
    modifies table
    ensures table[..] == Table(sections)
  {
    hide EncodeEntry;
    for i := 0 to |sections|
      invariant table[..TableLen(i)] == Table(sections[..i])
    {
      assert sections[..i + 1][..i] == sections[..i];
      WriteEntryTo(sections[i], table, TableLen(i));
    }
    assert sections[..|sections|] == sections;
    assert table[..] == table[..TableLen(|sections|)];
  }

  lemma OverwriteTwice(s: seq<byte>, a: seq<byte>, b: seq<byte>)
    ensures Overwrite(Overwrite(s, 0, a), |a|, b) == Overwrite(s, 0, a + b)
  {
  }
}
