/** Format identifiers, sizes, the compatibility check and the error type. */
module Format {
  import opened Bytes
  import opened Prelude

  datatype FormatId = Kv | Vamana | Saga | KvCache {
    static function FromU16(v: u16): Option<FormatId> {
      if v == 1 then Some(Kv)
      else if v == 2 then Some(Vamana)
      else if v == 3 then Some(Saga)
      else if v == 4 then Some(KvCache)
      else None
    }

    function AsU16(): (v: u16)
      ensures FromU16(v) == Some(this)
    {
      match this
      case Kv => 1
      case Vamana => 2
      case Saga => 3
      case KvCache => 4
    }
  }

  datatype FormatVersion = FormatVersion(format: FormatId, version: u16)

  const SAGA_V1: FormatVersion := FormatVersion(Saga, 1)
  const KV_CACHE_V1: FormatVersion := FormatVersion(KvCache, 1)

  /** `SKEGHULL` in ASCII. */
  const MAGIC: seq<byte> := [0x53, 0x4B, 0x45, 0x47, 0x48, 0x55, 0x4C, 0x4C]
  const HEADER_LEN: nat := 64
  const SECTION_ENTRY_LEN: nat := 28
  const FILE_CHECKSUM_LEN: nat := 4

  /** The reader of version 1 of every format reads version 1 only. */
  predicate Compatible(found: FormatVersion) {
    found.version != 0 && found.version <= 1
  }

  /** What a `Malformed` error complains about; the message text is not modelled. */
  datatype Fault =
    | TableOffset(found: u32)
    | SectionOverflow
    | IdentityTooShort
    | BadAdapterByte
    | NameTruncated
    | NameNotUtf8
    | NameTooLong
    | ShapeLength
    | UnknownDtype
    | UnknownLayout
    | BlobTooShort
    | KvTruncated
    | TrailingAfterKv
    | LogitsLenTruncated
    | LogitsLenMismatch
    | BadLogitsByte
    | BlobSizeMismatch(expected: nat, got: nat)
    | MetaLength
    | CentroidSectionLength
    | VectorLength
    | TagTooLong
    | TagsTooShort
    | TagTruncated(index: nat)
    | TagBodyTruncated(index: nat)
    | TagNotUtf8(index: nat)
    | TrailingAfterTags
    | ScrubHeader
    | ScrubSection(scrubbed: u16)

  datatype Error =
    | Io
    | MagicMismatch(magic: seq<byte>)
    | UnknownFormat(formatId: u16)
    | UnsupportedVersion(format: FormatId, version: u16)
    | SectionChecksumFailed(failedId: u16)
    | FileChecksumFailed
    | Truncated
    | Malformed(fault: Fault)
    | MissingSection(missingId: u16)
    | FormatMismatch(found: FormatVersion, expected: FormatVersion)

  type Outcome<T> = Result<T, Error>
}
