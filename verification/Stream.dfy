/**
  `Read + Write + Seek`: a byte store with a position. One store stands for an open file or for
  an in-memory cursor. Calls may be short; on a store that is not reliable they may also fail.
 */
module Streams {
  import opened Bytes
  import opened Prelude

  datatype ReadExactResult = Filled | UnexpectedEof | Failed

  /** `s` with `bytes` written over it from position `at`, zero-filling any gap. */
  function Overwrite(s: seq<byte>, at: nat, bytes: seq<byte>): seq<byte> {
    (if at <= |s| then s[..at] else s + Zeros(at - |s|))
      + bytes
      + (if at + |bytes| <= |s| then s[at + |bytes|..] else [])
  }

  /** Byte by byte: the new bytes in their place, zeros in a gap before them, the old ones everywhere else. */
  lemma OverwriteBytes(s: seq<byte>, at: nat, bytes: seq<byte>, k: nat)
    requires k < |Overwrite(s, at, bytes)|
    ensures |Overwrite(s, at, bytes)| == if at + |bytes| > |s| then at + |bytes| else |s|
    ensures Overwrite(s, at, bytes)[k] ==
              if at <= k < at + |bytes| then bytes[k - at] else if k < |s| then s[k] else 0
  {
  }

  /** A file refuses to seek beyond `i64::MAX`; a cursor takes any `u64`. */
  datatype Kind = File | Cursor {
    function MaxSeek(): nat {
      if File? then 0x7FFF_FFFF_FFFF_FFFF else 0xFFFF_FFFF_FFFF_FFFF
    }
  }

  class Stream {
    var data: seq<byte>
    var pos: nat
    const reliable: bool
    const kind: Kind

    constructor (data: seq<byte>, reliable: bool, kind: Kind)
      ensures this.data == data && pos == 0
      ensures this.reliable == reliable && this.kind == kind
    {
      this.data := data;
      this.pos := 0;
      this.reliable := reliable;
      this.kind := kind;
    }

    /** `seek(SeekFrom::Start(offset))`. */
    method Seek(offset: nat) returns (ok: bool)
      modifies this`pos
      ensures ok ==> offset <= kind.MaxSeek() && pos == offset
      ensures reliable && offset <= kind.MaxSeek() ==> ok
    {
      ok := offset <= kind.MaxSeek();
      if !reliable {
        if * { ok := false; }
      }
      if ok { pos := offset; }
    }

    /** One `read` into the first `want` bytes of `buf`: any positive number of bytes, 0 only at the end. */
    method Read(buf: array<byte>, want: nat) returns (got: Option<nat>)
      requires want <= buf.Length
      modifies this`pos, buf
      ensures reliable ==> got.Some?
      ensures got.Some? ==>
        var n := got.value;
        && n <= want
        && (n == 0 <==> want == 0 || old(pos) >= |data|)
        && pos == old(pos) + n
        && (n > 0 ==> pos <= |data| && buf[..n] == data[old(pos)..pos])
    {
      if !reliable {
        if * { return None; }
      }
      if want == 0 || pos >= |data| { return Some(0); }
      var most := if want <= |data| - pos then want else |data| - pos;
      var n: nat :| 1 <= n <= most;
      CopyFromSlice(buf, 0, data[pos..pos + n]);
      pos := pos + n;
      return Some(n);
    }

    /** `read_exact` into the whole of `buf`. */
    method ReadExact(buf: array<byte>) returns (r: ReadExactResult)
      modifies this`pos, buf
      ensures reliable ==> !r.Failed?
      ensures r.Filled? ==> old(pos) + buf.Length <= |data| && pos == old(pos) + buf.Length
      ensures r.Filled? ==> buf[..] == data[old(pos)..pos]
      ensures r.UnexpectedEof? ==> old(pos) + buf.Length > |data|
    {
      if !reliable {
        if * { return Failed; }
      }
      if pos + buf.Length > |data| { return UnexpectedEof; }
      CopyFromSlice(buf, 0, data[pos..pos + buf.Length]);
      pos := pos + buf.Length;
      return Filled;
    }

    /** `read_to_end`. */
    method ReadToEnd() returns (all: Option<seq<byte>>)
      requires pos <= |data|
      modifies this`pos
      ensures reliable ==> all.Some?
      ensures all.Some? ==> all.value == data[old(pos)..] && pos == |data|
    {
      if !reliable {
        if * { return None; }
      }
      all := Some(data[pos..]);
      pos := |data|;
    }

    /** `write_all`: on failure some prefix of the bytes may already be in place. */
    method WriteAll(bytes: seq<byte>) returns (ok: bool)
      modifies this`pos, this`data
      ensures reliable ==> ok
      ensures ok ==> data == Overwrite(old(data), old(pos), bytes) && pos == old(pos) + |bytes|
    {
      ok := true;
      if !reliable {
        if * { ok := false; }
      }
      var written := |bytes|;
      if !ok { written :| 0 <= written <= |bytes|; }
      data := Overwrite(data, pos, bytes[..written]);
      pos := pos + written;
      assert bytes[..|bytes|] == bytes;
    }

    /** `flush`. */
    method Flush() returns (ok: bool)
      ensures reliable ==> ok
    {
      ok := true;
      if !reliable {
        if * { ok := false; }
      }
    }
  }
}
