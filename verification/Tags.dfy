/** The tag aggregate section: a counted list of length-prefixed UTF-8 strings. */
module Tags {
  import opened Bytes
  import opened Prelude
  import opened Format
  import opened Utf8

  datatype TagEntry = TagEntry(count: u32, tag: utf8)

  const U16_MAX: nat := 0xFFFF

  /** Every tag fits its 16-bit length field. */
  predicate TagsFit(entries: seq<TagEntry>) {
    forall i :: 0 <= i < |entries| ==> |entries[i].tag| <= U16_MAX
  }

  function EncodeTag(e: TagEntry): (b: seq<byte>)
    requires |e.tag| <= U16_MAX
    ensures |b| == 6 + |e.tag|
  {
    Le32(e.count) + Le16(|e.tag|) + e.tag
  }

  function EncodeTags(entries: seq<TagEntry>): (b: seq<byte>)
    requires TagsFit(entries)
    ensures |b| >= 6 * |entries|
  {
    if entries == [] then [] else EncodeTag(entries[0]) + EncodeTags(entries[1..])
  }

  /** The section of an encodable list; the entry count is cast to 32 bits. */
  function Section(entries: seq<TagEntry>): seq<byte>
    requires TagsFit(entries)
  {
    Le32(CastU32(|entries|)) + EncodeTags(entries)
  }

  function Encode(entries: seq<TagEntry>): Outcome<seq<byte>> {
    if TagsFit(entries) then Ok(Section(entries)) else Err(Malformed(TagTooLong))
  }

  method EncodeSection(entries: seq<TagEntry>) returns (r: Outcome<seq<byte>>)
    ensures r == Encode(entries)
  {
    hide Le, FromLe, IsUtf8, EncodeTag;
    var out := Le32(CastU32(|entries|));
    for i := 0 to |entries|
      invariant TagsFit(entries[..i])
      invariant TagsFit(entries) ==> out + EncodeTags(entries[i..]) == Section(entries)
    {
      var e := entries[i];
      if |e.tag| > U16_MAX { return Err(Malformed(TagTooLong)); }
      assert entries[i..][1..] == entries[i + 1..];
      assert entries[..i + 1] == entries[..i] + [e];
      if TagsFit(entries) {
        EncodeTagIs(out, e, EncodeTags(entries[i + 1..]));
      }
      out := out + Le32(e.count);
      out := out + Le16(|e.tag|);
      out := out + e.tag;
    }
    assert entries[..|entries|] == entries && entries[|entries|..] == [];
    assert out + [] == out;
    return Ok(out);
  }

  lemma EncodeTagIs(done: seq<byte>, e: TagEntry, todo: seq<byte>)
    requires |e.tag| <= U16_MAX
    ensures done + Le32(e.count) + Le16(|e.tag|) + e.tag + todo == done + (EncodeTag(e) + todo)
  {
    hide Le, FromLe, IsUtf8;
  }

  // ----- Decoding -----

  /** `remaining` entries from the start of `buf`, and nothing after them. */
  function DecodeFrom(buf: seq<byte>, remaining: nat, index: nat): (r: Outcome<seq<TagEntry>>)
    ensures !r.Panic?
    decreases remaining
  {
    if remaining == 0 then
      if buf != [] then Err(Malformed(TrailingAfterTags)) else Ok([])
    else if |buf| < 6 then Err(Malformed(TagTruncated(index)))
    else
      var len := U16At(buf, 4);
      if 6 + len > |buf| then Err(Malformed(TagBodyTruncated(index)))
      else if !IsUtf8(buf[6..6 + len]) then Err(Malformed(TagNotUtf8(index)))
      else
        var rest :- DecodeFrom(buf[6 + len..], remaining - 1, index + 1);
        Ok([TagEntry(U32At(buf, 0), buf[6..6 + len])] + rest)
  }

  function Decode(buf: seq<byte>): (r: Outcome<seq<TagEntry>>)
    ensures !r.Panic?
  {
    if |buf| < 4 then Err(Malformed(TagsTooShort))
    else DecodeFrom(buf[4..], U32At(buf, 0), 0)
  }

  /** The rest of a decoding, put after the entries already read. */
  ghost function After(done: seq<TagEntry>, rest: Outcome<seq<TagEntry>>): Outcome<seq<TagEntry>> {
    match rest
    case Ok(es) => Ok(done + es)
    case _ => rest
  }

  /** One turn of the decoding loop, in terms of the cursor. */
  lemma DecodeStep(buf: seq<byte>, cur: nat, remaining: nat, index: nat)
    requires cur <= |buf| && remaining > 0
    ensures cur + 6 > |buf| ==> DecodeFrom(buf[cur..], remaining, index) == Err(Malformed(TagTruncated(index)))
    ensures cur + 6 <= |buf| ==>
      var at := cur + 6;
      var len := U16At(buf, cur + 4);
      DecodeFrom(buf[cur..], remaining, index)
        == if at + len > |buf| then Err(Malformed(TagBodyTruncated(index)))
           else if !IsUtf8(buf[at..at + len]) then Err(Malformed(TagNotUtf8(index)))
           else After([TagEntry(U32At(buf, cur), buf[at..at + len])],
                      DecodeFrom(buf[at + len..], remaining - 1, index + 1))
  {
    hide Le, FromLe, IsUtf8;
    var here := buf[cur..];
    if cur + 6 <= |buf| {
      assert here[0..4] == buf[cur..cur + 4] && here[4..6] == buf[cur + 4..cur + 6];
      var len := U16At(buf, cur + 4);
      if cur + 6 + len <= |buf| {
        assert here[6..6 + len] == buf[cur + 6..cur + 6 + len];
        assert here[6 + len..] == buf[cur + 6 + len..];
      }
    }
  }

  method DecodeSection(buf: seq<byte>) returns (r: Outcome<seq<TagEntry>>)
    ensures r == Decode(buf)
  {
    hide Le, FromLe, IsUtf8;
    if |buf| < 4 { return Err(Malformed(TagsTooShort)); }
    var count := U32At(buf, 0);
    var out: seq<TagEntry> := [];
    var cur := 4;
    AfterNone(DecodeFrom(buf[4..], count, 0));
    for i := 0 to count
      invariant 4 <= cur <= |buf|
      invariant Decode(buf) == After(out, DecodeFrom(buf[cur..], count - i, i))
    {
      hide Decode, DecodeFrom;
      DecodeStep(buf, cur, count - i, i);
      if cur + 6 > |buf| { return Err(Malformed(TagTruncated(i))); }
      var entryCount := U32At(buf, cur);
      cur := cur + 4;
      var len := U16At(buf, cur);
      cur := cur + 2;
      if cur + len > |buf| { return Err(Malformed(TagBodyTruncated(i))); }
      if !IsUtf8(buf[cur..cur + len]) { return Err(Malformed(TagNotUtf8(i))); }
      var tag: utf8 := buf[cur..cur + len];
      cur := cur + len;
      AfterOne(out, TagEntry(entryCount, tag), DecodeFrom(buf[cur..], count - i - 1, i + 1));
      out := out + [TagEntry(entryCount, tag)];
    }
    if cur != |buf| { return Err(Malformed(TrailingAfterTags)); }
    assert buf[cur..] == [] && out + [] == out;
    return Ok(out);
  }

  lemma AfterNone(rest: Outcome<seq<TagEntry>>)
    ensures After([], rest) == rest
  {
    if rest.Ok? {
      assert [] + rest.value == rest.value;
    }
  }

  lemma AfterOne(done: seq<TagEntry>, e: TagEntry, rest: Outcome<seq<TagEntry>>)
    ensures After(done + [e], rest) == After(done, After([e], rest))
  {
    if rest.Ok? {
      assert done + [e] + rest.value == done + ([e] + rest.value);
    }
  }

  // ----- A bijection -----

  lemma OneTag(e: TagEntry, z: seq<byte>)
    requires |e.tag| <= U16_MAX
    ensures var b := EncodeTag(e) + z;
            && U32At(b, 0) == e.count && U16At(b, 4) == |e.tag|
            && b[6..6 + |e.tag|] == e.tag && b[6 + |e.tag|..] == z
  {
    hide Le, FromLe, IsUtf8;
    var b := EncodeTag(e) + z;
    assert b[0..4] == Le32(e.count);
    assert b[4..6] == Le16(|e.tag|);
  }

  /** Decoding as many entries as were encoded succeeds exactly when nothing follows them. */
  lemma {:induction false} DecodeFromEncoded(entries: seq<TagEntry>, z: seq<byte>, index: nat)
    requires TagsFit(entries)
    ensures DecodeFrom(EncodeTags(entries) + z, |entries|, index)
         == if z == [] then Ok(entries) else Err(Malformed(TrailingAfterTags))
    decreases |entries|
  {
    hide Le, FromLe, IsUtf8, EncodeTag;
    if entries == [] {
      assert EncodeTags(entries) + z == z;
    } else {
      var e, tail := entries[0], entries[1..];
      assert EncodeTags(entries) + z == EncodeTag(e) + (EncodeTags(tail) + z);
      OneTag(e, EncodeTags(tail) + z);
      DecodeFromEncoded(tail, z, index + 1);
      assert [e] + tail == entries;
      assert TagEntry(e.count, e.tag) == e;
    }
  }

  lemma {:induction false} DecodedReencodes(buf: seq<byte>, remaining: nat, index: nat)
    requires DecodeFrom(buf, remaining, index).Ok?
    ensures var es := DecodeFrom(buf, remaining, index).value;
            |es| == remaining && TagsFit(es) && EncodeTags(es) == buf
    decreases remaining
  {
    hide Le, FromLe, IsUtf8, EncodeTag;
    if remaining > 0 {
      var len := U16At(buf, 4);
      OneTagBack(buf);
      DecodedReencodes(buf[6 + len..], remaining - 1, index + 1);
      var es := DecodeFrom(buf, remaining, index).value;
      assert es[1..] == DecodeFrom(buf[6 + len..], remaining - 1, index + 1).value;
    }
  }

  lemma OneTagBack(buf: seq<byte>)
    requires |buf| >= 6 && |buf| >= 6 + U16At(buf, 4) && IsUtf8(buf[6..6 + U16At(buf, 4)])
    ensures var end := 6 + U16At(buf, 4);
            buf == EncodeTag(TagEntry(U32At(buf, 0), buf[6..end])) + buf[end..]
  {
    hide Le, FromLe, IsUtf8;
    var end := 6 + U16At(buf, 4);
    assert buf == buf[0..4] + buf[4..6] + buf[6..end] + buf[end..];
  }

  lemma {:induction false} EncodeTagsSplit(entries: seq<TagEntry>, n: nat)
    requires TagsFit(entries) && n <= |entries|
    ensures TagsFit(entries[..n]) && TagsFit(entries[n..])
    ensures EncodeTags(entries) == EncodeTags(entries[..n]) + EncodeTags(entries[n..])
    decreases n
  {
    hide Le, FromLe, IsUtf8, EncodeTag;
    if n == 0 {
      assert entries[..0] == [] && entries[0..] == entries;
    } else {
      EncodeTagsSplit(entries[1..], n - 1);
      assert entries[..n][1..] == entries[1..][..n - 1];
      assert entries[1..][n - 1..] == entries[n..];
    }
  }

  /** Where tag `i` lies: after the count and the tags before it. */
  lemma Layout(entries: seq<TagEntry>, i: nat)
    requires TagsFit(entries) && i < |entries|
    ensures TagsFit(entries[..i])
    ensures var b, at, n := Section(entries), 4 + |EncodeTags(entries[..i])|, |entries[i].tag|;
            && |b| >= at + 6 + n && n <= 0xFFFF
            && b[0..4] == Le32(CastU32(|entries|))
            && b[at..at + 4] == Le32(entries[i].count) && b[at + 4..at + 6] == Le16(n)
            && b[at + 6..at + 6 + n] == entries[i].tag
  {
    hide Le, FromLe, IsUtf8, EncodeTag;
    EncodeTagsSplit(entries, i);
    var e := entries[i];
    var front, rest := Le32(CastU32(|entries|)) + EncodeTags(entries[..i]), EncodeTags(entries[i + 1..]);
    assert entries[i..][0] == e && entries[i..][1..] == entries[i + 1..];
    assert Section(entries) == front + (EncodeTag(e) + rest);
    assert front[0..4] == Le32(CastU32(|entries|));
    hide EncodeTags, Section, TagsFit;
    OneTagLayout(front, e, rest);
    assert Section(entries)[0..4] == front[0..4];
  }

  lemma OneTagLayout(front: seq<byte>, e: TagEntry, rest: seq<byte>)
    requires |e.tag| <= 0xFFFF
    ensures var b, at := front + (EncodeTag(e) + rest), |front|;
            b[at..at + 4] == Le32(e.count) && b[at + 4..at + 6] == Le16(|e.tag|)
            && b[at + 6..at + 6 + |e.tag|] == e.tag
  {
    hide Le, FromLe, IsUtf8;
  }

  /** Why bytes are refused where the next of `remaining` tags should start, or where there should be no more. */
  ghost predicate RefusedAt(rest: seq<byte>, remaining: nat, index: nat, fault: Fault) {
    if remaining == 0 then rest != [] && fault == TrailingAfterTags
    else if |rest| < 6 then fault == TagTruncated(index)
    else if |rest| < 6 + U16At(rest, 4) then fault == TagBodyTruncated(index)
    else !IsUtf8(rest[6..6 + U16At(rest, 4)]) && fault == TagNotUtf8(index)
  }

  /** A section too short for its count is refused; so is any other at the first place it goes wrong. */
  lemma Refuses(buf: seq<byte>, entries: seq<TagEntry>, rest: seq<byte>, count: u32, fault: Fault)
    requires TagsFit(entries) && |entries| <= count
    requires buf == Le32(count) + EncodeTags(entries) + rest
    requires RefusedAt(rest, count - |entries|, |entries|, fault)
    ensures Decode(buf) == Err(Malformed(fault))
  {
    hide Le, FromLe, IsUtf8, EncodeTags, RefusedAt, DecodeFrom, TagsFit;
    RefusesFrom(entries, rest, count, 0, fault);
    assert buf[0..4] == Le32(count);
    assert buf[4..] == EncodeTags(entries) + rest;
  }

  lemma TooShort(buf: seq<byte>)
    ensures Decode(buf) == Err(Malformed(TagsTooShort)) <==> |buf| < 4
  {
    hide Le, FromLe, IsUtf8;
    if |buf| >= 4 { NeverTooShort(buf[4..], U32At(buf, 0), 0); }
  }

  lemma {:induction false} NeverTooShort(buf: seq<byte>, remaining: nat, index: nat)
    ensures DecodeFrom(buf, remaining, index) != Err(Malformed(TagsTooShort))
    decreases remaining
  {
    hide Le, FromLe, IsUtf8;
    if remaining > 0 && |buf| >= 6 && |buf| >= 6 + U16At(buf, 4) {
      NeverTooShort(buf[6 + U16At(buf, 4)..], remaining - 1, index + 1);
    }
  }

  lemma {:induction false} RefusesFrom(entries: seq<TagEntry>, rest: seq<byte>, remaining: nat, index: nat, fault: Fault)
    requires TagsFit(entries) && |entries| <= remaining
    requires RefusedAt(rest, remaining - |entries|, index + |entries|, fault)
    ensures DecodeFrom(EncodeTags(entries) + rest, remaining, index) == Err(Malformed(fault))
    decreases |entries|
  {
    hide Le, FromLe, IsUtf8, EncodeTag;
    if entries == [] {
      assert EncodeTags(entries) + rest == rest;
    } else {
      hide RefusedAt, DecodeFrom;
      var more := EncodeTags(entries[1..]) + rest;
      assert EncodeTags(entries) + rest == EncodeTag(entries[0]) + more;
      RefusesFrom(entries[1..], rest, remaining - 1, index + 1, fault);
      RefusedAfter(entries[0], more, remaining, index, Malformed(fault));
    }
  }

  lemma RefusedAfter(e: TagEntry, more: seq<byte>, remaining: nat, index: nat, error: Error)
    requires |e.tag| <= U16_MAX && remaining > 0
    requires DecodeFrom(more, remaining - 1, index + 1) == Err(error)
    ensures DecodeFrom(EncodeTag(e) + more, remaining, index) == Err(error)
  {
    hide Le, FromLe, IsUtf8, EncodeTag;
    OneTag(e, more);
  }

  /**
    The section is a bijection: what decodes to a list is that list's own encoding and nothing
    else, so two lists never share an encoding and no accepted section has a second spelling.
   */
  lemma DecodeIffEncoded(buf: seq<byte>, entries: seq<TagEntry>)
    ensures Decode(buf) == Ok(entries)
       <==> |entries| < U32_LIMIT && TagsFit(entries) && buf == Section(entries)
  {
    hide Le, FromLe, IsUtf8, EncodeTag;
    if Decode(buf) == Ok(entries) {
      DecodedReencodes(buf[4..], U32At(buf, 0), 0);
      assert buf == buf[0..4] + buf[4..];
    }
    if |entries| < U32_LIMIT && TagsFit(entries) && buf == Section(entries) {
      assert buf[0..4] == Le32(|entries|);
      assert buf[4..] == EncodeTags(entries) + [];
      DecodeFromEncoded(entries, [], 0);
    }
  }

  /** What reading back an encodable list gives: itself, unless its count did not fit 32 bits. */
  lemma SectionRoundTrip(entries: seq<TagEntry>)
    requires TagsFit(entries)
    ensures Decode(Section(entries))
         == if |entries| < U32_LIMIT then Ok(entries) else Err(Malformed(TrailingAfterTags))
  {
    hide Le, FromLe, IsUtf8, EncodeTag;
    var n := CastU32(|entries|);
    var b := Section(entries);
    assert b[0..4] == Le32(n) && b[4..] == EncodeTags(entries);
    EncodeTagsSplit(entries, n);
    DecodeFromEncoded(entries[..n], EncodeTags(entries[n..]), 0);
    if |entries| < U32_LIMIT {
      assert entries[..n] == entries && entries[n..] == [];
    }
  }
}
