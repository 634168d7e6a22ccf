/**
 * Extraction of one sub-font from a TrueType Collection (the 'TTC Header'
 * and 'Table Directory' sections of the OpenType font file chapter), as
 * UIFontVector::GetTtfInfoFromTtc does it: read the header, locate the
 * sub-font's table directory through the offset table, copy its byte range
 * into the caller's buffer and rebase every table record's offset field.
 *
 * The header is read through a 12-byte frame whose second field is taken
 * as numFonts; the code takes it from bytes 4..7 (the version field of the
 * TTC header), the format puts it at bytes 8..11. `numFontsAt` is that
 * position. The buffer method below and the rest of the model read it as
 * the code does, at NUM_FONTS_AT_AS_WRITTEN; the lemmas at the end of the
 * value part show what that gets wrong and what reading it where the format
 * puts it, at NUM_FONTS_AT_TTC_HEADER, gets right.
 */
module CollectionReader {
  import opened FontTypes
  import opened ByteOrder

  const NUM_FONTS_AT_AS_WRITTEN: nat := 4
  const NUM_FONTS_AT_TTC_HEADER: nat := 8

  datatype TtcError =
    | ShortHeader       // fewer than 12 bytes for the header frame
    | NotCollection     // first u32 is not 'ttcf'
    | IndexOutOfRange   // ttfIndex >= numFonts
    | ShortOffsets      // the offset table entry (or the next one) lies past the end
    | TooLong           // derived length exceeds the caller's buffer size
    | BadOffset         // the sub-font offset is at or past the end of the stream

  /**
   * What the parse decides once the header and the offset table are read:
   * reject before copying; copy part of the range and fail (the stream ends
   * before `length` bytes); copy the range and fail on reading numTables;
   * or copy the range and rebase `numTables` offset fields.
   */
  datatype Plan =
    | Reject(why: TtcError)
    | PartialCopy(offset: uint32, count: nat, length: uint32)
    | CopyOnly(offset: uint32, length: uint32)
    | CopyAndPatch(offset: uint32, length: uint32, numTables: nat)

  /** FT_FRAME_LONG: the signed reading of a u32. */
  function I32(v: uint32): (r: int)
    ensures -0x8000_0000 <= r < 0x8000_0000
  {
    if v < 0x8000_0000 then v else v - 0x1_0000_0000
  }

  /** uint32_t subtraction. */
  function Sub32(a: uint32, b: uint32): uint32 {
    if a >= b then a - b else a - b + 0x1_0000_0000
  }

  /** Conversion of an integer to uint32_t. */
  function Wrap32(x: int): uint32 {
    if 0 <= x < 0x1_0000_0000 then x
    else if -0x1_0000_0000 <= x < 0 then x + 0x1_0000_0000
    else x % 0x1_0000_0000
  }

  /** The numFonts value the header frame yields. */
  function NumFonts(stream: seq<byte>, numFontsAt: nat): int
    requires numFontsAt + 4 <= |stream|
  {
    I32(U32BE(stream, numFontsAt))
  }

  /** The position of sub-font `ttfIndex`'s entry in the offset table. */
  function OffsetEntry(ttfIndex: nat): nat {
    12 + 4 * ttfIndex
  }

  /**
   * The sub-font's length from the offset table: the rest of the stream for
   * the last sub-font, else the distance to the next sub-font's offset, both
   * in uint32 arithmetic.
   */
  function SubFontLength(stream: seq<byte>, ttfIndex: nat, numFonts: int): (r: Option<uint32>)
    requires OffsetEntry(ttfIndex) + 4 <= |stream|
  {
    var off := U32BE(stream, OffsetEntry(ttfIndex));
    if ttfIndex + 1 == numFonts then Some(Wrap32(|stream| - off))
    else if OffsetEntry(ttfIndex) + 8 > |stream| then None
    else Some(Sub32(U32BE(stream, OffsetEntry(ttfIndex) + 4), off))
  }

  /** The parse of GetTtfInfoFromTtc from the header to the table count. */
  function PlanExtraction(stream: seq<byte>, ttfIndex: uint8, bufSize: nat, numFontsAt: nat): (p: Plan)
    requires numFontsAt + 4 <= 12
    ensures |stream| < 12 ==> p == Reject(ShortHeader)
    ensures |stream| >= 12 && U32BE(stream, 0) != TTAG_TTCF ==> p == Reject(NotCollection)
    ensures |stream| >= 12 && U32BE(stream, 0) == TTAG_TTCF && ttfIndex >= NumFonts(stream, numFontsAt) ==>
              p == Reject(IndexOutOfRange)
    ensures !p.Reject? ==>
              && OffsetEntry(ttfIndex) + 4 <= |stream|
              && p.offset == U32BE(stream, OffsetEntry(ttfIndex)) < |stream|
              && SubFontLength(stream, ttfIndex, NumFonts(stream, numFontsAt)).Some?
              && p.length == SubFontLength(stream, ttfIndex, NumFonts(stream, numFontsAt)).value
    ensures p.PartialCopy? ==> p.count == |stream| - p.offset < p.length <= bufSize
    ensures (p.CopyOnly? || p.CopyAndPatch?) ==> p.length <= bufSize && p.offset + p.length <= |stream|
  {
    if |stream| < 12 then Reject(ShortHeader)
    else if U32BE(stream, 0) != TTAG_TTCF then Reject(NotCollection)
    else
      var numFonts := NumFonts(stream, numFontsAt);
      if ttfIndex >= numFonts then Reject(IndexOutOfRange)
      else if OffsetEntry(ttfIndex) + 4 > |stream| then Reject(ShortOffsets)
      else
        var off := U32BE(stream, OffsetEntry(ttfIndex));
        match SubFontLength(stream, ttfIndex, numFonts)
        case None => Reject(ShortOffsets)
        case Some(length) =>
          if length > bufSize then Reject(TooLong)
          else if off >= |stream| then Reject(BadOffset)
          else if off + length > |stream| then PartialCopy(off, |stream| - off, length)
          else
            var countAt := Wrap32(off + 4);
            if countAt + 2 > |stream| then CopyOnly(off, length)
            else CopyAndPatch(off, length, U16BE(stream, countAt))
  }

  // ---------------------------------------------------------------------
  // The copy and the offset rebase
  // ---------------------------------------------------------------------

  /**
   * The position of table record `k`'s offset field in the extracted font:
   * the table directory's 12-byte header, then 16-byte records whose offset
   * field follows the tag and the checksum.
   */
  function OffsetField(k: nat): nat {
    20 + 16 * k
  }

  /** The patch loop writes `n` offset fields; the last one must lie inside the buffer. */
  predicate PatchFits(n: nat, size: nat) {
    n == 0 || OffsetField(n - 1) + 4 <= size
  }

  /** The offset field at `at` decreased by `off`, modulo 2^32, stored big-endian. */
  function RebaseField(b: seq<byte>, at: nat, off: uint32): (r: seq<byte>)
    requires at + 4 <= |b|
    ensures |r| == |b|
  {
    Splice(b, at, BytesBE(Sub32(U32BE(b, at), off)))
  }

  /** The buffer after the patch loop has run `n` times. */
  function Patched(b: seq<byte>, off: uint32, n: nat): (r: seq<byte>)
    requires PatchFits(n, |b|)
    ensures |r| == |b|
  {
    if n == 0 then b
    else RebaseField(Patched(b, off, n - 1), OffsetField(n - 1), off)
  }

  /** Bytes outside the offset fields of `n` records. */
  predicate OutsideFields(p: nat, n: nat) {
    forall k :: 0 <= k < n ==> !(OffsetField(k) <= p < OffsetField(k) + 4)
  }

  /** Two sequences that agree on four bytes read the same word there. */
  lemma SameWord(a: seq<byte>, b: seq<byte>, at: nat)
    requires at + 4 <= |a| && at + 4 <= |b|
    requires a[at] == b[at] && a[at + 1] == b[at + 1] && a[at + 2] == b[at + 2] && a[at + 3] == b[at + 3]
    ensures U32BE(a, at) == U32BE(b, at)
  {
  }

  /** The patch loop leaves every byte outside the offset fields as it was. */
  lemma {:induction false} PatchedKeepsOtherBytes(b: seq<byte>, off: uint32, n: nat, p: nat)
    requires PatchFits(n, |b|) && p < |b| && OutsideFields(p, n)
    ensures Patched(b, off, n)[p] == b[p]
  {
    if n > 0 {
      assert !(OffsetField(n - 1) <= p < OffsetField(n - 1) + 4);
      PatchedKeepsOtherBytes(b, off, n - 1, p);
    }
  }

  /** The last patch step stores the old value of its field minus `off`. */
  lemma PatchedLastField(b: seq<byte>, off: uint32, n: nat)
    requires PatchFits(n, |b|) && n > 0
    ensures U32BE(Patched(b, off, n), OffsetField(n - 1)) == Sub32(U32BE(b, OffsetField(n - 1)), off)
  {
    var prev := Patched(b, off, n - 1);
    var at := OffsetField(n - 1);
    PeekAfterStoreBE(prev, at, Sub32(U32BE(prev, at), off));
    forall q | at <= q < at + 4 ensures prev[q] == b[q] {
      PatchedKeepsOtherBytes(b, off, n - 1, q);
    }
    SameWord(prev, b, at);
  }

  /** Patch step `n` does not disturb the fields of earlier records. */
  lemma PatchStepKeepsEarlierField(b: seq<byte>, off: uint32, n: nat, k: nat)
    requires PatchFits(n, |b|) && k + 1 < n
    ensures U32BE(Patched(b, off, n), OffsetField(k)) == U32BE(Patched(b, off, n - 1), OffsetField(k))
  {
    var prev, r := Patched(b, off, n - 1), Patched(b, off, n);
    var f, at := OffsetField(k), OffsetField(n - 1);
    assert f + 4 <= at;
    assert r[f] == prev[f] && r[f + 1] == prev[f + 1] && r[f + 2] == prev[f + 2] && r[f + 3] == prev[f + 3];
    SameWord(r, prev, f);
  }

  /** After the patch loop, offset field `k` reads as its old value minus `off`, modulo 2^32. */
  lemma {:induction false} PatchedField(b: seq<byte>, off: uint32, n: nat, k: nat)
    requires PatchFits(n, |b|) && k < n
    ensures U32BE(Patched(b, off, n), OffsetField(k)) == Sub32(U32BE(b, OffsetField(k)), off)
  {
    if k == n - 1 {
      PatchedLastField(b, off, n);
    } else {
      PatchedField(b, off, n - 1, k);
      PatchStepKeepsEarlierField(b, off, n, k);
    }
  }

  /** The caller's buffer after the copy of `count` stream bytes starting at `offset`. */
  function Copied(buf: seq<byte>, stream: seq<byte>, offset: nat, count: nat): (r: seq<byte>)
    requires count <= |buf| && offset + count <= |stream|
    ensures |r| == |buf|
  {
    stream[offset..offset + count] + buf[count..]
  }

  /** What GetTtfInfoFromTtc leaves behind: its result, the buffer, and ttfHeader.len if it was written. */
  datatype Extraction = Extraction(ok: bool, buffer: seq<byte>, headerLen: Option<uint32>)

  /** The precondition the code leaves to its caller: the patch loop stays inside the buffer. */
  predicate PatchStaysInBuffer(plan: Plan, bufLen: nat) {
    plan.CopyAndPatch? ==> PatchFits(plan.numTables, bufLen)
  }

  /** Carrying out a plan on the caller's buffer. */
  function ApplyPlan(plan: Plan, buf: seq<byte>, stream: seq<byte>): (r: Extraction)
    requires plan.PartialCopy? ==> plan.count <= |buf| && plan.offset + plan.count <= |stream|
    requires (plan.CopyOnly? || plan.CopyAndPatch?) ==> plan.length <= |buf| && plan.offset + plan.length <= |stream|
    requires PatchStaysInBuffer(plan, |buf|)
    ensures |r.buffer| == |buf|
  {
    match plan
    case Reject(_) => Extraction(false, buf, None)
    case PartialCopy(off, count, _) => Extraction(false, Copied(buf, stream, off, count), None)
    case CopyOnly(off, length) => Extraction(false, Copied(buf, stream, off, length), Some(length))
    case CopyAndPatch(off, length, n) =>
      Extraction(true, Patched(Copied(buf, stream, off, length), off, n), Some(length))
  }

  /** Whether a call can run without writing past the buffer: the plan, if it patches, patches inside it. */
  predicate ExtractionFits(hasBuffer: bool, bufLen: nat, bufSize: nat, ttcIndex: nat, ttfIndex: uint8,
                           stream: Option<seq<byte>>, numFontsAt: nat)
    requires numFontsAt + 4 <= 12
  {
    hasBuffer && bufSize > 0 && ttcIndex < FONT_TTC_MAX && stream.Some? ==>
      bufSize <= bufLen && PatchStaysInBuffer(PlanExtraction(stream.value, ttfIndex, bufSize, numFontsAt), bufLen)
  }

  /**
   * GetTtfInfoFromTtc's effect: no buffer, an empty buffer, a ttcIndex of
   * FONT_TTC_MAX or more, or a null stream fail at once; otherwise the plan
   * is carried out.
   */
  function ExtractSubFont(hasBuffer: bool, buf: seq<byte>, bufSize: nat, ttcIndex: nat, ttfIndex: uint8,
                          stream: Option<seq<byte>>, numFontsAt: nat): (r: Extraction)
    requires numFontsAt + 4 <= 12
    requires ExtractionFits(hasBuffer, |buf|, bufSize, ttcIndex, ttfIndex, stream, numFontsAt)
    ensures |r.buffer| == |buf|
    ensures !hasBuffer || bufSize == 0 || ttcIndex >= FONT_TTC_MAX || stream.None? ==>
              r == Extraction(false, buf, None)
    ensures stream.Some? && |stream.value| >= 12 && U32BE(stream.value, 0) != TTAG_TTCF ==>
              r == Extraction(false, buf, None)
    ensures stream.Some? && |stream.value| >= 12 && ttfIndex >= NumFonts(stream.value, numFontsAt) ==>
              r == Extraction(false, buf, None)
    ensures r.ok ==>
              && hasBuffer && stream.Some? && ttcIndex < FONT_TTC_MAX && OffsetEntry(ttfIndex) + 4 <= |stream.value|
              && var s := stream.value;
                 var plan := PlanExtraction(s, ttfIndex, bufSize, numFontsAt);
                 && plan.CopyAndPatch?
                 && plan.offset == U32BE(s, OffsetEntry(ttfIndex))
                 && r.headerLen == SubFontLength(s, ttfIndex, NumFonts(s, numFontsAt)) == Some(plan.length)
                 && plan.length <= bufSize
                 && plan.offset + plan.length <= |s|
                 && r.buffer == Patched(Copied(buf, s, plan.offset, plan.length), plan.offset, plan.numTables)
    ensures !r.ok && r.headerLen.Some? ==> stream.Some? && PlanExtraction(stream.value, ttfIndex, bufSize, numFontsAt).CopyOnly?
  {
    if !hasBuffer || bufSize == 0 || ttcIndex >= FONT_TTC_MAX || stream.None? then Extraction(false, buf, None)
    else ApplyPlan(PlanExtraction(stream.value, ttfIndex, bufSize, numFontsAt), buf, stream.value)
  }

  /**
   * The parse reaches the copy-and-patch path exactly when the stream has a
   * collection header, the index is below numFonts, the offset table holds
   * the sub-font's offset and length, the length fits bufSize, the byte
   * range lies inside the stream and the sub-font's numTables can be read;
   * the plan then patches that many records.
   */
  lemma PlanPatchesExactly(stream: seq<byte>, ttfIndex: uint8, bufSize: nat, numFontsAt: nat)
    requires numFontsAt + 4 <= 12
    ensures PlanExtraction(stream, ttfIndex, bufSize, numFontsAt).CopyAndPatch? <==>
              && |stream| >= 12 && U32BE(stream, 0) == TTAG_TTCF
              && ttfIndex < NumFonts(stream, numFontsAt)
              && OffsetEntry(ttfIndex) + 4 <= |stream|
              && var off := U32BE(stream, OffsetEntry(ttfIndex));
                 var len := SubFontLength(stream, ttfIndex, NumFonts(stream, numFontsAt));
                 && len.Some? && len.value <= bufSize
                 && off < |stream| && off + len.value <= |stream|
                 && Wrap32(off + 4) + 2 <= |stream|
    ensures PlanExtraction(stream, ttfIndex, bufSize, numFontsAt).CopyAndPatch? ==>
              var p := PlanExtraction(stream, ttfIndex, bufSize, numFontsAt);
              p.numTables == U16BE(stream, Wrap32(p.offset + 4))
  {
  }

  /**
   * GetTtfInfoFromTtc returns true exactly when it is given a buffer, a
   * non-zero size, a collection index below FONT_TTC_MAX with a stream, and
   * that stream's parse reaches the copy-and-patch path.
   */
  lemma ExtractSubFontOkExactly(hasBuffer: bool, buf: seq<byte>, bufSize: nat, ttcIndex: nat, ttfIndex: uint8,
                                stream: Option<seq<byte>>, numFontsAt: nat)
    requires numFontsAt + 4 <= 12
    requires ExtractionFits(hasBuffer, |buf|, bufSize, ttcIndex, ttfIndex, stream, numFontsAt)
    ensures ExtractSubFont(hasBuffer, buf, bufSize, ttcIndex, ttfIndex, stream, numFontsAt).ok <==>
              && hasBuffer && bufSize > 0 && ttcIndex < FONT_TTC_MAX && stream.Some?
              && PlanExtraction(stream.value, ttfIndex, bufSize, numFontsAt).CopyAndPatch?
  {
  }

  /**
   * What the copy-and-patch path leaves in the buffer: every offset field of
   * the first `n` records reads as the copied value minus the sub-font
   * offset, every other byte of the range is the stream's, and the buffer
   * past the range is as it was.
   */
  lemma CopyAndPatchContents(buf: seq<byte>, s: seq<byte>, off: uint32, len: nat, n: nat)
    requires len <= |buf| && off + len <= |s| && PatchFits(n, |buf|)
    ensures var c := Copied(buf, s, off, len);
            forall k :: 0 <= k < n ==> U32BE(Patched(c, off, n), OffsetField(k)) == Sub32(U32BE(c, OffsetField(k)), off)
    ensures forall p :: 0 <= p < len && OutsideFields(p, n) ==> Patched(Copied(buf, s, off, len), off, n)[p] == s[off + p]
    ensures forall p :: len <= p < |buf| && OutsideFields(p, n) ==> Patched(Copied(buf, s, off, len), off, n)[p] == buf[p]
  {
    var c := Copied(buf, s, off, len);
    forall k | 0 <= k < n
      ensures U32BE(Patched(c, off, n), OffsetField(k)) == Sub32(U32BE(c, OffsetField(k)), off)
    {
      PatchedField(c, off, n, k);
    }
    CopyAndPatchKeepsBytes(buf, s, off, len, n);
  }

  /** The bytes outside the offset fields are the copy's. */
  lemma CopyAndPatchKeepsBytes(buf: seq<byte>, s: seq<byte>, off: uint32, len: nat, n: nat)
    requires len <= |buf| && off + len <= |s| && PatchFits(n, |buf|)
    ensures forall p :: 0 <= p < len && OutsideFields(p, n) ==> Patched(Copied(buf, s, off, len), off, n)[p] == s[off + p]
    ensures forall p :: len <= p < |buf| && OutsideFields(p, n) ==> Patched(Copied(buf, s, off, len), off, n)[p] == buf[p]
  {
    var c := Copied(buf, s, off, len);
    forall p | 0 <= p < |buf| && OutsideFields(p, n)
      ensures Patched(c, off, n)[p] == c[p]
    {
      PatchedKeepsOtherBytes(c, off, n, p);
    }
  }

  // ---------------------------------------------------------------------
  // The header frame reads the version field as numFonts
  // ---------------------------------------------------------------------

  /** A TTC header, version 1.0, declaring two sub-fonts at offsets 100 and 5000, and four zero bytes after it. */
  const EXAMPLE_HEADER: seq<byte> :=
    [0x74, 0x74, 0x63, 0x66,  0x00, 0x01, 0x00, 0x00,  0x00, 0x00, 0x00, 0x02,
     0x00, 0x00, 0x00, 0x64,  0x00, 0x00, 0x13, 0x88,  0x00, 0x00, 0x00, 0x00]

  /** A 9000-byte collection that starts with that header. */
  predicate IsExampleCollection(s: seq<byte>) {
    |s| == 9000 && forall k :: 0 <= k < 24 ==> s[k] == EXAMPLE_HEADER[k]
  }

  lemma ExampleFields(s: seq<byte>)
    requires IsExampleCollection(s)
    ensures U32BE(s, 0) == TTAG_TTCF
    ensures U32BE(s, 4) == 0x0001_0000 && U32BE(s, 8) == 2
    ensures U32BE(s, 12) == 100 && U32BE(s, 16) == 5000 && U32BE(s, 20) == 0
  {
  }

  /** Read as the format lays it out, the example's sub-fonts are 4900 and 4000 bytes long. */
  lemma IntendedExampleLengths(s: seq<byte>)
    requires IsExampleCollection(s)
    ensures NumFonts(s, NUM_FONTS_AT_TTC_HEADER) == 2
    ensures SubFontLength(s, 0, 2) == Some(4900)
    ensures SubFontLength(s, 1, 2) == Some(4000)
  {
    ExampleFields(s);
    assert U32BE(s, OffsetEntry(0) + 4) == 5000;
  }

  /** So with a buffer of at least 4000 bytes the intended reading extracts the last sub-font. */
  lemma IntendedExtractsLastSubFont(s: seq<byte>, buf: seq<byte>, bufSize: uint32)
    requires IsExampleCollection(s) && 4000 <= bufSize <= |buf|
    requires ExtractionFits(true, |buf|, bufSize, 0, 1, Some(s), NUM_FONTS_AT_TTC_HEADER)
    ensures var r := ExtractSubFont(true, buf, bufSize, 0, 1, Some(s), NUM_FONTS_AT_TTC_HEADER);
            r.ok && r.headerLen == Some(4000)
  {
    IntendedExampleLengths(s);
    var p := PlanExtraction(s, 1, bufSize, NUM_FONTS_AT_TTC_HEADER);
    assert p.CopyAndPatch? && p.offset == 5000 && p.length == 4000;
  }

  /**
   * As written, numFonts is the version field, 0x10000, so the last
   * sub-font is not recognised as last: its length is taken from the four
   * bytes after the offset table (zero here), 0 - 5000 modulo 2^32, and the
   * call fails whatever the buffer.
   */
  lemma AsWrittenMisreadsLastSubFont(s: seq<byte>, buf: seq<byte>, bufSize: uint32)
    requires IsExampleCollection(s) && 0 < bufSize <= |buf|
    requires ExtractionFits(true, |buf|, bufSize, 0, 1, Some(s), NUM_FONTS_AT_AS_WRITTEN)
    ensures NumFonts(s, NUM_FONTS_AT_AS_WRITTEN) == 0x1_0000
    ensures SubFontLength(s, 1, 0x1_0000) == Some(0xFFFF_EC78)
    ensures !ExtractSubFont(true, buf, bufSize, 0, 1, Some(s), NUM_FONTS_AT_AS_WRITTEN).ok
  {
    ExampleFields(s);
    var p := PlanExtraction(s, 1, bufSize, NUM_FONTS_AT_AS_WRITTEN);
    assert p.Reject? || p.PartialCopy?;
  }

  /** For a sub-font that is not last the two readings agree on the example: 4900 bytes. */
  lemma AsWrittenFirstSubFontAgrees(s: seq<byte>)
    requires IsExampleCollection(s)
    ensures SubFontLength(s, 0, NumFonts(s, NUM_FONTS_AT_AS_WRITTEN)) == Some(4900)
  {
    ExampleFields(s);
    assert U32BE(s, OffsetEntry(0) + 4) == 5000;
  }

  /** The code as written still extracts the example's first sub-font, 4900 bytes, with a large enough buffer. */
  lemma AsWrittenExtractsFirstSubFont(s: seq<byte>, buf: seq<byte>, bufSize: uint32)
    requires IsExampleCollection(s) && 4900 <= bufSize <= |buf|
    requires ExtractionFits(true, |buf|, bufSize, 0, 0, Some(s), NUM_FONTS_AT_AS_WRITTEN)
    ensures var r := ExtractSubFont(true, buf, bufSize, 0, 0, Some(s), NUM_FONTS_AT_AS_WRITTEN);
            r.ok && r.headerLen == Some(4900)
  {
    ExampleFields(s);
    AsWrittenFirstSubFontAgrees(s);
    assert NumFonts(s, NUM_FONTS_AT_AS_WRITTEN) > 0;
    assert Wrap32(U32BE(s, OffsetEntry(0)) + 4) == 104;
    PlanPatchesExactly(s, 0, bufSize, NUM_FONTS_AT_AS_WRITTEN);
    ExtractSubFontOkExactly(true, buf, bufSize, 0, 0, Some(s), NUM_FONTS_AT_AS_WRITTEN);
  }

  // ---------------------------------------------------------------------
  // The in-place copy and patch
  // ---------------------------------------------------------------------

  /** `*(uint32_t*)(buffer + at) = v` on a host of the given byte order. */
  method StoreWord(buffer: array<byte>, at: nat, v: uint32, littleEndian: bool)
    requires at + 4 <= buffer.Length
    modifies buffer
    ensures buffer[..] == StoreNative(littleEndian, old(buffer[..]), at, v)
  {
    var w := if littleEndian then BytesLE(v) else BytesBE(v);
    buffer[at], buffer[at + 1], buffer[at + 2], buffer[at + 3] := w[0], w[1], w[2], w[3];
    assert buffer[..] == Splice(old(buffer[..]), at, w);
  }

  /** FT_PEEK_ULONG on the buffer. */
  method PeekWord(buffer: array<byte>, at: nat) returns (v: uint32)
    requires at + 4 <= buffer.Length
    ensures v == U32BE(buffer[..], at)
  {
    v := Word(buffer[at], buffer[at + 1], buffer[at + 2], buffer[at + 3]);
  }

  /** FT_Stream_ReadAt into the front of the buffer. */
  method CopyFromStream(buffer: array<byte>, s: seq<byte>, offset: nat, count: nat)
    requires count <= buffer.Length && offset + count <= |s|
    modifies buffer
    ensures buffer[..] == Copied(old(buffer[..]), s, offset, count)
  {
    ghost var buf0 := buffer[..];
    var i := 0;
    while i < count
      invariant 0 <= i <= count
      invariant forall j :: 0 <= j < i ==> buffer[j] == s[offset + j]
      invariant forall j :: i <= j < buffer.Length ==> buffer[j] == buf0[j]
    {
      buffer[i] := s[offset + i];
      i := i + 1;
    }
    assert buffer[..] == Copied(buf0, s, offset, count) by {
      var c := Copied(buf0, s, offset, count);
      assert forall j :: 0 <= j < buffer.Length ==> buffer[j] == c[j];
    }
  }

  /**
   * One pass of the patch loop: peek the offset field, store it minus
   * `offset` through a uint32_t pointer, then peek and store it once more,
   * which leaves it big-endian on either host.
   */
  method RebaseOffsetField(buffer: array<byte>, at: nat, offset: uint32, littleEndian: bool)
    requires at + 4 <= buffer.Length
    modifies buffer
    ensures buffer[..] == RebaseField(old(buffer[..]), at, offset)
  {
    ghost var before := buffer[..];
    var v := PeekWord(buffer, at);
    StoreWord(buffer, at, Sub32(v, offset), littleEndian);
    var w := PeekWord(buffer, at);
    StoreWord(buffer, at, w, littleEndian);
    DoubleStoreIsBigEndian(littleEndian, before, at, Sub32(v, offset));
  }

  /** The patch loop over the first `n` table records. */
  method RebaseTableOffsets(buffer: array<byte>, offset: uint32, n: nat, littleEndian: bool)
    requires PatchFits(n, buffer.Length)
    modifies buffer
    ensures buffer[..] == Patched(old(buffer[..]), offset, n)
  {
    ghost var copied := buffer[..];
    var k := 0;
    while k < n
      invariant 0 <= k <= n && |copied| == buffer.Length
      invariant buffer[..] == Patched(copied, offset, k)
    {
      RebaseRecord(buffer, copied, offset, k, n, littleEndian);
      k := k + 1;
    }
  }

  /** One pass of the patch loop: record `k` has its offset field rebased. */
  method RebaseRecord(buffer: array<byte>, ghost copied: seq<byte>, offset: uint32, k: nat, ghost n: nat, littleEndian: bool)
    requires k < n && |copied| == buffer.Length && PatchFits(n, buffer.Length)
    requires buffer[..] == Patched(copied, offset, k)
    modifies buffer
    ensures buffer[..] == Patched(copied, offset, k + 1)
  {
    RebaseOffsetField(buffer, OffsetField(k), offset, littleEndian);
  }

  /**
   * GetTtfInfoFromTtc on the caller's buffer: the guards, the copy through
   * FT_Stream_ReadAt, and the patch loop with its two stores per record.
   * `headerLen` is ttfHeader.len on entry.
   */
  method GetTtfInfoFromTtc(buffer: array?<byte>, bufSize: uint32, ttcIndex: uint8, ttfIndex: uint8,
                           stream: Option<seq<byte>>, littleEndian: bool, headerLen: uint32)
    returns (ok: bool, newHeaderLen: uint32)
    requires buffer != null ==>
               ExtractionFits(true, buffer.Length, bufSize, ttcIndex, ttfIndex, stream, NUM_FONTS_AT_AS_WRITTEN)
    modifies buffer
    ensures buffer != null ==>
              var r := ExtractSubFont(true, old(buffer[..]), bufSize, ttcIndex, ttfIndex, stream, NUM_FONTS_AT_AS_WRITTEN);
              ok == r.ok && buffer[..] == r.buffer && newHeaderLen == (if r.headerLen.Some? then r.headerLen.value else headerLen)
    ensures buffer == null ==> !ok && newHeaderLen == headerLen
  {
    newHeaderLen := headerLen;
    if buffer == null || bufSize == 0 || ttcIndex as nat >= FONT_TTC_MAX || stream.None? {
      return false, headerLen;
    }
    var s := stream.value;
    var plan := PlanExtraction(s, ttfIndex, bufSize, NUM_FONTS_AT_AS_WRITTEN);
    if plan.Reject? {
      return false, headerLen;
    }
    // FT_Stream_ReadAt: copy what the stream has, up to the length asked for
    var count := if plan.PartialCopy? then plan.count else plan.length;
    CopyFromStream(buffer, s, plan.offset, count);
    if plan.PartialCopy? {
      return false, headerLen;
    }
    newHeaderLen := plan.length;
    if plan.CopyOnly? {
      return false, newHeaderLen;
    }
    RebaseTableOffsets(buffer, plan.offset, plan.numTables, littleEndian);
    ok := true;
  }
}
