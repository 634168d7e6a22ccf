/**
 * The font manager itself: the font table, the face table and the
 * collection table as arrays updated in place, the font directory, the
 * number of registered fonts and the glyph cache. Every method is proved to
 * leave the state (and to return) what the value-level operation of
 * CatalogueSpec, CollectionReader, GlyphPath or LineMetrics gives for the
 * state it started from.
 */
module FontVector {
  import opened FontTypes
  import opened CatalogueSpec
  import opened CollectionReader
  import opened GlyphSpec
  import opened GlyphPath
  import opened LineMetrics

  // ---------------------------------------------------------------------
  // Reading a standalone font file (GetTtfInfoFromTtf)
  // ---------------------------------------------------------------------

  datatype TtfRead = TtfRead(ok: bool, buffer: seq<byte>, headerLen: uint32)

  /**
   * Reading a whole font file into the caller's buffer: a file that does
   * not open fails and changes nothing; otherwise ttfHeader.len is set to
   * the file's size (as uint32) before it is compared with the buffer size,
   * and when it fits the file's bytes are read into the front of the buffer.
   */
  function ReadWholeFile(content: Option<seq<byte>>, buf: seq<byte>, bufSize: uint32, headerLen: uint32): (r: TtfRead)
    requires bufSize <= |buf|
    ensures |r.buffer| == |buf|
    ensures content.None? ==> r == TtfRead(false, buf, headerLen)
    ensures content.Some? ==> r.headerLen == |content.value| % 0x1_0000_0000
    ensures r.ok <==> content.Some? && |content.value| % 0x1_0000_0000 <= bufSize
    ensures !r.ok ==> r.buffer == buf
    ensures r.ok ==> r.buffer[..r.headerLen] == content.value[..r.headerLen] && r.buffer[r.headerLen..] == buf[r.headerLen..]
  {
    match content
    case None => TtfRead(false, buf, headerLen)
    case Some(bytes) =>
      var len: uint32 := |bytes| % 0x1_0000_0000;
      if len > bufSize then TtfRead(false, buf, len)
      else TtfRead(true, Copied(buf, bytes, 0, len), len)
  }

  /** The stream a collection slot holds: none for a slot out of range or without one. */
  function StreamOf(ttcs: seq<TtcInfo>, ttcIndex: nat): (r: Option<seq<byte>>)
    ensures ttcIndex < |ttcs| && ttcs[ttcIndex].stream.Open? ==> r == Some(ttcs[ttcIndex].stream.bytes)
    ensures !(ttcIndex < |ttcs| && ttcs[ttcIndex].stream.Open?) ==> r.None?
  {
    if ttcIndex < |ttcs| && ttcs[ttcIndex].stream.Open? then Some(ttcs[ttcIndex].stream.bytes) else None
  }

  /** A collection stream freed by UnregisterTtcFontInfo but still referenced by a font slot is used after free. */
  predicate NoFreedStream(ttcs: seq<TtcInfo>, ttcIndex: nat) {
    ttcIndex < |ttcs| ==> !ttcs[ttcIndex].stream.Freed?
  }

  /** What GetTtfInfo needs from its caller: the buffer holds bufSize bytes and a collection read stays in it. */
  predicate TtfInfoFits(tb: Tables, ttfId: uint8, hasBuffer: bool, bufLen: nat, bufSize: uint32) {
    && (hasBuffer ==> bufSize <= bufLen)
    && match TtfSourceOf(tb.fonts, ttfId, hasBuffer, bufSize)
       case FromCollection(p) =>
         && NoFreedStream(tb.ttcs, p.ttcIndex)
         && ExtractionFits(true, bufLen, bufSize, p.ttcIndex, p.ttfIndex, StreamOf(tb.ttcs, p.ttcIndex), NUM_FONTS_AT_AS_WRITTEN)
       case _ => true
  }

  /**
   * GetTtfInfo(ttfId, buffer, size, header): nothing without a buffer or a
   * slot recording ttfId; a slot whose `size` field is not FONT_ID_MAX is
   * extracted from its collection, any other is read from its own file.
   */
  function TtfInfoOf(engine: Engine, dir: string, tb: Tables, ttfId: uint8, hasBuffer: bool, buf: seq<byte>,
                     bufSize: uint32, headerLen: uint32): (r: TtfRead)
    requires TtfInfoFits(tb, ttfId, hasBuffer, |buf|, bufSize)
    ensures |r.buffer| == |buf|
    ensures TtfSourceOf(tb.fonts, ttfId, hasBuffer, bufSize) == NoSource ==> r == TtfRead(false, buf, headerLen)
    ensures TtfSourceOf(tb.fonts, ttfId, hasBuffer, bufSize).FromCollection? ==>
              var p := TtfSourceOf(tb.fonts, ttfId, hasBuffer, bufSize).param;
              var e := ExtractSubFont(true, buf, bufSize, p.ttcIndex, p.ttfIndex, StreamOf(tb.ttcs, p.ttcIndex), NUM_FONTS_AT_AS_WRITTEN);
              r.ok == e.ok && r.buffer == e.buffer && r.headerLen == (if e.headerLen.Some? then e.headerLen.value else headerLen)
    ensures TtfSourceOf(tb.fonts, ttfId, hasBuffer, bufSize).FromFile? ==>
              var p := TtfSourceOf(tb.fonts, ttfId, hasBuffer, bufSize).param;
              r == ReadWholeFile(engine.readFile(dir + p.ttfName.value), buf, bufSize, headerLen)
  {
    match TtfSourceOf(tb.fonts, ttfId, hasBuffer, bufSize)
    case NoSource => TtfRead(false, buf, headerLen)
    case FromCollection(p) =>
      var e := ExtractSubFont(true, buf, bufSize, p.ttcIndex, p.ttfIndex, StreamOf(tb.ttcs, p.ttcIndex), NUM_FONTS_AT_AS_WRITTEN);
      TtfRead(e.ok, e.buffer, if e.headerLen.Some? then e.headerLen.value else headerLen)
    case FromFile(p) => ReadWholeFile(engine.readFile(dir + p.ttfName.value), buf, bufSize, headerLen)
  }

  /**
   * Since registration never writes the `size` field, a font registered on
   * its own in zeroed tables is sent to the collection path with
   * ttcIndex = FONT_TTC_MAX: GetTtfInfo fails for it and leaves the buffer
   * and ttfHeader.len as they were.
   */
  lemma StandaloneFontNotRead(engine: Engine, dir: string, tb: Tables, name: string, shaping: uint8,
                              buf: seq<byte>, bufSize: uint32, headerLen: uint32)
    requires WellFormed(tb) && 0 < bufSize <= |buf|
    requires forall k :: 0 <= k < FONT_ID_MAX ==> tb.fonts[k].size == 0
    requires var r := RegisterFont(engine, dir, true, tb, Some(name), shaping);
             r.1 != FONT_INVALID_TTF_ID && tb.fonts[r.1].ttfName.None?
    ensures var r := RegisterFont(engine, dir, true, tb, Some(name), shaping);
            && TtfInfoFits(r.0, r.1, true, |buf|, bufSize)
            && TtfInfoOf(engine, dir, r.0, r.1, true, buf, bufSize, headerLen) == TtfRead(false, buf, headerLen)
  {
    StandaloneFontDispatch(engine, dir, tb, name, shaping, bufSize);
  }

  // ---------------------------------------------------------------------
  // SetupColorFont and GetMaxSubLineHeight's inputs
  // ---------------------------------------------------------------------

  /**
   * SetupColorFont(face, fontSize): no fixed sizes fails; otherwise the
   * selection loop keeps the first of the widths nearest to the font size
   * and that fixed size is selected.
   */
  method SetupColorFont(engine: Engine, face: Face, fontSize: uint8) returns (height: Option<int>)
    ensures height == SizedHeight(engine, face, fontSize, true)
    ensures |face.fixedWidths| == 0 ==> height.None?
  {
    var widths := face.fixedWidths;
    if |widths| == 0 {
      return None;
    }
    var best := 0;
    var diff := Abs(fontSize - widths[0]);
    var i := 1;
    while i < |widths|
      invariant best < i <= |widths|
      invariant diff == SizeDiff(fontSize, widths, best)
      invariant forall k :: 0 <= k < i ==> SizeDiff(fontSize, widths, best) <= SizeDiff(fontSize, widths, k)
      invariant forall k :: 0 <= k < best ==> SizeDiff(fontSize, widths, k) > SizeDiff(fontSize, widths, best)
      invariant NearestFrom(fontSize, widths, best, i) == NearestFixedSize(fontSize, widths)
    {
      var ndiff := Abs(fontSize - widths[i]);
      if ndiff < diff {
        best := i;
        diff := ndiff;
      }
      i := i + 1;
    }
    height := engine.selectSize(face, best);
  }

  /** The colour flag of each slot below `n`, as IsEmojiFont answers it. */
  function SlotEmoji(fonts: seq<FontParam>, n: nat): (r: seq<bool>)
    requires |fonts| == FONT_ID_MAX && n <= FONT_ID_MAX
    ensures |r| == n && forall k :: 0 <= k < n ==> r[k] == IsEmoji(fonts, k)
  {
    seq(n, k requires 0 <= k < n => IsEmoji(fonts, k))
  }

  /** The line height in pixels of each slot below `n`, none for a slot without a face. */
  function SlotHeights(faces: seq<Option<Face>>, n: nat): (r: seq<Option<uint16>>)
    requires n <= |faces|
    ensures |r| == n
    ensures forall k :: 0 <= k < n ==> r[k] == if faces[k].Some? then Some(PixelsU16(faces[k].value.height)) else None
  {
    seq(n, k requires 0 <= k < n => if faces[k].Some? then Some(PixelsU16(faces[k].value.height)) else None)
  }

  /**
   * GetLineMaxHeight past its guard: the requested font's height, then the
   * walk over the line from letterIndex with no counts yet.
   */
  function LineMaxWalk(engine: Engine, inited: bool, fonts: seq<FontParam>, st: Bridge, units: seq<CodeUnit>,
                       lineLength: nat, fontId: uint16, fontSize: uint8, letter: uint16,
                       hasSpans: bool, spans: seq<SizeSpan>): (r: LineState)
    requires Catalogued(fonts, st.faces)
    requires hasSpans ==> SpansCover(spans, letter, |units|)
    ensures Catalogued(fonts, r.st.faces) && |r.spans| == |spans| && r.st.cache == st.cache
  {
    var m := HeightQuery(engine, inited, fonts, st, fontId, fontSize);
    LineWalk(engine, inited, fonts, LineState(Bridge(m.faces, st.cache), spans, letter, 0, 0, 0, m.height),
             hasSpans, units, 0, 0, lineLength)
  }

  /** The caller's size-span table as a value, empty for a null pointer. */
  function SpansOf(sizeSpans: array?<SizeSpan>): seq<SizeSpan>
    reads sizeSpans
  {
    if sizeSpans != null then sizeSpans[..] else []
  }

  // ---------------------------------------------------------------------
  // The manager
  // ---------------------------------------------------------------------

  class UIFontVector {
    /** The rasterization engine and the cache allocator, as their answers. */
    const engine: Engine
    /** Whether FT_Init_FreeType succeeded when the manager was built. */
    const freeTypeInited: bool
    /** The host's byte order, which the in-place offset rebase writes in. */
    const littleEndian: bool
    /** fontInfo_: FONT_ID_MAX font slots. */
    const fontInfo: array<FontParam>
    /** ftFaces_: the face opened for each font slot. */
    const ftFaces: array<Option<Face>>
    /** ttcInfos_: FONT_TTC_MAX collection slots. */
    const ttcInfos: array<TtcInfo>
    /** ttfDir_: the directory font names are resolved against. */
    var ttfDir: string
    /** currentFontInfoNum_: one past the slot of the latest standalone registration. */
    var currentFontInfoNum: uint8
    /** bitmapCache_. */
    var bitmapCache: Cache

    /** The tables as values. */
    function Snapshot(): Tables
      reads this, fontInfo, ftFaces, ttcInfos
    {
      Tables(fontInfo[..], ftFaces[..], ttcInfos[..], currentFontInfoNum)
    }

    predicate Valid()
      reads this, fontInfo, ftFaces, ttcInfos
    {
      WellFormed(Snapshot())
    }

    /** The part of the state the glyph path changes. */
    function State(): Bridge
      reads this, ftFaces
    {
      Bridge(ftFaces[..], bitmapCache)
    }

    /**
     * A manager over zeroed tables, with the engine's initialisation result,
     * the configured font directory and no cache.
     */
    constructor (engine: Engine, freeTypeInited: bool, littleEndian: bool, fontDir: string)
      ensures Valid() && Snapshot() == InitialTables()
      ensures this.engine == engine && this.freeTypeInited == freeTypeInited && this.littleEndian == littleEndian
      ensures ttfDir == fontDir && bitmapCache.None?
      ensures fresh(fontInfo) && fresh(ftFaces) && fresh(ttcInfos)
    {
      this.engine := engine;
      this.freeTypeInited := freeTypeInited;
      this.littleEndian := littleEndian;
      fontInfo := new FontParam[FONT_ID_MAX](_ => EMPTY_PARAM);
      ftFaces := new Option<Face>[FONT_ID_MAX](_ => None);
      ttcInfos := new TtcInfo[FONT_TTC_MAX](_ => EMPTY_TTC);
      ttfDir := fontDir;
      currentFontInfoNum := 0;
      bitmapCache := None;
    }

    /**
     * BitmapCacheInit: an existing cache is kept; otherwise a cache is set
     * up, empty, when the allocator grants its memory (`granted`).
     */
    method BitmapCacheInit(granted: bool)
      modifies this`bitmapCache
      ensures old(bitmapCache).Some? ==> bitmapCache == old(bitmapCache)
      ensures old(bitmapCache).None? ==> bitmapCache == if granted then Some(map[]) else None
    {
      if bitmapCache.Some? {
        return;
      }
      if !granted {
        return;
      }
      bitmapCache := Some(map[]);
    }

    /** SetFontPath: a null path fails and keeps the directory; any other becomes the directory. */
    method SetFontPath(path: Option<string>) returns (ret: int)
      modifies this`ttfDir
      ensures path.None? ==> ret == INVALID_RET_VALUE && ttfDir == old(ttfDir)
      ensures path.Some? ==> ret == RET_VALUE_OK && ttfDir == path.value
    {
      if path.None? {
        return INVALID_RET_VALUE;
      }
      ttfDir := path.value;
      return RET_VALUE_OK;
    }

    // -------------------------------------------------------------------
    // Lookups
    // -------------------------------------------------------------------

    function GetFontInfo(fontId: uint16): Option<FontParam>
      reads this, fontInfo
      requires fontInfo.Length == FONT_ID_MAX
    {
      FontInfo(fontInfo[..], fontId)
    }

    function GetFontWeight(fontId: uint16): uint8
      reads this, fontInfo
      requires fontInfo.Length == FONT_ID_MAX
    {
      FontWeight(fontInfo[..], fontId)
    }

    function IsEmojiFont(fontId: uint16): bool
      reads this, fontInfo
      requires fontInfo.Length == FONT_ID_MAX
    {
      IsEmoji(fontInfo[..], fontId)
    }

    /** GetFontId(name, size): the first set slot whose name contains `name`. */
    method GetFontIdByName(name: Option<string>) returns (id: uint16)
      requires Valid()
      ensures id == FontIdByName(fontInfo[..], name)
    {
      if name.Some? {
        var i := 0;
        while i < FONT_ID_MAX
          invariant 0 <= i <= FONT_ID_MAX
          invariant FindContaining(FontNames(fontInfo[..]), name.value, i) == FindContaining(FontNames(fontInfo[..]), name.value, 0)
        {
          if fontInfo[i].ttfName.Some? && Contains(fontInfo[i].ttfName.value, name.value) {
            return i;
          }
          i := i + 1;
        }
      }
      return FONT_ID_MAX;
    }

    /** GetFontId(unicode): the first set slot recording the code point's tag as its ttfId. */
    method GetFontIdByCode(unicode: uint32) returns (id: uint8)
      requires Valid()
      ensures id == FontIdByCode(fontInfo[..], unicode)
    {
      var tag := (unicode / 0x100_0000) % 32;
      var i := 0;
      while i < FONT_ID_MAX
        invariant 0 <= i <= FONT_ID_MAX
        invariant FindTtfId(fontInfo[..], tag, i) == FindTtfId(fontInfo[..], tag, 0)
      {
        if fontInfo[i].ttfName.Some? && fontInfo[i].ttfId == tag {
          return i;
        }
        i := i + 1;
      }
      return FONT_INVALID_TTF_ID;
    }

    /** IsGlyphFont(unicode): the shaping value of the slot GetFontId(unicode) finds, 0 when none. */
    method IsGlyphFont(unicode: uint32) returns (shaping: uint8)
      requires Valid()
      ensures shaping == GlyphShaping(fontInfo[..], unicode)
    {
      var id := GetFontIdByCode(unicode);
      if id == FONT_INVALID_TTF_ID {
        return 0;
      }
      return fontInfo[id].shaping;
    }

    // -------------------------------------------------------------------
    // Registration
    // -------------------------------------------------------------------

    /** RegisterFontInfo(ttfName, shaping). */
    method RegisterFontInfo(name: Option<string>, shaping: uint8) returns (id: uint8)
      requires Valid()
      modifies this`currentFontInfoNum, fontInfo, ftFaces
      ensures Valid()
      ensures (Snapshot(), id) == RegisterFont(engine, ttfDir, freeTypeInited, old(Snapshot()), name, shaping)
    {
      if name.None? || !freeTypeInited {
        return FONT_INVALID_TTF_ID;
      }
      var j := 0;
      while j < FONT_ID_MAX
        invariant 0 <= j <= FONT_ID_MAX
        invariant Snapshot() == old(Snapshot())
        invariant RegisterScan(FontNames(fontInfo[..]), name.value, j) == RegisterScan(FontNames(fontInfo[..]), name.value, 0)
      {
        if Holds(fontInfo[j].ttfName, name.value) {
          return j;
        } else if fontInfo[j].ttfName.None? {
          var face := engine.newFace(ttfDir + name.value);
          if face.None? {
            return FONT_INVALID_TTF_ID;
          }
          ftFaces[j] := face;
          fontInfo[j] := RegisteredEntry(fontInfo[j], name.value, shaping, j, face.value.hasColorTable);
          currentFontInfoNum := j + 1;
          return j;
        }
        j := j + 1;
      }
      return FONT_INVALID_TTF_ID;
    }

    /** RegisterFontInfo(fontsTable, num): every entry in turn, counting the ones that got an id. */
    method RegisterFontInfoBatch(table: Option<seq<FontParam>>, num: uint8) returns (count: uint8)
      requires Valid() && (table.Some? ==> num <= |table.value|)
      modifies this`currentFontInfoNum, fontInfo, ftFaces
      ensures Valid()
      ensures table.None? ==> count == FONT_INVALID_TTF_ID && Snapshot() == old(Snapshot())
      ensures table.Some? ==>
                var r := RegisterBatch(engine, ttfDir, freeTypeInited, old(Snapshot()), table.value[..num], 0);
                Snapshot() == r.0 && count == CountValid(r.1)
    {
      if table.None? {
        return FONT_INVALID_TTF_ID;
      }
      var t := table.value[..num];
      ghost var r0 := RegisterBatch(engine, ttfDir, freeTypeInited, Snapshot(), t, 0);
      count := 0;
      var i := 0;
      while i < num
        invariant 0 <= i <= num && count <= i && Valid()
        invariant RegisterBatch(engine, ttfDir, freeTypeInited, Snapshot(), t, i).0 == r0.0
        invariant count + CountValid(RegisterBatch(engine, ttfDir, freeTypeInited, Snapshot(), t, i).1) == CountValid(r0.1)
      {
        RegisterBatchStep(engine, ttfDir, freeTypeInited, Snapshot(), t, i);
        var result := RegisterFontInfo(t[i].ttfName, t[i].shaping);
        if result != FONT_INVALID_TTF_ID {
          count := count + 1;
        }
        i := i + 1;
      }
    }

    /** UnregisterFontInfo(ttfName). */
    method UnregisterFontInfo(name: Option<string>) returns (id: uint8)
      requires Valid()
      modifies fontInfo, ftFaces
      ensures Valid()
      ensures (Snapshot(), id) == UnregisterFont(old(Snapshot()), name)
    {
      if name.Some? {
        var i := 0;
        while i < FONT_ID_MAX
          invariant 0 <= i <= FONT_ID_MAX
          invariant Snapshot() == old(Snapshot())
          invariant FindName(FontNames(fontInfo[..]), name.value, i) == FindName(FontNames(fontInfo[..]), name.value, 0)
        {
          if Holds(fontInfo[i].ttfName, name.value) {
            fontInfo[i] := fontInfo[i].(ttfName := None);
            ftFaces[i] := None;
            return i;
          }
          i := i + 1;
        }
      }
      return FONT_INVALID_TTF_ID;
    }

    /** UnregisterFontInfo(fontsTable, num): stops with FONT_INVALID_TTF_ID at the first name it cannot find. */
    method UnregisterFontInfoBatch(table: Option<seq<FontParam>>, num: uint8) returns (count: uint8)
      requires Valid() && (table.Some? ==> num <= |table.value|)
      modifies fontInfo, ftFaces
      ensures Valid()
      ensures table.None? ==> count == 0 && Snapshot() == old(Snapshot())
      ensures table.Some? ==>
                var r := UnregisterBatch(old(Snapshot()), table.value[..num], 0, 0);
                Snapshot() == r.0 && count as int == r.1
    {
      if table.None? {
        return 0;
      }
      var t := table.value[..num];
      ghost var r0 := UnregisterBatch(Snapshot(), t, 0, 0);
      count := 0;
      var i := 0;
      while i < num
        invariant 0 <= i <= num && count == i && Valid()
        invariant UnregisterBatch(Snapshot(), t, i, count) == r0
      {
        var result := UnregisterFontInfo(t[i].ttfName);
        if result == FONT_INVALID_TTF_ID {
          return FONT_INVALID_TTF_ID;
        }
        count := count + 1;
        i := i + 1;
      }
    }

    /** RegisterTtcFontInfo(ttcName, ttfInfo, count). */
    method RegisterTtcFontInfo(name: Option<string>, infos: seq<TtfInfo>, count: uint8) returns (id: uint8)
      requires Valid() && count <= |infos|
      requires CollectionFits(engine, ttfDir, freeTypeInited, Snapshot(), name, count)
      modifies fontInfo, ftFaces, ttcInfos
      ensures Valid()
      ensures (Snapshot(), id) == RegisterCollection(engine, ttfDir, freeTypeInited, old(Snapshot()), name, infos, count)
    {
      if name.None? || !freeTypeInited {
        return FONT_INVALID_TTF_ID;
      }
      var i := 0;
      while i < FONT_TTC_MAX
        invariant 0 <= i <= FONT_TTC_MAX
        invariant Snapshot() == old(Snapshot())
        invariant RegisterScan(TtcNames(ttcInfos[..]), name.value, i) == RegisterScan(TtcNames(ttcInfos[..]), name.value, 0)
      {
        if Holds(ttcInfos[i].ttcName, name.value) {
          return i;
        } else if ttcInfos[i].ttcName.None? {
          var stream := engine.streamNew(ttfDir + name.value);
          if stream.None? {
            return FONT_INVALID_TTF_ID;
          }
          ttcInfos[i] := TtcInfo(name, Open(stream.value));
          PlaceSubFontsFrom(name.value, stream.value, infos, count, i);
          ghost var r := RegisterCollection(engine, ttfDir, freeTypeInited, old(Snapshot()), name, infos, count);
          assert Snapshot() == r.0 && i == r.1;
          return i;
        }
        i := i + 1;
      }
      return FONT_INVALID_TTF_ID;
    }

    /**
     * The part of RegisterTtcFontInfo after the stream is open: find the
     * first empty font slot, then open each sub-font and place the ones that
     * open in consecutive slots.
     */
    method PlaceSubFontsFrom(name: string, bytes: seq<byte>, infos: seq<TtfInfo>, count: uint8, ttc: uint8)
      requires fontInfo.Length == FONT_ID_MAX && ftFaces.Length == FONT_ID_MAX && count <= |infos|
      requires FirstEmpty(FontNames(fontInfo[..]), 0) + Opened(SubFaces(engine, bytes, count)) <= FONT_ID_MAX
      modifies fontInfo, ftFaces
      ensures var faces := SubFaces(engine, bytes, count);
              var at := FirstEmpty(FontNames(old(fontInfo[..])), 0);
              && PlaceFits(old(fontInfo[..]), at, ttc, infos, faces, 0)
              && fontInfo[..] == PlaceSubFonts(old(fontInfo[..]), at, ttc, infos, faces, 0)
              && ftFaces[..] == PlaceFaces(old(ftFaces[..]), at, faces, 0)
    {
      var ttfIdx := 0;
      while ttfIdx < FONT_ID_MAX && fontInfo[ttfIdx].ttfName.Some?
        invariant 0 <= ttfIdx <= FONT_ID_MAX
        invariant FirstEmpty(FontNames(fontInfo[..]), ttfIdx) == FirstEmpty(FontNames(fontInfo[..]), 0)
      {
        ttfIdx := ttfIdx + 1;
      }
      ghost var faces := SubFaces(engine, bytes, count);
      ghost var fonts0, faces0, at0 := fontInfo[..], ftFaces[..], ttfIdx;
      assert faces[0..] == faces;
      var j := 0;
      while j < count
        invariant 0 <= j <= count
        invariant PlaceFits(fontInfo[..], ttfIdx, ttc, infos, faces, j) && ftFaces.Length == FONT_ID_MAX
        invariant PlaceSubFonts(fontInfo[..], ttfIdx, ttc, infos, faces, j) == PlaceSubFonts(fonts0, at0, ttc, infos, faces, 0)
        invariant PlaceFaces(ftFaces[..], ttfIdx, faces, j) == PlaceFaces(faces0, at0, faces, 0)
      {
        OpenedFrom(faces, j);
        var face := engine.openFace(bytes, j);
        if face.Some? {
          ftFaces[ttfIdx] := face;
          fontInfo[ttfIdx] := SubFontEntry(fontInfo[ttfIdx], infos[j], ttfIdx, j, ttc, face.value.hasColorTable);
          ttfIdx := ttfIdx + 1;
        }
        j := j + 1;
      }
    }

    /** UnregisterTtcFontInfo's inner loop: UnregisterFontInfo for each sub-font name, ignoring the answers. */
    method UnregisterEachName(names: seq<TtfInfo>)
      requires Valid()
      modifies fontInfo, ftFaces
      ensures Valid()
      ensures Snapshot() == UnregisterEach(old(Snapshot()), names, 0)
    {
      var j := 0;
      while j < |names|
        invariant 0 <= j <= |names| && Valid()
        invariant UnregisterEach(Snapshot(), names, j) == UnregisterEach(old(Snapshot()), names, 0)
      {
        var _ := UnregisterFontInfo(names[j].ttfName);
        j := j + 1;
      }
      assert UnregisterEach(Snapshot(), names, j) == Snapshot();
    }

    /** UnregisterTtcFontInfo(ttcName, ttfInfo, count), scanning the collection table up to its capacity. */
    method UnregisterTtcFontInfo(name: Option<string>, infos: Option<seq<TtfInfo>>, count: uint8) returns (id: uint8)
      requires Valid() && (infos.Some? ==> count <= |infos.value|)
      modifies fontInfo, ftFaces, ttcInfos
      ensures Valid()
      ensures (Snapshot(), id) == UnregisterCollection(old(Snapshot()), name, infos, count)
    {
      if name.None? || infos.None? {
        return FONT_INVALID_TTF_ID;
      }
      var i := 0;
      while i < FONT_TTC_MAX
        invariant 0 <= i <= FONT_TTC_MAX
        invariant Snapshot() == old(Snapshot())
        invariant FindName(TtcNames(ttcInfos[..]), name.value, i) == FindName(TtcNames(ttcInfos[..]), name.value, 0)
      {
        if Holds(ttcInfos[i].ttcName, name.value) {
          ttcInfos[i] := TtcInfo(ttcInfos[i].ttcName, Freed);
          UnregisterEachName(infos.value[..count]);
          return i;
        }
        i := i + 1;
      }
      return FONT_INVALID_TTF_ID;
    }

    /**
     * GetTtfInfo(ttfId, ttfBuffer, ttfBufferSize, ttfHeader): the first set
     * slot recording ttfId is extracted from its collection or read from its
     * file, as its `size` field says. `headerLen` is ttfHeader.len on entry.
     */
    method GetTtfInfo(ttfId: uint8, buffer: array?<byte>, bufSize: uint32, headerLen: uint32)
      returns (ok: bool, newHeaderLen: uint32)
      requires Valid()
      requires TtfInfoFits(Snapshot(), ttfId, buffer != null, if buffer != null then buffer.Length else 0, bufSize)
      modifies buffer
      ensures buffer == null ==> !ok && newHeaderLen == headerLen
      ensures buffer != null ==>
                var r := TtfInfoOf(engine, ttfDir, Snapshot(), ttfId, true, old(buffer[..]), bufSize, headerLen);
                ok == r.ok && buffer[..] == r.buffer && newHeaderLen == r.headerLen
    {
      if buffer == null || bufSize == 0 {
        return false, headerLen;
      }
      var i := 0;
      while i < FONT_ID_MAX
        invariant 0 <= i <= FONT_ID_MAX
        invariant FindTtfId(fontInfo[..], ttfId, i) == FindTtfId(fontInfo[..], ttfId, 0)
      {
        if fontInfo[i].ttfName.Some? && fontInfo[i].ttfId == ttfId {
          var param := fontInfo[i];
          if param.size != FONT_ID_MAX {
            var stream := StreamOf(ttcInfos[..], param.ttcIndex);
            ok, newHeaderLen := GetTtfInfoFromTtc(buffer, bufSize, param.ttcIndex, param.ttfIndex, stream, littleEndian, headerLen);
          } else {
            ok, newHeaderLen := GetTtfInfoFromTtf(param, buffer, bufSize, headerLen);
          }
          return;
        }
        i := i + 1;
      }
      return false, headerLen;
    }

    /** GetTtfInfoFromTtf: the whole file `ttfDir + name` into the buffer. */
    method GetTtfInfoFromTtf(param: FontParam, buffer: array?<byte>, bufSize: uint32, headerLen: uint32)
      returns (ok: bool, newHeaderLen: uint32)
      requires param.ttfName.Some? && (buffer != null ==> bufSize <= buffer.Length)
      modifies buffer
      ensures buffer == null || bufSize == 0 ==> !ok && newHeaderLen == headerLen
      ensures buffer != null && bufSize == 0 ==> buffer[..] == old(buffer[..])
      ensures buffer != null && bufSize > 0 ==>
                var r := ReadWholeFile(engine.readFile(ttfDir + param.ttfName.value), old(buffer[..]), bufSize, headerLen);
                ok == r.ok && buffer[..] == r.buffer && newHeaderLen == r.headerLen
    {
      if buffer == null || bufSize == 0 {
        return false, headerLen;
      }
      var content := engine.readFile(ttfDir + param.ttfName.value);
      if content.None? {
        return false, headerLen;
      }
      var len: uint32 := |content.value| % 0x1_0000_0000;
      newHeaderLen := len;
      if len > bufSize {
        return false, newHeaderLen;
      }
      CopyFromStream(buffer, content.value, 0, len);
      ok := true;
    }

    // -------------------------------------------------------------------
    // The glyph path
    // -------------------------------------------------------------------

    /**
     * GetFaceInfo(fontId, fontSize, faceInfo): after the guards the slot's
     * face is set to the size; `key` is faceInfo.key.
     */
    method GetFaceInfo(fontId: uint16, fontSize: uint8) returns (ret: int, key: uint32)
      requires Valid()
      modifies ftFaces
      ensures Valid()
      ensures var s := SizeFace(engine, freeTypeInited, fontInfo[..], old(ftFaces[..]), fontId, fontSize);
              && ftFaces[..] == s.faces
              && (ret == RET_VALUE_OK <==> s.ok)
              && (ret == RET_VALUE_OK || ret == INVALID_RET_VALUE)
      ensures ret == RET_VALUE_OK ==> key == GetKey(fontId, fontSize)
    {
      if fontId as nat >= FONT_ID_MAX || fontSize == 0 {
        return INVALID_RET_VALUE, 0;
      }
      if fontInfo[fontId].ttfName.None? {
        return INVALID_RET_VALUE, 0;
      }
      if !freeTypeInited {
        return INVALID_RET_VALUE, 0;
      }
      key := GetKey(fontId, fontSize);
      var face := ftFaces[fontId].value;
      var height: Option<int>;
      if IsEmojiFont(fontId) {
        height := SetupColorFont(engine, face, fontSize);
      } else {
        height := engine.setCharSize(face, fontSize * 64);
      }
      if height.None? {
        return INVALID_RET_VALUE, key;
      }
      ftFaces[fontId] := Some(face.(height := height.value));
      ret := RET_VALUE_OK;
    }

    /** GetHeight(fontId, fontSize). */
    method GetHeight(fontId: uint16, fontSize: uint8) returns (height: uint16)
      requires Valid()
      modifies ftFaces
      ensures Valid()
      ensures var m := HeightQuery(engine, freeTypeInited, fontInfo[..], old(State()), fontId, fontSize);
              ftFaces[..] == m.faces && height == m.height
    {
      var ret, _ := GetFaceInfo(fontId, fontSize);
      if ret != RET_VALUE_OK {
        return U16(INVALID_RET_VALUE);
      }
      if !freeTypeInited || bitmapCache.None? {
        return 0;
      }
      return PixelsU16(ftFaces[fontId].value.height);
    }

    /** The load call itself, shared by both LoadGlyphIntoFace variants. */
    method LoadFor(fontId: uint16, unicode: uint32) returns (loaded: Option<LoadedGlyph>)
      requires Valid() && fontId as nat < FONT_ID_MAX && ftFaces[fontId].Some?
      ensures var call := CallFor(fontInfo[..], fontId, unicode);
              loaded == if call.Refused? then None else Loaded(engine, ftFaces[fontId].value, call)
    {
      var face := ftFaces[fontId].value;
      var shaping := IsGlyphFont(unicode);
      if shaping != 0 {
        var tagSlot := GetFontIdByCode(unicode);
        if fontId != tagSlot as uint16 {
          return None;
        }
        loaded := engine.loadGlyph(face, unicode % 0x100_0000);
      } else if IsEmojiFont(fontId) {
        loaded := engine.loadChar(face, unicode, true);
      } else {
        loaded := engine.loadChar(face, unicode, false);
      }
    }

    /** LoadGlyphIntoFace(fontId, unicode). */
    method LoadGlyphIntoFace(fontId: uint16, unicode: uint32) returns (ret: int)
      requires Valid() && fontId as nat < FONT_ID_MAX && ftFaces[fontId].Some?
      modifies ftFaces
      ensures Valid()
      ensures var l := LoadGlyph(engine, fontInfo[..], old(ftFaces[..]), fontId, unicode, StyleNormal, false);
              ftFaces[..] == l.faces && (ret == RET_VALUE_OK <==> l.ok) && (ret == RET_VALUE_OK || ret == INVALID_RET_VALUE)
    {
      var face := ftFaces[fontId].value;
      var loaded := LoadFor(fontId, unicode);
      if loaded.None? || loaded.value.glyphIndex == 0 {
        return INVALID_RET_VALUE;
      }
      ftFaces[fontId] := Some(face.(glyph := loaded.value));
      return RET_VALUE_OK;
    }

    /** The style part of the styled LoadGlyphIntoFace: shear for italic, embolden for bold, both (shear first) for bold italic. */
    method ApplyStyle(g0: LoadedGlyph, style: TextStyle) returns (g: LoadedGlyph)
      ensures g == ApplySteps(engine, StyleSteps(style), g0)
    {
      g := g0;
      if style == StyleItalic {
        g := engine.italic(g);
        assert [Shear][1..] == [];
      } else if style == StyleBold {
        g := engine.bold(g);
        assert [Embolden][1..] == [];
      } else if style == StyleBoldItalic {
        g := engine.italic(g);
        g := engine.bold(g);
        assert [Shear, Embolden][1..] == [Embolden] && [Embolden][1..] == [];
        assert ApplySteps(engine, [Shear, Embolden], g0) == ApplySteps(engine, [Embolden], engine.italic(g0));
      }
    }

    /**
     * LoadGlyphIntoFace(fontId, unicode, face, textStyle): the load, then the
     * italic shear and the emboldening the style asks for, then rendering
     * unless the slot already holds a bitmap.
     */
    method LoadStyledGlyphIntoFace(fontId: uint16, unicode: uint32, style: TextStyle) returns (ret: int)
      requires Valid() && fontId as nat < FONT_ID_MAX && ftFaces[fontId].Some?
      modifies ftFaces
      ensures Valid()
      ensures var l := LoadGlyph(engine, fontInfo[..], old(ftFaces[..]), fontId, unicode, style, true);
              ftFaces[..] == l.faces && (ret == RET_VALUE_OK <==> l.ok) && (ret == RET_VALUE_OK || ret == INVALID_RET_VALUE)
    {
      var face := ftFaces[fontId].value;
      var loaded := LoadFor(fontId, unicode);
      if loaded.None? || loaded.value.glyphIndex == 0 {
        return INVALID_RET_VALUE;
      }
      var g := ApplyStyle(loaded.value, style);
      var rendered: Option<LoadedGlyph> := Some(g);
      if g.format != BitmapFormat {
        rendered := engine.render(g);
      }
      ghost var expected := LoadInto(engine, face, CallFor(fontInfo[..], fontId, unicode), style, true);
      assert expected == if rendered.None? || rendered.value.glyphIndex == 0 then None else rendered;
      if rendered.None? || rendered.value.glyphIndex == 0 {
        return INVALID_RET_VALUE;
      }
      ftFaces[fontId] := Some(face.(glyph := rendered.value));
      return RET_VALUE_OK;
    }

    /**
     * SetFace(faceInfo, unicode, textStyle): ask the cache for the Metric
     * header plus the pixels and, when granted, fill the entry.
     */
    method SetFace(key: uint32, face: Face, unicode: uint32, style: TextStyle)
      requires bitmapCache.Some?
      modifies this`bitmapCache
      ensures bitmapCache == Some(StoreGlyph(engine, old(bitmapCache).value, key, unicode, style, face.glyph))
    {
      var g := face.glyph;
      var f := Metric(PixelsU16(g.advanceX), Narrow16(g.left), Narrow16(g.top), U16(g.width), U16(g.rows));
      var pixSize := if g.pixelMode == Bgra then 4 else 1;
      var bitmapSize: uint32 := (g.width * g.rows * pixSize) % 0x1_0000_0000;
      var ck := CacheKey(key, unicode, style);
      if engine.getSpace(bitmapCache.value, ck, bitmapSize + METRIC_SIZE) {
        bitmapCache := Some(bitmapCache.value[ck := CacheEntry(f, g.buffer[..bitmapSize])]);
      }
    }

    /** SetFace(faceInfo, unicode): the styled SetFace with the normal style. */
    method SetFaceUnstyled(key: uint32, face: Face, unicode: uint32)
      requires bitmapCache.Some?
      modifies this`bitmapCache
      ensures bitmapCache == Some(StoreGlyph(engine, old(bitmapCache).value, key, unicode, StyleNormal, face.glyph))
    {
      SetFace(key, face, unicode, StyleNormal);
    }

    /** GetWidth(unicode, fontId, fontSize). */
    method GetWidth(unicode: uint32, fontId: uint16, fontSize: uint8) returns (width: int)
      requires Valid()
      modifies ftFaces, this`bitmapCache
      ensures Valid()
      ensures var r := Width(engine, freeTypeInited, fontInfo[..], old(State()), unicode, fontId, fontSize);
              State() == r.st && width == r.width
    {
      if fontId as nat >= FONT_ID_MAX || fontSize == 0 {
        return INVALID_RET_VALUE;
      }
      if !freeTypeInited || bitmapCache.None? {
        return INVALID_RET_VALUE;
      }
      var key := GetKey(fontId, fontSize);
      var ck := CacheKey(key, unicode, StyleNormal);
      if ck in bitmapCache.value {
        return I16(bitmapCache.value[ck].metric.advance);
      }
      var ret, _ := GetFaceInfo(fontId, fontSize);
      if ret != RET_VALUE_OK {
        return INVALID_RET_VALUE;
      }
      var error := LoadGlyphIntoFace(fontId, unicode);
      if error != RET_VALUE_OK {
        return INVALID_RET_VALUE;
      }
      var face := ftFaces[fontId].value;
      SetFaceUnstyled(key, face, unicode);
      return I16(PixelsU16(face.glyph.advanceX));
    }

    /** GetGlyphNode(unicode, glyphNode, fontId, fontSize): `node` is glyphNode on entry, `nodeOut` on return. */
    method GetGlyphNode(unicode: uint32, node: GlyphNode, fontId: uint16, fontSize: uint8) returns (ret: int, nodeOut: GlyphNode)
      requires Valid()
      modifies ftFaces, this`bitmapCache
      ensures Valid()
      ensures var r := GlyphNodeStep(engine, freeTypeInited, fontInfo[..], old(State()), unicode, node, fontId, fontSize);
              && State() == r.st && nodeOut == r.node
              && (ret == RET_VALUE_OK <==> r.ok) && (ret == RET_VALUE_OK || ret == INVALID_RET_VALUE)
    {
      nodeOut := node;
      var ok, key := GetFaceInfo(fontId, fontSize);
      if ok != RET_VALUE_OK {
        return INVALID_RET_VALUE, nodeOut;
      }
      if !freeTypeInited || bitmapCache.None? {
        return INVALID_RET_VALUE, nodeOut;
      }
      var ck := CacheKey(key, unicode, node.textStyle);
      if ck in bitmapCache.value {
        var f := bitmapCache.value[ck].metric;
        nodeOut := node.(left := f.left, top := f.top, cols := f.cols, rows := f.rows, advance := f.advance, fontId := fontId);
        return RET_VALUE_OK, nodeOut;
      }
      var error := LoadStyledGlyphIntoFace(fontId, unicode, node.textStyle);
      if error != RET_VALUE_OK {
        return INVALID_RET_VALUE, nodeOut;
      }
      var g := ftFaces[fontId].value.glyph;
      nodeOut := node.(left := Narrow16(g.left), top := Narrow16(g.top), cols := U16(g.width), rows := U16(g.rows),
                       advance := PixelsU16(g.advanceX), fontId := fontId);
      SetFace(key, ftFaces[fontId].value, unicode, node.textStyle);
      ret := RET_VALUE_OK;
    }

    /** GetBitmap(unicode, glyphNode, fontId, fontSize): the pixels, or None for the null pointer. */
    method GetBitmap(unicode: uint32, node: GlyphNode, fontId: uint16, fontSize: uint8) returns (pixels: Option<seq<byte>>, nodeOut: GlyphNode)
      requires Valid()
      modifies ftFaces, this`bitmapCache
      ensures Valid()
      ensures var r := BitmapStep(engine, freeTypeInited, fontInfo[..], old(State()), unicode, node, fontId, fontSize);
              State() == r.st && nodeOut == r.node && pixels == r.pixels
    {
      var ret;
      ret, nodeOut := GetGlyphNode(unicode, node, fontId, fontSize);
      if ret != RET_VALUE_OK {
        return None, nodeOut;
      }
      var ok, key := GetFaceInfo(fontId, fontSize);
      if ok != RET_VALUE_OK {
        return None, nodeOut;
      }
      var ck := CacheKey(key, unicode, nodeOut.textStyle);
      if ck in bitmapCache.value {
        return Some(bitmapCache.value[ck].pixels), nodeOut;
      }
      var face := ftFaces[fontId].value;
      SetFace(key, face, unicode, nodeOut.textStyle);
      return Some(face.glyph.buffer), nodeOut;
    }

    // -------------------------------------------------------------------
    // Line metrics
    // -------------------------------------------------------------------

    /**
     * GetOffsetPosY(text, lineLength, isEmojiLarge, fontId, fontSize): the
     * decoded line is `units`; `isEmojiLarge` is the flag on entry, `large`
     * on return; `node` is the uninitialised local glyph node's content.
     */
    method GetOffsetPosY(units: seq<CodeUnit>, lineLength: uint16, isEmojiLarge: bool, fontId: uint16, fontSize: uint8,
                         node: GlyphNode) returns (offset: uint16, large: bool)
      requires Valid()
      modifies ftFaces, this`bitmapCache
      ensures Valid()
      ensures !freeTypeInited || old(bitmapCache).None? ==>
                offset == U16(INVALID_RET_VALUE) && large == isEmojiLarge && State() == old(State())
      ensures freeTypeInited && old(bitmapCache).Some? ==>
                var w := OffsetWalk(engine, freeTypeInited, fontInfo[..], OffsetState(old(State()), node, EMPTY_TALLY),
                                    units, 0, 0, lineLength, fontId, fontSize);
                State() == w.st && (offset, large) == OffsetPosY(w.tally, fontSize)
    {
      if !freeTypeInited || bitmapCache.None? {
        return U16(INVALID_RET_VALUE), isEmojiLarge;
      }
      var u: nat, pos: nat := 0, 0;
      var textNum, emojiNum, loopNum: uint16 := 0, 0, 0;
      var glyphNode := node;
      var maxRows: uint16, maxTop: int16 := 0, 0;
      ghost var cur := OffsetState(State(), node, EMPTY_TALLY);
      ghost var w0 := OffsetWalk(engine, freeTypeInited, fontInfo[..], cur, units, 0, 0, lineLength, fontId, fontSize);
      while u < |units| && pos < lineLength
        invariant u <= |units| && Valid()
        invariant cur == OffsetState(State(), glyphNode, Tally(textNum, emojiNum, loopNum, maxRows, maxTop))
        invariant OffsetWalk(engine, freeTypeInited, fontInfo[..], cur, units, u, pos, lineLength, fontId, fontSize) == w0
        decreases |units| - u
      {
        ghost var n := GlyphNodeStep(engine, freeTypeInited, fontInfo[..], cur.st, units[u].unicode, cur.node, fontId, fontSize);
        var ret;
        ret, glyphNode := GetGlyphNode(units[u].unicode, glyphNode, fontId, fontSize);
        if ret == RET_VALUE_OK {
          var weight := GetFontWeight(glyphNode.fontId);
          if weight >= COLOR_WEIGHT_MIN {
            if glyphNode.rows > maxRows {
              maxRows, maxTop := glyphNode.rows, glyphNode.top;
            }
            emojiNum := Inc16(emojiNum);
          } else {
            textNum := Inc16(textNum);
          }
          loopNum := Inc16(loopNum);
        }
        cur := OffsetState(n.st, n.node, if n.ok then Classify(cur.tally, n.node, FontWeight(fontInfo[..], n.node.fontId)) else cur.tally);
        pos := pos + units[u].byteLen;
        u := u + 1;
      }
      if emojiNum == loopNum || textNum == loopNum {
        return 0, true;
      }
      large := maxRows > fontSize;
      offset := 0;
      if large {
        if maxTop >= fontSize {
          offset := maxTop - fontSize;
        }
      } else {
        if fontSize >= maxRows {
          offset := fontSize - maxRows;
        }
      }
    }

    /**
     * GetMaxSubLineHeight(textNum, loopNum, maxHeight, emojiNum) over the
     * slots below currentFontInfoNum_.
     */
    method GetMaxSubLineHeight(textNum: uint16, loopNum: uint16, maxHeight: uint16, emojiNum: uint16) returns (h: uint16)
      requires Valid()
      requires SubLineDefined(textNum, loopNum, emojiNum, SlotEmoji(fontInfo[..], currentFontInfoNum),
                              SlotHeights(ftFaces[..], currentFontInfoNum))
      ensures h == SubLineHeight(textNum, loopNum, maxHeight, emojiNum, SlotEmoji(fontInfo[..], currentFontInfoNum),
                                 SlotHeights(ftFaces[..], currentFontInfoNum))
    {
      ghost var emoji := SlotEmoji(fontInfo[..], currentFontInfoNum);
      ghost var hs := SlotHeights(ftFaces[..], currentFontInfoNum);
      if textNum == loopNum {
        var i: uint8 := 0;
        while i < currentFontInfoNum
          invariant i <= currentFontInfoNum
          invariant FirstWith(emoji, false, i) == FirstWith(emoji, false, 0)
        {
          if !IsEmojiFont(i) {
            var height := PixelsU16(ftFaces[i].value.height);
            return Max16(height, maxHeight);
          }
          i := i + 1;
        }
      }
      if emojiNum == loopNum {
        var i: uint8 := 0;
        while i < currentFontInfoNum
          invariant i <= currentFontInfoNum
          invariant FirstWith(emoji, true, i) == FirstWith(emoji, true, 0)
        {
          if IsEmojiFont(i) {
            return PixelsU16(ftFaces[i].value.height);
          }
          i := i + 1;
        }
      }
      h := maxHeight;
      if textNum > 0 && emojiNum > 0 {
        assert forall k :: 0 <= k < |hs| ==> hs[k].Some?;
        var i: uint8 := 0;
        while i < currentFontInfoNum
          invariant i <= currentFontInfoNum
          invariant MaxOver(hs, h, i) == MaxOver(hs, maxHeight, 0)
        {
          var tmpHeight := PixelsU16(ftFaces[i].value.height);
          h := Max16(tmpHeight, h);
          i := i + 1;
        }
      }
    }

    /** One code point of GetLineMaxHeight's loop, before letterIndex moves on. */
    method LineStepAt(c: CodeUnit, sizeSpans: array?<SizeSpan>, letter: uint16,
                      textNum: uint16, emojiNum: uint16, loopNum: uint16, maxHeight: uint16)
      returns (textOut: uint16, emojiOut: uint16, loopOut: uint16, maxOut: uint16)
      requires Valid() && (sizeSpans != null ==> letter < sizeSpans.Length)
      modifies ftFaces, sizeSpans
      ensures Valid()
      ensures LineState(State(), SpansOf(sizeSpans), letter, textOut, emojiOut, loopOut, maxOut)
              == LineStep(engine, freeTypeInited, fontInfo[..],
                          LineState(old(State()), old(SpansOf(sizeSpans)), letter, textNum, emojiNum, loopNum, maxHeight),
                          sizeSpans != null, c)
    {
      textOut, emojiOut, loopOut, maxOut := textNum, emojiNum, Inc16(loopNum), maxHeight;
      if c.isColour {
        emojiOut := Inc16(emojiNum);
      } else {
        textOut := Inc16(textNum);
      }
      if sizeSpans != null && sizeSpans[letter].isSizeSpan {
        var span := sizeSpans[letter];
        var spannableHeight: uint16;
        if span.height == 0 {
          spannableHeight := GetHeight(span.fontId, span.size);
          sizeSpans[letter] := span.(height := spannableHeight);
        } else {
          spannableHeight := span.height;
        }
        maxOut := Max16(spannableHeight, maxHeight);
      }
    }

    /**
     * GetLineMaxHeight's loop, from letterIndex and the running maximum it
     * starts with, the counters at 0.
     */
    method WalkLine(units: seq<CodeUnit>, lineLength: uint16, sizeSpans: array?<SizeSpan>, letterIndex: uint16, maxHeight0: uint16)
      returns (letterOut: uint16, textNum: uint16, emojiNum: uint16, loopNum: uint16, maxHeight: uint16)
      requires Valid()
      requires sizeSpans != null ==> SpansCover(sizeSpans[..], letterIndex, |units|)
      modifies ftFaces, sizeSpans
      ensures Valid()
      ensures LineState(State(), SpansOf(sizeSpans), letterOut, textNum, emojiNum, loopNum, maxHeight)
              == LineWalk(engine, freeTypeInited, fontInfo[..],
                          LineState(old(State()), old(SpansOf(sizeSpans)), letterIndex, 0, 0, 0, maxHeight0),
                          sizeSpans != null, units, 0, 0, lineLength)
    {
      ghost var cur := LineState(State(), SpansOf(sizeSpans), letterIndex, 0, 0, 0, maxHeight0);
      ghost var w0 := LineWalk(engine, freeTypeInited, fontInfo[..], cur, sizeSpans != null, units, 0, 0, lineLength);
      textNum, emojiNum, loopNum, maxHeight := 0, 0, 0, maxHeight0;
      letterOut := letterIndex;
      var u: nat, pos: nat := 0, 0;
      while u < |units| && pos < lineLength
        invariant u <= |units| && Valid()
        invariant cur == LineState(State(), SpansOf(sizeSpans), letterOut, textNum, emojiNum, loopNum, maxHeight)
        invariant sizeSpans != null ==> SpansCover(cur.spans, cur.letter, |units| - u)
        invariant LineWalk(engine, freeTypeInited, fontInfo[..], cur, sizeSpans != null, units, u, pos, lineLength) == w0
        decreases |units| - u
      {
        var c := units[u];
        letterOut, textNum, emojiNum, loopNum, maxHeight :=
          WalkLineStep(units, u, pos, lineLength, sizeSpans, letterOut, textNum, emojiNum, loopNum, maxHeight, w0);
        cur := LineState(State(), SpansOf(sizeSpans), letterOut, textNum, emojiNum, loopNum, maxHeight);
        pos := pos + c.byteLen;
        u := u + 1;
        if EndsLine(c) {
          break;
        }
      }
    }

    /** One pass of GetLineMaxHeight's loop body: the code point at `u`, then letterIndex moves on. */
    method WalkLineStep(units: seq<CodeUnit>, u: nat, pos: nat, lineLength: uint16, sizeSpans: array?<SizeSpan>,
                        letter: uint16, textNum: uint16, emojiNum: uint16, loopNum: uint16, maxHeight: uint16, ghost w0: LineState)
      returns (letterOut: uint16, textOut: uint16, emojiOut: uint16, loopOut: uint16, maxOut: uint16)
      requires Valid() && u < |units| && pos < lineLength
      requires sizeSpans != null ==> SpansCover(sizeSpans[..], letter, |units| - u)
      requires LineWalk(engine, freeTypeInited, fontInfo[..],
                        LineState(State(), SpansOf(sizeSpans), letter, textNum, emojiNum, loopNum, maxHeight),
                        sizeSpans != null, units, u, pos, lineLength) == w0
      modifies ftFaces, sizeSpans
      ensures Valid()
      ensures sizeSpans != null ==> SpansCover(sizeSpans[..], letterOut, |units| - u - 1)
      ensures var s2 := LineState(State(), SpansOf(sizeSpans), letterOut, textOut, emojiOut, loopOut, maxOut);
              if EndsLine(units[u]) then s2 == w0
              else LineWalk(engine, freeTypeInited, fontInfo[..], s2, sizeSpans != null, units, u + 1, pos + units[u].byteLen, lineLength) == w0
    {
      LineWalkUnfold(engine, freeTypeInited, fontInfo[..],
                     LineState(State(), SpansOf(sizeSpans), letter, textNum, emojiNum, loopNum, maxHeight),
                     sizeSpans != null, units, u, pos, lineLength);
      textOut, emojiOut, loopOut, maxOut := LineStepAt(units[u], sizeSpans, letter, textNum, emojiNum, loopNum, maxHeight);
      letterOut := Inc16(letter);
    }

    /**
     * GetLineMaxHeight(text, lineLength, fontId, fontSize, letterIndex,
     * sizeSpans): `letterIndex` on entry, `letterOut` on return.
     */
    method GetLineMaxHeight(units: seq<CodeUnit>, lineLength: uint16, fontId: uint16, fontSize: uint8,
                            letterIndex: uint16, sizeSpans: array?<SizeSpan>) returns (h: uint16, letterOut: uint16)
      requires Valid()
      requires sizeSpans != null ==> SpansCover(sizeSpans[..], letterIndex, |units|)
      requires freeTypeInited ==>
                 var r := LineMaxWalk(engine, freeTypeInited, fontInfo[..], State(), units, lineLength, fontId, fontSize,
                                      letterIndex, sizeSpans != null, SpansOf(sizeSpans));
                 SubLineDefined(r.text, r.loop, r.emoji, SlotEmoji(fontInfo[..], currentFontInfoNum),
                                SlotHeights(r.st.faces, currentFontInfoNum))
      modifies ftFaces, sizeSpans
      ensures Valid()
      ensures !freeTypeInited ==>
                && h == U16(INVALID_RET_VALUE) && letterOut == letterIndex && State() == old(State())
                && (sizeSpans != null ==> sizeSpans[..] == old(sizeSpans[..]))
      ensures freeTypeInited ==>
                var r := LineMaxWalk(engine, freeTypeInited, fontInfo[..], old(State()), units, lineLength, fontId, fontSize,
                                     letterIndex, sizeSpans != null, old(SpansOf(sizeSpans)));
                && State() == r.st && letterOut == r.letter
                && (sizeSpans != null ==> sizeSpans[..] == r.spans)
                && h == SubLineHeight(r.text, r.loop, r.maxHeight, r.emoji, SlotEmoji(fontInfo[..], currentFontInfoNum),
                                      SlotHeights(ftFaces[..], currentFontInfoNum))
    {
      if !freeTypeInited {
        return U16(INVALID_RET_VALUE), letterIndex;
      }
      ghost var m := HeightQuery(engine, freeTypeInited, fontInfo[..], State(), fontId, fontSize);
      var maxHeight := GetHeight(fontId, fontSize);
      assert State() == Bridge(m.faces, old(bitmapCache)) && maxHeight == m.height;
      var textNum, emojiNum, loopNum;
      letterOut, textNum, emojiNum, loopNum, maxHeight := WalkLine(units, lineLength, sizeSpans, letterIndex, maxHeight);
      h := GetMaxSubLineHeight(textNum, loopNum, maxHeight, emojiNum);
    }
  }
}
