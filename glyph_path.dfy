/**
 * The glyph path of the font manager as state transitions on values: the
 * open faces (whose size and glyph slot the calls change) and the glyph
 * cache (null, or a map from face key, code point and style to an entry).
 * GetFaceInfo sizes a face, LoadGlyphIntoFace fills its glyph slot, SetFace
 * stores a cache entry, and GetHeight, GetWidth, GetGlyphNode and GetBitmap
 * combine them. The font table itself is only read here.
 */
module GlyphPath {
  import opened FontTypes
  import opened CatalogueSpec
  import opened GlyphSpec

  /** bitmapCache_: None is the null pointer before BitmapCacheInit. */
  type Cache = Option<map<CacheKey, CacheEntry>>

  /** The part of the manager's state the glyph path changes. */
  datatype Bridge = Bridge(faces: seq<Option<Face>>, cache: Cache)

  /** Both tables at full size, every set font slot with an open face. */
  predicate Catalogued(fonts: seq<FontParam>, faces: seq<Option<Face>>) {
    |fonts| == FONT_ID_MAX && |faces| == FONT_ID_MAX && SlotsAgree(fonts, faces)
  }

  // ---------------------------------------------------------------------
  // GetFaceInfo
  // ---------------------------------------------------------------------

  /** GetFaceInfo's guards: an id in range, a non-zero size, a set slot and an initialised engine. */
  predicate FaceUsable(inited: bool, fonts: seq<FontParam>, fontId: uint16, fontSize: uint8)
    requires |fonts| == FONT_ID_MAX
  {
    fontId < FONT_ID_MAX && fontSize > 0 && fonts[fontId].ttfName.Some? && inited
  }

  datatype Sized = Sized(faces: seq<Option<Face>>, ok: bool)

  /**
   * GetFaceInfo(fontId, fontSize): past the guards the slot's face is set to
   * the size (its nearest fixed size for a colour font, the character size
   * otherwise) and the call succeeds when the engine accepts the size.
   */
  function SizeFace(engine: Engine, inited: bool, fonts: seq<FontParam>, faces: seq<Option<Face>>,
                    fontId: uint16, fontSize: uint8): (r: Sized)
    requires Catalogued(fonts, faces)
    ensures Catalogued(fonts, r.faces)
    ensures r.ok <==> FaceUsable(inited, fonts, fontId, fontSize)
                      && SizedHeight(engine, faces[fontId].value, fontSize, IsEmoji(fonts, fontId)).Some?
    ensures !r.ok ==> r.faces == faces
    ensures r.ok ==> r.faces == faces[fontId := Some(faces[fontId].value.(height := SizedHeight(engine, faces[fontId].value, fontSize, IsEmoji(fonts, fontId)).value))]
  {
    if !FaceUsable(inited, fonts, fontId, fontSize) then Sized(faces, false)
    else
      var face := faces[fontId].value;
      match SizedHeight(engine, face, fontSize, IsEmoji(fonts, fontId))
      case None => Sized(faces, false)
      case Some(h) => Sized(faces[fontId := Some(face.(height := h))], true)
  }

  /** A face that does not hold a set font is never sized: GetFaceInfo fails for an unregistered id. */
  lemma SizeFaceNeedsRegisteredFont(engine: Engine, inited: bool, fonts: seq<FontParam>, faces: seq<Option<Face>>,
                                    fontId: uint16, fontSize: uint8)
    requires Catalogued(fonts, faces)
    requires fontId >= FONT_ID_MAX || fonts[fontId].ttfName.None? || fontSize == 0 || !inited
    ensures SizeFace(engine, inited, fonts, faces, fontId, fontSize) == Sized(faces, false)
  {
  }

  /** A colour font with no fixed sizes can never be sized, whatever the engine. */
  lemma ColourFontWithoutFixedSizes(engine: Engine, inited: bool, fonts: seq<FontParam>, faces: seq<Option<Face>>,
                                    fontId: uint16, fontSize: uint8)
    requires Catalogued(fonts, faces) && fontId < FONT_ID_MAX && faces[fontId].Some?
    requires IsEmoji(fonts, fontId) && |faces[fontId].value.fixedWidths| == 0
    ensures !SizeFace(engine, inited, fonts, faces, fontId, fontSize).ok
  {
  }

  // ---------------------------------------------------------------------
  // GetHeight
  // ---------------------------------------------------------------------

  datatype Measured = Measured(faces: seq<Option<Face>>, height: uint16)

  /**
   * GetHeight(fontId, fontSize): 0xFFFF (INVALID_RET_VALUE as uint16) when
   * the face cannot be sized, 0 without a cache, and otherwise the sized
   * face's line height in whole pixels.
   */
  function HeightQuery(engine: Engine, inited: bool, fonts: seq<FontParam>, st: Bridge, fontId: uint16, fontSize: uint8): (r: Measured)
    requires Catalogued(fonts, st.faces)
    ensures Catalogued(fonts, r.faces)
    ensures r.faces == SizeFace(engine, inited, fonts, st.faces, fontId, fontSize).faces
    ensures !SizeFace(engine, inited, fonts, st.faces, fontId, fontSize).ok ==> r.height == 0xFFFF
    ensures SizeFace(engine, inited, fonts, st.faces, fontId, fontSize).ok ==>
              r.height == (if st.cache.None? then 0
                           else PixelsU16(SizedHeight(engine, st.faces[fontId].value, fontSize, IsEmoji(fonts, fontId)).value))
  {
    var s := SizeFace(engine, inited, fonts, st.faces, fontId, fontSize);
    if !s.ok then Measured(s.faces, U16(INVALID_RET_VALUE))
    else if st.cache.None? then Measured(s.faces, 0)
    else Measured(s.faces, PixelsU16(s.faces[fontId].value.height))
  }

  // ---------------------------------------------------------------------
  // LoadGlyphIntoFace
  // ---------------------------------------------------------------------

  /** The load call LoadGlyphIntoFace makes for a code point through font `fontId`. */
  function CallFor(fonts: seq<FontParam>, fontId: uint16, unicode: uint32): (c: LoadCall)
    requires |fonts| == FONT_ID_MAX
    ensures c.Refused? <==> GlyphShaping(fonts, unicode) != 0 && fontId != FontIdByCode(fonts, unicode)
    ensures c.ByIndex? ==> c.index == unicode % 0x100_0000
    ensures c.ByChar? ==> GlyphShaping(fonts, unicode) == 0 && c.code == unicode && c.color == IsEmoji(fonts, fontId)
  {
    LoadCallFor(GlyphShaping(fonts, unicode), FontIdByCode(fonts, unicode), fontId, unicode, IsEmoji(fonts, fontId))
  }

  /**
   * LoadGlyphIntoFace(fontId, unicode), and with `styled` the variant that
   * also takes a text style: on success the face's glyph slot holds the
   * loaded (styled, rendered) glyph; on failure the faces are as they were.
   */
  function LoadGlyph(engine: Engine, fonts: seq<FontParam>, faces: seq<Option<Face>>, fontId: uint16, unicode: uint32,
                     style: TextStyle, styled: bool): (r: Sized)
    requires Catalogued(fonts, faces) && fontId < FONT_ID_MAX && faces[fontId].Some?
    ensures Catalogued(fonts, r.faces)
    ensures r.ok <==> LoadInto(engine, faces[fontId].value, CallFor(fonts, fontId, unicode), style, styled).Some?
    ensures !r.ok ==> r.faces == faces
    ensures r.ok ==> r.faces == faces[fontId := Some(faces[fontId].value.(glyph := LoadInto(engine, faces[fontId].value, CallFor(fonts, fontId, unicode), style, styled).value))]
    ensures r.ok ==> r.faces[fontId].value.glyph.glyphIndex != 0
  {
    var face := faces[fontId].value;
    match LoadInto(engine, face, CallFor(fonts, fontId, unicode), style, styled)
    case None => Sized(faces, false)
    case Some(g) => Sized(faces[fontId := Some(face.(glyph := g))], true)
  }

  /**
   * A code point whose tag selects a shaping font is only ever loaded
   * through that font: through any other font the load fails and nothing
   * changes.
   */
  lemma ShapedCodeOnlyThroughItsFont(engine: Engine, fonts: seq<FontParam>, faces: seq<Option<Face>>, fontId: uint16,
                                     unicode: uint32, style: TextStyle, styled: bool)
    requires Catalogued(fonts, faces) && fontId < FONT_ID_MAX && faces[fontId].Some?
    requires GlyphShaping(fonts, unicode) != 0 && fontId != FontIdByCode(fonts, unicode)
    ensures LoadGlyph(engine, fonts, faces, fontId, unicode, style, styled) == Sized(faces, false)
  {
  }

  /** Through its own font a shaped code point is loaded by glyph index, the low 24 bits of the code point. */
  lemma ShapedCodeLoadsByIndex(fonts: seq<FontParam>, fontId: uint16, unicode: uint32)
    requires |fonts| == FONT_ID_MAX
    requires GlyphShaping(fonts, unicode) != 0 && fontId == FontIdByCode(fonts, unicode)
    ensures CallFor(fonts, fontId, unicode) == ByIndex(unicode % 0x100_0000)
  {
  }

  // ---------------------------------------------------------------------
  // SetFace
  // ---------------------------------------------------------------------

  /**
   * SetFace(faceInfo, unicode, style): it asks the cache for the Metric
   * header plus width*rows*pixSize bytes under (key, unicode, style); when
   * space is granted the entry holds the glyph's Metric and then its
   * pixels, and when it is refused nothing is stored.
   */
  function StoreGlyph(engine: Engine, cache: map<CacheKey, CacheEntry>, key: uint32, unicode: uint32,
                      style: TextStyle, g: LoadedGlyph): (r: map<CacheKey, CacheEntry>)
    ensures var ck := CacheKey(key, unicode, style);
            && (engine.getSpace(cache, ck, SpaceRequest(g)) ==> r == cache[ck := EntryOf(g)])
            && (!engine.getSpace(cache, ck, SpaceRequest(g)) ==> r == cache)
  {
    var ck := CacheKey(key, unicode, style);
    if engine.getSpace(cache, ck, SpaceRequest(g)) then cache[ck := EntryOf(g)] else cache
  }

  /** The bytes of a stored entry as laid out in the cache: the five Metric fields, then the pixels. */
  function EntryBytes(e: CacheEntry): (b: seq<byte>)
    ensures |b| == METRIC_SIZE + |e.pixels|
    ensures b[METRIC_SIZE..] == e.pixels
  {
    var m := e.metric;
    U16Bytes(m.advance) + U16Bytes(U16(m.left)) + U16Bytes(U16(m.top)) + U16Bytes(m.cols) + U16Bytes(m.rows) + e.pixels
  }

  /** One 16-bit field in host (little-endian) order. */
  function U16Bytes(v: uint16): (b: seq<byte>)
    ensures |b| == 2 && b[0] as int + 0x100 * b[1] as int == v
  {
    [v % 0x100, v / 0x100]
  }

  /** What GetBitmap returns for a cached entry, the entry's address plus sizeof(Metric), is exactly the stored glyph's pixels. */
  lemma StoredEntryPixels(engine: Engine, cache: map<CacheKey, CacheEntry>, key: uint32, unicode: uint32,
                          style: TextStyle, g: LoadedGlyph)
    requires engine.getSpace(cache, CacheKey(key, unicode, style), SpaceRequest(g))
    ensures var e := StoreGlyph(engine, cache, key, unicode, style, g)[CacheKey(key, unicode, style)];
            && |EntryBytes(e)| == SpaceRequest(g)
            && EntryBytes(e)[METRIC_SIZE..] == g.buffer[..BitmapSize(g)]
  {
  }

  // ---------------------------------------------------------------------
  // GetWidth
  // ---------------------------------------------------------------------

  datatype WidthResult = WidthResult(st: Bridge, width: int)

  /**
   * GetWidth(unicode, fontId, fontSize): -1 for an id out of range, a zero
   * size, an uninitialised engine or no cache. An unstyled cache entry is
   * answered at once, before the face is even looked at; otherwise the face
   * is sized, the glyph loaded without a style and stored, and its advance
   * returned, each failure giving -1.
   */
  function Width(engine: Engine, inited: bool, fonts: seq<FontParam>, st: Bridge, unicode: uint32,
                 fontId: uint16, fontSize: uint8): (r: WidthResult)
    requires Catalogued(fonts, st.faces)
    ensures Catalogued(fonts, r.st.faces)
    ensures -0x8000 <= r.width < 0x8000
    ensures fontId >= FONT_ID_MAX || fontSize == 0 || !inited || st.cache.None? ==> r == WidthResult(st, INVALID_RET_VALUE)
  {
    if fontId >= FONT_ID_MAX || fontSize == 0 then WidthResult(st, INVALID_RET_VALUE)
    else if !inited || st.cache.None? then WidthResult(st, INVALID_RET_VALUE)
    else
      var key := GetKey(fontId, fontSize);
      var cache := st.cache.value;
      var ck := CacheKey(key, unicode, StyleNormal);
      if ck in cache then WidthResult(st, I16(cache[ck].metric.advance))
      else
        var s := SizeFace(engine, inited, fonts, st.faces, fontId, fontSize);
        if !s.ok then WidthResult(Bridge(s.faces, st.cache), INVALID_RET_VALUE)
        else
          var l := LoadGlyph(engine, fonts, s.faces, fontId, unicode, StyleNormal, false);
          if !l.ok then WidthResult(Bridge(l.faces, st.cache), INVALID_RET_VALUE)
          else
            var g := l.faces[fontId].value.glyph;
            WidthResult(Bridge(l.faces, Some(StoreGlyph(engine, cache, key, unicode, StyleNormal, g))), I16(PixelsU16(g.advanceX)))
  }

  /**
   * A cache hit answers from the entry and touches nothing, even for a font
   * that is no longer registered: an entry outlives its font.
   */
  lemma WidthHitNeedsNoFont(engine: Engine, inited: bool, fonts: seq<FontParam>, st: Bridge, unicode: uint32,
                            fontId: uint16, fontSize: uint8)
    requires Catalogued(fonts, st.faces) && fontId < FONT_ID_MAX && fontSize > 0 && inited && st.cache.Some?
    requires CacheKey(GetKey(fontId, fontSize), unicode, StyleNormal) in st.cache.value
    ensures Width(engine, inited, fonts, st, unicode, fontId, fontSize)
            == WidthResult(st, I16(st.cache.value[CacheKey(GetKey(fontId, fontSize), unicode, StyleNormal)].metric.advance))
  {
  }

  /**
   * A miss whose entry is stored makes the next call a hit with the same
   * answer and no further change.
   */
  lemma WidthMissThenHit(engine: Engine, inited: bool, fonts: seq<FontParam>, st: Bridge, unicode: uint32,
                         fontId: uint16, fontSize: uint8)
    requires Catalogued(fonts, st.faces)
    ensures var r1 := Width(engine, inited, fonts, st, unicode, fontId, fontSize);
            r1.width != INVALID_RET_VALUE && r1.st.cache.Some?
              && CacheKey(GetKey(fontId, fontSize), unicode, StyleNormal) in r1.st.cache.value ==>
              Width(engine, inited, fonts, r1.st, unicode, fontId, fontSize) == r1
  {
    var r1 := Width(engine, inited, fonts, st, unicode, fontId, fontSize);
    var ck := CacheKey(GetKey(fontId, fontSize), unicode, StyleNormal);
    if r1.width != INVALID_RET_VALUE && r1.st.cache.Some? && ck in r1.st.cache.value && ck !in st.cache.value {
      var s := SizeFace(engine, inited, fonts, st.faces, fontId, fontSize);
      var l := LoadGlyph(engine, fonts, s.faces, fontId, unicode, StyleNormal, false);
      HitAgreesWithMiss(l.faces[fontId].value.glyph, fontId, StyleNormal);
    }
  }

  // ---------------------------------------------------------------------
  // GetGlyphNode
  // ---------------------------------------------------------------------

  datatype NodeResult = NodeResult(st: Bridge, ok: bool, node: GlyphNode)

  /**
   * GetGlyphNode(unicode, node, fontId, fontSize): the face is sized first
   * (a failure leaves the node as it was); without a cache it fails. An
   * entry under the node's style fills the node from its Metric; otherwise
   * the glyph is loaded with that style, the node filled from the slot and
   * the entry stored. The node's style is never changed.
   */
  function GlyphNodeStep(engine: Engine, inited: bool, fonts: seq<FontParam>, st: Bridge, unicode: uint32,
                         node: GlyphNode, fontId: uint16, fontSize: uint8): (r: NodeResult)
    requires Catalogued(fonts, st.faces)
    ensures Catalogued(fonts, r.st.faces)
    ensures r.st.cache.None? <==> st.cache.None?
    ensures r.node.textStyle == node.textStyle
    ensures r.ok ==> fontId < FONT_ID_MAX
  {
    var s := SizeFace(engine, inited, fonts, st.faces, fontId, fontSize);
    if !s.ok then NodeResult(st, false, node)
    else if st.cache.None? then NodeResult(Bridge(s.faces, None), false, node)
    else
      var key := GetKey(fontId, fontSize);
      var cache := st.cache.value;
      var ck := CacheKey(key, unicode, node.textStyle);
      if ck in cache then NodeResult(Bridge(s.faces, st.cache), true, NodeFromMetric(cache[ck].metric, fontId, node.textStyle))
      else
        var l := LoadGlyph(engine, fonts, s.faces, fontId, unicode, node.textStyle, true);
        if !l.ok then NodeResult(Bridge(l.faces, st.cache), false, node)
        else
          var g := l.faces[fontId].value.glyph;
          NodeResult(Bridge(l.faces, Some(StoreGlyph(engine, cache, key, unicode, node.textStyle, g))), true,
                     NodeFromGlyph(g, fontId, node.textStyle))
  }

  /** Every successful GetGlyphNode reports the requested font; a failed one leaves the node untouched. */
  lemma GlyphNodeReportsRequestedFont(engine: Engine, inited: bool, fonts: seq<FontParam>, st: Bridge, unicode: uint32,
                                      node: GlyphNode, fontId: uint16, fontSize: uint8)
    requires Catalogued(fonts, st.faces)
    ensures var r := GlyphNodeStep(engine, inited, fonts, st, unicode, node, fontId, fontSize);
            && (r.ok ==> r.node.fontId == fontId)
            && (!r.ok ==> r.node == node)
  {
  }

  /** A hit loads nothing: the cache is unchanged and the node is the stored Metric. */
  lemma GlyphNodeHit(engine: Engine, inited: bool, fonts: seq<FontParam>, st: Bridge, unicode: uint32,
                     node: GlyphNode, fontId: uint16, fontSize: uint8)
    requires Catalogued(fonts, st.faces) && st.cache.Some?
    requires SizeFace(engine, inited, fonts, st.faces, fontId, fontSize).ok
    requires CacheKey(GetKey(fontId, fontSize), unicode, node.textStyle) in st.cache.value
    ensures var r := GlyphNodeStep(engine, inited, fonts, st, unicode, node, fontId, fontSize);
            && r.ok && r.st.cache == st.cache
            && r.st.faces == SizeFace(engine, inited, fonts, st.faces, fontId, fontSize).faces
            && r.node == NodeFromMetric(st.cache.value[CacheKey(GetKey(fontId, fontSize), unicode, node.textStyle)].metric, fontId, node.textStyle)
  {
  }

  /**
   * A successful GetGlyphNode that leaves an entry for its key leaves one
   * that describes exactly the node it returned: a hit returns the entry,
   * and a miss stores the glyph it read the node from.
   */
  lemma GlyphNodeAgreesWithEntry(engine: Engine, inited: bool, fonts: seq<FontParam>, st: Bridge, unicode: uint32,
                                 node: GlyphNode, fontId: uint16, fontSize: uint8)
    requires Catalogued(fonts, st.faces)
    ensures var r := GlyphNodeStep(engine, inited, fonts, st, unicode, node, fontId, fontSize);
            var ck := CacheKey(GetKey(fontId, fontSize), unicode, node.textStyle);
            r.ok && r.st.cache.Some? && ck in r.st.cache.value ==>
              NodeFromMetric(r.st.cache.value[ck].metric, fontId, node.textStyle) == r.node
  {
    var r := GlyphNodeStep(engine, inited, fonts, st, unicode, node, fontId, fontSize);
    var ck := CacheKey(GetKey(fontId, fontSize), unicode, node.textStyle);
    if r.ok && st.cache.Some? && ck !in st.cache.value {
      var s := SizeFace(engine, inited, fonts, st.faces, fontId, fontSize);
      var l := LoadGlyph(engine, fonts, s.faces, fontId, unicode, node.textStyle, true);
      HitAgreesWithMiss(l.faces[fontId].value.glyph, fontId, node.textStyle);
    }
  }

  /**
   * Asking twice: when the first call succeeded and left an entry, and the
   * face can be sized again, the second call is a hit that returns the same
   * node and leaves the cache as it is.
   */
  lemma GlyphNodeTwice(engine: Engine, inited: bool, fonts: seq<FontParam>, st: Bridge, unicode: uint32,
                       node: GlyphNode, fontId: uint16, fontSize: uint8)
    requires Catalogued(fonts, st.faces)
    ensures var r1 := GlyphNodeStep(engine, inited, fonts, st, unicode, node, fontId, fontSize);
            var ck := CacheKey(GetKey(fontId, fontSize), unicode, node.textStyle);
            r1.ok && r1.st.cache.Some? && ck in r1.st.cache.value
              && SizeFace(engine, inited, fonts, r1.st.faces, fontId, fontSize).ok ==>
              var r2 := GlyphNodeStep(engine, inited, fonts, r1.st, unicode, r1.node, fontId, fontSize);
              r2.ok && r2.node == r1.node && r2.st.cache == r1.st.cache
  {
    GlyphNodeAgreesWithEntry(engine, inited, fonts, st, unicode, node, fontId, fontSize);
  }

  // ---------------------------------------------------------------------
  // GetBitmap
  // ---------------------------------------------------------------------

  datatype BitmapResult = BitmapResult(st: Bridge, node: GlyphNode, pixels: Option<seq<byte>>)

  /**
   * GetBitmap(unicode, node, fontId, fontSize): GetGlyphNode first (null on
   * failure), then the face is sized again (null on failure); an entry under
   * the node's style gives its pixels, and otherwise the slot is offered to
   * the cache once more and the slot's own pixel buffer is returned.
   */
  function BitmapStep(engine: Engine, inited: bool, fonts: seq<FontParam>, st: Bridge, unicode: uint32,
                      node: GlyphNode, fontId: uint16, fontSize: uint8): (r: BitmapResult)
    requires Catalogued(fonts, st.faces)
    ensures Catalogued(fonts, r.st.faces)
    ensures r.pixels.Some? ==> GlyphNodeStep(engine, inited, fonts, st, unicode, node, fontId, fontSize).ok
    ensures r.node == GlyphNodeStep(engine, inited, fonts, st, unicode, node, fontId, fontSize).node
  {
    var n := GlyphNodeStep(engine, inited, fonts, st, unicode, node, fontId, fontSize);
    if !n.ok then BitmapResult(n.st, n.node, None)
    else
      var s := SizeFace(engine, inited, fonts, n.st.faces, fontId, fontSize);
      if !s.ok then BitmapResult(Bridge(s.faces, n.st.cache), n.node, None)
      else
        var key := GetKey(fontId, fontSize);
        var cache := n.st.cache.value;
        var ck := CacheKey(key, unicode, n.node.textStyle);
        if ck in cache then BitmapResult(Bridge(s.faces, n.st.cache), n.node, Some(cache[ck].pixels))
        else
          var g := s.faces[fontId].value.glyph;
          BitmapResult(Bridge(s.faces, Some(StoreGlyph(engine, cache, key, unicode, n.node.textStyle, g))), n.node, Some(g.buffer))
  }

  /**
   * When the glyph was missing and the cache grants the space, GetBitmap
   * returns the first width*rows*pixSize bytes of the freshly loaded
   * slot, and the node describes that same slot.
   */
  lemma BitmapOfFreshGlyph(engine: Engine, inited: bool, fonts: seq<FontParam>, st: Bridge, unicode: uint32,
                           node: GlyphNode, fontId: uint16, fontSize: uint8)
    requires Catalogued(fonts, st.faces) && st.cache.Some?
    requires CacheKey(GetKey(fontId, fontSize), unicode, node.textStyle) !in st.cache.value
    ensures var n := GlyphNodeStep(engine, inited, fonts, st, unicode, node, fontId, fontSize);
            var r := BitmapStep(engine, inited, fonts, st, unicode, node, fontId, fontSize);
            n.ok && CacheKey(GetKey(fontId, fontSize), unicode, node.textStyle) in n.st.cache.value && r.pixels.Some? ==>
              var g := n.st.faces[fontId].value.glyph;
              && r.pixels.value == g.buffer[..BitmapSize(g)]
              && r.node == NodeFromGlyph(g, fontId, node.textStyle)
  {
  }
}
