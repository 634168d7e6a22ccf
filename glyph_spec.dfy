/**
 * The value-level rules of the glyph path: the 26.6 fixed-point conversions
 * and integer casts the code applies, the face key packing (GetKey), the
 * nearest fixed size a colour font is set to (SetupColorFont), which load
 * call LoadGlyphIntoFace makes and which style steps follow it, and what
 * SetFace records in the cache.
 */
module GlyphSpec {
  import opened FontTypes

  // ---------------------------------------------------------------------
  // Conversions
  // ---------------------------------------------------------------------

  /** `v / FONT_PIXEL_IN_POINT` on a signed 26.6 value: C division, which truncates toward zero. */
  function FromFixed(v: int): (r: int)
    ensures v >= 0 ==> 0 <= r && r * 64 <= v < r * 64 + 64
    ensures v < 0 ==> r <= 0 && r * 64 - 64 < v <= r * 64
  {
    if v >= 0 then v / 64 else -((-v) / 64)
  }

  /** static_cast<uint16_t>. */
  function U16(x: int): (r: uint16)
    ensures 0 <= x < 0x1_0000 ==> r == x
    ensures (r - x) % 0x1_0000 == 0
  {
    x % 0x1_0000
  }

  /** The conversion of a uint16_t to int16_t. */
  function I16(x: uint16): (r: int)
    ensures -0x8000 <= r < 0x8000
    ensures r == x || r == x - 0x1_0000
  {
    if x < 0x8000 then x else x - 0x1_0000
  }

  /** An int stored into an int16_t field: its low 16 bits, read as signed. */
  function Narrow16(x: int): (r: int16)
    ensures -0x8000 <= x < 0x8000 ==> r == x
  {
    I16(U16(x))
  }

  /** `static_cast<uint16_t>(v / FONT_PIXEL_IN_POINT)`: a 26.6 metric in whole pixels as uint16. */
  function PixelsU16(v: int): uint16 {
    U16(FromFixed(v))
  }

  // ---------------------------------------------------------------------
  // GetKey
  // ---------------------------------------------------------------------

  /** `(uint32_t(fontId) << 24) + size` in uint32 arithmetic. */
  function GetKey(fontId: uint16, size: uint32): (k: uint32) {
    (fontId * 0x100_0000 + size) % 0x1_0000_0000
  }

  /** For a font id below 256 and a size below 2^24 the key holds the id in its top byte and the size in the rest. */
  lemma KeyFields(fontId: uint16, size: uint32)
    requires fontId < 0x100 && size < 0x100_0000
    ensures GetKey(fontId, size) / 0x100_0000 == fontId
    ensures GetKey(fontId, size) % 0x100_0000 == size
  {
    assert fontId * 0x100_0000 + size < 0x1_0000_0000;
  }

  /** So within those ranges different (font, size) pairs get different keys. */
  lemma KeyInjective(f1: uint16, s1: uint32, f2: uint16, s2: uint32)
    requires f1 < 0x100 && s1 < 0x100_0000 && f2 < 0x100 && s2 < 0x100_0000
    requires GetKey(f1, s1) == GetKey(f2, s2)
    ensures f1 == f2 && s1 == s2
  {
    KeyFields(f1, s1);
    KeyFields(f2, s2);
  }

  /** Outside them keys collide: the id's bits above the eighth are shifted out, and a size of 2^24 or more carries into the id. */
  lemma KeyAliases(fontId: uint16, size: uint32)
    requires 0x100 <= fontId
    ensures GetKey(fontId, size) == GetKey(fontId - 0x100, size)
    ensures size + 0x100_0000 < 0x1_0000_0000 && fontId + 1 < 0x1_0000 ==>
              GetKey(fontId, size + 0x100_0000) == GetKey(fontId + 1, size)
  {
    var a := fontId * 0x100_0000 + size;
    assert a == (fontId - 0x100) * 0x100_0000 + size + 0x1_0000_0000;
  }

  // ---------------------------------------------------------------------
  // SetupColorFont: the fixed size nearest the requested one
  // ---------------------------------------------------------------------

  function Abs(x: int): nat {
    if x < 0 then -x else x
  }

  /** MATH_ABS(fontSize - width). */
  function SizeDiff(fontSize: int, widths: seq<int>, k: nat): nat
    requires k < |widths|
  {
    Abs(fontSize - widths[k])
  }

  /**
   * The selection loop from index `i` on, `best` being the choice so far: a
   * later width replaces it only when strictly nearer.
   */
  function NearestFrom(fontSize: int, widths: seq<int>, best: nat, i: nat): (r: nat)
    requires best < i <= |widths|
    requires forall k :: 0 <= k < i ==> SizeDiff(fontSize, widths, best) <= SizeDiff(fontSize, widths, k)
    requires forall k :: 0 <= k < best ==> SizeDiff(fontSize, widths, k) > SizeDiff(fontSize, widths, best)
    decreases |widths| - i
    ensures r < |widths|
    ensures forall k :: 0 <= k < |widths| ==> SizeDiff(fontSize, widths, r) <= SizeDiff(fontSize, widths, k)
    ensures forall k :: 0 <= k < r ==> SizeDiff(fontSize, widths, k) > SizeDiff(fontSize, widths, r)
  {
    if i == |widths| then best
    else if SizeDiff(fontSize, widths, i) < SizeDiff(fontSize, widths, best) then NearestFrom(fontSize, widths, i, i + 1)
    else NearestFrom(fontSize, widths, best, i + 1)
  }

  /** The fixed size SetupColorFont selects: the lowest index among those nearest to the font size. */
  function NearestFixedSize(fontSize: int, widths: seq<int>): (r: nat)
    requires |widths| > 0
    ensures r < |widths|
    ensures forall k :: 0 <= k < |widths| ==> SizeDiff(fontSize, widths, r) <= SizeDiff(fontSize, widths, k)
    ensures forall k :: 0 <= k < r ==> SizeDiff(fontSize, widths, k) > SizeDiff(fontSize, widths, r)
  {
    NearestFrom(fontSize, widths, 0, 1)
  }

  /**
   * What setting a face's size yields, the line height afterwards or the
   * engine's error: a colour font is set to its nearest fixed size (and
   * fails at once when it has none), any other font to the character size
   * fontSize * 64 in 26.6.
   */
  function SizedHeight(engine: Engine, face: Face, fontSize: uint8, emoji: bool): Option<int> {
    if emoji then
      if |face.fixedWidths| == 0 then None
      else engine.selectSize(face, NearestFixedSize(fontSize, face.fixedWidths))
    else engine.setCharSize(face, fontSize * 64)
  }

  // ---------------------------------------------------------------------
  // LoadGlyphIntoFace
  // ---------------------------------------------------------------------

  datatype LoadCall = Refused | ByIndex(index: nat) | ByChar(code: uint32, color: bool)

  /**
   * The load a code point leads to. `shaping` is what IsGlyphFont answered
   * for it and `tagSlot` what GetFontId(unicode) answered. A code point with
   * a shaping font behind its tag is a glyph index in its low 24 bits, to be
   * loaded only through that font; any other is a character, loaded in
   * colour mode from a colour font.
   */
  function LoadCallFor(shaping: nat, tagSlot: nat, fontId: nat, unicode: uint32, emoji: bool): (r: LoadCall)
    ensures r.Refused? <==> shaping != 0 && fontId != tagSlot
    ensures r.ByIndex? <==> shaping != 0 && fontId == tagSlot
    ensures r.ByIndex? ==> r.index < 0x100_0000 && unicode - r.index == (unicode / 0x100_0000) * 0x100_0000
    ensures r.ByChar? ==> r.code == unicode && r.color == emoji
  {
    if shaping != 0 then
      if fontId != tagSlot then Refused else ByIndex(unicode % 0x100_0000)
    else ByChar(unicode, emoji)
  }

  datatype StyleStep = Shear | Embolden

  /** The synthetic style steps after a load, in order: italic shear before emboldening. */
  function StyleSteps(style: TextStyle): (r: seq<StyleStep>)
    ensures (Shear in r) <==> (style == StyleItalic || style == StyleBoldItalic)
    ensures (Embolden in r) <==> (style == StyleBold || style == StyleBoldItalic)
    ensures forall a, b :: 0 <= a < b < |r| ==> r[a] == Shear && r[b] == Embolden
  {
    match style
    case StyleNormal => []
    case StyleItalic => [Shear]
    case StyleBold => [Embolden]
    case StyleBoldItalic => [Shear, Embolden]
  }

  function ApplySteps(engine: Engine, steps: seq<StyleStep>, g: LoadedGlyph): LoadedGlyph
    decreases |steps|
  {
    if steps == [] then g
    else ApplySteps(engine, steps[1..], if steps[0] == Shear then engine.italic(g) else engine.bold(g))
  }

  /** The engine's answer to a load call. */
  function Loaded(engine: Engine, face: Face, call: LoadCall): Option<LoadedGlyph> {
    match call
    case Refused => None
    case ByIndex(index) => engine.loadGlyph(face, index)
    case ByChar(code, color) => engine.loadChar(face, code, color)
  }

  /**
   * LoadGlyphIntoFace without a style (`styled` false): the loaded slot,
   * failing on a refused call, an engine error or glyph index 0. With a style
   * (`styled` true) the style steps follow, a slot that is not a bitmap is
   * then rendered, and the result fails on a render error or glyph index 0.
   */
  function LoadInto(engine: Engine, face: Face, call: LoadCall, style: TextStyle, styled: bool): (r: Option<LoadedGlyph>)
    ensures r.Some? ==> !call.Refused? && r.value.glyphIndex != 0
    ensures r.Some? ==> Loaded(engine, face, call).Some? && Loaded(engine, face, call).value.glyphIndex != 0
    ensures r.Some? && !styled ==> r == Loaded(engine, face, call)
  {
    match Loaded(engine, face, call)
    case None => None
    case Some(g) =>
      if g.glyphIndex == 0 then None
      else if !styled then Some(g)
      else
        var g1 := ApplySteps(engine, StyleSteps(style), g);
        var g2: Option<LoadedGlyph> := if g1.format != BitmapFormat then engine.render(g1) else Some(g1);
        if g2.None? || g2.value.glyphIndex == 0 then None else g2
  }

  // ---------------------------------------------------------------------
  // SetFace and the cache entries
  // ---------------------------------------------------------------------

  /** What SetFace asks the cache for: the Metric header and the pixels. */
  function SpaceRequest(g: Glyph): (r: nat)
    ensures r == METRIC_SIZE + BitmapSize(g)
  {
    METRIC_SIZE + BitmapSize(g)
  }

  /** The Metric header SetFace writes for a loaded slot. */
  function MetricOf(g: Glyph): (m: Metric)
    ensures m.advance == PixelsU16(g.advanceX)
    ensures m.left == Narrow16(g.left) && m.top == Narrow16(g.top) && m.cols == U16(g.width) && m.rows == U16(g.rows)
  {
    Metric(PixelsU16(g.advanceX), Narrow16(g.left), Narrow16(g.top), U16(g.width), U16(g.rows))
  }

  /** The entry SetFace stores: the header, then the first BitmapSize pixels of the slot. */
  function EntryOf(g: Glyph): (e: CacheEntry)
    requires HoldsPixels(g)
    ensures e.metric == MetricOf(g) && |e.pixels| == BitmapSize(g)
    ensures e.pixels == g.buffer[..BitmapSize(g)]
  {
    CacheEntry(MetricOf(g), g.buffer[..BitmapSize(g)])
  }

  /** The glyph node of a cache hit: the stored Metric fields and the requested font. */
  function NodeFromMetric(m: Metric, fontId: uint16, style: TextStyle): (n: GlyphNode)
    ensures n.left == m.left && n.top == m.top && n.cols == m.cols && n.rows == m.rows && n.advance == m.advance
    ensures n.fontId == fontId && n.textStyle == style
  {
    GlyphNode(m.left, m.top, m.cols, m.rows, m.advance, fontId, style)
  }

  /** The glyph node of a miss: read off the freshly loaded slot. */
  function NodeFromGlyph(g: Glyph, fontId: uint16, style: TextStyle): (n: GlyphNode)
    ensures n.left == Narrow16(g.left) && n.top == Narrow16(g.top) && n.cols == U16(g.width) && n.rows == U16(g.rows)
    ensures n.advance == PixelsU16(g.advanceX)
    ensures n.fontId == fontId && n.textStyle == style
  {
    GlyphNode(Narrow16(g.left), Narrow16(g.top), U16(g.width), U16(g.rows), PixelsU16(g.advanceX), fontId, style)
  }

  /** A miss and a later hit on the entry SetFace stored for it give the same glyph node and the same width. */
  lemma HitAgreesWithMiss(g: Glyph, fontId: uint16, style: TextStyle)
    requires HoldsPixels(g)
    ensures NodeFromMetric(EntryOf(g).metric, fontId, style) == NodeFromGlyph(g, fontId, style)
    ensures I16(EntryOf(g).metric.advance) == I16(PixelsU16(g.advanceX))
  {
  }
}
