/**
 * Machine-level types, constants and the records shared by the font manager:
 * the font slot record, the collection slot record, the rasterization
 * engine's face and glyph slot as values, and the glyph cache entry.
 */
module FontTypes {

  type uint8 = x: int | 0 <= x < 0x100
  type uint16 = x: int | 0 <= x < 0x1_0000
  type uint32 = x: int | 0 <= x < 0x1_0000_0000
  type int16 = x: int | -0x8000 <= x < 0x8000
  type byte = x: int | 0 <= x < 0x100

  /** Capacity of the font slot table (fontInfo_ and ftFaces_). */
  const FONT_ID_MAX: nat := 0xFF
  /** Capacity of the collection slot table (ttcInfos_). */
  const FONT_TTC_MAX: nat := 0x20
  /** The id every failed registration or lookup returns. */
  const FONT_INVALID_TTF_ID: uint8 := 0xFF
  /** strncmp bound used when comparing font and collection names. */
  const TTF_NAME_LEN_MAX: nat := 128
  /** Font weight recorded for a plain (8-bit coverage) font. */
  const BPP_BIT_8: uint8 := 8
  /** Font weight recorded for a font carrying a CBDT colour bitmap table. */
  const BPP_BIT_32: uint8 := 32
  /** IsEmojiFont: a weight at or above this value is a colour font. */
  const COLOR_WEIGHT_MIN: nat := 16
  const INVALID_RET_VALUE: int := -1
  const RET_VALUE_OK: int := 0
  /** sizeof(Metric): five 16-bit fields. */
  const METRIC_SIZE: nat := 10
  /** 'ttcf', the tag a TrueType Collection starts with. */
  const TTAG_TTCF: uint32 := 0x74746366

  datatype Option<T> = None | Some(value: T)

  /**
   * One slot of the font table (UITextLanguageFontParam). `ttfName == None`
   * is the null pointer that marks an empty slot.
   */
  datatype FontParam = FontParam(
    size: uint8,
    fontWeight: uint8,
    shaping: uint8,
    ttfId: uint8,
    ttfIndex: uint8,
    ttcIndex: uint8,
    ttfName: Option<string>)

  /** The zero-initialised slot the table starts with. */
  const EMPTY_PARAM: FontParam := FontParam(0, 0, 0, 0, 0, 0, None)

  /** One sub-font descriptor handed to collection registration (TtfInfo). */
  datatype TtfInfo = TtfInfo(ttfName: Option<string>, shaping: uint8)

  /** The stream pointer of a collection slot: null, open over some bytes, or freed but still set. */
  datatype StreamState = NoStream | Open(bytes: seq<byte>) | Freed

  /** One slot of the collection table (TtcInfo). */
  datatype TtcInfo = TtcInfo(ttcName: Option<string>, stream: StreamState)

  const EMPTY_TTC: TtcInfo := TtcInfo(None, NoStream)

  datatype PixelMode = Gray | Bgra | OtherMode
  datatype GlyphFormat = OutlineFormat | BitmapFormat | OtherFormat

  /**
   * The engine's glyph slot after a load: glyph index, format, bitmap origin,
   * bitmap size, horizontal advance in 26.6 fixed point, pixel mode and
   * pixel buffer.
   */
  datatype Glyph = Glyph(
    glyphIndex: nat,
    format: GlyphFormat,
    left: int,
    top: int,
    width: nat,
    rows: nat,
    advanceX: int,
    pixelMode: PixelMode,
    buffer: seq<byte>)

  /** Bytes per pixel of a slot's bitmap: 4 for BGRA, 1 otherwise. */
  function PixSize(mode: PixelMode): (r: nat)
    ensures r == 1 || r == 4
    ensures r == 4 <==> mode == Bgra
  {
    if mode == Bgra then 4 else 1
  }

  /** `width * rows * pixSize`, computed in uint32 arithmetic as SetFace does. */
  function BitmapSize(g: Glyph): uint32 {
    (g.width * g.rows * PixSize(g.pixelMode)) % 0x1_0000_0000
  }

  /** A slot whose buffer holds at least the bytes SetFace copies out of it. */
  predicate HoldsPixels(g: Glyph) {
    BitmapSize(g) <= |g.buffer|
  }

  const EMPTY_GLYPH: Glyph := Glyph(0, OutlineFormat, 0, 0, 0, 0, 0, Gray, [])

  /** A glyph slot as the engine leaves it after a successful load, style step or render. */
  type LoadedGlyph = g: Glyph | HoldsPixels(g) witness EMPTY_GLYPH

  /**
   * An open face as the engine reports it: whether it has a CBDT table, the
   * widths of its fixed (embedded bitmap) sizes, the line height of the size
   * last selected in 26.6 fixed point, and its glyph slot.
   */
  datatype Face = Face(hasColorTable: bool, fixedWidths: seq<int>, height: int, glyph: LoadedGlyph)

  datatype TextStyle = StyleNormal | StyleItalic | StyleBold | StyleBoldItalic

  /** The header stored in front of every cached bitmap: five 16-bit fields. */
  datatype Metric = Metric(advance: uint16, left: int16, top: int16, cols: uint16, rows: uint16)

  /** A cache entry: Metric header followed by the pixel payload. */
  datatype CacheEntry = CacheEntry(metric: Metric, pixels: seq<byte>)

  /** What a cache entry is addressed by: the face key, the code point and the style. */
  datatype CacheKey = CacheKey(key: uint32, unicode: uint32, style: TextStyle)

  /** The glyph description handed back to the text layout (GlyphNode). */
  datatype GlyphNode = GlyphNode(left: int16, top: int16, cols: uint16, rows: uint16, advance: uint16, fontId: uint16, textStyle: TextStyle)

  /** One slot of the caller's size-span table (SizeSpan). */
  datatype SizeSpan = SizeSpan(isSizeSpan: bool, height: uint16, fontId: uint16, size: uint8)

  /**
   * The rasterization engine and the cache's allocator, as the answers they
   * give. `None` is an engine error. newFace opens a font file by path;
   * streamNew opens a collection file as a stream over its bytes; openFace
   * opens sub-font `j` of such a stream; setCharSize and selectSize set a
   * face's size (by character height in 26.6, or by fixed-size index) and
   * report the new line height in 26.6; loadGlyph (by glyph index) and
   * loadChar (by character, colour or render mode) fill the glyph slot;
   * italic and bold are the shear and emboldening applied to a loaded slot;
   * render rasterizes an outline slot; getSpace says whether the cache, with
   * the given contents, grants the space asked for under a key; readFile is the whole content of a font
   * file as open/lseek/read deliver it.
   */
  datatype Engine = Engine(
    newFace: string -> Option<Face>,
    streamNew: string -> Option<seq<byte>>,
    openFace: (seq<byte>, nat) -> Option<Face>,
    setCharSize: (Face, int) -> Option<int>,
    selectSize: (Face, nat) -> Option<int>,
    loadGlyph: (Face, nat) -> Option<LoadedGlyph>,
    loadChar: (Face, uint32, bool) -> Option<LoadedGlyph>,
    italic: LoadedGlyph -> LoadedGlyph,
    bold: LoadedGlyph -> LoadedGlyph,
    render: LoadedGlyph -> Option<LoadedGlyph>,
    getSpace: (map<CacheKey, CacheEntry>, CacheKey, nat) -> bool,
    readFile: string -> Option<seq<byte>>)

  /** One code point of a line as the UTF-8 decoder delivers it. */
  datatype CodeUnit = CodeUnit(unicode: uint32, byteLen: nat, lastByte: byte, isColour: bool)
}
