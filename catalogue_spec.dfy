/**
 * The font and collection tables as values: the slot scans the registration,
 * unregistration and lookup loops perform, the records they write, and the
 * facts that relate them (same name twice gives the same slot, a hole hides
 * a later name, sub-fonts of a collection land in consecutive slots).
 */
module CatalogueSpec {
  import opened FontTypes

  /** The first TTF_NAME_LEN_MAX characters of a name. */
  function NamePrefix(s: string): (r: string)
    ensures |r| <= TTF_NAME_LEN_MAX && r <= s
  {
    if |s| <= TTF_NAME_LEN_MAX then s else s[..TTF_NAME_LEN_MAX]
  }

  /** `strncmp(a, b, TTF_NAME_LEN_MAX) == 0`, names being NUL-free. */
  predicate SameName(a: string, b: string) {
    NamePrefix(a) == NamePrefix(b)
  }

  /** A name pointer that is set and compares equal to `name`. */
  predicate Holds(n: Option<string>, name: string) {
    n.Some? && SameName(n.value, name)
  }

  /** `strstr(hay, needle) != nullptr`: `needle` occurs in `hay` as a contiguous run. */
  predicate Contains(hay: string, needle: string)
    decreases |hay|
  {
    needle <= hay || (|hay| > 0 && Contains(hay[1..], needle))
  }

  function FontNames(t: seq<FontParam>): (r: seq<Option<string>>)
    ensures |r| == |t| && forall k :: 0 <= k < |t| ==> r[k] == t[k].ttfName
  {
    seq(|t|, k requires 0 <= k < |t| => t[k].ttfName)
  }

  function TtcNames(t: seq<TtcInfo>): (r: seq<Option<string>>)
    ensures |r| == |t| && forall k :: 0 <= k < |t| ==> r[k] == t[k].ttcName
  {
    seq(|t|, k requires 0 <= k < |t| => t[k].ttcName)
  }

  // ---------------------------------------------------------------------
  // The registration scan (RegisterFontInfo, RegisterTtcFontInfo)
  // ---------------------------------------------------------------------

  datatype Scan = Existing(index: nat) | Vacant(index: nat) | NoSlot

  /**
   * The registration loop from slot `j` on: it stops at the first slot that
   * holds the name or at the first empty slot, whichever comes first, and
   * finds nothing when every slot is taken by another name.
   */
  function RegisterScan(names: seq<Option<string>>, name: string, j: nat): (r: Scan)
    decreases |names| - j
    ensures r.Existing? ==> j <= r.index < |names| && Holds(names[r.index], name)
    ensures r.Vacant? ==> j <= r.index < |names| && names[r.index].None?
    ensures !r.NoSlot? ==> forall k :: j <= k < r.index ==> names[k].Some? && !Holds(names[k], name)
    ensures r.NoSlot? ==> forall k :: j <= k < |names| ==> names[k].Some? && !Holds(names[k], name)
  {
    if j >= |names| then NoSlot
    else if Holds(names[j], name) then Existing(j)
    else if names[j].None? then Vacant(j)
    else RegisterScan(names, name, j + 1)
  }

  /** Filling the slot the scan found makes the next scan for that name stop there. */
  lemma {:induction false} RegisterScanFindsFilledSlot(names: seq<Option<string>>, name: string, j: nat, from: nat)
    requires from <= j
    requires RegisterScan(names, name, from) == Vacant(j)
    decreases j - from
    ensures RegisterScan(names[j := Some(name)], name, from) == Existing(j)
  {
    if from < j {
      RegisterScanFindsFilledSlot(names, name, j, from + 1);
    }
  }

  /** Registering a name twice in a row: the second scan returns the slot the first one filled. */
  lemma RegisterTwiceSameSlot(names: seq<Option<string>>, name: string)
    requires RegisterScan(names, name, 0).Vacant?
    ensures var j := RegisterScan(names, name, 0).index;
            RegisterScan(names[j := Some(name)], name, 0) == Existing(j)
  {
    RegisterScanFindsFilledSlot(names, name, RegisterScan(names, name, 0).index, 0);
  }

  /**
   * The scan stops at the first hole: a name held only in a slot after an
   * empty one is not found, the hole is offered instead, and filling it
   * leaves the name in two slots.
   */
  lemma {:induction false} HoleHidesLaterName(names: seq<Option<string>>, name: string, hole: nat, later: nat, from: nat)
    requires from <= hole < later < |names|
    requires names[hole].None? && Holds(names[later], name)
    requires forall k :: from <= k < hole ==> names[k].Some? && !Holds(names[k], name)
    decreases hole - from
    ensures RegisterScan(names, name, from) == Vacant(hole)
    ensures Holds(names[hole := Some(name)][hole], name) && Holds(names[hole := Some(name)][later], name)
  {
    if from < hole {
      HoleHidesLaterName(names, name, hole, later, from + 1);
    }
  }

  // ---------------------------------------------------------------------
  // The unregistration scan and the lookups
  // ---------------------------------------------------------------------

  /** The first slot from `j` on that holds the name; unlike RegisterScan it walks past empty slots. */
  function FindName(names: seq<Option<string>>, name: string, j: nat): (r: Option<nat>)
    decreases |names| - j
    ensures r.Some? ==> j <= r.value < |names| && Holds(names[r.value], name)
    ensures r.Some? ==> forall k :: j <= k < r.value ==> !Holds(names[k], name)
    ensures r.None? ==> forall k :: j <= k < |names| ==> !Holds(names[k], name)
  {
    if j >= |names| then None
    else if Holds(names[j], name) then Some(j)
    else FindName(names, name, j + 1)
  }

  /** The first set slot from `j` on whose name contains `needle` (GetFontId by name). */
  function FindContaining(names: seq<Option<string>>, needle: string, j: nat): (r: Option<nat>)
    decreases |names| - j
    ensures r.Some? ==> j <= r.value < |names| && names[r.value].Some? && Contains(names[r.value].value, needle)
    ensures r.Some? ==> forall k :: j <= k < r.value ==> !(names[k].Some? && Contains(names[k].value, needle))
    ensures r.None? ==> forall k :: j <= k < |names| ==> !(names[k].Some? && Contains(names[k].value, needle))
  {
    if j >= |names| then None
    else if names[j].Some? && Contains(names[j].value, needle) then Some(j)
    else FindContaining(names, needle, j + 1)
  }

  /** The font id a tagged code point carries: bits 24 to 28, `(unicode >> 24) & 0x1F`. */
  function TagOf(unicode: uint32): (r: nat)
    ensures r < 32
  {
    (unicode / 0x100_0000) % 32
  }

  /** The first set slot from `j` on whose recorded ttfId is `id`. */
  function FindTtfId(t: seq<FontParam>, id: nat, j: nat): (r: Option<nat>)
    decreases |t| - j
    ensures r.Some? ==> j <= r.value < |t| && t[r.value].ttfName.Some? && t[r.value].ttfId == id
    ensures r.Some? ==> forall k :: j <= k < r.value ==> !(t[k].ttfName.Some? && t[k].ttfId == id)
    ensures r.None? ==> forall k :: j <= k < |t| ==> !(t[k].ttfName.Some? && t[k].ttfId == id)
  {
    if j >= |t| then None
    else if t[j].ttfName.Some? && t[j].ttfId == id then Some(j)
    else FindTtfId(t, id, j + 1)
  }

  /** In a table where every set slot records its own index as ttfId, the id lookup returns that slot exactly when it is set. */
  lemma {:induction false} FindTtfIdOfSelfNamedTable(t: seq<FontParam>, id: nat, j: nat)
    requires forall k :: 0 <= k < |t| && t[k].ttfName.Some? ==> t[k].ttfId == k
    requires j <= id
    decreases id - j
    ensures FindTtfId(t, id, j) == if id < |t| && t[id].ttfName.Some? then Some(id) else None
  {
    if j < |t| && j < id {
      FindTtfIdOfSelfNamedTable(t, id, j + 1);
    }
  }

  /** GetFontInfo: the slot of an id below FONT_ID_MAX, set or not, and nothing for any other id. */
  function FontInfo(t: seq<FontParam>, fontId: nat): (r: Option<FontParam>)
    requires |t| == FONT_ID_MAX
    ensures r.Some? <==> fontId < FONT_ID_MAX
    ensures r.Some? ==> r.value == t[fontId]
  {
    if fontId < FONT_ID_MAX then Some(t[fontId]) else None
  }

  /** GetFontWeight: the recorded weight, BPP_BIT_8 for an id out of range. */
  function FontWeight(t: seq<FontParam>, fontId: nat): (w: uint8)
    requires |t| == FONT_ID_MAX
    ensures fontId >= FONT_ID_MAX ==> w == BPP_BIT_8
    ensures fontId < FONT_ID_MAX ==> w == t[fontId].fontWeight
  {
    if fontId >= FONT_ID_MAX then BPP_BIT_8 else t[fontId].fontWeight
  }

  /** IsEmojiFont: an id in range whose recorded weight is a colour weight. */
  function IsEmoji(t: seq<FontParam>, fontId: nat): (b: bool)
    requires |t| == FONT_ID_MAX
    ensures b <==> fontId < FONT_ID_MAX && t[fontId].fontWeight >= COLOR_WEIGHT_MIN
    ensures b <==> FontWeight(t, fontId) >= COLOR_WEIGHT_MIN
  {
    if fontId >= FONT_ID_MAX then false else t[fontId].fontWeight >= COLOR_WEIGHT_MIN
  }

  /** GetFontId by name: the first set slot whose name contains `name`, FONT_ID_MAX when there is none or the name is null. */
  function FontIdByName(t: seq<FontParam>, name: Option<string>): (r: nat)
    requires |t| == FONT_ID_MAX
    ensures r <= FONT_ID_MAX
    ensures r < FONT_ID_MAX ==> name.Some? && t[r].ttfName.Some? && Contains(t[r].ttfName.value, name.value)
    ensures r < FONT_ID_MAX ==> forall k :: 0 <= k < r ==> !(t[k].ttfName.Some? && Contains(t[k].ttfName.value, name.value))
    ensures r == FONT_ID_MAX ==> name.None? || forall k :: 0 <= k < FONT_ID_MAX ==> !(t[k].ttfName.Some? && Contains(t[k].ttfName.value, name.value))
  {
    if name.None? then FONT_ID_MAX
    else match FindContaining(FontNames(t), name.value, 0)
      case None => FONT_ID_MAX
      case Some(i) => i
  }

  /** GetFontId by code point: the first set slot recording the code point's tag as ttfId, else FONT_INVALID_TTF_ID. */
  function FontIdByCode(t: seq<FontParam>, unicode: uint32): (r: uint8)
    requires |t| == FONT_ID_MAX
    ensures r != FONT_INVALID_TTF_ID <==> FindTtfId(t, TagOf(unicode), 0).Some?
    ensures r != FONT_INVALID_TTF_ID ==> r == FindTtfId(t, TagOf(unicode), 0).value
  {
    match FindTtfId(t, TagOf(unicode), 0)
    case None => FONT_INVALID_TTF_ID
    case Some(i) => i
  }

  /** IsGlyphFont: the shaping value of the slot the code point's tag selects, 0 when no slot is selected. */
  function GlyphShaping(t: seq<FontParam>, unicode: uint32): (r: uint8)
    requires |t| == FONT_ID_MAX
    ensures FontIdByCode(t, unicode) == FONT_INVALID_TTF_ID ==> r == 0
    ensures FontIdByCode(t, unicode) != FONT_INVALID_TTF_ID ==> r == t[FontIdByCode(t, unicode)].shaping
  {
    var i := FontIdByCode(t, unicode);
    if i == FONT_INVALID_TTF_ID then 0 else t[i].shaping
  }

  /** In a table whose set slots record their own index, the tag names the slot directly. */
  lemma FontIdByCodeIsTag(t: seq<FontParam>, unicode: uint32)
    requires |t| == FONT_ID_MAX
    requires forall k :: 0 <= k < |t| && t[k].ttfName.Some? ==> t[k].ttfId == k
    ensures FontIdByCode(t, unicode) == if t[TagOf(unicode)].ttfName.Some? then TagOf(unicode) else FONT_INVALID_TTF_ID
  {
    FindTtfIdOfSelfNamedTable(t, TagOf(unicode), 0);
  }

  // ---------------------------------------------------------------------
  // The records registration writes
  // ---------------------------------------------------------------------

  /** The weight recorded for a face: 32 with a CBDT table, else 8. */
  function WeightFor(hasColorTable: bool): (w: uint8)
    ensures w >= COLOR_WEIGHT_MIN <==> hasColorTable
  {
    if hasColorTable then BPP_BIT_32 else BPP_BIT_8
  }

  /** What RegisterFontInfo writes into slot `j` (the other fields keep their old values). */
  function RegisteredEntry(prev: FontParam, name: string, shaping: uint8, j: uint8, hasColorTable: bool): FontParam {
    prev.(ttfName := Some(name), shaping := shaping, ttfId := j, ttcIndex := FONT_TTC_MAX,
         fontWeight := WeightFor(hasColorTable))
  }

  /** What RegisterTtcFontInfo writes into `slot` for sub-font `j` of collection `ttc`. */
  function SubFontEntry(prev: FontParam, info: TtfInfo, slot: uint8, j: uint8, ttc: uint8, hasColorTable: bool): FontParam {
    prev.(ttfName := info.ttfName, shaping := info.shaping, ttfId := slot, ttfIndex := j, ttcIndex := ttc,
         fontWeight := WeightFor(hasColorTable))
  }

  /** How many of the sub-font opens succeeded. */
  function Opened(faces: seq<Option<Face>>): (n: nat)
    ensures n <= |faces|
  {
    if faces == [] then 0 else (if faces[0].Some? then 1 else 0) + Opened(faces[1..])
  }

  /** One step of Opened over a suffix. */
  lemma OpenedFrom(faces: seq<Option<Face>>, j: nat)
    requires j < |faces|
    ensures Opened(faces[j..]) == (if faces[j].Some? then 1 else 0) + Opened(faces[j + 1..])
  {
    assert faces[j..][1..] == faces[j + 1..];
  }

  /** The slots from `at` on take every sub-font from `j` on that opens. */
  predicate PlaceFits(t: seq<FontParam>, at: nat, ttc: nat, infos: seq<TtfInfo>, faces: seq<Option<Face>>, j: nat) {
    j <= |faces| <= |infos| && |faces| <= 0x100 && at + Opened(faces[j..]) <= |t| && |t| <= FONT_ID_MAX && ttc < 0x100
  }

  /**
   * The sub-font loop of RegisterTtcFontInfo, from sub-font `j` on: a
   * sub-font whose face opened is written to slot `at` and `at` advances; one
   * that failed is skipped and `at` stays.
   */
  function PlaceSubFonts(t: seq<FontParam>, at: nat, ttc: nat, infos: seq<TtfInfo>, faces: seq<Option<Face>>, j: nat): (r: seq<FontParam>)
    requires PlaceFits(t, at, ttc, infos, faces, j)
    decreases |faces| - j
    ensures |r| == |t|
  {
    if j == |faces| then t
    else
      OpenedFrom(faces, j);
      if faces[j].None? then PlaceSubFonts(t, at, ttc, infos, faces, j + 1)
      else PlaceSubFonts(t[at := SubFontEntry(t[at], infos[j], at, j, ttc, faces[j].value.hasColorTable)],
                         at + 1, ttc, infos, faces, j + 1)
  }

  /** The face slots the same loop writes. */
  function PlaceFaces(f: seq<Option<Face>>, at: nat, faces: seq<Option<Face>>, j: nat): (r: seq<Option<Face>>)
    requires j <= |faces| && at + Opened(faces[j..]) <= |f|
    decreases |faces| - j
    ensures |r| == |f|
  {
    if j == |faces| then f
    else
      OpenedFrom(faces, j);
      if faces[j].None? then PlaceFaces(f, at, faces, j + 1)
      else PlaceFaces(f[at := faces[j]], at + 1, faces, j + 1)
  }

  lemma OpenedSplit(faces: seq<Option<Face>>, j: nat, m: nat)
    requires j < m <= |faces|
    ensures Opened(faces[j..m]) == (if faces[j].Some? then 1 else 0) + Opened(faces[j + 1..m])
  {
    assert faces[j..m][1..] == faces[j + 1..m];
  }

  /**
   * Sub-font `m` that opened lands in slot `at` plus the number of earlier
   * sub-fonts that opened, with ttfId = that slot, ttfIndex = m and
   * ttcIndex = the collection; slots outside the filled run are unchanged.
   */
  lemma SubFontsConsecutive(t: seq<FontParam>, at: nat, ttc: nat, infos: seq<TtfInfo>, faces: seq<Option<Face>>, j: nat)
    requires PlaceFits(t, at, ttc, infos, faces, j)
    ensures var r := PlaceSubFonts(t, at, ttc, infos, faces, j);
            && (forall k :: 0 <= k < |t| && !(at <= k < at + Opened(faces[j..])) ==> r[k] == t[k])
            && (forall m :: j <= m < |faces| && faces[m].Some? ==>
                  var slot := at + Opened(faces[j..m]);
                  slot < |t| && r[slot] == SubFontEntry(t[slot], infos[m], slot, m, ttc, faces[m].value.hasColorTable))
  {
    SubFontsKeepOthers(t, at, ttc, infos, faces, j);
    SubFontsPlaced(t, at, ttc, infos, faces, j);
  }

  /** Opened over a run that starts at `j`, split after its first sub-font. */
  lemma OpenedFirst(faces: seq<Option<Face>>, j: nat)
    requires j < |faces|
    ensures Opened(faces[j..]) == (if faces[j].Some? then 1 else 0) + Opened(faces[j + 1..])
    ensures Opened(faces[j..j]) == 0
    ensures forall m :: j < m <= |faces| ==> Opened(faces[j..m]) == (if faces[j].Some? then 1 else 0) + Opened(faces[j + 1..m])
  {
    assert faces[j..][1..] == faces[j + 1..];
    forall m | j < m <= |faces| ensures Opened(faces[j..m]) == (if faces[j].Some? then 1 else 0) + Opened(faces[j + 1..m]) {
      OpenedSplit(faces, j, m);
    }
  }

  /** The sub-font loop leaves every slot outside the run it fills as it was. */
  lemma {:induction false} SubFontsKeepOthers(t: seq<FontParam>, at: nat, ttc: nat, infos: seq<TtfInfo>, faces: seq<Option<Face>>, j: nat)
    requires PlaceFits(t, at, ttc, infos, faces, j)
    decreases |faces| - j
    ensures var r := PlaceSubFonts(t, at, ttc, infos, faces, j);
            forall k :: 0 <= k < |t| && !(at <= k < at + Opened(faces[j..])) ==> r[k] == t[k]
  {
    if j < |faces| {
      OpenedFirst(faces, j);
      if faces[j].None? {
        SubFontsKeepOthers(t, at, ttc, infos, faces, j + 1);
      } else {
        var t1 := t[at := SubFontEntry(t[at], infos[j], at, j, ttc, faces[j].value.hasColorTable)];
        SubFontsKeepOthers(t1, at + 1, ttc, infos, faces, j + 1);
      }
    }
  }

  /** Sub-font `m` of the run that starts at sub-font `j` and slot `at` has its record in `r`. */
  predicate PlacedAt(r: seq<FontParam>, t: seq<FontParam>, at: nat, ttc: nat, infos: seq<TtfInfo>, faces: seq<Option<Face>>, j: nat, m: nat)
    requires j <= m < |faces| <= |infos| && |faces| <= 0x100 && |t| <= FONT_ID_MAX && ttc < 0x100 && faces[m].Some?
  {
    var slot := at + Opened(faces[j..m]);
    slot < |t| && slot < |r| && r[slot] == SubFontEntry(t[slot], infos[m], slot, m, ttc, faces[m].value.hasColorTable)
  }

  /** The sub-font loop writes the record of each sub-font that opened to its place in the run. */
  lemma {:induction false} SubFontsPlaced(t: seq<FontParam>, at: nat, ttc: nat, infos: seq<TtfInfo>, faces: seq<Option<Face>>, j: nat)
    requires PlaceFits(t, at, ttc, infos, faces, j)
    decreases |faces| - j
    ensures forall m :: j <= m < |faces| && faces[m].Some? ==> PlacedAt(PlaceSubFonts(t, at, ttc, infos, faces, j), t, at, ttc, infos, faces, j, m)
  {
    if j < |faces| {
      var r := PlaceSubFonts(t, at, ttc, infos, faces, j);
      OpenedFrom(faces, j);
      if faces[j].None? {
        assert r == PlaceSubFonts(t, at, ttc, infos, faces, j + 1);
        SubFontsPlaced(t, at, ttc, infos, faces, j + 1);
        forall m | j <= m < |faces| && faces[m].Some? ensures PlacedAt(r, t, at, ttc, infos, faces, j, m) {
          OpenedSplit(faces, j, m);
          assert PlacedAt(r, t, at, ttc, infos, faces, j + 1, m);
        }
      } else {
        var t1 := t[at := SubFontEntry(t[at], infos[j], at, j, ttc, faces[j].value.hasColorTable)];
        assert r == PlaceSubFonts(t1, at + 1, ttc, infos, faces, j + 1);
        SubFontsPlaced(t1, at + 1, ttc, infos, faces, j + 1);
        forall m | j <= m < |faces| && faces[m].Some? ensures PlacedAt(r, t, at, ttc, infos, faces, j, m) {
          if m == j {
            assert Opened(faces[j..j]) == 0 by { assert faces[j..j] == []; }
            SubFontsKeepOthers(t1, at + 1, ttc, infos, faces, j + 1);
          } else {
            OpenedSplit(faces, j, m);
            assert PlacedAt(r, t1, at + 1, ttc, infos, faces, j + 1, m);
          }
        }
      }
    }
  }

  // ---------------------------------------------------------------------
  // The tables as a whole
  // ---------------------------------------------------------------------

  /** fontInfo_, ftFaces_, ttcInfos_ and currentFontInfoNum_. */
  datatype Tables = Tables(fonts: seq<FontParam>, faces: seq<Option<Face>>, ttcs: seq<TtcInfo>, num: uint8)

  /** Every set font slot records its own index as ttfId and has an open face. */
  predicate SlotsAgree(fonts: seq<FontParam>, faces: seq<Option<Face>>)
    requires |fonts| == |faces|
  {
    forall k :: 0 <= k < |fonts| && fonts[k].ttfName.Some? ==> fonts[k].ttfId == k && faces[k].Some?
  }

  /**
   * What every operation keeps: the capacities, currentFontInfoNum_ within
   * the table, set slots agreeing with their index and face, and the set
   * collection slots forming a prefix (collections are placed in the first
   * empty slot and their names are never cleared).
   */
  predicate WellFormed(tb: Tables) {
    && |tb.fonts| == FONT_ID_MAX && |tb.faces| == FONT_ID_MAX && |tb.ttcs| == FONT_TTC_MAX
    && tb.num <= FONT_ID_MAX
    && SlotsAgree(tb.fonts, tb.faces)
    && forall a, b :: 0 <= a < b < FONT_TTC_MAX && tb.ttcs[b].ttcName.Some? ==> tb.ttcs[a].ttcName.Some?
  }

  /** The zero-initialised tables the manager starts from. */
  function InitialTables(): (tb: Tables)
    ensures WellFormed(tb)
    ensures forall k :: 0 <= k < FONT_ID_MAX ==> tb.fonts[k].ttfName.None? && tb.faces[k].None?
  {
    Tables(seq(FONT_ID_MAX, _ => EMPTY_PARAM), seq(FONT_ID_MAX, _ => None), seq(FONT_TTC_MAX, _ => EMPTY_TTC), 0)
  }

  // ---------------------------------------------------------------------
  // RegisterFontInfo
  // ---------------------------------------------------------------------

  /**
   * RegisterFontInfo(name, shaping): a null name or an uninitialised engine
   * fails; otherwise the registration scan decides. A slot holding the name
   * is returned as it is; the first empty slot gets a face opened from
   * `dir + name`, and on success the record RegisteredEntry and
   * currentFontInfoNum_ = slot + 1; a full table or a face that does not
   * open fails, leaving the tables as they were.
   */
  function RegisterFont(engine: Engine, dir: string, inited: bool, tb: Tables, name: Option<string>, shaping: uint8): (r: (Tables, uint8))
    requires WellFormed(tb)
    ensures WellFormed(r.0) && r.0.ttcs == tb.ttcs
    ensures r.1 == FONT_INVALID_TTF_ID ==> r.0 == tb
    ensures r.1 != FONT_INVALID_TTF_ID ==>
              && name.Some? && inited && r.1 < FONT_ID_MAX
              && Holds(r.0.fonts[r.1].ttfName, name.value)
              && forall k :: 0 <= k < r.1 ==> tb.fonts[k].ttfName.Some? && !Holds(tb.fonts[k].ttfName, name.value)
    ensures r.1 != FONT_INVALID_TTF_ID && tb.fonts[r.1].ttfName.Some? ==> r.0 == tb
    ensures r.1 != FONT_INVALID_TTF_ID && tb.fonts[r.1].ttfName.None? ==>
              && engine.newFace(dir + name.value).Some?
              && var face := engine.newFace(dir + name.value).value;
                 r.0 == Tables(tb.fonts[r.1 := RegisteredEntry(tb.fonts[r.1], name.value, shaping, r.1, face.hasColorTable)],
                               tb.faces[r.1 := Some(face)], tb.ttcs, r.1 + 1)
    ensures name.Some? && inited && (forall k :: 0 <= k < FONT_ID_MAX ==> tb.fonts[k].ttfName.Some?)
              && (forall k :: 0 <= k < FONT_ID_MAX ==> !Holds(tb.fonts[k].ttfName, name.value)) ==>
              r.1 == FONT_INVALID_TTF_ID
  {
    if name.None? || !inited then (tb, FONT_INVALID_TTF_ID)
    else match RegisterScan(FontNames(tb.fonts), name.value, 0)
      case Existing(j) => (tb, j)
      case NoSlot => (tb, FONT_INVALID_TTF_ID)
      case Vacant(j) =>
        match engine.newFace(dir + name.value)
        case None => (tb, FONT_INVALID_TTF_ID)
        case Some(face) =>
          (Tables(tb.fonts[j := RegisteredEntry(tb.fonts[j], name.value, shaping, j, face.hasColorTable)],
                  tb.faces[j := Some(face)], tb.ttcs, j + 1), j)
  }

  /**
   * Registering the same name twice in a row: when the first call succeeds
   * the second returns the same id and changes nothing.
   */
  lemma RegisterTwiceIdempotent(engine: Engine, dir: string, inited: bool, tb: Tables, name: string, s1: uint8, s2: uint8)
    requires WellFormed(tb)
    ensures var r1 := RegisterFont(engine, dir, inited, tb, Some(name), s1);
            r1.1 != FONT_INVALID_TTF_ID ==> RegisterFont(engine, dir, inited, r1.0, Some(name), s2) == r1
  {
    var r1 := RegisterFont(engine, dir, inited, tb, Some(name), s1);
    if r1.1 != FONT_INVALID_TTF_ID && tb.fonts[r1.1].ttfName.None? {
      var j := r1.1 as nat;
      assert RegisterScan(FontNames(tb.fonts), name, 0) == Vacant(j);
      RegisterScanFindsFilledSlot(FontNames(tb.fonts), name, j, 0);
      assert FontNames(r1.0.fonts) == FontNames(tb.fonts)[j := Some(name)];
    }
  }

  /**
   * What the lookups see after a font is registered into an empty slot:
   * GetFontInfo gives a record holding the name, the shaping flag and the
   * slot's own id; GetFontWeight gives the colour weight exactly when the
   * face has a colour table; and a code point whose tag is that id selects
   * the font and its shaping flag in IsGlyphFont.
   */
  lemma LookupsSeeRegisteredFont(engine: Engine, dir: string, tb: Tables, name: string, shaping: uint8, unicode: uint32)
    requires WellFormed(tb)
    ensures var r := RegisterFont(engine, dir, true, tb, Some(name), shaping);
            r.1 != FONT_INVALID_TTF_ID && tb.fonts[r.1].ttfName.None? ==>
              && FontInfo(r.0.fonts, r.1).Some?
              && Holds(FontInfo(r.0.fonts, r.1).value.ttfName, name)
              && FontInfo(r.0.fonts, r.1).value.shaping == shaping
              && FontInfo(r.0.fonts, r.1).value.ttfId == r.1
              && (FontWeight(r.0.fonts, r.1) >= COLOR_WEIGHT_MIN <==> engine.newFace(dir + name).value.hasColorTable)
              && (TagOf(unicode) == r.1 as nat ==>
                    FontIdByCode(r.0.fonts, unicode) == r.1 && GlyphShaping(r.0.fonts, unicode) == shaping)
  {
    var r := RegisterFont(engine, dir, true, tb, Some(name), shaping);
    if r.1 != FONT_INVALID_TTF_ID && tb.fonts[r.1].ttfName.None? && TagOf(unicode) == r.1 as nat {
      FontIdByCodeIsTag(r.0.fonts, unicode);
    }
  }

  /** How many registrations answered with a valid id. */
  function CountValid(ids: seq<uint8>): (n: nat)
    ensures n <= |ids|
  {
    if ids == [] then 0 else (if ids[0] != FONT_INVALID_TTF_ID then 1 else 0) + CountValid(ids[1..])
  }

  /**
   * The batch RegisterFontInfo from entry `i` on: every entry is registered
   * in turn, failures included, and the ids the calls return are collected.
   */
  function RegisterBatch(engine: Engine, dir: string, inited: bool, tb: Tables, table: seq<FontParam>, i: nat): (r: (Tables, seq<uint8>))
    requires WellFormed(tb) && i <= |table|
    decreases |table| - i
    ensures WellFormed(r.0) && r.0.ttcs == tb.ttcs
    ensures |r.1| == |table| - i
  {
    if i == |table| then (tb, [])
    else
      var one := RegisterFont(engine, dir, inited, tb, table[i].ttfName, table[i].shaping);
      var rest := RegisterBatch(engine, dir, inited, one.0, table, i + 1);
      (rest.0, [one.1] + rest.1)
  }

  /** One entry of the batch: its own registration, then the rest from the new tables. */
  lemma RegisterBatchStep(engine: Engine, dir: string, inited: bool, tb: Tables, table: seq<FontParam>, i: nat)
    requires WellFormed(tb) && i < |table|
    ensures var one := RegisterFont(engine, dir, inited, tb, table[i].ttfName, table[i].shaping);
            var rest := RegisterBatch(engine, dir, inited, one.0, table, i + 1);
            var r := RegisterBatch(engine, dir, inited, tb, table, i);
            && r.0 == rest.0
            && CountValid(r.1) == (if one.1 != FONT_INVALID_TTF_ID then 1 else 0) + CountValid(rest.1)
  {
    var r := RegisterBatch(engine, dir, inited, tb, table, i);
    var one := RegisterFont(engine, dir, inited, tb, table[i].ttfName, table[i].shaping);
    assert r.1[0] == one.1;
    assert r.1[1..] == RegisterBatch(engine, dir, inited, one.0, table, i + 1).1;
  }

  // ---------------------------------------------------------------------
  // UnregisterFontInfo
  // ---------------------------------------------------------------------

  /**
   * UnregisterFontInfo(name): the first slot holding the name loses its
   * name and its face and its index is returned; nothing else changes. A
   * null name or a name no slot holds gives FONT_INVALID_TTF_ID.
   */
  function UnregisterFont(tb: Tables, name: Option<string>): (r: (Tables, uint8))
    requires WellFormed(tb)
    ensures WellFormed(r.0) && r.0.ttcs == tb.ttcs && r.0.num == tb.num
    ensures r.1 == FONT_INVALID_TTF_ID <==>
              name.None? || forall k :: 0 <= k < FONT_ID_MAX ==> !Holds(tb.fonts[k].ttfName, name.value)
    ensures r.1 == FONT_INVALID_TTF_ID ==> r.0 == tb
    ensures r.1 != FONT_INVALID_TTF_ID ==>
              && r.1 < FONT_ID_MAX && name.Some? && Holds(tb.fonts[r.1].ttfName, name.value)
              && (forall k :: 0 <= k < r.1 ==> !Holds(tb.fonts[k].ttfName, name.value))
              && r.0 == tb.(fonts := tb.fonts[r.1 := tb.fonts[r.1].(ttfName := None)], faces := tb.faces[r.1 := None])
  {
    if name.None? then (tb, FONT_INVALID_TTF_ID)
    else match FindName(FontNames(tb.fonts), name.value, 0)
      case None => (tb, FONT_INVALID_TTF_ID)
      case Some(i) => (tb.(fonts := tb.fonts[i := tb.fonts[i].(ttfName := None)], faces := tb.faces[i := None]), i)
  }

  /**
   * Registering a new name and unregistering it again gives back the slot
   * it took, and leaves the names as they were, so the next registration of
   * that name is offered the same slot.
   */
  lemma UnregisterFreesSlotForReuse(engine: Engine, dir: string, inited: bool, tb: Tables, name: string, shaping: uint8)
    requires WellFormed(tb)
    ensures var r1 := RegisterFont(engine, dir, inited, tb, Some(name), shaping);
            r1.1 != FONT_INVALID_TTF_ID && tb.fonts[r1.1].ttfName.None? ==>
              var u := UnregisterFont(r1.0, Some(name));
              && u.1 == r1.1
              && FontNames(u.0.fonts) == FontNames(tb.fonts)
              && RegisterScan(FontNames(u.0.fonts), name, 0) == Vacant(r1.1 as nat)
  {
    var r1 := RegisterFont(engine, dir, inited, tb, Some(name), shaping);
    if r1.1 != FONT_INVALID_TTF_ID && tb.fonts[r1.1].ttfName.None? {
      var u := UnregisterFont(r1.0, Some(name));
      assert u.1 == r1.1;
      assert FontNames(u.0.fonts) == FontNames(tb.fonts);
    }
  }

  /**
   * The batch UnregisterFontInfo from entry `i` on, having unregistered
   * `count` names so far: it stops with FONT_INVALID_TTF_ID at the first
   * name it cannot find (the names before it stay unregistered), and
   * otherwise returns how many it unregistered.
   */
  function UnregisterBatch(tb: Tables, table: seq<FontParam>, i: nat, count: nat): (r: (Tables, int))
    requires WellFormed(tb) && i <= |table| && count <= i
    decreases |table| - i
    ensures WellFormed(r.0) && r.0.ttcs == tb.ttcs && r.0.num == tb.num
    ensures r.1 == FONT_INVALID_TTF_ID || r.1 == count + |table| - i
  {
    if i == |table| then (tb, count)
    else
      var u := UnregisterFont(tb, table[i].ttfName);
      if u.1 == FONT_INVALID_TTF_ID then (tb, FONT_INVALID_TTF_ID)
      else UnregisterBatch(u.0, table, i + 1, count + 1)
  }

  /**
   * An entry whose name is null or held by no slot when the batch reaches it
   * stops the batch: the call fails and returns the tables as that entry
   * found them.
   */
  lemma {:induction false} UnregisterBatchFailsAtMissingName(tb: Tables, table: seq<FontParam>, i: nat, count: nat)
    requires WellFormed(tb) && i < |table| && count <= i
    requires table[i].ttfName.None? || forall k :: 0 <= k < FONT_ID_MAX ==> !Holds(tb.fonts[k].ttfName, table[i].ttfName.value)
    ensures UnregisterBatch(tb, table, i, count) == (tb, FONT_INVALID_TTF_ID)
  {
  }

  /**
   * Unregistering a batch whose entries are each found (first) at a slot of
   * their own clears each of those slots and returns their number.
   */
  lemma {:induction false} UnregisterBatchOfHeldNames(tb: Tables, table: seq<FontParam>, i: nat, count: nat, slots: seq<nat>)
    requires WellFormed(tb) && i <= |table| && count <= i && |slots| == |table|
    requires forall m :: i <= m < |table| ==>
               table[m].ttfName.Some? && FindName(FontNames(tb.fonts), table[m].ttfName.value, 0) == Some(slots[m])
    requires forall m, m' :: i <= m < m' < |table| ==> slots[m] != slots[m']
    ensures var r := UnregisterBatch(tb, table, i, count);
            && r.1 == count + |table| - i
            && forall m :: i <= m < |table| ==>
                 slots[m] < FONT_ID_MAX && r.0.fonts[slots[m]].ttfName.None? && r.0.faces[slots[m]].None?
  {
    HeldFromAll(FontNames(tb.fonts), table, slots, i);
    UnregisterHeldCount(tb, table, i, count, slots);
    forall m | i <= m < |table|
      ensures Cleared(UnregisterBatch(tb, table, i, count).0, slots[m])
    {
      UnregisterHeldClears(tb, table, i, count, slots, m);
    }
  }

  /** Slot `slot` holds neither a name nor a face. */
  predicate Cleared(tb: Tables, slot: nat) {
    slot < |tb.fonts| && slot < |tb.faces| && tb.fonts[slot].ttfName.None? && tb.faces[slot].None?
  }

  /** Entries `i..` of the batch are each found first at their own slot of `names`. */
  predicate HeldFrom(names: seq<Option<string>>, table: seq<FontParam>, slots: seq<nat>, i: nat)
    requires |slots| == |table|
    decreases |table| - i
  {
    i >= |table| ||
    (table[i].ttfName.Some? && FindName(names, table[i].ttfName.value, 0) == Some(slots[i]) && HeldFrom(names, table, slots, i + 1))
  }

  lemma {:induction false} HeldFromAll(names: seq<Option<string>>, table: seq<FontParam>, slots: seq<nat>, i: nat)
    requires |slots| == |table|
    requires forall m :: i <= m < |table| ==>
               table[m].ttfName.Some? && FindName(names, table[m].ttfName.value, 0) == Some(slots[m])
    decreases |table| - i
    ensures HeldFrom(names, table, slots, i)
  {
    if i < |table| {
      HeldFromAll(names, table, slots, i + 1);
    }
  }

  /** Such a batch unregisters every entry. */
  lemma {:induction false} UnregisterHeldCount(tb: Tables, table: seq<FontParam>, i: nat, count: nat, slots: seq<nat>)
    requires WellFormed(tb) && i <= |table| && count <= i && |slots| == |table|
    requires HeldFrom(FontNames(tb.fonts), table, slots, i)
    requires forall m, m' :: i <= m < m' < |table| ==> slots[m] != slots[m']
    decreases |table| - i
    ensures UnregisterBatch(tb, table, i, count).1 == count + |table| - i
  {
    if i < |table| {
      var u := UnregisterFont(tb, table[i].ttfName);
      assert u.1 as nat == slots[i] && HeldFrom(FontNames(u.0.fonts), table, slots, i + 1) by {
        UnregisterHeldStep(tb, table, i, slots);
      }
      assert UnregisterBatch(tb, table, i, count) == UnregisterBatch(u.0, table, i + 1, count + 1);
      UnregisterHeldCount(u.0, table, i + 1, count + 1, slots);
    }
  }

  /** Such a batch clears the slot of entry `m`. */
  lemma {:induction false} UnregisterHeldClears(tb: Tables, table: seq<FontParam>, i: nat, count: nat, slots: seq<nat>, m: nat)
    requires WellFormed(tb) && i <= m < |table| && count <= i && |slots| == |table|
    requires HeldFrom(FontNames(tb.fonts), table, slots, i)
    requires forall m, m' :: i <= m < m' < |table| ==> slots[m] != slots[m']
    decreases |table| - i
    ensures Cleared(UnregisterBatch(tb, table, i, count).0, slots[m])
  {
    var u := UnregisterFont(tb, table[i].ttfName);
    assert u.1 as nat == slots[i] && Cleared(u.0, slots[i]) && HeldFrom(FontNames(u.0.fonts), table, slots, i + 1) by {
      UnregisterHeldStep(tb, table, i, slots);
    }
    assert UnregisterBatch(tb, table, i, count) == UnregisterBatch(u.0, table, i + 1, count + 1);
    if m == i {
      UnregisterKeepsCleared(u.0, table, i + 1, count + 1, slots[i]);
    } else {
      UnregisterHeldClears(u.0, table, i + 1, count + 1, slots, m);
    }
  }

  /** One step of such a batch: entry `i` clears its own slot and every later entry is still found at its slot. */
  lemma UnregisterHeldStep(tb: Tables, table: seq<FontParam>, i: nat, slots: seq<nat>)
    requires WellFormed(tb) && i < |table| && |slots| == |table|
    requires HeldFrom(FontNames(tb.fonts), table, slots, i)
    requires forall m, m' :: i <= m < m' < |table| ==> slots[m] != slots[m']
    ensures var u := UnregisterFont(tb, table[i].ttfName);
            && u.1 as nat == slots[i] && Cleared(u.0, slots[i])
            && HeldFrom(FontNames(u.0.fonts), table, slots, i + 1)
  {
    var u := UnregisterFont(tb, table[i].ttfName);
    var names := FontNames(tb.fonts);
    assert FontNames(u.0.fonts) == names[slots[i] := None];
    HeldAfterClear(names, table, slots, slots[i], i + 1);
  }

  /** Clearing a slot that no entry from `i` on is found at keeps every one of them where it was. */
  lemma {:induction false} HeldAfterClear(names: seq<Option<string>>, table: seq<FontParam>, slots: seq<nat>, c: nat, i: nat)
    requires |slots| == |table| && c < |names| && HeldFrom(names, table, slots, i)
    requires forall m :: i <= m < |table| ==> slots[m] != c
    decreases |table| - i
    ensures HeldFrom(names[c := None], table, slots, i)
  {
    if i < |table| {
      FindNameAfterClear(names, table[i].ttfName.value, c, 0, slots[i]);
      HeldAfterClear(names, table, slots, c, i + 1);
    }
  }

  /** Clearing a slot other than the one a name is first found at does not move it. */
  lemma {:induction false} FindNameAfterClear(names: seq<Option<string>>, name: string, c: nat, j: nat, t: nat)
    requires c < |names| && c != t && FindName(names, name, j) == Some(t)
    decreases |names| - j
    ensures FindName(names[c := None], name, j) == Some(t)
  {
    if j != t {
      FindNameAfterClear(names, name, c, j + 1, t);
    }
  }

  /** A slot that is already empty stays empty through a batch unregistration. */
  lemma {:induction false} UnregisterKeepsCleared(tb: Tables, table: seq<FontParam>, i: nat, count: nat, slot: nat)
    requires WellFormed(tb) && i <= |table| && count <= i && Cleared(tb, slot)
    decreases |table| - i
    ensures Cleared(UnregisterBatch(tb, table, i, count).0, slot)
  {
    if i < |table| {
      var u := UnregisterFont(tb, table[i].ttfName);
      if u.1 != FONT_INVALID_TTF_ID {
        UnregisterKeepsCleared(u.0, table, i + 1, count + 1, slot);
      }
    }
  }

  // ---------------------------------------------------------------------
  // RegisterTtcFontInfo and UnregisterTtcFontInfo
  // ---------------------------------------------------------------------

  /** The first empty slot from `k` on, or the table's length when there is none. */
  function FirstEmpty(names: seq<Option<string>>, k: nat): (r: nat)
    requires k <= |names|
    decreases |names| - k
    ensures k <= r <= |names|
    ensures forall m :: k <= m < r ==> names[m].Some?
    ensures r < |names| ==> names[r].None?
  {
    if k == |names| || names[k].None? then k else FirstEmpty(names, k + 1)
  }

  /** The faces FT_Open_Face gives for sub-fonts 0 .. count-1 of a collection stream. */
  function SubFaces(engine: Engine, bytes: seq<byte>, count: nat): (r: seq<Option<Face>>)
    ensures |r| == count
    ensures forall j :: 0 <= j < count ==> r[j] == engine.openFace(bytes, j)
  {
    seq(count, j requires 0 <= j < count => engine.openFace(bytes, j))
  }

  /**
   * The precondition the collection registration leaves to its caller: the
   * sub-fonts that open fit from the first empty font slot on. The loop
   * neither re-checks occupancy nor bounds the slot index by FONT_ID_MAX.
   */
  predicate CollectionFits(engine: Engine, dir: string, inited: bool, tb: Tables, name: Option<string>, count: uint8)
    requires WellFormed(tb)
  {
    name.Some? && inited && RegisterScan(TtcNames(tb.ttcs), name.value, 0).Vacant?
      && engine.streamNew(dir + name.value).Some? ==>
      FirstEmpty(FontNames(tb.fonts), 0) + Opened(SubFaces(engine, engine.streamNew(dir + name.value).value, count)) <= FONT_ID_MAX
  }

  /** Placing sub-fonts keeps every set slot agreeing with its index and face. */
  lemma {:induction false} PlaceKeepsSlotsAgree(t: seq<FontParam>, f: seq<Option<Face>>, at: nat, ttc: nat,
                                                infos: seq<TtfInfo>, faces: seq<Option<Face>>, j: nat)
    requires PlaceFits(t, at, ttc, infos, faces, j) && |f| == |t| && SlotsAgree(t, f)
    decreases |faces| - j
    ensures SlotsAgree(PlaceSubFonts(t, at, ttc, infos, faces, j), PlaceFaces(f, at, faces, j))
  {
    if j < |faces| {
      OpenedFrom(faces, j);
      if faces[j].None? {
        PlaceKeepsSlotsAgree(t, f, at, ttc, infos, faces, j + 1);
      } else {
        var t1 := t[at := SubFontEntry(t[at], infos[j], at, j, ttc, faces[j].value.hasColorTable)];
        var f1 := f[at := faces[j]];
        assert SlotsAgree(t1, f1);
        PlaceKeepsSlotsAgree(t1, f1, at + 1, ttc, infos, faces, j + 1);
      }
    }
  }

  /**
   * RegisterTtcFontInfo(name, infos, count): a null name or an
   * uninitialised engine fails. A collection slot holding the name is
   * returned as it is. Otherwise the first empty collection slot gets the
   * stream opened from `dir + name` (failing if it does not open), and the
   * sub-fonts that open are placed from the first empty font slot on;
   * currentFontInfoNum_ is left alone.
   */
  function RegisterCollection(engine: Engine, dir: string, inited: bool, tb: Tables, name: Option<string>,
                              infos: seq<TtfInfo>, count: uint8): (r: (Tables, uint8))
    requires WellFormed(tb) && count <= |infos| && CollectionFits(engine, dir, inited, tb, name, count)
    ensures WellFormed(r.0) && r.0.num == tb.num
    ensures r.1 == FONT_INVALID_TTF_ID ==> r.0 == tb
    ensures r.1 != FONT_INVALID_TTF_ID ==>
              && name.Some? && inited && r.1 < FONT_TTC_MAX && Holds(r.0.ttcs[r.1].ttcName, name.value)
              && forall k :: 0 <= k < r.1 ==> tb.ttcs[k].ttcName.Some? && !Holds(tb.ttcs[k].ttcName, name.value)
    ensures r.1 != FONT_INVALID_TTF_ID && tb.ttcs[r.1].ttcName.Some? ==> r.0 == tb
    ensures r.1 != FONT_INVALID_TTF_ID && tb.ttcs[r.1].ttcName.None? ==>
              && engine.streamNew(dir + name.value).Some?
              && var bytes := engine.streamNew(dir + name.value).value;
                 var faces := SubFaces(engine, bytes, count);
                 var at := FirstEmpty(FontNames(tb.fonts), 0);
                 && PlaceFits(tb.fonts, at, r.1, infos, faces, 0)
                 && r.0 == Tables(PlaceSubFonts(tb.fonts, at, r.1, infos, faces, 0), PlaceFaces(tb.faces, at, faces, 0),
                                  tb.ttcs[r.1 := TtcInfo(name, Open(bytes))], tb.num)
  {
    if name.None? || !inited then (tb, FONT_INVALID_TTF_ID)
    else match RegisterScan(TtcNames(tb.ttcs), name.value, 0)
      case Existing(i) => (tb, i)
      case NoSlot => (tb, FONT_INVALID_TTF_ID)
      case Vacant(i) =>
        match engine.streamNew(dir + name.value)
        case None => (tb, FONT_INVALID_TTF_ID)
        case Some(bytes) =>
          var faces := SubFaces(engine, bytes, count);
          var at := FirstEmpty(FontNames(tb.fonts), 0);
          PlaceKeepsSlotsAgree(tb.fonts, tb.faces, at, i, infos, faces, 0);
          (Tables(PlaceSubFonts(tb.fonts, at, i, infos, faces, 0), PlaceFaces(tb.faces, at, faces, 0),
                  tb.ttcs[i := TtcInfo(name, Open(bytes))], tb.num), i)
  }

  /**
   * A newly registered collection's sub-font `m` that opened sits in the
   * first empty font slot plus the number of earlier sub-fonts that opened,
   * recording ttfIndex = m and ttcIndex = the collection slot.
   */
  lemma RegisterCollectionPlacement(engine: Engine, dir: string, inited: bool, tb: Tables, name: string,
                                    infos: seq<TtfInfo>, count: uint8, m: nat)
    requires WellFormed(tb) && count <= |infos| && CollectionFits(engine, dir, inited, tb, Some(name), count)
    requires m < count
    ensures var r := RegisterCollection(engine, dir, inited, tb, Some(name), infos, count);
            r.1 != FONT_INVALID_TTF_ID && tb.ttcs[r.1].ttcName.None? ==>
              var bytes := engine.streamNew(dir + name).value;
              var faces := SubFaces(engine, bytes, count);
              var slot := FirstEmpty(FontNames(tb.fonts), 0) + Opened(faces[..m]);
              faces[m].Some? ==>
                && slot < FONT_ID_MAX
                && r.0.fonts[slot].ttfName == infos[m].ttfName && r.0.fonts[slot].ttfId == slot
                && r.0.fonts[slot].ttfIndex == m && r.0.fonts[slot].ttcIndex == r.1
                && r.0.faces[slot] == faces[m]
  {
    var r := RegisterCollection(engine, dir, inited, tb, Some(name), infos, count);
    if r.1 != FONT_INVALID_TTF_ID && tb.ttcs[r.1].ttcName.None? {
      var faces := SubFaces(engine, engine.streamNew(dir + name).value, count);
      var at := FirstEmpty(FontNames(tb.fonts), 0);
      if faces[m].Some? {
        PlacedSubFont(tb.fonts, tb.faces, at, r.1 as nat, infos, faces, m);
      }
    }
  }

  /** Record and face of an opened sub-font `m`, after the whole placement. */
  lemma PlacedSubFont(t: seq<FontParam>, f: seq<Option<Face>>, at: nat, ttc: nat, infos: seq<TtfInfo>, faces: seq<Option<Face>>, m: nat)
    requires PlaceFits(t, at, ttc, infos, faces, 0) && |f| == |t| && m < |faces| && faces[m].Some?
    ensures var slot := at + Opened(faces[..m]);
            && slot < |t|
            && PlaceSubFonts(t, at, ttc, infos, faces, 0)[slot].ttfName == infos[m].ttfName
            && PlaceSubFonts(t, at, ttc, infos, faces, 0)[slot].ttfId == slot
            && PlaceSubFonts(t, at, ttc, infos, faces, 0)[slot].ttfIndex == m
            && PlaceSubFonts(t, at, ttc, infos, faces, 0)[slot].ttcIndex == ttc
            && PlaceFaces(f, at, faces, 0)[slot] == faces[m]
  {
    SubFontsConsecutive(t, at, ttc, infos, faces, 0);
    assert faces[0..m] == faces[..m];
    assert faces[0..] == faces;
    PlaceFacesAt(f, at, faces, 0, m);
  }

  /** The face of sub-font `m` lands in the same slot as its record. */
  lemma {:induction false} PlaceFacesAt(f: seq<Option<Face>>, at: nat, faces: seq<Option<Face>>, j: nat, m: nat)
    requires j <= m < |faces| && at + Opened(faces[j..]) <= |f| && faces[m].Some?
    decreases |faces| - j
    ensures at + Opened(faces[j..m]) < |f| && PlaceFaces(f, at, faces, j)[at + Opened(faces[j..m])] == faces[m]
  {
    OpenedFrom(faces, j);
    assert Opened(faces[j..j]) == 0;
    if j < m {
      OpenedSplit(faces, j, m);
      if faces[j].None? {
        PlaceFacesAt(f, at, faces, j + 1, m);
      } else {
        PlaceFacesAt(f[at := faces[j]], at + 1, faces, j + 1, m);
      }
    } else {
      assert faces[m..][1..] == faces[m + 1..];
      PlaceFacesKeeps(f[at := faces[m]], at + 1, faces, m + 1, at);
    }
  }

  /** Slots below `at` are not written by the rest of the placement. */
  lemma {:induction false} PlaceFacesKeeps(f: seq<Option<Face>>, at: nat, faces: seq<Option<Face>>, j: nat, p: nat)
    requires j <= |faces| && at + Opened(faces[j..]) <= |f| && p < at
    decreases |faces| - j
    ensures PlaceFaces(f, at, faces, j)[p] == f[p]
  {
    if j < |faces| {
      OpenedFrom(faces, j);
      if faces[j].None? {
        PlaceFacesKeeps(f, at, faces, j + 1, p);
      } else {
        PlaceFacesKeeps(f[at := faces[j]], at + 1, faces, j + 1, p);
      }
    }
  }

  /** UnregisterFontInfo for each name in turn, whatever each call answers. */
  function UnregisterEach(tb: Tables, infos: seq<TtfInfo>, j: nat): (r: Tables)
    requires WellFormed(tb) && j <= |infos|
    decreases |infos| - j
    ensures WellFormed(r) && r.ttcs == tb.ttcs && r.num == tb.num
    ensures forall k :: 0 <= k < FONT_ID_MAX && tb.fonts[k].ttfName.None? ==> r.fonts[k] == tb.fonts[k]
  {
    if j == |infos| then tb else UnregisterEach(UnregisterFont(tb, infos[j].ttfName).0, infos, j + 1)
  }
  // ---------------------------------------------------------------------
  // The collection table's own scans
  // ---------------------------------------------------------------------

  /**
   * The corrected UnregisterTtcFontInfo loop: the first collection slot whose
   * name is `name`, or none when no slot of the table holds it.
   */
  function FindTtc(ttcs: seq<TtcInfo>, name: string): (r: Option<nat>)
    ensures r.Some? ==> r.value < |ttcs| && Holds(ttcs[r.value].ttcName, name)
    ensures r.Some? ==> forall k :: 0 <= k < r.value ==> !Holds(ttcs[k].ttcName, name)
    ensures r.None? ==> forall k :: 0 <= k < |ttcs| ==> !Holds(ttcs[k].ttcName, name)
  {
    FindName(TtcNames(ttcs), name, 0)
  }

  datatype TtcReach = TtcHit(index: nat) | ReadsPastEnd(index: nat) | TtcMiss

  /**
   * The UnregisterTtcFontInfo loop as written: `i` runs to FONT_ID_MAX over
   * a table of FONT_TTC_MAX slots, so a scan that does not find the name
   * reads `ttcInfos_[i]` for an `i` past the end.
   */
  function UnregisterTtcScanAsWritten(ttcs: seq<TtcInfo>, name: string, i: nat): (r: TtcReach)
    decreases FONT_ID_MAX - i
  {
    if i >= FONT_ID_MAX then TtcMiss
    else if i >= |ttcs| then ReadsPastEnd(i)
    else if Holds(ttcs[i].ttcName, name) then TtcHit(i)
    else UnregisterTtcScanAsWritten(ttcs, name, i + 1)
  }

  /** A collection name that is not registered makes the as-written loop read slot FONT_TTC_MAX, one past the table. */
  lemma {:induction false} UnregisterTtcReadsPastEnd(ttcs: seq<TtcInfo>, name: string, i: nat)
    requires |ttcs| == FONT_TTC_MAX && i <= FONT_TTC_MAX
    requires forall k :: i <= k < |ttcs| ==> !Holds(ttcs[k].ttcName, name)
    decreases FONT_TTC_MAX - i
    ensures UnregisterTtcScanAsWritten(ttcs, name, i) == ReadsPastEnd(FONT_TTC_MAX)
  {
    if i < FONT_TTC_MAX {
      UnregisterTtcReadsPastEnd(ttcs, name, i + 1);
    }
  }

  /** When the name is registered the as-written loop and the corrected one agree. */
  lemma {:induction false} UnregisterTtcScanAgrees(ttcs: seq<TtcInfo>, name: string, i: nat)
    requires |ttcs| == FONT_TTC_MAX && i <= FONT_TTC_MAX
    requires FindName(TtcNames(ttcs), name, i).Some?
    decreases FONT_TTC_MAX - i
    ensures UnregisterTtcScanAsWritten(ttcs, name, i) == TtcHit(FindName(TtcNames(ttcs), name, i).value)
  {
    if i < FONT_TTC_MAX && !Holds(ttcs[i].ttcName, name) {
      UnregisterTtcScanAgrees(ttcs, name, i + 1);
    }
  }


  /**
   * UnregisterTtcFontInfo(name, infos, count), scanning the collection table
   * up to its capacity: a null name or a null descriptor table fails; so does
   * a name no collection slot holds. Otherwise that slot's stream is freed
   * (its name stays set) and every listed sub-font name is unregistered.
   */
  function UnregisterCollection(tb: Tables, name: Option<string>, infos: Option<seq<TtfInfo>>, count: uint8): (r: (Tables, uint8))
    requires WellFormed(tb) && (infos.Some? ==> count <= |infos.value|)
    ensures WellFormed(r.0) && r.0.num == tb.num
    ensures r.1 == FONT_INVALID_TTF_ID <==> name.None? || infos.None? || FindTtc(tb.ttcs, name.value).None?
    ensures r.1 == FONT_INVALID_TTF_ID ==> r.0 == tb
    ensures r.1 != FONT_INVALID_TTF_ID ==>
              && r.1 < FONT_TTC_MAX && Holds(tb.ttcs[r.1].ttcName, name.value)
              && r.0.ttcs == tb.ttcs[r.1 := TtcInfo(tb.ttcs[r.1].ttcName, Freed)]
              && r.0 == UnregisterEach(tb.(ttcs := r.0.ttcs), infos.value[..count], 0)
  {
    if name.None? || infos.None? then (tb, FONT_INVALID_TTF_ID)
    else match FindTtc(tb.ttcs, name.value)
      case None => (tb, FONT_INVALID_TTF_ID)
      case Some(i) =>
        var freed := tb.(ttcs := tb.ttcs[i := TtcInfo(tb.ttcs[i].ttcName, Freed)]);
        (UnregisterEach(freed, infos.value[..count], 0), i)
  }

  /**
   * Unregistering a collection leaves its name in place, so registering it
   * again returns the same collection slot, changes nothing, and leaves the
   * freed stream in that slot.
   */
  lemma CollectionNameSurvivesUnregister(engine: Engine, dir: string, tb: Tables, name: string,
                                         infos: seq<TtfInfo>, count: uint8, infos2: seq<TtfInfo>, count2: uint8)
    requires WellFormed(tb) && count <= |infos| && count2 <= |infos2|
    ensures var u := UnregisterCollection(tb, Some(name), Some(infos), count);
            u.1 != FONT_INVALID_TTF_ID ==>
              && CollectionFits(engine, dir, true, u.0, Some(name), count2)
              && RegisterCollection(engine, dir, true, u.0, Some(name), infos2, count2) == (u.0, u.1)
              && u.0.ttcs[u.1].stream == Freed
  {
    var u := UnregisterCollection(tb, Some(name), Some(infos), count);
    if u.1 != FONT_INVALID_TTF_ID {
      var i := u.1 as nat;
      assert FindName(TtcNames(tb.ttcs), name, 0) == Some(i);
      assert TtcNames(u.0.ttcs) == TtcNames(tb.ttcs);
      assert forall k :: 0 <= k < i ==> u.0.ttcs[k].ttcName.Some? && !Holds(u.0.ttcs[k].ttcName, name);
      ScanFindsHeldBeforeHoles(TtcNames(u.0.ttcs), name, i, 0);
    }
  }

  /**
   * As written, the slot keeps its name and the freed stream pointer, so
   * unregistering the same collection again finds the same slot and hands
   * FT_Stream_Free a stream that is already freed.
   */
  lemma UnregisterTwiceFreesFreedStream(tb: Tables, name: string, infos: seq<TtfInfo>, count: uint8,
                                        infos2: seq<TtfInfo>, count2: uint8)
    requires WellFormed(tb) && count <= |infos| && count2 <= |infos2|
    ensures var u := UnregisterCollection(tb, Some(name), Some(infos), count);
            u.1 != FONT_INVALID_TTF_ID ==>
              && u.0.ttcs[u.1].stream == Freed
              && UnregisterCollection(u.0, Some(name), Some(infos2), count2).1 == u.1
  {
    var u := UnregisterCollection(tb, Some(name), Some(infos), count);
    if u.1 != FONT_INVALID_TTF_ID {
      assert forall k :: 0 <= k < |tb.ttcs| ==> u.0.ttcs[k].ttcName == tb.ttcs[k].ttcName;
    }
  }

  /** No collection slot refers to a freed stream. */
  predicate NoneFreed(ttcs: seq<TtcInfo>) {
    forall k :: 0 <= k < |ttcs| ==> !ttcs[k].stream.Freed?
  }

  /**
   * UnregisterTtcFontInfo as evidently intended: after FT_Stream_Free the
   * slot's stream pointer is reset, so the slot never refers to freed
   * memory. It answers as the code as written does.
   */
  function UnregisterCollectionResetting(tb: Tables, name: Option<string>, infos: Option<seq<TtfInfo>>, count: uint8): (r: (Tables, uint8))
    requires WellFormed(tb) && (infos.Some? ==> count <= |infos.value|)
    ensures WellFormed(r.0) && r.0.num == tb.num
    ensures r.1 == UnregisterCollection(tb, name, infos, count).1
    ensures r.1 == FONT_INVALID_TTF_ID ==> r.0 == tb
    ensures r.1 != FONT_INVALID_TTF_ID ==> r.0.ttcs[r.1] == TtcInfo(tb.ttcs[r.1].ttcName, NoStream)
    ensures NoneFreed(tb.ttcs) ==> NoneFreed(r.0.ttcs)
  {
    if name.None? || infos.None? then (tb, FONT_INVALID_TTF_ID)
    else match FindTtc(tb.ttcs, name.value)
      case None => (tb, FONT_INVALID_TTF_ID)
      case Some(i) =>
        var reset := tb.(ttcs := tb.ttcs[i := TtcInfo(tb.ttcs[i].ttcName, NoStream)]);
        (UnregisterEach(reset, infos.value[..count], 0), i)
  }

  /**
   * With the reset, unregistering the same collection twice finds the same
   * slot the second time but only a null stream in it, and no slot is left
   * referring to freed memory.
   */
  lemma ResettingUnregisterTwiceFreesNothing(tb: Tables, name: string, infos: seq<TtfInfo>, count: uint8,
                                             infos2: seq<TtfInfo>, count2: uint8)
    requires WellFormed(tb) && NoneFreed(tb.ttcs) && count <= |infos| && count2 <= |infos2|
    ensures var u := UnregisterCollectionResetting(tb, Some(name), Some(infos), count);
            u.1 != FONT_INVALID_TTF_ID ==>
              && u.0.ttcs[u.1].stream == NoStream
              && var u2 := UnregisterCollectionResetting(u.0, Some(name), Some(infos2), count2);
                 u2.1 == u.1 && NoneFreed(u2.0.ttcs)
  {
    var u := UnregisterCollectionResetting(tb, Some(name), Some(infos), count);
    if u.1 != FONT_INVALID_TTF_ID {
      assert forall k :: 0 <= k < |tb.ttcs| ==> u.0.ttcs[k].ttcName == tb.ttcs[k].ttcName;
    }
  }

  /** A name held at `i` with every earlier slot set and not holding it is what the registration scan returns. */
  lemma {:induction false} ScanFindsHeldBeforeHoles(names: seq<Option<string>>, name: string, i: nat, from: nat)
    requires from <= i < |names| && Holds(names[i], name)
    requires forall k :: from <= k < i ==> names[k].Some? && !Holds(names[k], name)
    decreases i - from
    ensures RegisterScan(names, name, from) == Existing(i)
  {
    if from < i {
      ScanFindsHeldBeforeHoles(names, name, i, from + 1);
    }
  }

  // ---------------------------------------------------------------------
  // GetTtfInfo's dispatch
  // ---------------------------------------------------------------------

  datatype TtfSource = NoSource | FromCollection(param: FontParam) | FromFile(param: FontParam)

  /**
   * GetTtfInfo: no buffer or an empty one gives nothing; else the first set
   * slot recording `ttfId` is read from its collection when its `size` field
   * differs from FONT_ID_MAX, and from its own file otherwise.
   */
  function TtfSourceOf(t: seq<FontParam>, ttfId: nat, hasBuffer: bool, bufSize: nat): (r: TtfSource)
    ensures r != NoSource <==> hasBuffer && bufSize > 0 && FindTtfId(t, ttfId, 0).Some?
    ensures r != NoSource ==> r.param == t[FindTtfId(t, ttfId, 0).value]
    ensures r.FromCollection? <==> r != NoSource && r.param.size != FONT_ID_MAX
  {
    if !hasBuffer || bufSize == 0 then NoSource
    else match FindTtfId(t, ttfId, 0)
      case None => NoSource
      case Some(i) => if t[i].size != FONT_ID_MAX then FromCollection(t[i]) else FromFile(t[i])
  }

  /**
   * The `size` field is never written by registration, so in tables that
   * start zeroed a font registered on its own is sent to the collection path
   * with ttcIndex = FONT_TTC_MAX, which that path rejects at once.
   */
  lemma StandaloneFontDispatch(engine: Engine, dir: string, tb: Tables, name: string, shaping: uint8, bufSize: nat)
    requires WellFormed(tb) && bufSize > 0
    requires forall k :: 0 <= k < FONT_ID_MAX ==> tb.fonts[k].size == 0
    ensures var r := RegisterFont(engine, dir, true, tb, Some(name), shaping);
            r.1 != FONT_INVALID_TTF_ID ==>
              && TtfSourceOf(r.0.fonts, r.1, true, bufSize) == FromCollection(r.0.fonts[r.1])
              && (tb.fonts[r.1].ttfName.None? ==> r.0.fonts[r.1].ttcIndex >= FONT_TTC_MAX)
  {
    var r := RegisterFont(engine, dir, true, tb, Some(name), shaping);
    if r.1 != FONT_INVALID_TTF_ID {
      FindTtfIdOfSelfNamedTable(r.0.fonts, r.1 as nat, 0);
    }
  }
}
