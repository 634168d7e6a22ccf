/**
 * Line metrics: GetMaxSubLineHeight's case split over a line's counts and
 * the slots' line heights, GetOffsetPosY's offset rule and its walk over
 * the line's code points, and GetLineMaxHeight's walk with its size-span
 * memo. Code points come already decoded (how many bytes each took, its
 * last byte, whether it is a colour word).
 */
module LineMetrics {
  import opened FontTypes
  import opened CatalogueSpec
  import opened GlyphSpec
  import opened GlyphPath

  /** `x++` on a uint16_t counter. */
  function Inc16(x: uint16): (r: uint16)
    ensures r == (x + 1) % 0x1_0000
  {
    if x == 0xFFFF then 0 else x + 1
  }

  function Max16(a: uint16, b: uint16): (r: uint16)
    ensures r >= a && r >= b && (r == a || r == b)
  {
    if a > b then a else b
  }

  // ---------------------------------------------------------------------
  // GetMaxSubLineHeight
  // ---------------------------------------------------------------------

  /** The first slot from `i` on whose colour flag is `want`. */
  function FirstWith(emoji: seq<bool>, want: bool, i: nat): (r: Option<nat>)
    decreases |emoji| - i
    ensures r.Some? ==> i <= r.value < |emoji| && emoji[r.value] == want
    ensures r.Some? ==> forall k :: i <= k < r.value ==> emoji[k] != want
    ensures r.None? ==> forall k :: i <= k < |emoji| ==> emoji[k] != want
  {
    if i >= |emoji| then None
    else if emoji[i] == want then Some(i)
    else FirstWith(emoji, want, i + 1)
  }

  /** The running maximum of the mixed-line loop from slot `i` on. */
  function MaxOver(hs: seq<Option<uint16>>, m: uint16, i: nat): (r: uint16)
    requires forall k :: i <= k < |hs| ==> hs[k].Some?
    decreases |hs| - i
    ensures r >= m && forall k :: i <= k < |hs| ==> r >= hs[k].value
    ensures r == m || exists k :: i <= k < |hs| && r == hs[k].value
  {
    if i >= |hs| then m else MaxOver(hs, Max16(hs[i].value, m), i + 1)
  }

  /** Which of GetMaxSubLineHeight's loops returns. */
  datatype SubLine = AllText(slot: nat) | AllEmoji(slot: nat) | Mixed | NoneReturned

  function SubLineCase(textNum: uint16, loopNum: uint16, emojiNum: uint16, emoji: seq<bool>): (c: SubLine)
    ensures c.AllText? ==> c.slot < |emoji|
    ensures c.AllEmoji? ==> c.slot < |emoji|
  {
    if textNum == loopNum && FirstWith(emoji, false, 0).Some? then AllText(FirstWith(emoji, false, 0).value)
    else if emojiNum == loopNum && FirstWith(emoji, true, 0).Some? then AllEmoji(FirstWith(emoji, true, 0).value)
    else if textNum > 0 && emojiNum > 0 then Mixed
    else NoneReturned
  }

  /** Every slot the returning loop reads has a face (the loops dereference ftFaces_[i] unchecked). */
  predicate SubLineDefined(textNum: uint16, loopNum: uint16, emojiNum: uint16, emoji: seq<bool>, hs: seq<Option<uint16>>)
    requires |emoji| == |hs|
  {
    match SubLineCase(textNum, loopNum, emojiNum, emoji)
    case AllText(i) => hs[i].Some?
    case AllEmoji(i) => hs[i].Some?
    case Mixed => forall k :: 0 <= k < |hs| ==> hs[k].Some?
    case NoneReturned => true
  }

  /**
   * GetMaxSubLineHeight over the slots below currentFontInfoNum_, given
   * their colour flags and line heights: an all-text line takes the larger
   * of maxHeight and the first plain slot's height; else an all-emoji line
   * takes the first colour slot's height; else a line with both takes the
   * largest of maxHeight and every slot's height; otherwise maxHeight.
   */
  function SubLineHeight(textNum: uint16, loopNum: uint16, maxHeight: uint16, emojiNum: uint16,
                         emoji: seq<bool>, hs: seq<Option<uint16>>): (r: uint16)
    requires |emoji| == |hs| && SubLineDefined(textNum, loopNum, emojiNum, emoji, hs)
    ensures textNum == loopNum && (exists k :: 0 <= k < |emoji| && !emoji[k]) ==>
              exists i :: 0 <= i < |emoji| && !emoji[i] && (forall k :: 0 <= k < i ==> emoji[k])
                && r == Max16(maxHeight, hs[i].value)
    ensures !(textNum == loopNum && (exists k :: 0 <= k < |emoji| && !emoji[k]))
            && emojiNum == loopNum && (exists k :: 0 <= k < |emoji| && emoji[k]) ==>
              exists i :: 0 <= i < |emoji| && emoji[i] && (forall k :: 0 <= k < i ==> !emoji[k]) && r == hs[i].value
    ensures SubLineCase(textNum, loopNum, emojiNum, emoji).Mixed? ==>
              && r >= maxHeight && (forall k :: 0 <= k < |hs| ==> r >= hs[k].value)
              && (r == maxHeight || exists k :: 0 <= k < |hs| && r == hs[k].value)
    ensures SubLineCase(textNum, loopNum, emojiNum, emoji).NoneReturned? ==> r == maxHeight
  {
    match SubLineCase(textNum, loopNum, emojiNum, emoji)
    case AllText(i) => Max16(hs[i].value, maxHeight)
    case AllEmoji(i) => hs[i].value
    case Mixed => MaxOver(hs, maxHeight, 0)
    case NoneReturned => maxHeight
  }

  /**
   * A line with both kinds is never lower than any slot, and never lower
   * than an all-text line with the same maxHeight would be.
   */
  lemma MixedLineAtLeastTextLine(textNum: uint16, loopNum: uint16, maxHeight: uint16, emojiNum: uint16,
                                 emoji: seq<bool>, hs: seq<Option<uint16>>)
    requires |emoji| == |hs| && (forall k :: 0 <= k < |hs| ==> hs[k].Some?)
    requires SubLineCase(textNum, loopNum, emojiNum, emoji).Mixed?
    requires FirstWith(emoji, false, 0).Some?
    ensures SubLineHeight(textNum, loopNum, maxHeight, emojiNum, emoji, hs)
            >= SubLineHeight(loopNum, loopNum, maxHeight, emojiNum, emoji, hs)
  {
  }

  // ---------------------------------------------------------------------
  // GetOffsetPosY
  // ---------------------------------------------------------------------

  /** The walk's counters and the tallest colour glyph node so far (its rows and top). */
  datatype Tally = Tally(text: uint16, emoji: uint16, loop: uint16, maxRows: uint16, maxTop: int16)

  const EMPTY_TALLY: Tally := Tally(0, 0, 0, 0, 0)

  /** One glyph found: counted as colour when its font's weight is a colour weight, as text otherwise. */
  function Classify(t: Tally, node: GlyphNode, weight: uint8): (r: Tally)
    ensures r.loop == Inc16(t.loop)
    ensures weight >= COLOR_WEIGHT_MIN ==> r.text == t.text && r.emoji == Inc16(t.emoji)
    ensures weight < COLOR_WEIGHT_MIN ==> r.text == Inc16(t.text) && r.emoji == t.emoji && r.maxRows == t.maxRows && r.maxTop == t.maxTop
    ensures r.maxRows == Max16(t.maxRows, node.rows) || r.maxRows == t.maxRows
  {
    if weight >= COLOR_WEIGHT_MIN then
      var taller := node.rows > t.maxRows;
      Tally(t.text, Inc16(t.emoji), Inc16(t.loop), if taller then node.rows else t.maxRows, if taller then node.top else t.maxTop)
    else Tally(Inc16(t.text), t.emoji, Inc16(t.loop), t.maxRows, t.maxTop)
  }

  /**
   * GetOffsetPosY's rule after the walk: a line of one kind only (an empty
   * line included) gives 0 and "large". Otherwise the colour glyph is large
   * when its rows exceed the font size; a large one gives its top minus the
   * font size (0 when the top is lower), a small one the font size minus its
   * rows.
   */
  function OffsetPosY(t: Tally, fontSize: uint8): (r: (uint16, bool))
    ensures t.emoji == t.loop || t.text == t.loop ==> r == (0, true)
    ensures !(t.emoji == t.loop || t.text == t.loop) ==> r.1 == (t.maxRows > fontSize)
    ensures !(t.emoji == t.loop || t.text == t.loop) && r.1 ==>
              (t.maxTop >= fontSize ==> r.0 + fontSize == t.maxTop) && (t.maxTop < fontSize ==> r.0 == 0)
    ensures !(t.emoji == t.loop || t.text == t.loop) && !r.1 ==> r.0 + t.maxRows == fontSize
  {
    if t.emoji == t.loop || t.text == t.loop then (0, true)
    else
      var large := t.maxRows > fontSize;
      if large then (if t.maxTop >= fontSize then (t.maxTop - fontSize, true) else (0, true))
      // not large: the source's guard fontSize >= rows always holds here
      else (fontSize - t.maxRows, false)
  }

  datatype OffsetState = OffsetState(st: Bridge, node: GlyphNode, tally: Tally)

  /**
   * The walk of GetOffsetPosY from code point `u` (at byte `pos`) on: each
   * code point's glyph node is fetched into the one node variable, and
   * every success is classified by the weight of the font the node reports.
   */
  function OffsetWalk(engine: Engine, inited: bool, fonts: seq<FontParam>, s: OffsetState, units: seq<CodeUnit>,
                      u: nat, pos: nat, lineLength: nat, fontId: uint16, fontSize: uint8): (r: OffsetState)
    requires Catalogued(fonts, s.st.faces)
    decreases |units| - u
    ensures Catalogued(fonts, r.st.faces)
    ensures r.st.cache.None? <==> s.st.cache.None?
  {
    if u >= |units| || pos >= lineLength then s
    else
      var n := GlyphNodeStep(engine, inited, fonts, s.st, units[u].unicode, s.node, fontId, fontSize);
      var t := if n.ok then Classify(s.tally, n.node, FontWeight(fonts, n.node.fontId)) else s.tally;
      OffsetWalk(engine, inited, fonts, OffsetState(n.st, n.node, t), units, u + 1, pos + units[u].byteLen, lineLength, fontId, fontSize)
  }

  /** Every glyph of the walk is counted as the requested font's kind. */
  predicate OneKind(t: Tally, emoji: bool) {
    if emoji then t.text == 0 && t.emoji == t.loop else t.emoji == 0 && t.text == t.loop
  }

  /**
   * Since every successful GetGlyphNode reports the requested font, all
   * glyphs of a line are classified alike: the walk keeps the counts of one
   * kind only.
   */
  lemma {:induction false} OffsetWalkOneKind(engine: Engine, inited: bool, fonts: seq<FontParam>, s: OffsetState,
                                             units: seq<CodeUnit>, u: nat, pos: nat, lineLength: nat, fontId: uint16, fontSize: uint8)
    requires Catalogued(fonts, s.st.faces)
    requires OneKind(s.tally, FontWeight(fonts, fontId) >= COLOR_WEIGHT_MIN)
    decreases |units| - u
    ensures OneKind(OffsetWalk(engine, inited, fonts, s, units, u, pos, lineLength, fontId, fontSize).tally,
                    FontWeight(fonts, fontId) >= COLOR_WEIGHT_MIN)
  {
    if u < |units| && pos < lineLength {
      var n := GlyphNodeStep(engine, inited, fonts, s.st, units[u].unicode, s.node, fontId, fontSize);
      GlyphNodeReportsRequestedFont(engine, inited, fonts, s.st, units[u].unicode, s.node, fontId, fontSize);
      var t := if n.ok then Classify(s.tally, n.node, FontWeight(fonts, n.node.fontId)) else s.tally;
      OffsetWalkOneKind(engine, inited, fonts, OffsetState(n.st, n.node, t), units, u + 1, pos + units[u].byteLen, lineLength, fontId, fontSize);
    }
  }

  /** So GetOffsetPosY, past its guard, always takes the one-kind branch: offset 0, "large". */
  lemma OffsetPosYAlwaysZero(engine: Engine, inited: bool, fonts: seq<FontParam>, st: Bridge, node: GlyphNode,
                             units: seq<CodeUnit>, lineLength: nat, fontId: uint16, fontSize: uint8)
    requires Catalogued(fonts, st.faces)
    ensures var w := OffsetWalk(engine, inited, fonts, OffsetState(st, node, EMPTY_TALLY),
                                units, 0, 0, lineLength, fontId, fontSize);
            OffsetPosY(w.tally, fontSize) == (0, true)
  {
    OffsetWalkOneKind(engine, inited, fonts, OffsetState(st, node, EMPTY_TALLY),
                      units, 0, 0, lineLength, fontId, fontSize);
  }

  // ---------------------------------------------------------------------
  // GetLineMaxHeight
  // ---------------------------------------------------------------------

  /** The size-span slot the `k`-th code point from `letter` reads: letterIndex is a uint16_t. */
  function SpanIndex(letter: uint16, k: nat): (r: uint16)
    ensures r == (letter + k) % 0x1_0000
  {
    (letter + k) % 0x1_0000
  }

  /** The caller's size-span table has a slot for each of the next `n` letters. */
  predicate SpansCover(spans: seq<SizeSpan>, letter: uint16, n: nat) {
    forall k :: 0 <= k < n ==> SpanIndex(letter, k) < |spans|
  }

  /** Reading one letter's slot leaves the next letters covered. */
  lemma SpansCoverStep(spans: seq<SizeSpan>, letter: uint16, n: nat)
    requires SpansCover(spans, letter, n) && n > 0
    ensures letter < |spans| && SpansCover(spans, Inc16(letter), n - 1)
  {
    assert SpanIndex(letter, 0) == letter;
    forall k | 0 <= k < n - 1 ensures SpanIndex(Inc16(letter), k) < |spans| {
      assert SpanIndex(Inc16(letter), k) == SpanIndex(letter, k + 1);
    }
  }

  datatype LineState = LineState(st: Bridge, spans: seq<SizeSpan>, letter: uint16,
                                 text: uint16, emoji: uint16, loop: uint16, maxHeight: uint16)

  /** A code point whose last byte is '\r' or '\n' ends the line. */
  predicate EndsLine(c: CodeUnit) {
    c.lastByte == 13 || c.lastByte == 10
  }

  /**
   * One code point of GetLineMaxHeight's walk, before letterIndex moves on:
   * counted as colour or text; then, when the caller's table marks its
   * letter as a size span, that span's height is measured with GetHeight
   * and remembered if it was still 0, and the running maximum raised to it.
   */
  function LineStep(engine: Engine, inited: bool, fonts: seq<FontParam>, s: LineState, hasSpans: bool, c: CodeUnit): (r: LineState)
    requires Catalogued(fonts, s.st.faces)
    requires hasSpans ==> s.letter < |s.spans|
    ensures Catalogued(fonts, r.st.faces) && |r.spans| == |s.spans| && r.st.cache == s.st.cache && r.letter == s.letter
    ensures r.loop == Inc16(s.loop)
    ensures (r.text == Inc16(s.text) && r.emoji == s.emoji) || (r.text == s.text && r.emoji == Inc16(s.emoji))
    ensures r.maxHeight >= s.maxHeight
    ensures hasSpans && s.spans[s.letter].isSizeSpan ==> r.maxHeight >= r.spans[s.letter].height
    ensures !(hasSpans && s.spans[s.letter].isSizeSpan && s.spans[s.letter].height == 0) ==> r.spans == s.spans && r.st == s.st
    ensures hasSpans && s.spans[s.letter].isSizeSpan && s.spans[s.letter].height == 0 ==>
              var span := s.spans[s.letter];
              var m := HeightQuery(engine, inited, fonts, s.st, span.fontId, span.size);
              r.spans == s.spans[s.letter := span.(height := m.height)] && r.st.faces == m.faces
  {
    var counted := if c.isColour then s.(emoji := Inc16(s.emoji), loop := Inc16(s.loop))
                   else s.(text := Inc16(s.text), loop := Inc16(s.loop));
    if hasSpans && s.spans[s.letter].isSizeSpan then
      var span := s.spans[s.letter];
      if span.height == 0 then
        var m := HeightQuery(engine, inited, fonts, s.st, span.fontId, span.size);
        counted.(st := Bridge(m.faces, s.st.cache), spans := s.spans[s.letter := span.(height := m.height)],
                 maxHeight := Max16(m.height, s.maxHeight))
      else counted.(maxHeight := Max16(span.height, s.maxHeight))
    else counted
  }

  /**
   * GetLineMaxHeight's walk from code point `u` (at byte `pos`) on: one
   * LineStep per code point, letterIndex advancing after each, stopping at
   * the end of the line or after a code point that ends it.
   */
  function LineWalk(engine: Engine, inited: bool, fonts: seq<FontParam>, s: LineState, hasSpans: bool,
                    units: seq<CodeUnit>, u: nat, pos: nat, lineLength: nat): (r: LineState)
    requires Catalogued(fonts, s.st.faces) && u <= |units|
    requires hasSpans ==> SpansCover(s.spans, s.letter, |units| - u)
    decreases |units| - u
    ensures Catalogued(fonts, r.st.faces) && |r.spans| == |s.spans| && r.st.cache == s.st.cache
  {
    if u == |units| || pos >= lineLength then s
    else
      var _ := if hasSpans then SpansCoverStep(s.spans, s.letter, |units| - u); 0 else 0;
      var s1 := LineStep(engine, inited, fonts, s, hasSpans, units[u]);
      var s2 := s1.(letter := Inc16(s.letter));
      if EndsLine(units[u]) then s2 else LineWalk(engine, inited, fonts, s2, hasSpans, units, u + 1, pos + units[u].byteLen, lineLength)
  }

  /** The walk at a code point it reads: that point's step, then the rest of the walk unless it ended the line. */
  lemma LineWalkUnfold(engine: Engine, inited: bool, fonts: seq<FontParam>, s: LineState, hasSpans: bool,
                       units: seq<CodeUnit>, u: nat, pos: nat, lineLength: nat)
    requires Catalogued(fonts, s.st.faces) && u < |units| && pos < lineLength
    requires hasSpans ==> SpansCover(s.spans, s.letter, |units| - u)
    ensures hasSpans ==> s.letter < |s.spans| && SpansCover(s.spans, Inc16(s.letter), |units| - u - 1)
    ensures var s2 := LineStep(engine, inited, fonts, s, hasSpans, units[u]).(letter := Inc16(s.letter));
            LineWalk(engine, inited, fonts, s, hasSpans, units, u, pos, lineLength)
            == if EndsLine(units[u]) then s2
               else LineWalk(engine, inited, fonts, s2, hasSpans, units, u + 1, pos + units[u].byteLen, lineLength)
  {
    if hasSpans {
      SpansCoverStep(s.spans, s.letter, |units| - u);
    }
  }

  /** How many code points the walk consumes. */
  function Steps(units: seq<CodeUnit>, u: nat, pos: nat, lineLength: nat): (n: nat)
    requires u <= |units|
    decreases |units| - u
    ensures n <= |units| - u
  {
    if u == |units| || pos >= lineLength then 0
    else if EndsLine(units[u]) then 1
    else 1 + Steps(units, u + 1, pos + units[u].byteLen, lineLength)
  }

  /** letterIndex and loopNum both advance once per code point consumed. */
  lemma {:induction false} LineWalkAdvances(engine: Engine, inited: bool, fonts: seq<FontParam>, s: LineState, hasSpans: bool,
                                            units: seq<CodeUnit>, u: nat, pos: nat, lineLength: nat)
    requires Catalogued(fonts, s.st.faces) && u <= |units|
    requires hasSpans ==> SpansCover(s.spans, s.letter, |units| - u)
    decreases |units| - u
    ensures var r := LineWalk(engine, inited, fonts, s, hasSpans, units, u, pos, lineLength);
            var n := Steps(units, u, pos, lineLength);
            r.letter == (s.letter + n) % 0x1_0000 && r.loop == (s.loop + n) % 0x1_0000
  {
    if u < |units| && pos < lineLength {
      if hasSpans { SpansCoverStep(s.spans, s.letter, |units| - u); }
      var s1 := LineStep(engine, inited, fonts, s, hasSpans, units[u]);
      var s2 := s1.(letter := Inc16(s.letter));
      if !EndsLine(units[u]) {
        var n := Steps(units, u, pos, lineLength);
        LineWalkAdvances(engine, inited, fonts, s2, hasSpans, units, u + 1, pos + units[u].byteLen, lineLength);
        AfterIncrement(s.letter, n - 1);
        AfterIncrement(s.loop, n - 1);
      }
    }
  }

  /** Every code point is counted as exactly one of text or colour. */
  lemma {:induction false} LineWalkCountsEachOnce(engine: Engine, inited: bool, fonts: seq<FontParam>, s: LineState, hasSpans: bool,
                                                  units: seq<CodeUnit>, u: nat, pos: nat, lineLength: nat)
    requires Catalogued(fonts, s.st.faces) && u <= |units|
    requires hasSpans ==> SpansCover(s.spans, s.letter, |units| - u)
    requires (s.text + s.emoji) % 0x1_0000 == s.loop
    decreases |units| - u
    ensures var r := LineWalk(engine, inited, fonts, s, hasSpans, units, u, pos, lineLength);
            (r.text + r.emoji) % 0x1_0000 == r.loop
  {
    if u < |units| && pos < lineLength {
      if hasSpans { SpansCoverStep(s.spans, s.letter, |units| - u); }
      var s1 := LineStep(engine, inited, fonts, s, hasSpans, units[u]);
      var s2 := s1.(letter := Inc16(s.letter));
      CountedOnce(s, s1);
      if !EndsLine(units[u]) {
        LineWalkCountsEachOnce(engine, inited, fonts, s2, hasSpans, units, u + 1, pos + units[u].byteLen, lineLength);
      }
    }
  }

  /** Incrementing a uint16_t and then adding `n` is adding n + 1. */
  lemma AfterIncrement(x: uint16, n: nat)
    ensures (Inc16(x) + n) % 0x1_0000 == (x + (n + 1)) % 0x1_0000
  {
    if x == 0xFFFF {
      assert x + (n + 1) == n + 0x1_0000;
    }
  }

  /** A step counts its code point as text or colour, never both. */
  lemma CountedOnce(s: LineState, s1: LineState)
    requires s1.loop == Inc16(s.loop)
    requires (s1.text == Inc16(s.text) && s1.emoji == s.emoji) || (s1.text == s.text && s1.emoji == Inc16(s.emoji))
    ensures (s.text + s.emoji) % 0x1_0000 == s.loop ==> (s1.text + s1.emoji) % 0x1_0000 == s1.loop
  {
  }

  /**
   * The walk changes a size-span slot only by memoising a height in a span
   * whose height was still 0; every other slot and field is kept.
   */
  lemma {:induction false} LineWalkOnlyMemoises(engine: Engine, inited: bool, fonts: seq<FontParam>, s: LineState, hasSpans: bool,
                                                units: seq<CodeUnit>, u: nat, pos: nat, lineLength: nat)
    requires Catalogued(fonts, s.st.faces) && u <= |units|
    requires hasSpans ==> SpansCover(s.spans, s.letter, |units| - u)
    decreases |units| - u
    ensures var r := LineWalk(engine, inited, fonts, s, hasSpans, units, u, pos, lineLength);
            forall k :: 0 <= k < |s.spans| ==>
              r.spans[k] == s.spans[k]
              || (hasSpans && s.spans[k].isSizeSpan && s.spans[k].height == 0 && r.spans[k] == s.spans[k].(height := r.spans[k].height))
  {
    if u < |units| && pos < lineLength {
      if hasSpans { SpansCoverStep(s.spans, s.letter, |units| - u); }
      var s1 := LineStep(engine, inited, fonts, s, hasSpans, units[u]);
      var s2 := s1.(letter := Inc16(s.letter));
      if !EndsLine(units[u]) {
        LineWalkOnlyMemoises(engine, inited, fonts, s2, hasSpans, units, u + 1, pos + units[u].byteLen, lineLength);
      }
    }
  }

  /** The size-span slots a walk of `n` code points from `letter` reads. */
  predicate Visited(letter: uint16, n: nat, k: nat) {
    exists j :: 0 <= j < n && SpanIndex(letter, j) == k
  }

  /**
   * The running maximum never drops, and ends at least as high as every
   * size span the walk read, each with the height it holds at the end.
   */
  lemma {:induction false} LineWalkMaxHeight(engine: Engine, inited: bool, fonts: seq<FontParam>, s: LineState, hasSpans: bool,
                                             units: seq<CodeUnit>, u: nat, pos: nat, lineLength: nat)
    requires Catalogued(fonts, s.st.faces) && u <= |units|
    requires hasSpans ==> SpansCover(s.spans, s.letter, |units| - u)
    decreases |units| - u
    ensures var r := LineWalk(engine, inited, fonts, s, hasSpans, units, u, pos, lineLength);
            && r.maxHeight >= s.maxHeight
            && forall k :: 0 <= k < |r.spans| && hasSpans && Visited(s.letter, Steps(units, u, pos, lineLength), k) && r.spans[k].isSizeSpan ==>
                 r.maxHeight >= r.spans[k].height
  {
    if u < |units| && pos < lineLength {
      if EndsLine(units[u]) {
        EndedLineCovered(engine, inited, fonts, s, hasSpans, units, u, pos, lineLength);
      } else {
        if hasSpans { SpansCoverStep(s.spans, s.letter, |units| - u); }
        var s2 := LineStep(engine, inited, fonts, s, hasSpans, units[u]).(letter := Inc16(s.letter));
        LineWalkMaxHeight(engine, inited, fonts, s2, hasSpans, units, u + 1, pos + units[u].byteLen, lineLength);
        ContinuedLineCovered(engine, inited, fonts, s, hasSpans, units, u, pos, lineLength);
      }
    }
  }

  /** A walk that stops after its first code point read only that point's slot. */
  lemma EndedLineCovered(engine: Engine, inited: bool, fonts: seq<FontParam>, s: LineState, hasSpans: bool,
                         units: seq<CodeUnit>, u: nat, pos: nat, lineLength: nat)
    requires Catalogued(fonts, s.st.faces) && u < |units| && pos < lineLength && EndsLine(units[u])
    requires hasSpans ==> SpansCover(s.spans, s.letter, |units| - u)
    ensures var r := LineWalk(engine, inited, fonts, s, hasSpans, units, u, pos, lineLength);
            && r.maxHeight >= s.maxHeight
            && forall k :: 0 <= k < |r.spans| && hasSpans && Visited(s.letter, Steps(units, u, pos, lineLength), k) && r.spans[k].isSizeSpan ==>
                 r.maxHeight >= r.spans[k].height
  {
    LineWalkUnfold(engine, inited, fonts, s, hasSpans, units, u, pos, lineLength);
    var r := LineWalk(engine, inited, fonts, s, hasSpans, units, u, pos, lineLength);
    assert Steps(units, u, pos, lineLength) == 1;
    forall k | 0 <= k < |r.spans| && hasSpans && Visited(s.letter, 1, k) && r.spans[k].isSizeSpan
      ensures r.maxHeight >= r.spans[k].height
    {
      var j :| 0 <= j < 1 && SpanIndex(s.letter, j) == k;
      assert k == s.letter;
    }
  }

  /** A walk that goes on after its first code point: the rest's slots, plus the first one. */
  lemma ContinuedLineCovered(engine: Engine, inited: bool, fonts: seq<FontParam>, s: LineState, hasSpans: bool,
                             units: seq<CodeUnit>, u: nat, pos: nat, lineLength: nat)
    requires Catalogued(fonts, s.st.faces) && u < |units| && pos < lineLength && !EndsLine(units[u])
    requires hasSpans ==> SpansCover(s.spans, s.letter, |units| - u)
    requires hasSpans ==> s.letter < |s.spans| && SpansCover(s.spans, Inc16(s.letter), |units| - u - 1)
    requires var s2 := LineStep(engine, inited, fonts, s, hasSpans, units[u]).(letter := Inc16(s.letter));
             var r := LineWalk(engine, inited, fonts, s2, hasSpans, units, u + 1, pos + units[u].byteLen, lineLength);
             var n := Steps(units, u + 1, pos + units[u].byteLen, lineLength);
             && r.maxHeight >= s2.maxHeight
             && forall k :: 0 <= k < |r.spans| && hasSpans && Visited(s2.letter, n, k) && r.spans[k].isSizeSpan ==> r.maxHeight >= r.spans[k].height
    ensures var r := LineWalk(engine, inited, fonts, s, hasSpans, units, u, pos, lineLength);
            && r.maxHeight >= s.maxHeight
            && forall k :: 0 <= k < |r.spans| && hasSpans && Visited(s.letter, Steps(units, u, pos, lineLength), k) && r.spans[k].isSizeSpan ==>
                 r.maxHeight >= r.spans[k].height
  {
    LineWalkUnfold(engine, inited, fonts, s, hasSpans, units, u, pos, lineLength);
    var s2 := LineStep(engine, inited, fonts, s, hasSpans, units[u]).(letter := Inc16(s.letter));
    var r := LineWalk(engine, inited, fonts, s, hasSpans, units, u, pos, lineLength);
    var n := Steps(units, u, pos, lineLength);
    assert n == 1 + Steps(units, u + 1, pos + units[u].byteLen, lineLength);
    forall k | 0 <= k < |r.spans| && hasSpans && Visited(s.letter, n, k) && r.spans[k].isSizeSpan
      ensures r.maxHeight >= r.spans[k].height
    {
      var j :| 0 <= j < n && SpanIndex(s.letter, j) == k;
      if j > 0 {
        assert SpanIndex(s2.letter, j - 1) == k;
        assert Visited(s2.letter, n - 1, k);
      } else {
        FirstSlotCovered(engine, inited, fonts, s, hasSpans, units, u, pos, lineLength);
      }
    }
  }

  /** The slot the first step reads stays below the final maximum, whether or not a later step reads it again. */
  lemma FirstSlotCovered(engine: Engine, inited: bool, fonts: seq<FontParam>, s: LineState, hasSpans: bool,
                         units: seq<CodeUnit>, u: nat, pos: nat, lineLength: nat)
    requires Catalogued(fonts, s.st.faces) && u < |units| && pos < lineLength && !EndsLine(units[u])
    requires hasSpans && SpansCover(s.spans, s.letter, |units| - u)
    requires s.letter < |s.spans| && SpansCover(s.spans, Inc16(s.letter), |units| - u - 1)
    requires var s2 := LineStep(engine, inited, fonts, s, hasSpans, units[u]).(letter := Inc16(s.letter));
             var r := LineWalk(engine, inited, fonts, s2, hasSpans, units, u + 1, pos + units[u].byteLen, lineLength);
             var n := Steps(units, u + 1, pos + units[u].byteLen, lineLength);
             && r.maxHeight >= s2.maxHeight
             && forall k :: 0 <= k < |r.spans| && Visited(s2.letter, n, k) && r.spans[k].isSizeSpan ==> r.maxHeight >= r.spans[k].height
    ensures var r := LineWalk(engine, inited, fonts, s, hasSpans, units, u, pos, lineLength);
            r.spans[s.letter].isSizeSpan ==> r.maxHeight >= r.spans[s.letter].height
  {
    SpansCoverStep(s.spans, s.letter, |units| - u);
    var s1 := LineStep(engine, inited, fonts, s, hasSpans, units[u]);
    var s2 := s1.(letter := Inc16(s.letter));
    var pos' := pos + units[u].byteLen;
    var k := s.letter as nat;
    if !Visited(s2.letter, Steps(units, u + 1, pos', lineLength), k) {
      LineWalkKeepsUnvisited(engine, inited, fonts, s2, hasSpans, units, u + 1, pos', lineLength, k);
    }
  }

  /** A slot the rest of the walk does not read keeps its value. */
  lemma {:induction false} LineWalkKeepsUnvisited(engine: Engine, inited: bool, fonts: seq<FontParam>, s: LineState, hasSpans: bool,
                                                  units: seq<CodeUnit>, u: nat, pos: nat, lineLength: nat, k: nat)
    requires Catalogued(fonts, s.st.faces) && u <= |units|
    requires hasSpans ==> SpansCover(s.spans, s.letter, |units| - u)
    requires k < |s.spans| && !Visited(s.letter, Steps(units, u, pos, lineLength), k)
    decreases |units| - u
    ensures LineWalk(engine, inited, fonts, s, hasSpans, units, u, pos, lineLength).spans[k] == s.spans[k]
  {
    if u < |units| && pos < lineLength {
      assert SpanIndex(s.letter, 0) == s.letter;
      assert k != s.letter;
      if hasSpans { SpansCoverStep(s.spans, s.letter, |units| - u); }
      var s1 := LineStep(engine, inited, fonts, s, hasSpans, units[u]);
      var s2 := s1.(letter := Inc16(s.letter));
      if !EndsLine(units[u]) {
        var n := Steps(units, u, pos, lineLength);
        forall j | 0 <= j < n - 1 ensures SpanIndex(s2.letter, j) != k {
          assert SpanIndex(s2.letter, j) == SpanIndex(s.letter, j + 1);
        }
        LineWalkKeepsUnvisited(engine, inited, fonts, s2, hasSpans, units, u + 1, pos + units[u].byteLen, lineLength, k);
      }
    }
  }
}
