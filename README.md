# UIFontVector in Dafny

This project models the vector-font manager of the UI graphics framework:
`UIFontVector`, which keeps the catalogue of registered TrueType fonts and
TrueType Collections, hands the raw bytes of a font (or of one sub-font cut
out of a collection) to the text shaper, and rasterizes glyphs through
FreeType into a bitmap cache. It also computes the per-line metrics that
text layout asks for.

The model follows the build with `ENABLE_VECTOR_FONT` on (style-aware glyph
cache) and `ENABLE_MULTI_FONT` off.

- `types.dfy` (`FontTypes`) holds the machine integer types and the header constants. It also defines the font slot record (`FontParam`) and the collection slot record (`TtcInfo`).
- FreeType faces and glyph slots are values (`Face`, `Glyph`, `LoadedGlyph`). Each cache entry is its `Metric` plus its pixels.
- FreeType, the cache allocator and the file system appear as `Engine`: a record of the answers they give. This makes every operation a function of its inputs and of those answers.
- `byte_order.dfy` (`ByteOrder`) covers big-endian words and the host-order store used by the offset rebase.
- `catalogue_spec.dfy` (`CatalogueSpec`) is the catalogue as values. It covers name scans, registration and unregistration, single and batch, of fonts and of collections, and the lookups by name, by code point and by id.
- `collection_reader.dfy` (`CollectionReader`) cuts one sub-font out of a collection stream and rebases its table offsets. This is GetTtfInfoFromTtc, both as a value function and as methods over the caller's `array<byte>`.
- `glyph_spec.dfy` (`GlyphSpec`) and `glyph_path.dfy` (`GlyphPath`) cover the glyph path. This is sizing a face, loading a glyph with or without a synthetic style, storing and reading cache entries, and GetWidth, GetGlyphNode and GetBitmap.
- `line_metrics.dfy` (`LineMetrics`) covers GetOffsetPosY, GetLineMaxHeight and GetMaxSubLineHeight.
- `font_vector.dfy` (`FontVector`) holds the class `UIFontVector`.
  - Its font, face and collection tables are arrays updated in place.
  - Each method is proved to leave exactly the state, and to return exactly the result, that the value-level operation gives for the state it started from.
  - The lemmas of the value modules then carry over to the class.

As the code is written, GetTtfInfo chooses between the collection and the standalone reader on the slot's `size` field. No code in the modelled file writes that field, so it keeps the zero of the initial table. A font registered here as a standalone file is therefore sent down the collection path, which refuses it (`StandaloneFontDispatch`, `StandaloneFontNotRead`). The model keeps this behaviour.

GetGlyphNode always reports the requested font, so GetOffsetPosY classifies every glyph of a line the same way. Its mixed-line branch is then never reached (`OffsetPosYAlwaysZero`). The model keeps this behaviour as well.

## Model

| member | source | states |
|---|---|---|
| ByteOrder.BytesOfWord | frameworks/font/ui_font_vector.cpp:426-427 | encoding the big-endian word of four bytes gives back those four bytes |
| ByteOrder.WordOfBytes | frameworks/font/ui_font_vector.cpp:426-427 | reading back a value's big-endian bytes gives the value: the encoding is a bijection on uint32 |
| ByteOrder.PeekAfterStoreBE | frameworks/font/ui_font_vector.cpp:426-427 | a big-endian peek right after a big-endian store at the same place reads the stored value |
| ByteOrder.DoubleStoreIsBigEndian | frameworks/font/ui_font_vector.cpp:426-427 | a host-order store followed by a store of its own big-endian peek leaves the big-endian encoding of the first value, on either byte order |
| CatalogueSpec.NamePrefix | frameworks/font/ui_font_vector.cpp:99 | names are compared on a prefix of at most TTF_NAME_LEN_MAX characters |
| CatalogueSpec.RegisterScan | frameworks/font/ui_font_vector.cpp:97-124 | the registration scan stops at the first slot that holds the name or is empty, whichever comes first; every earlier slot is set to another name; no slot is found only when every slot is set to another name |
| CatalogueSpec.RegisterScanFindsFilledSlot | frameworks/font/ui_font_vector.cpp:97-101 | once the vacancy the scan found is filled with the name, a scan from the same start finds that slot as holding it |
| CatalogueSpec.RegisterTwiceSameSlot | frameworks/font/ui_font_vector.cpp:97-101 | registering a name into its vacancy and then scanning for it again finds the same slot |
| CatalogueSpec.HoleHidesLaterName | frameworks/font/ui_font_vector.cpp:97-108 | an empty slot before the one holding the name makes the scan take the hole, so the name can end up in two slots |
| CatalogueSpec.FindName | frameworks/font/ui_font_vector.cpp:237-245 | the result is the first slot holding the name, and none means that no slot holds it |
| CatalogueSpec.FindContaining | frameworks/font/ui_font_vector.cpp:543-548 | the result is the first set slot whose name contains the needle, and none means that no set slot contains it |
| CatalogueSpec.TagOf | frameworks/font/ui_font_vector.cpp:557 | the font tag of a code point (bits 24 to 28) is below 32 |
| CatalogueSpec.FindTtfId | frameworks/font/ui_font_vector.cpp:558-567 | the result is the first set slot recording the id, and none means that no set slot records it |
| CatalogueSpec.FindTtfIdOfSelfNamedTable | frameworks/font/ui_font_vector.cpp:558-567 | when every set slot records its own index as its id, looking an id up returns that slot if it is set and nothing otherwise |
| CatalogueSpec.LookupsSeeRegisteredFont | frameworks/font/ui_font_vector.cpp:250-256 | after a font is registered into an empty slot, GetFontInfo gives a record holding its name, shaping flag and id, GetFontWeight gives the colour weight exactly when the face has a colour table, and IsGlyphFont selects it and its flag for a code point tagged with its id |
| CatalogueSpec.IsEmoji | frameworks/font/ui_font_vector.cpp:692-698 | a font is a colour font exactly when its id is in range and its weight is at least 16, which is the same as its FontWeight being at least 16 |
| CatalogueSpec.FontIdByName | frameworks/font/ui_font_vector.cpp:539-552 | the id is the first set slot whose name contains the given one, and FONT_ID_MAX exactly when there is none or no name was given |
| CatalogueSpec.FontIdByCode | frameworks/font/ui_font_vector.cpp:554-569 | the id is valid exactly when some set slot records the code point's tag, and is then the first such slot |
| CatalogueSpec.FontIdByCodeIsTag | frameworks/font/ui_font_vector.cpp:554-569 | with self-numbered slots, the font of a code point is its tag if that slot is set, and FONT_INVALID_TTF_ID otherwise |
| CatalogueSpec.WeightFor | frameworks/font/ui_font_vector.cpp:63-72 | the recorded weight marks a colour font (at least 16) exactly when the face has a colour bitmap table |
| CatalogueSpec.InitialTables | frameworks/font/ui_font_vector.cpp:36-51 | the manager starts with well-formed tables in which every font slot and face slot is empty |
| CatalogueSpec.RegisterFont | frameworks/font/ui_font_vector.cpp:91-126 | (1) a failure leaves the tables unchanged; (2) a success needs a name and an initialised engine; (3) the returned slot holds the name and every earlier slot is set to another name; (4) a slot already holding the name is returned with nothing changed; (5) a new slot gets the face the engine opened, the registered record and the font count slot + 1; (6) a full table with no slot holding the name fails |
| CatalogueSpec.RegisterTwiceIdempotent | frameworks/font/ui_font_vector.cpp:97-100 | registering a name again after it succeeded returns the same slot and changes nothing |
| CatalogueSpec.RegisterBatch | frameworks/font/ui_font_vector.cpp:128-142 | a batch yields one result per entry and keeps the tables well formed, leaving the collection table alone |
| CatalogueSpec.RegisterBatchStep | frameworks/font/ui_font_vector.cpp:134-140 | the batch registers each entry against the tables the previous entry left; its count is that of the entries that did not fail |
| CatalogueSpec.UnregisterFont | frameworks/font/ui_font_vector.cpp:233-248 | the result is invalid exactly when no name was given or no slot holds it, and then nothing changes; otherwise the first slot holding the name has its name and face cleared, and nothing else changes |
| CatalogueSpec.UnregisterFreesSlotForReuse | frameworks/font/ui_font_vector.cpp:91-126 | registering a new name and then unregistering it clears the same slot and restores the name table, so the next registration finds that slot vacant again |
| CatalogueSpec.UnregisterBatch | frameworks/font/ui_font_vector.cpp:218-232 | a batch either fails with FONT_INVALID_TTF_ID or counts every entry, keeping the tables well formed |
| CatalogueSpec.UnregisterBatchFailsAtMissingName | frameworks/font/ui_font_vector.cpp:224-228 | an entry whose name is null or not registered stops the batch with FONT_INVALID_TTF_ID, and no later entry is unregistered |
| CatalogueSpec.UnregisterBatchOfHeldNames | frameworks/font/ui_font_vector.cpp:218-232 | when every entry names a font held at its own distinct slot, the batch counts them all and leaves every one of those slots empty |
| CatalogueSpec.FirstEmpty | frameworks/font/ui_font_vector.cpp:168-170 | the collection loop starts at the first empty font slot: every slot before it is set |
| CatalogueSpec.SubFontsConsecutive | frameworks/font/ui_font_vector.cpp:168-190 | (1) the sub-fonts that open fill consecutive slots from the first empty one, without re-checking occupancy; (2) the m-th goes to that slot plus the number opened before it, with its name, its shaping, id = slot, ttfIndex = m and the collection's index; (3) every other slot is unchanged |
| CatalogueSpec.SubFontsKeepOthers | frameworks/font/ui_font_vector.cpp:171-190 | slots outside the run of opened sub-fonts are unchanged |
| CatalogueSpec.SubFontsPlaced | frameworks/font/ui_font_vector.cpp:171-190 | each opened sub-font's record is at its place in the run |
| CatalogueSpec.PlaceKeepsSlotsAgree | frameworks/font/ui_font_vector.cpp:171-190 | placing sub-fonts keeps every set font slot paired with an open face and numbered by its index |
| CatalogueSpec.RegisterCollection | frameworks/font/ui_font_vector.cpp:145-196 | (1) a failure leaves the tables unchanged; (2) a success needs a name and an initialised engine; (3) it returns the first collection slot holding the name, every earlier slot being set to another name; (4) a slot already holding it is returned with nothing changed; (5) a new slot records the name and the opened stream, and the opened sub-fonts are placed from the first empty font slot |
| CatalogueSpec.RegisterCollectionPlacement | frameworks/font/ui_font_vector.cpp:168-190 | after a new collection is registered, each opened sub-font m sits at the first empty slot plus the number opened before it, with its name, id, ttfIndex, ttcIndex and face |
| CatalogueSpec.UnregisterEach | frameworks/font/ui_font_vector.cpp:208-210 | unregistering the sub-font names keeps the tables well formed and leaves every empty font slot as it was |
| CatalogueSpec.FindTtc | frameworks/font/ui_font_vector.cpp:204-206 | a found slot holds the name and no earlier slot does; nothing is found only when no slot of the collection table holds the name |
| CatalogueSpec.UnregisterTtcReadsPastEnd | frameworks/font/ui_font_vector.cpp:204-215 | as written, a name held by no collection slot runs the scan past the last of the FONT_TTC_MAX slots (see Findings) |
| CatalogueSpec.UnregisterTtcScanAgrees | frameworks/font/ui_font_vector.cpp:204-212 | for a name that is held, the scan as written stops at the same slot as the bounded lookup |
| CatalogueSpec.UnregisterCollection | frameworks/font/ui_font_vector.cpp:198-216 | (1) the result is invalid exactly when a pointer is null or no collection slot holds the name, and then nothing changes; (2) otherwise the first slot holding it has its stream freed while its name stays set; (3) each sub-font name among the first `count` is then unregistered in turn |
| CatalogueSpec.UnregisterTwiceFreesFreedStream | frameworks/font/ui_font_vector.cpp:204-211 | as written, unregistering a collection twice finds the same slot the second time, whose stream is already freed (see Findings) |
| CatalogueSpec.UnregisterCollectionResetting | frameworks/font/ui_font_vector.cpp:198-216 | with the stream pointer reset after the free, the call answers as the code as written does, leaves a null stream in the slot it unregisters, and keeps a table with no freed stream free of them |
| CatalogueSpec.ResettingUnregisterTwiceFreesNothing | frameworks/font/ui_font_vector.cpp:204-211 | with the reset, a second unregister of the same collection finds the same slot holding only a null stream, and no slot refers to freed memory |
| CatalogueSpec.CollectionNameSurvivesUnregister | frameworks/font/ui_font_vector.cpp:145-157 | after a collection is unregistered its slot still holds the name over a freed stream, so registering the name again returns that slot and opens nothing |
| CatalogueSpec.StandaloneFontDispatch | frameworks/font/ui_font_vector.cpp:286-296 | with `size` never written, a font just registered as a file is dispatched to the collection reader with a ttcIndex of FONT_TTC_MAX |
| CollectionReader.PlanExtraction | frameworks/font/ui_font_vector.cpp:362-411 | (1) a stream shorter than the 12-byte header, one without the 'ttcf' tag, or a sub-font index at or past numFonts is rejected; (2) otherwise the plan reads the sub-font's offset from its table entry and its length from the next entry, or from the stream's end for the last sub-font; (3) a length over the buffer size is rejected; (4) a sub-font running past the stream's end is copied only up to that end, and the call fails |
| CollectionReader.PatchedKeepsOtherBytes | frameworks/font/ui_font_vector.cpp:423-429 | the rebase loop writes only the offset fields of the first numTables table records |
| CollectionReader.PatchedField | frameworks/font/ui_font_vector.cpp:423-429 | each of those offset fields ends as its big-endian value minus the sub-font offset, in uint32 arithmetic |
| CollectionReader.ExtractSubFont | frameworks/font/ui_font_vector.cpp:347-431 | (1) no buffer, a zero size, a ttcIndex out of range, a null stream, a stream that is not a collection, or an index at or past numFonts fails with the buffer untouched; (2) success means the sub-font's bytes were copied to the front of the buffer, its table offsets rebased, and ttfHeader.len set to its length; (3) a failure after ttfHeader.len is set comes only from a stream too short to read numTables; when it succeeds is stated by ExtractSubFontOkExactly |
| CollectionReader.PlanPatchesExactly | frameworks/font/ui_font_vector.cpp:362-411 | the parse reaches the copy-and-patch path exactly when the header is a collection's, the index is below numFonts, the offset table holds the sub-font's offset and length, the length is at most the buffer size, the byte range lies in the stream and numTables can be read; the plan then patches numTables records |
| CollectionReader.ExtractSubFontOkExactly | frameworks/font/ui_font_vector.cpp:347-431 | GetTtfInfoFromTtc returns true exactly when there is a buffer, a non-zero size, a collection index below FONT_TTC_MAX with a stream, and the parse reaches the copy-and-patch path |
| CollectionReader.CopyAndPatchContents | frameworks/font/ui_font_vector.cpp:412-429 | after the copy and the rebase, every offset field is rebased, every other copied byte is the stream's, and every byte past the sub-font is the buffer's old byte |
| CollectionReader.CopyAndPatchKeepsBytes | frameworks/font/ui_font_vector.cpp:412-414 | bytes outside the offset fields are the stream's within the sub-font and the buffer's own after it |
| CollectionReader.IntendedExampleLengths | frameworks/font/ui_font_vector.cpp:398-408 | read at the format's positions, a two-font example collection has sub-fonts of 4900 and 4000 bytes |
| CollectionReader.IntendedExtractsLastSubFont | frameworks/font/ui_font_vector.cpp:366-415 | read at the format's positions, extracting the example's last sub-font succeeds with length 4000 |
| CollectionReader.AsWrittenMisreadsLastSubFont | frameworks/font/ui_font_vector.cpp:366-411 | as written, the example's numFonts reads 0x10000, and the last sub-font's length wraps to 0xFFFFEC78 so the extraction fails (see Findings) |
| CollectionReader.AsWrittenFirstSubFontAgrees | frameworks/font/ui_font_vector.cpp:400-408 | for a sub-font that is not the last, the misread numFonts does not change the length |
| CollectionReader.AsWrittenExtractsFirstSubFont | frameworks/font/ui_font_vector.cpp:366-411 | as written, the example's first sub-font is still extracted, 4900 bytes, with a buffer of at least that size |
| CollectionReader.StoreWord | frameworks/font/ui_font_vector.cpp:426 | the buffer becomes its old bytes with the word stored at `at` in host byte order |
| CollectionReader.PeekWord | frameworks/font/ui_font_vector.cpp:426-427 | the result is the big-endian word at `at` |
| CollectionReader.CopyFromStream | frameworks/font/ui_font_vector.cpp:412 | the buffer's first `count` bytes become the stream's from `offset` on and the rest stay |
| CollectionReader.RebaseOffsetField | frameworks/font/ui_font_vector.cpp:426-427 | one offset field becomes its big-endian value minus the offset, stored big-endian, and nothing else changes |
| CollectionReader.RebaseTableOffsets | frameworks/font/ui_font_vector.cpp:424-429 | the buffer becomes its old contents with the first n offset fields rebased |
| CollectionReader.RebaseRecord | frameworks/font/ui_font_vector.cpp:425-428 | one pass of the loop rebases the k-th field on top of the first k |
| CollectionReader.GetTtfInfoFromTtc | frameworks/font/ui_font_vector.cpp:347-431 | the method leaves the buffer, returns the result and sets ttfHeader.len as ExtractSubFont gives, with numFonts read from bytes 4..7 as the code reads it (see Findings); without a buffer it fails and changes nothing |
| GlyphSpec.FromFixed | frameworks/font/ui_font_vector.cpp:845 | dividing 26.6 fixed point by 64 truncates toward zero for either sign |
| GlyphSpec.U16 | frameworks/font/ui_font_vector.cpp:845 | a cast to uint16_t keeps values in range and is otherwise congruent modulo 2^16 |
| GlyphSpec.I16 | frameworks/font/ui_font_vector.cpp:585 | reading a uint16 field as int16_t gives the value or the value minus 2^16, in range |
| GlyphSpec.Narrow16 | frameworks/font/ui_font_vector.cpp:846-847 | storing into an int16 field keeps values in range |
| GlyphSpec.KeyFields | frameworks/font/ui_font_vector.cpp:868-871 | for an 8-bit font id and a 24-bit size, the key's high byte is the font id and its low 24 bits the size |
| GlyphSpec.KeyInjective | frameworks/font/ui_font_vector.cpp:868-871 | within those ranges two keys are equal only for equal font id and size |
| GlyphSpec.KeyAliases | frameworks/font/ui_font_vector.cpp:868-871 | a font id of 256 or more collides with id - 256, and a size with its top byte set collides with the next font id |
| GlyphSpec.NearestFixedSize | frameworks/font/ui_font_vector.cpp:79-87 | the chosen fixed size has the least width difference from the font size, and it is the first of the ties |
| GlyphSpec.LoadCallFor | frameworks/font/ui_font_vector.cpp:745-757 | (1) a shaping code point is refused unless the font is its tag's font, and is then loaded by its low 24 bits as a glyph index; (2) any other code point is loaded as a character, in colour mode exactly for a colour font |
| GlyphSpec.StyleSteps | frameworks/font/ui_font_vector.cpp:784-791 | italic shears, bold emboldens, bold-italic does both with the shear first, and normal does neither |
| GlyphSpec.LoadInto | frameworks/font/ui_font_vector.cpp:758-798 | a loaded glyph has a non-zero index and needs a call that was not refused and an engine load with a non-zero index; without a style it is that load |
| GlyphSpec.HitAgreesWithMiss | frameworks/font/ui_font_vector.cpp:634-657 | the node read from a stored entry equals the node built from the glyph that was stored |
| GlyphPath.SizeFace | frameworks/font/ui_font_vector.cpp:455-484 | (1) sizing succeeds exactly when the id is in range, the size non-zero, the slot set, the engine initialised and the engine accepts the size; (2) a colour font uses the nearest fixed size and any other font the character size; (3) only that face's size changes |
| GlyphPath.SizeFaceNeedsRegisteredFont | frameworks/font/ui_font_vector.cpp:457-467 | an id out of range, an empty slot, a zero size or an uninitialised engine fails and changes nothing |
| GlyphPath.ColourFontWithoutFixedSizes | frameworks/font/ui_font_vector.cpp:474-475 | a colour font without fixed sizes cannot be sized |
| GlyphPath.HeightQuery | frameworks/font/ui_font_vector.cpp:486-497 | GetHeight returns 0xFFFF when sizing fails, 0 without a cache, and otherwise the sized line height in pixels as uint16 |
| GlyphPath.CallFor | frameworks/font/ui_font_vector.cpp:745-757 | the load is refused exactly when the code point is shaped and the font is not its tag's font; index loads use the low 24 bits; character loads use colour mode exactly for colour fonts |
| GlyphPath.LoadGlyph | frameworks/font/ui_font_vector.cpp:742-799 | a load succeeds exactly when the load call yields a glyph; it then replaces only that face's glyph slot, whose index is non-zero, and otherwise nothing changes |
| GlyphPath.ShapedCodeOnlyThroughItsFont | frameworks/font/ui_font_vector.cpp:745-748 | a shaped code point asked of another font fails without touching any face |
| GlyphPath.ShapedCodeLoadsByIndex | frameworks/font/ui_font_vector.cpp:749-750 | a shaped code point asked of its own font is loaded by glyph index from its low 24 bits |
| GlyphPath.StoredEntryPixels | frameworks/font/ui_font_vector.cpp:855-864 | a stored entry is exactly the requested number of bytes, and after the metric come the glyph's bitmap bytes |
| GlyphPath.Width | frameworks/font/ui_font_vector.cpp:571-599 | the width fits int16, and a bad id, a zero size, an uninitialised engine or no cache gives -1 and changes nothing |
| GlyphPath.WidthHitNeedsNoFont | frameworks/font/ui_font_vector.cpp:582-586 | a cached glyph's width is its metric's advance, and nothing changes |
| GlyphPath.WidthMissThenHit | frameworks/font/ui_font_vector.cpp:582-598 | once a width has been measured and cached, asking again gives the same width and state |
| GlyphPath.GlyphNodeStep | frameworks/font/ui_font_vector.cpp:618-664 | the node keeps the caller's style, the cache's presence does not change, and success needs an id in range |
| GlyphPath.GlyphNodeReportsRequestedFont | frameworks/font/ui_font_vector.cpp:640-657 | a successful node reports the requested font id, and a failed call leaves the node unchanged |
| GlyphPath.GlyphNodeHit | frameworks/font/ui_font_vector.cpp:629-641 | a cached glyph yields the node from its metric, with the cache unchanged and the face only sized |
| GlyphPath.GlyphNodeAgreesWithEntry | frameworks/font/ui_font_vector.cpp:633-659 | after a successful call, a cache entry for the glyph yields the same node |
| GlyphPath.GlyphNodeTwice | frameworks/font/ui_font_vector.cpp:618-664 | asking again for a glyph that was cached gives the same node and leaves the cache as it was |
| GlyphPath.BitmapStep | frameworks/font/ui_font_vector.cpp:666-690 | pixels are returned only if GetGlyphNode succeeded, and the node is the one GetGlyphNode fills |
| GlyphPath.BitmapOfFreshGlyph | frameworks/font/ui_font_vector.cpp:666-690 | for a glyph not cached before, the pixels returned are the loaded glyph's bitmap bytes and the node is built from that glyph |
| LineMetrics.FirstWith | frameworks/font/ui_font_vector.cpp:967-983 | the result is the first font slot of the wanted kind, and none means that there is none |
| LineMetrics.MaxOver | frameworks/font/ui_font_vector.cpp:987-990 | the running maximum is at least the start and every slot's height, and it is one of them |
| LineMetrics.SubLineHeight | frameworks/font/ui_font_vector.cpp:963-993 | (1) an all-text line gives the larger of maxHeight and the first text font's height; (2) an all-colour line gives the first colour font's height; (3) a mixed line gives the largest of maxHeight and every font's height; (4) anything else gives maxHeight |
| LineMetrics.MixedLineAtLeastTextLine | frameworks/font/ui_font_vector.cpp:966-991 | a mixed line is never lower than the same line treated as all text |
| LineMetrics.Classify | frameworks/font/ui_font_vector.cpp:892-901 | each glyph increments the loop count and exactly one of the colour and text counts, and only colour glyphs can raise the tallest colour node |
| LineMetrics.OffsetPosY | frameworks/font/ui_font_vector.cpp:906-923 | a one-kind line gives offset 0 and large; otherwise large means the tallest colour glyph is taller than the font size, and the offset is its top above the font size, or the font size above its rows |
| LineMetrics.OffsetWalk | frameworks/font/ui_font_vector.cpp:889-903 | the walk over a line keeps the face table catalogued and the cache's presence |
| LineMetrics.OffsetPosYAlwaysZero | frameworks/font/ui_font_vector.cpp:891-908 | every glyph of a line is classified by the requested font, so the line is one kind and GetOffsetPosY returns 0 with large set |
| LineMetrics.LineWalkAdvances | frameworks/font/ui_font_vector.cpp:941-959 | letterIndex and loopNum advance by the number of code points read, modulo 2^16 |
| LineMetrics.LineWalkCountsEachOnce | frameworks/font/ui_font_vector.cpp:943-944 | textNum + emojiNum = loopNum is kept, modulo 2^16 |
| LineMetrics.LineWalkOnlyMemoises | frameworks/font/ui_font_vector.cpp:945-950 | a size span changes only by having a zero height filled in, and only when spans were given |
| LineMetrics.LineWalkMaxHeight | frameworks/font/ui_font_vector.cpp:945-953 | maxHeight never drops, and ends at least as high as every size span the walk read |
| LineMetrics.LineWalkKeepsUnvisited | frameworks/font/ui_font_vector.cpp:945-955 | spans the walk did not reach are unchanged |
| FontVector.ReadWholeFile | frameworks/font/ui_font_vector.cpp:311-338 | (1) a file that does not open fails and changes nothing; (2) otherwise ttfHeader.len is the file size as uint32; (3) the read succeeds exactly when that fits the buffer size, and then the file's bytes fill the front of the buffer and the rest is unchanged |
| FontVector.TtfInfoOf | frameworks/font/ui_font_vector.cpp:281-300 | GetTtfInfo fails unchanged without a source, extracts from the collection for a collection slot (numFonts read from bytes 4..7, as written), and reads the file otherwise |
| FontVector.StandaloneFontNotRead | frameworks/font/ui_font_vector.cpp:286-296 | a font just registered from a file is not read back: GetTtfInfo fails and leaves buffer and length unchanged |
| FontVector.SetupColorFont | frameworks/font/ui_font_vector.cpp:74-89 | the loop selects the nearest fixed size (NearestFixedSize), and a face without fixed sizes fails |
| FontVector.LineMaxWalk | frameworks/font/ui_font_vector.cpp:940-959 | the walk starts from GetHeight of the line's font; it changes no cache and keeps the span count |
| FontVector.UIFontVector.constructor | frameworks/font/ui_font_vector.cpp:36-51 | the manager starts with empty tables, the font directory, the engine's init result and no cache |
| FontVector.UIFontVector.BitmapCacheInit | frameworks/font/ui_font_vector.cpp:1002-1019 | an existing cache is kept; otherwise a cache exists afterwards exactly when the allocation was granted |
| FontVector.UIFontVector.SetFontPath | frameworks/font/ui_font_vector.cpp:446-453 | a null path fails and keeps the directory, and any other path becomes the directory |
| FontVector.UIFontVector.GetFontIdByName | frameworks/font/ui_font_vector.cpp:539-552 | the result is FontIdByName of the font table |
| FontVector.UIFontVector.GetFontIdByCode | frameworks/font/ui_font_vector.cpp:554-569 | the result is FontIdByCode of the font table |
| FontVector.UIFontVector.IsGlyphFont | frameworks/font/ui_font_vector.cpp:802-810 | the result is GlyphShaping of the font table |
| FontVector.UIFontVector.RegisterFontInfo | frameworks/font/ui_font_vector.cpp:91-126 | tables and result are RegisterFont's, and the tables stay well formed |
| FontVector.UIFontVector.RegisterFontInfoBatch | frameworks/font/ui_font_vector.cpp:128-142 | a null table returns FONT_INVALID_TTF_ID unchanged; otherwise the tables are RegisterBatch's over the first num entries and the count is that of its successes |
| FontVector.UIFontVector.UnregisterFontInfo | frameworks/font/ui_font_vector.cpp:233-248 | tables and result are UnregisterFont's |
| FontVector.UIFontVector.UnregisterFontInfoBatch | frameworks/font/ui_font_vector.cpp:218-232 | a null table returns 0 unchanged; otherwise tables and count are UnregisterBatch's over the first num entries |
| FontVector.UIFontVector.RegisterTtcFontInfo | frameworks/font/ui_font_vector.cpp:145-196 | tables and result are RegisterCollection's, and the tables stay well formed |
| FontVector.UIFontVector.PlaceSubFontsFrom | frameworks/font/ui_font_vector.cpp:168-190 | the sub-font loop leaves the font and face arrays as PlaceSubFonts and PlaceFaces give, from the first empty slot |
| FontVector.UIFontVector.UnregisterEachName | frameworks/font/ui_font_vector.cpp:208-210 | the tables become UnregisterEach's |
| FontVector.UIFontVector.UnregisterTtcFontInfo | frameworks/font/ui_font_vector.cpp:198-216 | tables and result are UnregisterCollection's, with the scan bounded by FONT_TTC_MAX (see Findings) |
| FontVector.UIFontVector.GetTtfInfo | frameworks/font/ui_font_vector.cpp:281-300 | buffer, result and ttfHeader.len are TtfInfoOf's, and without a buffer it fails |
| FontVector.UIFontVector.GetTtfInfoFromTtf | frameworks/font/ui_font_vector.cpp:302-339 | no buffer or a zero size fails untouched; otherwise buffer, result and length are ReadWholeFile's of the font's path |
| FontVector.UIFontVector.GetFaceInfo | frameworks/font/ui_font_vector.cpp:455-484 | faces and result are SizeFace's, the result is 0 or -1, and success sets the key to GetKey(fontId, fontSize) |
| FontVector.UIFontVector.GetHeight | frameworks/font/ui_font_vector.cpp:486-497 | faces and height are HeightQuery's |
| FontVector.UIFontVector.LoadFor | frameworks/font/ui_font_vector.cpp:745-757 | the engine load is the one CallFor selects, and a refused call loads nothing |
| FontVector.UIFontVector.LoadGlyphIntoFace | frameworks/font/ui_font_vector.cpp:742-762 | faces and result are LoadGlyph's without style |
| FontVector.UIFontVector.ApplyStyle | frameworks/font/ui_font_vector.cpp:784-791 | the glyph gets the style's steps in StyleSteps order |
| FontVector.UIFontVector.LoadStyledGlyphIntoFace | frameworks/font/ui_font_vector.cpp:765-799 | faces and result are LoadGlyph's with the style |
| FontVector.UIFontVector.SetFace | frameworks/font/ui_font_vector.cpp:842-865 | the cache becomes StoreGlyph's for the face's glyph under (key, code point, style) |
| FontVector.UIFontVector.SetFaceUnstyled | frameworks/font/ui_font_vector.cpp:812-815 | the unstyled SetFace stores under the normal style |
| FontVector.UIFontVector.GetWidth | frameworks/font/ui_font_vector.cpp:571-599 | faces, cache and width are Width's |
| FontVector.UIFontVector.GetGlyphNode | frameworks/font/ui_font_vector.cpp:618-664 | faces, cache, node and result are GlyphNodeStep's, and the result is 0 or -1 |
| FontVector.UIFontVector.GetBitmap | frameworks/font/ui_font_vector.cpp:666-690 | faces, cache, node and pixels are BitmapStep's |
| FontVector.UIFontVector.GetOffsetPosY | frameworks/font/ui_font_vector.cpp:873-924 | without an engine or a cache it returns 0xFFFF with isEmojiLarge kept; otherwise faces and cache are those of the walk over the line and the offset and flag are OffsetPosY of its tally |
| FontVector.UIFontVector.GetMaxSubLineHeight | frameworks/font/ui_font_vector.cpp:963-993 | the result is SubLineHeight over the registered slots' kinds and line heights |
| FontVector.UIFontVector.LineStepAt | frameworks/font/ui_font_vector.cpp:942-954 | one code point updates faces, spans and counts as LineStep gives |
| FontVector.UIFontVector.WalkLine | frameworks/font/ui_font_vector.cpp:941-959 | the loop leaves faces, spans, letterIndex, counts and maxHeight as LineWalk gives |
| FontVector.UIFontVector.WalkLineStep | frameworks/font/ui_font_vector.cpp:942-958 | one pass ends the line at CR or LF with the walk's result, or leaves a state whose remaining walk gives that result |
| FontVector.UIFontVector.GetLineMaxHeight | frameworks/font/ui_font_vector.cpp:926-961 | without an engine it returns 0xFFFF and changes nothing; otherwise faces, spans and letterIndex are LineMaxWalk's and the height is SubLineHeight of its counts and maximum |

## Left out

- The header `ui_font_vector.h` is not part of this model. Its constants are taken as FONT_ID_MAX = 0xFF, FONT_TTC_MAX = 0x20, FONT_INVALID_TTF_ID = 0xFF, TTF_NAME_LEN_MAX = 128, BPP_BIT_8 = 8, BPP_BIT_32 = 32 and sizeof(Metric) = 10.
- FreeType, the glyph cache's space allocator and the file system are not modelled inside. Their answers are the fields of `Engine`:
  - opening a face or a stream;
  - sizing;
  - loading, shearing, emboldening and rendering a glyph;
  - granting cache space;
  - the whole content of a font file.
- A failed FT_New_Face or FT_Open_Face may leave a handle in the face slot. The model keeps the slot's old value, because that handle is FreeType internal state.
- Cache eviction and cache capacity are left out. Whether the cache grants space is the engine's answer.
- SetItaly and SetBold (the shear matrix and FT_Outline_Embolden, with its strength derived from the face) are the engine's `italic` and `bold`. Only their order and presence are modelled.
- UTF-8 decoding (TypedText::GetUTF8Next) and colour-word detection (TypedText::IsColourWord) are not modelled. Their results are the `CodeUnit`s a line is given as.
- File I/O short of its outcome is left out: the open, seek and read of GetTtfInfoFromTtf are one answer, the file's content or none.
- GetShapingFontId, GetFontHeader, OpenVectorFont, IsVectorFont, the destructor, the `_WIN32` directory setup, SetPsramMemory and the RAM allocator are not modelled. They fall outside the catalogue, collection and glyph-path core modelled here.
- TtfHeader is modelled by its `len` field alone, as a uint32.
- FontVector.UIFontVector.GetTtfInfo requires that the buffer holds bufSize bytes and that a slot's collection stream is not freed. The source reads a freed stream after UnregisterTtcFontInfo, which is use after free.
- FontVector.UIFontVector.GetTtfInfo also requires that the rebase loop's offset fields lie inside the buffer. The source trusts numTables from the stream.
- CollectionReader.GetTtfInfoFromTtc: requires that the buffer holds bufSize bytes and that the rebase loop's offset fields lie inside it. The source trusts numTables from the stream and can write past the buffer.
- FontVector.UIFontVector.RegisterTtcFontInfo requires that the sub-fonts that open fit from the first empty font slot. The source neither bounds that index by FONT_ID_MAX nor re-checks occupancy.
- FontVector.UIFontVector.GetMaxSubLineHeight: requires that every slot the returning loop reads has a face. The source dereferences ftFaces_[i] unchecked.
- FontVector.UIFontVector.GetLineMaxHeight: requires the same of the slots it reads, and that letterIndex stays inside the span array for every code point read.
- FontVector.UIFontVector.GetOffsetPosY: the source's local `glyphNode` is uninitialised. The model takes its starting value as the parameter `node`.
- FontVector.UIFontVector.LineStepAt: states the new spans through LineStep. That LineStep changes only one span is stated for the whole walk, by LineWalkOnlyMemoises, rather than per call.

- FontVector.UIFontVector.UnregisterTtcFontInfo, CatalogueSpec.UnregisterCollection: follow the code as written, so a second call on the same name marks the already freed stream as freed again and succeeds. The second free is not modelled as a failure; UnregisterTwiceFreesFreedStream states that it happens.

## Findings

| source | as written | input that shows it | evidently intended | confidence | as-written member | corrected member |
|---|---|---|---|---|---|---|
| frameworks/font/ui_font_vector.cpp:371-372 | The 12-byte header frame reads ttcTag and then numFonts as consecutive fields, so numFonts takes bytes 4..7, the collection's version (0x00010000 for version 1.0). | A 9000-byte version-1.0 collection with two sub-fonts at offsets 100 and 5000, asking for sub-font 1: numFonts reads 65536, so sub-font 1 is not taken as the last one. Its length becomes the zero after the offset table minus 5000, which wraps to 0xFFFFEC78, and the extraction fails. | numFonts is read at bytes 8..11, where the TrueType Collection header puts it. The last sub-font is then 4000 bytes and is extracted. | not executed | CollectionReader.AsWrittenMisreadsLastSubFont | CollectionReader.IntendedExtractsLastSubFont |
| frameworks/font/ui_font_vector.cpp:204-206 | UnregisterTtcFontInfo scans `i < FONT_ID_MAX` over ttcInfos_, which has FONT_TTC_MAX entries. | Unregistering a collection name that no collection slot holds: the scan reads ttcInfos_[32] and beyond. | The scan stops at FONT_TTC_MAX and returns FONT_INVALID_TTF_ID. | not executed; assumes FONT_TTC_MAX = 0x20 < FONT_ID_MAX | CatalogueSpec.UnregisterTtcReadsPastEnd | CatalogueSpec.UnregisterTtcScanAgrees |
| frameworks/font/ui_font_vector.cpp:207 | UnregisterTtcFontInfo frees the slot's stream with FT_Stream_Free but leaves the pointer and the name in the slot. | Unregistering the same collection name twice: the second call finds the same slot and passes the freed stream to FT_Stream_Free again. | The stream pointer is reset after the free, so a second call frees nothing. | not executed | CatalogueSpec.UnregisterTwiceFreesFreedStream | CatalogueSpec.ResettingUnregisterTwiceFreesNothing |

The class follows the code as written for the first and third rows: it reads numFonts from bytes 4..7 and leaves the freed stream in the slot. The corrected members stand beside it. For the second row, the as-written scan reads outside the table, so the class uses the bounded scan, FindTtc; UnregisterTtcScanAgrees shows that the two agree whenever the name is registered.
