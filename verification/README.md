# Label pipeline of the map viewer, modelled in Dafny

The viewer places text labels with icons over a 3D city model. A point layer
(a Shapefile) supplies the label positions. Its companion dBase III attribute
table (`.dbf`) supplies the name, type and subtype of each point. This project
models the data pipeline behind those labels, all of it in `src/labels.cpp`:

- **`SimpleDBFReader`** (`dbf.dfy`, with `text.dfy` and `bytes.dfy`). It
  reads the 32-byte header and scans the field descriptors. It locates the
  `name*`, `type*` and `subtype*` columns and decodes the fixed-length
  records, cleaning the text of each field with `cleanString`. Type and
  subtype are lower-cased.
- **`determineIconTexture`** (`icons.dfy`). This is an ordered keyword table.
  The first keyword that occurs in the subtype or the type picks the icon
  texture, and `default.png` is the fallback.
- **`getSharedStateSet`** (`cache.dfy`). This is a get-or-load cache of icon
  render states, keyed by texture file name. The image loader is a function
  parameter, and the loaded resource is an opaque type parameter.
- **The label loop of `process_labels`** (`labels.dfy`). Position `i` is
  paired with row `i`, up to the shorter of the two, and there are no pairs
  when the table could not be opened. A pair is dropped when its name is
  noise: shorter than two characters, a generic stop tag, or only digits and
  whitespace. An accepted label is lifted 25 units and given its icon through
  the cache. It then becomes a billboard with an icon quad and a caption, as
  `createLabelNode` builds one.

The model works on bytes and whole numbers:

- Bytes are integers 0..255.
- Text is a `string` in which each character is the Latin-1 image of one
  byte.
- Character classes follow the C locale.
- Positions are integer triples. The only amounts added to a position are
  the lift of 25 (src/labels.cpp:382) and the caption offset of 7 or 0
  (src/labels.cpp:309-310). Both are whole numbers. The icon quad's
  half-size of 6 (src/labels.cpp:265-272) is measured in the quad's own
  frame and is never added to a position.

Each operation comes with a proved property that characterises it:

- For `cleanString`, the slice characterisation and idempotence.
- For the header words, a little-endian round trip.
- For the descriptor scan, where each descriptor sits.
- For column location, the offset formula.
- For the record loop, the record count and the position of each row.
- For the classifier, first-match priority.
- For the cache, transparency over a faithful cache.
- For the label loop, a reference definition by the list of accepted indices,
  and a log of loader calls: each texture that loads is loaded once, and one
  that does not is tried again for every label asking for it.

## Model

| member | source | states |
|---|---|---|
| Text.CleanString | src/labels.cpp:58-71 | the cleaned text is no longer than the input, does not start with whitespace and ends with an alphanumeric, punctuation or high (>127) character |
| Text.CleanStringIsSlice | src/labels.cpp:58-71 | the cleaned text is one contiguous piece of the input: everything before it is whitespace, everything after it is padding (not alnum, punct or >127) |
| Text.CleanStringIdempotent | src/labels.cpp:58-71 | cleaning an already cleaned text changes nothing |
| Text.CleanStringFixes | src/labels.cpp:58-71 | text whose first character is not whitespace and whose last is visible is returned unchanged |
| Text.TrimTrailing | src/labels.cpp:60-65 | the trailing loop keeps a prefix, drops only padding characters, and stops at a visible character |
| Text.TrimLeading | src/labels.cpp:66-69 | the erase keeps a suffix, drops only whitespace, and the result does not start with whitespace |
| Text.Lower | src/labels.cpp:100-101 | `::tolower` applied character by character: same length, each character lowered, no upper-case letter left |
| Text.CString | src/labels.cpp:98-99 | re-reading through `c_str()` keeps the prefix before the first NUL and nothing after it |
| Text.ContainsIff | src/labels.cpp:180-183 | `find(k) != npos` holds exactly when `k` occurs at some position of the text |
| Text.ContainsTransitive | src/labels.cpp:180-183 | a text containing a keyword contains every keyword occurring inside that keyword |
| Bytes.EncodeDecodeU16 | src/labels.cpp:86-87 | a 2-byte little-endian read, written back, gives exactly the bytes read |
| Bytes.DecodeEncodeU16 | src/labels.cpp:86-87 | reading back a 2-byte little-endian encoding gives the original value |
| Bytes.EncodeDecodeU32 | src/labels.cpp:85 | a 4-byte little-endian read, written back, gives exactly the bytes read |
| Bytes.DecodeEncodeU32 | src/labels.cpp:85 | reading back a 4-byte little-endian encoding gives the original value |
| Bytes.U16AtDigits | src/labels.cpp:86-87 | the low byte of a 16-bit reading is the first byte read and the high byte the second |
| Bytes.U32AtHalves | src/labels.cpp:85 | the low half of a 32-bit reading is the first byte pair read and the high half the second |
| Dbf.HeaderWords | src/labels.cpp:78-87 | record count, header length and record length are the little-endian words at bytes 4..8, 8..10 and 10..12, within their widths |
| Dbf.DescriptorAt | src/labels.cpp:94-103 | a descriptor's name has at most 11 characters, no NUL and no upper case; its length is the unsigned byte at offset 16 |
| Dbf.ScanDescriptorsSpec | src/labels.cpp:91-96 | the k-th descriptor read sits 32·k bytes after the header, below `headerSize - 1`, lies inside the file and does not start with 0x0D; the scan stops at the first slot at or past `headerSize - 1`, running past the end of the file, or starting with 0x0D |
| Dbf.FailedLoopNeverEnds | src/labels.cpp:91-95 | once a read has failed, `tellg()` stays -1, which is below `headerSize - 1` for any positive header size, so the loop as written never ends |
| Dbf.CutOffLoopNeverEnds | src/labels.cpp:91-95 | a descriptor slot cut off by the end of the file, and not starting with 0x0D, makes the loop as written run forever |
| Dbf.TruncatedDescriptorsExample | src/labels.cpp:91-95 | a 40-byte file declaring a 100-byte header whose only descriptor is cut off hangs the loop as written, while the corrected scan reads no descriptor |
| Dbf.ScanAgreesWithAsWritten | src/labels.cpp:91-96 | wherever the loop as written finishes, it reads exactly the descriptors of the corrected scan |
| Dbf.ShortTerminatorExample | src/labels.cpp:91-96 | a 0x0D read by a short, failing read still ends the loop as written; the stream stays failed and the file yields no rows |
| Dbf.FailedScanGivesNoRows | src/labels.cpp:124-130 | when the descriptor scan ended on a short read, a positive record length reads no record at all |
| Dbf.Assign | src/labels.cpp:105-119 | one descriptor overwrites exactly the columns whose prefix its name starts with and leaves the others as they were |
| Dbf.LastMatch | src/labels.cpp:105-119 | the index found has the prefix and no later descriptor has it; none found means no descriptor has it |
| Dbf.LocateFieldsSpec | src/labels.cpp:89-122 | from any start offset, a column ends at the last descriptor with its prefix, at the start offset plus the lengths of the descriptors before it |
| Dbf.FieldOffsets | src/labels.cpp:89-122 | a located column's offset is 1 plus the lengths of all earlier descriptors, with the length of the last descriptor whose name starts with the column's prefix; an unnamed column stays absent |
| Dbf.FieldText | src/labels.cpp:133-143 | a column yields text exactly when it was located |
| Dbf.DecodeRecord | src/labels.cpp:132-148 | a row holds the cleaned name as stored and the cleaned, lower-cased type and subtype; absent columns give "", "default" and "" |
| Dbf.RecordBlocks | src/labels.cpp:124-130 | at most the declared number of blocks are read, each of the record length, and only when a record is declared and its block is complete |
| Dbf.DecodeAll | src/labels.cpp:132-150 | one row per block read, each conforming to the located columns |
| Dbf.RecordBlocksCount | src/labels.cpp:127-130 | with a zero record length all declared records are read; otherwise reading stops exactly at the first block that runs past the end of the file |
| Dbf.RecordBlocksAt | src/labels.cpp:127-130 | block k is the record-length bytes at the k-th record position, inside the file |
| Dbf.RecordBlocksTotal | src/labels.cpp:124-130 | all declared blocks are read when the file is long enough for them; otherwise the first block not read runs past the end of the file |
| Dbf.RecordBlocksAtProduct | src/labels.cpp:124-130 | block k is the record-length bytes at `start + k * recordSize`, inside the file |
| Dbf.BlockIsProduct | src/labels.cpp:124-129 | the sequential reads place block k at `headerSize + k * recordSize` |
| Dbf.BlockSucc | src/labels.cpp:127-129 | each read advances the stream by one record length |
| Dbf.Parse | src/labels.cpp:73-154 | a file yields at most the declared number of rows, each conforming to the located columns (defaults, lower-case type and subtype) |
| Dbf.Load | src/labels.cpp:73-76 | the reader fails exactly when the file cannot be opened, and otherwise yields the file's rows |
| Dbf.RecordCount | src/labels.cpp:127-151 | a file holding all declared records yields exactly that many rows; a shorter table stops at the first record that runs past the end of the file; after a failed descriptor read the rows are the declared count with a zero record length and none otherwise |
| Dbf.ParsedRow | src/labels.cpp:124-151 | row k is the record at `headerSize + k * recordSize` (`Dbf.RecordStart`) decoded with the file's columns, which fit it, and that record lies inside the file |
| Icons.FirstMatch | src/labels.cpp:177-211 | the answer is the default texture or the texture of some rule |
| Icons.Classify | src/labels.cpp:177-211 | the classifier is total and always names one of the eleven known textures, never the empty name |
| Icons.FirstMatchPriority | src/labels.cpp:180-210 | when rule i is the first whose keyword matches, its texture is the answer, whatever later rules match |
| Icons.FirstMatchNone | src/labels.cpp:180-210 | with no matching keyword the answer is the default |
| Icons.ClassifyPriority | src/labels.cpp:185-208 | the classifier answers with the texture of the first table rule whose keyword occurs in the subtype or the type |
| Icons.ClassifyDefault | src/labels.cpp:210 | with no keyword in either text the classifier answers `default.png` |
| Icons.ClassifyBusStop | src/labels.cpp:186 | `bus_stop` in the type or in the subtype gives `bus.png` |
| Icons.ShadowedBefore | src/labels.cpp:180-210 | when rule i matches, the answer comes from one of the rules up to i |
| Icons.PublicBuildingShadowed | src/labels.cpp:200-208 | a text containing `public_building` never gets `hall.png` through that rule, because it also contains the earlier `pub` |
| Icons.EarlyIconsAreNotHall | src/labels.cpp:186-200 | none of the rules up to `pub` selects `hall.png` |
| TextureCache.GetShared | src/labels.cpp:213-251 | an empty name gives null without a load; a cached name gives its entry without a load; otherwise the loader is called once, a found resource is stored under its name, a miss changes nothing, old entries are kept |
| TextureCache.LookupTransparent | src/labels.cpp:213-251 | over a cache whose entries are what the loader gives, a lookup answers what a fresh load would, and the cache stays so |
| TextureCache.SecondLookupReuses | src/labels.cpp:219-223 | after a lookup that found a resource, a second lookup of the same name returns the same resource without loading and without changing the cache |
| TextureCache.LookupAllGrows | src/labels.cpp:213-251 | over any run of lookups the cache keeps every earlier entry and gains only names that were looked up |
| Labels.PairCount | src/labels.cpp:347-350 | the number of pairs is the smaller of the position and row counts, and zero when the table could not be opened |
| Labels.AcceptedIndices | src/labels.cpp:353-380 | the pairs that pass the filters, each once, in increasing order |
| Labels.CorrelateSpec | src/labels.cpp:353-380 | the k-th label is built from the k-th accepted pair, so labels keep the input order |
| Labels.LabelsPassFilters | src/labels.cpp:362-382 | every label's name has at least two characters, is not a stop tag, has a character that is neither digit nor whitespace, and the label's position is its pair's position lifted by 25 |
| Labels.FilterExamples | src/labels.cpp:362-378 | "12345", "A", "bus_stop" and "12" are rejected; "Bus Stop 12" and "Cafe Rex" are kept |
| Labels.BuildNode | src/labels.cpp:253-318 | a billboard holds the icon quad first when there is a texture, and the caption last when the name is non-empty; the caption is 7 above the anchor only with an icon |
| Labels.CaptionAboveIcon | src/labels.cpp:291-310 | with texture and name, the caption sits straight above the icon's centre by 7 units |
| Labels.NodesForStep | src/labels.cpp:393 | one more label appends its node at the end |
| Labels.LoadedKeysStep | src/labels.cpp:385-393 | one more label adds its texture name to the loaded set exactly when its texture loads |
| Labels.LoadedKeysAreIcons | src/labels.cpp:385-393 | every texture name a label can load is one of the eleven names the classifier produces |
| Labels.RequestsStep | src/labels.cpp:384-386 | one more label appends its texture name to the requests |
| Labels.FirstRequestOfLoadable | src/labels.cpp:219-236 | a texture that loads and is not yet cached was asked for by no earlier label, since the loader answers by name alone and would have loaded it then |
| Labels.LoadLogStep | src/labels.cpp:219-236 | serving one more label appends its texture name to the loader log exactly when the name is not cached, and keeps the log's counts: loaded names once, failed names once per request |
| Labels.IconAndNode | src/labels.cpp:385-393 | the loader runs exactly when the label's texture name is not cached; the node carries what a fresh load of its texture gives, and the cache gains the name only when the texture loads |
| Labels.ProcessLabels | src/labels.cpp:347-394 | one node per accepted pair in input order, each built with its label's texture; the cache ends holding exactly the textures that loaded, each the loader's own result, all from the icon table; every texture that loaded went through the loader exactly once, and every one that did not was tried once per label asking for it |

## Left out

- Reading the file from disk is left out. `Dbf.Load` takes the file's bytes, or `None` when it cannot be opened.
- Dbf.Loadable is a precondition, not an error path. It excludes two cases where the C++ has undefined behaviour:
  - A file shorter than the 32-byte header. Under 12 bytes, the header words are read from uninitialised memory. From 12 to 31 bytes the header words are all read, but the short read fails the stream and `tellg()` answers -1. With a header length of 1 or more, the descriptor loop as written then never ends. With a header length of 0, the loop never runs and the record loop reads from the failed stream, giving no rows when records have a length and the declared number of rows `("", "default", "")` when they do not. The reader would accept such a file, but the model does not.
  - A located column reaching past the record length, which reads past the record buffer. This is required only when at least one record is decoded.
- Dbf.ScanDescriptors stops at a descriptor slot cut off by the end of the file, where the loop as written never ends (see Findings). A cut-off slot starting with 0x0D ends both. After such a short read the stream stays failed, so the record loop reads from an empty stream: a zero record length gives the declared number of empty records and a positive one gives none.
- Dbf.HeaderWords: reads little-endian, which is the layout of the format. The source copies the raw bytes into host integers, so this holds only on little-endian hosts.
- Dbf.FieldOffsets: when several descriptors share a column's prefix, each one overwrites the column (src/labels.cpp:105-119), so the last one wins.
- Text.ToLower: changes only `A`..`Z`, as `::tolower` does in the C locale. Other locales are not modelled. The source passes a plain `char` (src/labels.cpp:100-101, 145-148), so on hosts where `char` is signed, bytes above 127 arrive as negative values, for which the C standard leaves `tolower` undefined. The model leaves them unchanged, as glibc does.
- The image loader (`osgDB::readRefImageFile`) is a function parameter. Building the texture, blend function and render hints around a loaded image is part of producing the opaque resource. The "texture not found" warning is not modelled.
- createLabelNode keeps only its content: which drawables, in what order, where, and with which texture or text. The quad's texture coordinates and colours, the font and its single-slot static cache, the text style and the billboard mode are not modelled.
- Locating and opening the point layer is left out, as are the geodetic and world-to-local transforms and the vertex extraction (`OnlyGeometryExtractor`). Positions come in as a sequence of points.
- Positions are whole-number triples rather than 32-bit floats. Only the lift of 25 (src/labels.cpp:382) and the caption offset of 7 or 0 (src/labels.cpp:309-310) are added to a position.
- The console messages and the unused `finalLabels` vector are left out.
- Labels.ProcessLabels returns the billboards, the final cache and the log of names passed to the loader rather than an `osg::Group`.

## Findings

| source | as written | input that shows it | evidently intended | confidence | as-written member | corrected member |
|---|---|---|---|---|---|---|
| src/labels.cpp:91-95 | the descriptor loop tests only `tellg() < headerSize - 1`; a read cut off by the end of the file fails the stream, `tellg()` answers -1 from then on, and the loop never ends unless the cut-off slot starts with 0x0D | a 40-byte file whose header declares `headerSize` 100, with byte 32 equal to 0x41 | stop scanning at the end of the file, reading no further descriptor | not executed | Dbf.DescriptorLoopAsWritten, shown by Dbf.CutOffLoopNeverEnds and Dbf.TruncatedDescriptorsExample | Dbf.ScanDescriptors, related by Dbf.ScanAgreesWithAsWritten |
