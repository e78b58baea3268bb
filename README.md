# Amiga Hunk reader, writer and relocator

This project models the core of `amiga_hunk.py`, a reader and writer for the Amiga
"hunk" executable and object format with a relocator. It states properties of that
core and proves them. The core has five layers:

- **Block codec** (`HunkBlock` and its subclasses). Each block kind is parsed from a
  big-endian byte stream at a cursor and written back. The model covers header,
  segment, long- and word-form relocation, symbol, debug, unit, name, external
  symbol, overlay, library and index blocks.
  - Parsers are total functions over `seq<Byte>` returning `Result<Read<T>>`.
  - Writers are functions producing bytes.
  - Round-trip lemmas prove `parse(write(b)) == b` for every kind the writer and
    the reader treat as inverses.
- **Block stream** (`HunkBlockFile`). Tags are masked to 16 bits. Inside load-seg
  files, tag 1015 is read as 1020 and written back as 1015. `peek_type` and
  `detect_type` classify the container. `read` and `write` are methods of a class,
  proved equal to the stream functions. The whole file round-trips.
- **Load-segment assembler** (`HunkSegment`, `HunkLoadSegFile`).
  - `HunkSegment.parse` and `create` collect and lay out a segment's blocks.
  - `parse_block_file` runs its two rounds: split at `HUNK_END`, then re-split at
    segment blocks. It then matches the runs to the header.
  - `create_block_file` writes the segments back.
  - The class methods are proved against functions that return the new state and
    the error raised, if any.
- **Format bridge** (`BinFmtHunk`, `HunkDebug`, and the `Segment`/`BinImage`
  program model). This covers the import and export between hunk segments and
  program segments:
  - the merging of relocation blocks per target segment;
  - the short or long relocation form;
  - symbols;
  - SAS/C `LINE` debug tables, including the flag byte packed into the top of the
    line number and the directory split of source paths.

  Export takes a setup call. `AsWritten` is the source's call, which leaves every
  segment's size at 0. `SizeByName` passes the size by keyword, as the authors
  evidently meant (see "## Findings").
  - The main theorem is the round trip at block level: export, create, parse,
    import. It is stated for both calls and for every image whose values the
    format can hold.
  - With `SizeByName` it returns the image with each segment's size rounded up to
    whole longwords and each source path split into directory and file.
  - As written, the header table is all zeros and every segment comes back with
    size 0.
  - At byte level, saving as written and loading again fails for an image of one
    code segment, because the code bytes are read as the next block tag. With
    `SizeByName` the same image comes back.
- **Relocator** (`Relocate`). It computes segment sizes and the sequential layout
  of segment addresses. It copies segment data into byte arrays and patches every
  relocated field with a signed 32-bit read-add-write. These are imperative methods
  over `array<Byte>`, each proved against a specification function on `seq<Byte>`.

Python 2 semantics are written out explicitly:
- `/` on integers floors;
- `struct.pack`/`unpack` raise outside their ranges;
- `f.read(n)` returns fewer bytes at the end of the stream;
- a slice assignment past the end of a `bytearray` grows it.

The model follows the code where the prose description of the format says
otherwise:
- Relocation overflow raises. A field whose relocated value leaves the signed
  32-bit range fails `struct.pack(">i")` (`amiga_hunk.py:1829-1831`). It does not
  wrap around.
- `HUNK_NAME` is among the "extra" tags the first round of `parse_block_file`
  accepts (`amiga_hunk.py:105-111`). `HunkSegment.parse` then rejects it
  (`amiga_hunk.py:1393-1398`).
- A run without a segment block is dropped silently by the second round
  (`amiga_hunk.py:1690-1705`). It is not an error.
- `peek_type` classifies the unmasked tag (`amiga_hunk.py:849-851`). A header tag
  with memory flags set is "unknown" to it, while `read` accepts it.
- Some short reads are not errors:
  - A segment's or a debug block's data is read with an unchecked `f.read`
    (`amiga_hunk.py:274`, `418`).
  - A short name in a unit or name block is kept as `None`
    (`amiga_hunk.py:158-162`, `460-461`).
- The `HEAD` signature check is an `assert` (`amiga_hunk.py:1238`). It is modelled
  as an error result.

## Model

| member | source | states |
|---|---|---|
| Base.ReadUpTo | amiga_hunk.py:158-162 | `f.read(n)` returns n bytes exactly when n remain, otherwise the rest of the stream; the cursor moves past what was returned |
| Base.ReadLongAt | amiga_hunk.py:132-137 | `_read_long` succeeds exactly when four bytes remain, returns an unsigned 32-bit value and advances the cursor by 4 |
| Base.ReadWordAt | amiga_hunk.py:140-145 | `_read_word` succeeds exactly when two bytes remain, returns an unsigned 16-bit value and advances the cursor by 2 |
| Base.LongRoundTrip | amiga_hunk.py:172-174 | unpacking `struct.pack(">I", v)` gives back v for every 32-bit v |
| Base.LongValueRoundTrip | amiga_hunk.py:132-137 | packing the value of any four bytes gives back those bytes |
| Base.WordRoundTrip | amiga_hunk.py:177-179 | unpacking `struct.pack(">H", v)` gives back v for every 16-bit v |
| Base.WordValueRoundTrip | amiga_hunk.py:140-145 | packing the value of any two bytes gives back those bytes |
| Base.ReadLongBytes | amiga_hunk.py:132-137 | the value `_read_long` returns encodes exactly the four bytes it consumed |
| Base.ReadWordBytes | amiga_hunk.py:140-145 | the value `_read_word` returns encodes exactly the two bytes it consumed |
| Base.ReadLongOfLong | amiga_hunk.py:132-137 | a written long at the cursor is read back as its value with the cursor 4 further |
| Base.ReadWordOfWord | amiga_hunk.py:140-145 | a written word at the cursor is read back as its value with the cursor 2 further |
| Base.SignedLongValue | amiga_hunk.py:1824-1826 | `struct.unpack(">i")` yields a value in the signed 32-bit range |
| Base.SignedLong | amiga_hunk.py:1829-1831 | `struct.pack(">i")` is defined on the signed 32-bit range and yields four bytes |
| Base.SignedLongRoundTrip | amiga_hunk.py:1824-1831 | `read_long` of what `write_long` stored is the stored value, for every signed 32-bit value |
| Base.Zeros | amiga_hunk.py:1771 | `bytearray(n)` is n zero bytes |
| HunkIds.KindOf | amiga_hunk.py:734-760 | a tag selects a codec exactly when it lies in 999..1020 other than 1012; 1001..1003 select the segment codec; 1004..1006 and 1015..1017 select the long relocation codec |
| HunkIds.MapBlkIdToType | amiga_hunk.py:854-862 | `_map_blkid_to_type` is load-seg exactly for `HUNK_HEADER`, unit exactly for `HUNK_UNIT`, library exactly for `HUNK_LIB` |
| Names.FirstNul | amiga_hunk.py:163 | `find('\0')`: the index of the first NUL, or the length when there is none; no NUL before it |
| Names.NameLongs | amiga_hunk.py:183 | `int((n + 3) / 4)` is the least number of longwords holding n bytes |
| Names.ReadNameSize | amiga_hunk.py:158-169 | `_read_name_size` reads (count & 0xffffff) * 4 bytes; it is the short result (-1, None) exactly when fewer remain, leaving the cursor at the end; otherwise the text is at most that size |
| Names.ReadNameSizeText | amiga_hunk.py:163-169 | the text read is the NUL-free prefix of the field up to its first NUL, and the size is 0 exactly when the field starts with a NUL |
| Names.ReadName | amiga_hunk.py:147-155 | `_read_name` fails exactly on a short count; a zero count is the terminator (0, "") after 4 bytes |
| Names.EncodeName | amiga_hunk.py:181-190 | `_write_name` writes 4 + 4 * ceil(n/4) bytes, a whole number of longwords |
| Names.EncodeNameLayout | amiga_hunk.py:181-190 | the written field is the count long, the name, then zero padding |
| Names.NameCountSplit | amiga_hunk.py:187-189 | the low 24 bits of the count long are the unit count and, for a tagged name, the top byte is the tag |
| Names.ReadNameSizeOfEncoded | amiga_hunk.py:158-190 | a NUL-free name written by `_write_name`, tagged or not, is read back by `_read_name_size` with its padded size |
| Names.ReadNameOfEncoded | amiga_hunk.py:147-190 | a non-empty NUL-free name written untagged is read back by `_read_name` |
| Names.EmptyNameIsTerminator | amiga_hunk.py:152-153 | the empty name is written as a single zero long, which reads back as the list terminator |
| BlockParse.LongsLoop | amiga_hunk.py:303-305 | reading n longs consumes exactly 4n bytes and appends n values after those already collected |
| BlockParse.WordsLoop | amiga_hunk.py:341-343 | reading n words consumes exactly 2n bytes and appends n values after those already collected |
| BlockParse.MaskedSizes | amiga_hunk.py:235-241 | each of the n stored sizes ANDed with 0x3fffffff, so every entry is below 2^30 |
| BlockParse.HunkSizesLoop | amiga_hunk.py:235-241 | the size table loop succeeds exactly when 4 bytes per entry remain; it appends each stored long ANDed with 0x3fffffff and moves past the table |
| BlockParse.ParseHeader | amiga_hunk.py:216-241 | a parsed header holds `last_hunk - first_hunk + 1` sizes (none when that is negative), each the stored long ANDed with 0x3fffffff |
| BlockParse.ParseSegment | amiga_hunk.py:268-274 | a segment block parses exactly when its size long is present; it carries data exactly when it is not `HUNK_BSS` |
| BlockParse.ParseDebug | amiga_hunk.py:415-418 | a debug block parses exactly when its long count is present; its data read is unchecked |
| BlockParse.ParseOverlay | amiga_hunk.py:386-389 | an overlay block parses exactly when its long count is present; its data read is unchecked |
| BlockParse.ParseUnitName | amiga_hunk.py:460-461 | a unit or name block fails only on a short count; a short name is kept as `None` |
| BlockParse.ParseExtPayload | amiga_hunk.py:513-525 | the payload is a common size exactly for `EXT_ABSCOMMON`, a reference list exactly for other types at or above 0x80, otherwise a definition value |
| BlockParse.IndexDefsLoop | amiga_hunk.py:676-681 | n symbol definitions take exactly 6n bytes and yield n entries |
| BlockParse.ParseIndexHunk | amiga_hunk.py:663-683 | one index hunk record consumes exactly 5 + num_refs + 3 * num_defs words |
| BlockParse.IndexHunksLoop | amiga_hunk.py:663-683 | the word budget drops by at least 5 per hunk record read |
| BlockReaders.ReadLongs | amiga_hunk.py:303-305 | the cursor loop over n longs gives what `LongsLoop` gives |
| BlockReaders.ReadWords | amiga_hunk.py:341-343 | the cursor loop over n words gives what `WordsLoop` gives |
| BlockReaders.ReadHeaderNames | amiga_hunk.py:218-224 | the resident-library name loop gives what `HeaderNamesLoop` gives, its error included |
| BlockReaders.ReadHunkSizes | amiga_hunk.py:235-241 | the size table loop gives what `HunkSizesLoop` gives, so each entry is masked with 0x3fffffff |
| BlockReaders.ReadHeader | amiga_hunk.py:216-241 | `HunkHeaderBlock.parse` gives what `ParseHeader` gives |
| BlockReaders.ReadRelocLong | amiga_hunk.py:296-306 | the long relocation loop gives what `RelocLongLoop` gives |
| BlockReaders.ReadRelocWord | amiga_hunk.py:331-347 | the word relocation loop, with its `num_words` counter and the pad word read when the count is odd, gives what `RelocWordLoop` gives |
| BlockReaders.ReadSymbols | amiga_hunk.py:437-443 | the symbol loop gives what `SymbolLoop` gives |
| BlockReaders.ReadExtEntries | amiga_hunk.py:501-527 | the external symbol loop gives what `ExtLoop` gives |
| BlockReaders.ReadIndexDefs | amiga_hunk.py:676-681 | the symbol definition loop of an index hunk record gives what `IndexDefsLoop` gives |
| BlockReaders.ReadIndexHunk | amiga_hunk.py:664-681 | one index hunk record is read as `ParseIndexHunk` says |
| BlockReaders.ReadIndexHunks | amiga_hunk.py:663-683 | the hunk loop of one unit, charging each record to the word budget, gives what `IndexHunksLoop` gives |
| BlockReaders.ReadIndexUnits | amiga_hunk.py:655-686 | the `while num_words > 1` unit loop and the alignment word give what `IndexUnitsLoop` gives |
| BlockReaders.ReadIndex | amiga_hunk.py:647-686 | `HunkIndexBlock.parse` gives what `ParseIndex` gives |
| BlockWrite.EncodeLongs | amiga_hunk.py:313-314 | n longs are written as 4n bytes |
| BlockWrite.EncodeWords | amiga_hunk.py:355-356 | n words are written as 2n bytes |
| BlockWrite.EncodeHeader | amiga_hunk.py:243-254 | the header is its names, a zero long, three longs and 4 bytes per size |
| BlockWrite.EncodeRelocLong | amiga_hunk.py:308-315 | the long relocation table is a whole number of longwords |
| BlockWrite.EncodeWordGroups | amiga_hunk.py:349-357 | the word groups take 2 + len(offsets) words each |
| BlockWrite.EncodeIndexDefs | amiga_hunk.py:716-719 | each index symbol definition takes three words |
| BlockWrite.EncodeIndexHunk | amiga_hunk.py:704-721 | a written index hunk record takes exactly the words the parser's count formula charges for it |
| BlockWrite.EncodeIndexHunks | amiga_hunk.py:704-721 | a unit's hunk records take the sum of their words |
| BlockWrite.EncodeIndexUnits | amiga_hunk.py:699-721 | unit records take 3 words each plus their hunk records |
| BlockRoundTrip.LongsLoopOfEncoded | amiga_hunk.py:303-314 | written offsets read back in order, after those already collected |
| BlockRoundTrip.WordsLoopOfEncoded | amiga_hunk.py:341-356 | written word offsets read back in order, after those already collected |
| BlockRoundTrip.HunkSizesLoopOfEncoded | amiga_hunk.py:235-254 | sizes below 2^30 survive the 0x3fffffff mask and read back in order |
| BlockRoundTrip.HeaderSizeMasked | amiga_hunk.py:235-241 | a stored size v reads back as v mod 2^30, so 0x80000010 and 0x10 both read as 0x10 |
| BlockRoundTrip.HeaderNamesStep | amiga_hunk.py:218-224 | a zero-size name ends the resident-library loop; any other name is appended and the loop goes on |
| BlockRoundTrip.HeaderNamesLoopOfReadable | amiga_hunk.py:218-224 | names readable one after another are collected in order, ending after the terminating zero long |
| BlockRoundTrip.HeaderNamesFromStart | amiga_hunk.py:218-247 | the written resident-library names and their terminator read back as the same list |
| BlockRoundTrip.ParseHeaderOfParts | amiga_hunk.py:216-241 | the header is the names loop result, the three range longs and the masked size table |
| BlockRoundTrip.HeaderOfEncoded | amiga_hunk.py:216-254 | `HunkHeaderBlock.parse(write(b)) == b`, ending just after the written header |
| RelocRoundTrip.RelocLongLoopOfEncoded | amiga_hunk.py:296-315 | a written long relocation table with no empty group reads back as the same groups |
| RelocRoundTrip.RelocLongEmptyGroupEnds | amiga_hunk.py:298-300 | a written group with no offsets reads back as the table's terminator: it and every later group are lost |
| RelocRoundTrip.RelocWordAligned | amiga_hunk.py:349-363 | the written word table, padded when its word count is odd, is a whole number of longwords |
| RelocRoundTrip.RelocWordEnd | amiga_hunk.py:345-347 | the terminator is followed by the padding word exactly when the word count is odd, and the reader consumes both |
| RelocRoundTrip.RelocWordLoopOfEncoded | amiga_hunk.py:331-363 | written word groups read back in order, with their terminator and padding consumed |
| RelocRoundTrip.RelocWordOfEncoded | amiga_hunk.py:331-363 | `HunkRelocWordBlock.parse(write(b)) == b` for groups without an empty offset list |
| BodyRoundTrip.SymbolLoopOfEncoded | amiga_hunk.py:437-449 | written (name, offset) pairs read back in order up to the zero terminator |
| BodyRoundTrip.ReadNameSizeMask | amiga_hunk.py:159 | `_read_name_size` depends only on the low 24 bits of its count |
| BodyRoundTrip.ExtNameAt | amiga_hunk.py:503-508 | a tagged name's count long gives back the type in its top byte and the name in its low 24 bits |
| BodyRoundTrip.ExtPayloadAt | amiga_hunk.py:513-544 | the payload written for an entry's type reads back as that payload |
| BodyRoundTrip.ExtLoopOfEncoded | amiga_hunk.py:501-545 | written external-symbol entries read back in order up to the zero tag |
| BodyRoundTrip.UnitNameOfEncoded | amiga_hunk.py:460-479 | a unit or name block's written name reads back, the empty name included |
| BodyRoundTrip.DebugOfEncoded | amiga_hunk.py:415-423 | debug data of whole longwords reads back |
| BodyRoundTrip.DebugUnalignedIsCut | amiga_hunk.py:415-423 | debug data that is not a whole number of longwords loses its last 1-3 bytes: the count is floored on write |
| BodyRoundTrip.SegmentOfEncoded | amiga_hunk.py:268-280 | a code or data block reads back with its data and the stream offset of that data |
| BodyRoundTrip.BssOfEncoded | amiga_hunk.py:268-280 | a BSS block is its size long alone and reads back |
| DispatchRoundTrip.RelocLongBlockOfEncoded | amiga_hunk.py:740-755 | every tag of the long relocation codec reads its written table back |
| DispatchRoundTrip.RelocWordBlockOfEncoded | amiga_hunk.py:741 | the `HUNK_RELOC32SHORT` codec reads its written table back |
| DispatchRoundTrip.SymbolBlockOfEncoded | amiga_hunk.py:744 | the `HUNK_SYMBOL` codec reads its written symbols back |
| DispatchRoundTrip.ExtBlockOfEncoded | amiga_hunk.py:756 | the `HUNK_EXT` codec reads its written entries back |
| DispatchRoundTrip.UnitBlockOfEncoded | amiga_hunk.py:749-750 | the unit and name codecs read their written name back |
| DispatchRoundTrip.SegmentBlockOfEncoded | amiga_hunk.py:737-739 | the segment codec reads a written segment block back |
| DispatchRoundTrip.BlockOfEncoded | amiga_hunk.py:734-760 | for every block kind except overlay, library and index, the codec its tag selects parses what it wrote back to the same block |
| BlockFile.ReadId | amiga_hunk.py:793-801 | the tag is masked to 16 bits, and it changes only when 1015 is read in a load-seg file |
| BlockFile.ReadOne | amiga_hunk.py:787-809 | one block: nothing exactly at the end of the stream, `TagTooShort` for 1-3 trailing bytes, otherwise a block after at least its tag |
| BlockFile.ReadLoop | amiga_hunk.py:785-809 | `read` appends the blocks it reads to those already there |
| BlockFile.DetectType | amiga_hunk.py:829-835 | an empty block list is of unknown type |
| BlockFile.PeekType | amiga_hunk.py:837-851 | fewer than four bytes are of unknown type |
| BlockFile.WriteIdReadsBack | amiga_hunk.py:798-823 | the tag written for a block reads back as the block's tag, 1020 included in load-seg files |
| BlockFile.ReadOneOfEncoded | amiga_hunk.py:787-827 | a written tag and body read back as the block, ending after it |
| BlockFile.ReadEnd | amiga_hunk.py:787-790 | an empty read ends `read` without error |
| BlockFile.ReadLoopOfEncoded | amiga_hunk.py:783-827 | written blocks to the end of the stream read back, appended in order |
| BlockFile.FileRoundTrip | amiga_hunk.py:783-827 | `read(write(blocks)) == blocks` with no error, in load-seg files or not |
| BlockFile.TagMaskIgnoresFlags | amiga_hunk.py:794-795 | memory-flag bits above bit 15 do not change the tag `read` selects |
| BlockFile.Drel32InLoadSeg | amiga_hunk.py:798-801 | tag 1015 selects the word relocation codec in load-seg files and the long codec elsewhere |
| BlockFile.PeekIgnoresMask | amiga_hunk.py:849-851 | a header tag with flag bits set is unknown to `peek_type`, although `read` sees a header |
| BlockFile.PeekMatchesDetect | amiga_hunk.py:829-851 | on a written file, `peek_type` of the bytes equals `detect_type` of the blocks |
| BlockFile.HunkBlockFile.constructor | amiga_hunk.py:766-770 | the file holds the given blocks |
| BlockFile.HunkBlockFile.Read | amiga_hunk.py:783-809 | `read` leaves the blocks and the error that `ReadLoop` gives from the old blocks, so blocks read before an error are kept |
| BlockFile.HunkBlockFile.Write | amiga_hunk.py:816-827 | `write` emits each block's tag and body in order |
| BlockFile.HunkBlockFile.DetectTypeOf | amiga_hunk.py:829-835 | `detect_type` of the object is that of its block list |
| HunkDebug.ReadString | amiga_hunk.py:1245-1255 | `_read_string` returns a NUL-free slice of the buffer after the count and a size that is a multiple of 4 |
| HunkDebug.LineEntries | amiga_hunk.py:1230-1234 | the LINE loop yields one entry per 8 bytes read |
| HunkDebug.EntryCount | amiga_hunk.py:1229 | `(len - off) / 8` floored: the number of whole 8-byte entries, and none when the name runs past the end |
| HunkDebug.DecodeLine | amiga_hunk.py:1224-1235 | a LINE table decodes to a line info with a NUL-free source file |
| HunkDebug.Decode | amiga_hunk.py:1216-1243 | `decode` yields an info exactly when there are at least 12 bytes and a HEAD block carries its signature; the info carries the base offset from the first long |
| HunkDebug.EncodeEntries | amiga_hunk.py:1203-1205 | each (line, offset) entry is written as 8 bytes |
| HunkDebug.LineEntriesOfEncoded | amiga_hunk.py:1203-1234 | written line entries read back in order |
| HunkDebug.ReadStringOfEncoded | amiga_hunk.py:1245-1264 | a NUL-free name written by `_write_string` reads back with its padded size |
| HunkDebug.LineLayout | amiga_hunk.py:1191-1205 | an encoded LINE table is the base offset, "LINE", the padded name, then 8 bytes per entry |
| HunkDebug.LineRoundTrip | amiga_hunk.py:1191-1243 | `decode(encode(info)) == info` for a LINE table with a NUL-free file name |
| HunkDebug.DecodeLineOfEncoded | amiga_hunk.py:1224-1235 | the LINE branch of `decode` gives back the encoded info |
| HunkDebug.DecodeLineOfLayout | amiga_hunk.py:1224-1235 | bytes laid out as an encoded LINE table decode to that table |
| HunkDebug.DecodeLineOfParts | amiga_hunk.py:1224-1235 | the LINE branch combines the base offset, the name read and the entries read |
| HunkDebug.EntryCountOfWhole | amiga_hunk.py:1229 | k whole entries are counted as k |
| HunkDebug.HeadRoundTrip | amiga_hunk.py:1206-1208 | a HEAD block keeps the bytes after its signature through `encode` and `decode` |
| HunkDebug.AnyRoundTrip | amiga_hunk.py:1209-1243 | any other tag round-trips its data, except that data under 4 bytes gives a block under 12 bytes, which decodes to nothing |
| HunkDebug.LineEntryCount | amiga_hunk.py:1228-1230 | a LINE table has `(len - 12 - size) / 8` entries when its name fits, otherwise none |
| SegmentSetup.PadData | amiga_hunk.py:1302-1309 | `_pad_data` appends zeros to the next multiple of 4 and returns the size in longwords |
| SegmentSetup.PositionalSegmentBlock | amiga_hunk.py:260-266 | a third positional argument to `HunkSegmentBlock` lands in `data_offset`, leaving `size_longs` 0 |
| SegmentSetup.SetupCodeLosesSize | amiga_hunk.py:1293-1299 | as written, `setup_code` makes a block whose size long is 0: `create` reports size 0 and the written block reads back with no data |
| SegmentSetup.SetupCodeRoundTrip | amiga_hunk.py:1293-1309 | with the size passed by name, the padded code or data block is written and reads back, and `create` reports its size in longwords |
| SegmentSetup.SetupBssSize | amiga_hunk.py:1311-1313 | as written, `setup_bss` reports size 0; with the size passed by name it reports ceil(size/4) longwords and the block reads back |
| SegmentSetup.AreRelocsShort | amiga_hunk.py:1341-1347 | `_are_relocs_short` holds exactly when no offset exceeds 65535 |
| SegmentSetup.OffsetsShort | amiga_hunk.py:1344-1346 | one group's offsets are short exactly when none exceeds 65535 |
| SegmentSetup.SetupRelocs | amiga_hunk.py:1315-1324 | one relocation block, of word form exactly when not forced long and all offsets are short |
| SegmentSetup.SetupRelocsWritable | amiga_hunk.py:1315-1324 | the block `setup_relocs` chooses can be written: a short table fits the word writer |
| SegmentSetup.SetupSymbols | amiga_hunk.py:1326-1328 | `setup_symbols` makes the (name, offset) list the segment's symbol block |
| SegmentSetup.SetupDebugDecodes | amiga_hunk.py:1330-1339 | the debug block `setup_debug` appends decodes back to the info it also appends |
| LoadSeg.ParseSegmentBlocks | amiga_hunk.py:1371-1398 | `HunkSegment.parse`, field by field, equals `SegmentOf` |
| LoadSeg.SegmentOfSpec | amiga_hunk.py:1371-1398 | parse succeeds exactly when every block is a segment, symbol, debug (decodable) or relocation block and there is at most one symbol block; the segment block is the last one, and the relocation and debug blocks are those of the list, in order |
| LoadSeg.ParseLoopSucceeds | amiga_hunk.py:1374-1398 | the loop fails exactly on an unaccepted block or a second symbol block |
| LoadSeg.ParseLoopCollects | amiga_hunk.py:1374-1398 | the loop appends the relocation and debug blocks in order, keeps the last segment block and the first symbol block |
| LoadSeg.ParseLoopInfos | amiga_hunk.py:1383-1392 | `debug_infos` gets the decoded info of every debug block that decodes to one, in order |
| LoadSeg.NameBlockRejected | amiga_hunk.py:1393-1398 | a `HUNK_NAME` block passes the first round's tag check but fails `HunkSegment.parse` |
| LoadSeg.NotAcceptedAt | amiga_hunk.py:1397-1398 | any block of another kind anywhere in the list makes parse fail |
| LoadSeg.Create | amiga_hunk.py:1400-1421 | `create` fails exactly without a segment block; a segment that has blocks is returned unchanged; otherwise its blocks start with the segment block |
| LoadSeg.CreateThenParse | amiga_hunk.py:1371-1421 | parsing the blocks `create` lays out gives back the segment's segment, relocation, debug and symbol blocks and the decoded debug infos |
| RunSplit.SplitAtEnd | amiga_hunk.py:1662-1679 | the first round, with `cur` as the open run, equals `FirstRound` |
| RunSplit.CountBegins | amiga_hunk.py:1684-1690 | `len(pos_seg)` counts the segment blocks of a run |
| RunSplit.SplitAtBegins | amiga_hunk.py:1680-1705 | the second round equals `SecondRound` |
| RunSplit.FirstLoopSucceeds | amiga_hunk.py:1665-1679 | the first round fails exactly when some block is neither `HUNK_END` nor a begin or extra block, and names that block's tag |
| RunSplit.FirstRoundSpec | amiga_hunk.py:1662-1679 | the first round's runs are non-empty, hold no `HUNK_END`, and laid end to end are the input without its `HUNK_END` blocks |
| RunSplit.FirstRoundOfTerminated | amiga_hunk.py:1662-1679 | runs each followed by `HUNK_END` come back as the same runs |
| RunSplit.SplitLoopSucceeds | amiga_hunk.py:1697-1705 | splitting a run fails, with "can't split", exactly when an extra block comes before its first segment block |
| RunSplit.SecondLoopSucceeds | amiga_hunk.py:1683-1705 | the second round fails exactly when some run cannot be split |
| RunSplit.SecondLoopConcat | amiga_hunk.py:1683-1705 | the second round's runs, laid end to end, are exactly the runs holding a segment block: the others are dropped |
| RunSplit.SecondRoundSpec | amiga_hunk.py:1680-1705 | after the second round every run holds exactly one segment block, and the blocks kept are those of the runs that held one |
| RunSplit.SecondRoundOfOne | amiga_hunk.py:1690-1693 | runs with one segment block each pass the second round unchanged |
| SegFile.ParseRuns | amiga_hunk.py:1709-1713 | every run becomes one segment, appended in order, unless one fails to parse |
| SegFile.ParseFileRuns | amiga_hunk.py:1651-1708 | a successful `parse_block_file` starts with the header, accepts every later tag, and assigns as many runs as the header has sizes, each with one segment block |
| SegFile.ParseFileSegments | amiga_hunk.py:1706-1718 | each segment holds its run, its run's last segment block and the header's size for its index |
| SegFile.ParseFileErrors | amiga_hunk.py:1654-1708 | no blocks, a first block that is not a header, an invalid tag, and an unsplittable run each raise their error; the header is kept once seen |
| SegFile.HeaderSetup | amiga_hunk.py:206-214 | `setup` fails on no sizes; otherwise the table is the sizes and first..last spans them |
| SegFile.HeaderSetupDecodes | amiga_hunk.py:206-241 | the header `setup` makes is one the parser reads back |
| SegFile.CreateLoop | amiga_hunk.py:1726-1730 | the loop visits every segment |
| SegFile.CreateLoopOk | amiga_hunk.py:1724-1730 | for segments with a segment block, the loop emits each segment's blocks followed by `HUNK_END` and collects its size |
| SegFile.CreatedRunsShape | amiga_hunk.py:1726-1730 | the i-th run and size are those of the i-th segment |
| SegFile.CreatedRunOk | amiga_hunk.py:1400-1421 | a created run passes both rounds, holding exactly one segment block |
| SegFile.CreatedRunsParse | amiga_hunk.py:1400-1421 | every created run parses back to its segment's blocks and debug infos |
| SegFile.CreateThenParseFile | amiga_hunk.py:1651-1734 | `parse_block_file(create_block_file())` succeeds with one segment per segment, each with its blocks, debug infos and size; the header's table holds each segment block's `size_longs` |
| SegFile.CreatedSegmentParsed | amiga_hunk.py:1709-1718 | the i-th parsed segment matches the i-th created one |
| SegFile.ParseFileOfCreated | amiga_hunk.py:1651-1718 | a header followed by terminated runs parses to those runs' segments with the header's sizes |
| SegFile.HunkLoadSegFile.constructor | amiga_hunk.py:1641-1643 | a new file has no header and no segments |
| SegFile.HunkLoadSegFile.AddSegment | amiga_hunk.py:1648-1649 | `add_segment` appends the segment and changes nothing else |
| SegFile.HunkLoadSegFile.ParseBlockFile | amiga_hunk.py:1651-1718 | the new state and error equal `ParseFile` of the old state, partial updates before an error included |
| SegFile.HunkLoadSegFile.CreateBlockFile | amiga_hunk.py:1720-1734 | the new state and result equal `CreateFile` of the old state |
| LinePack.UnpackPack | amiga_hunk.py:1531 | a 24-bit line with 8-bit flags packed by `src_line \| (flags << 24)` unpacks by the import masks to the same pair |
| LinePack.PackUnpack | amiga_hunk.py:1632-1633 | every stored 32-bit value is the packing of its unpacked line and flags |
| LinePack.PackFits | amiga_hunk.py:1531 | the packed value fits the 32-bit writer exactly when the line fits 32 bits and the flags fit 8 |
| LinePack.WideLineBecomesFlags | amiga_hunk.py:1531 | a line of 2^24 or more comes back cut to 24 bits with its high bits as flags |
| LinePack.LastSlash | amiga_hunk.py:1621 | `rfind('/')`: the index of the last slash, or none when there is no slash |
| LinePack.SplitPathSpec | amiga_hunk.py:1621-1626 | the file part holds no slash, and directory, slash and file rebuild the path; without a slash the directory is empty |
| Image.AddSegment | amiga_hunk.py:1117-1119 | `add_segment` appends the segment with the next id and keeps the others |
| Image.AddSegmentValid | amiga_hunk.py:1117-1119 | adding a segment whose relocations name existing segments keeps the image valid |
| Image.TargetsFromSpec | amiga_hunk.py:1038-1040 | the targets in a range are the relocation keys in it, strictly increasing |
| Image.RelocTargetsSpec | amiga_hunk.py:1038-1040 | `get_reloc_to_segs` lists exactly the relocation targets, sorted by id |
| Image.GetSize | amiga_hunk.py:1111-1115 | `get_size` is the sum of the segment sizes |
| Image.FindSymbol | amiga_hunk.py:1068-1076 | the name of the first symbol at the offset, none exactly when no symbol is there |
| Image.FindDebugLine | amiga_hunk.py:1088-1096 | the first entry at the offset: no earlier file and no earlier entry of its file is at the offset; none exactly when no entry is there |
| Image.FindReloc | amiga_hunk.py:1078-1086 | the first relocation in [offset, offset + size]: its target is the lowest id with one in range, and no earlier relocation of that target is in range; none exactly when there is none |
| BinFmt.MergeBlockGroups | amiga_hunk.py:1584-1596 | the loop over one block's groups equals `MergeGroups` |
| BinFmt.AddHunkRelocs | amiga_hunk.py:1578-1596 | `_add_hunk_relocs` equals `MergeBlocks` |
| BinFmt.MergeGroupsSucceeds | amiga_hunk.py:1584-1587 | the merge fails, on `all_segs[hunk_num]`, exactly when a group names a segment beyond the image |
| BinFmt.MergeGroupsKeys | amiga_hunk.py:1584-1596 | the merged targets are the old ones plus those the groups name |
| BinFmt.MergeGroupsValues | amiga_hunk.py:1584-1596 | each target's relocations are the old ones followed by one plain `Reloc` per offset of the groups naming it, in order |
| BinFmt.MergeBlocksSucceeds | amiga_hunk.py:1578-1587 | the merge fails exactly on a non-relocation block or a bad segment index |
| BinFmt.MergeBlocksKeys | amiga_hunk.py:1578-1596 | the merged targets are the old ones plus those named by any block |
| BinFmt.MergeBlocksValues | amiga_hunk.py:1578-1596 | relocation blocks for the same target are unioned in order, never overwritten |
| BinFmt.BlockTargetsBelow | amiga_hunk.py:1587 | accepted relocation blocks name only segments of the image |
| BinFmt.SegTypeOf | amiga_hunk.py:1546-1553 | the segment type is code, data or BSS exactly for the matching tag, none otherwise |
| BinFmt.ImportHeadersLength | amiga_hunk.py:1540-1557 | the first loop adds one segment per hunk segment |
| BinFmt.ImportHeadersSpec | amiga_hunk.py:1540-1557 | the first loop fails as the first failing segment does; otherwise the i-th new segment is the i-th hunk segment's, with id i |
| BinFmt.AttachAll | amiga_hunk.py:1559-1573 | the second loop keeps the number of segments |
| BinFmt.AttachAllSpec | amiga_hunk.py:1559-1573 | the second loop succeeds exactly when each segment's attachment does, giving each its own |
| BinFmt.AttachSpec | amiga_hunk.py:1559-1635 | a segment gets merged relocations, symbols (none for an empty block, file name dropped) and debug line files, and keeps its type, size, data, offset and id |
| BinFmt.ImportImageSpec | amiga_hunk.py:1535-1575 | `create_image_from_load_seg_file` succeeds exactly when every segment block has a segment type and every relocation block merges; the image is valid and holds one attached segment per hunk segment |
| BinFmt.AttachSegment | amiga_hunk.py:1560-1573 | the loop body for one segment equals `Attach` |
| BinFmt.AddSegments | amiga_hunk.py:1540-1557 | the first loop equals `ImportHeaders` on an empty image and adds one segment per hunk segment |
| BinFmt.AttachSegments | amiga_hunk.py:1559-1573 | the second loop equals `AttachAll` |
| BinFmt.CreateImage | amiga_hunk.py:1535-1575 | `create_image_from_load_seg_file` equals `ImportImage` |
| BinFmt.RelocOffsets | amiga_hunk.py:1500-1505 | a target's offsets are extracted exactly when every relocation has width 2 and no addend, and they rebuild the relocations; otherwise "Invalid reloc" |
| BinFmt.ExportGroups | amiga_hunk.py:1495-1506 | one (id, offsets) group per target in order, rebuilding that target's relocations, or "Invalid reloc" when any relocation is not plain |
| BinFmt.ExportSegments | amiga_hunk.py:1472-1490 | export gives one hunk segment per segment, with either setup call |
| BinFmt.LineInfoEncodable | amiga_hunk.py:1520-1533 | a line file can be encoded exactly when its base offset, offsets and lines fit 32 bits and its flags fit 8 |
| BinFmt.ExportDebugSucceeds | amiga_hunk.py:1520-1533 | exporting the line files fails, by `struct.pack`, exactly when one cannot be encoded |
| BinFmt.ExportDebugAppends | amiga_hunk.py:1520-1533 | each line file is appended as a packed info and its debug block, in order |
| BinFmt.ExportGroupsOk | amiga_hunk.py:1494-1508 | the groups are built exactly when every relocation is plain |
| BinFmt.ExportSegmentSucceeds | amiga_hunk.py:1469-1491 | a segment exports exactly when its type is known, its relocations are plain and its line files encode; an unknown type and an invalid reloc raise their errors |
| BinFmt.ExportRelocForm | amiga_hunk.py:1494-1508 | an exported segment has one relocation block exactly when it has relocations, in word form exactly when no offset exceeds 65535 |
| BinFmt.GroupsShortIff | amiga_hunk.py:1341-1347 | the exported groups are short exactly when every relocation offset is at most 65535 |
| ImageRoundTrip.ExportedGroups | amiga_hunk.py:1494-1506 | the exported groups name the targets in id order, each rebuilding that target's relocations |
| ImageRoundTrip.ExportSegmentParts | amiga_hunk.py:1469-1491 | export of a segment the format can hold succeeds, with the segment block the setup call makes (size 0 as written, padded by name), and its relocation, symbol and debug blocks |
| ImageRoundTrip.ExportedAssembled | amiga_hunk.py:1400-1421 | an exported segment has a segment block and no block list yet, so `create` lays it out |
| ImageRoundTrip.DecodedLineInfos | amiga_hunk.py:1330-1392 | the debug blocks made from LINE infos decode back to the same infos |
| ImageRoundTrip.LineFilesRestored | amiga_hunk.py:1520-1635 | line files packed on export come back on import with their path split into directory and file |
| ImageRoundTrip.GroupsByTarget | amiga_hunk.py:1584-1596 | with targets strictly increasing, the offsets merged for a group's target are that group's offsets |
| ImageRoundTrip.ExportedRelocsMerge | amiga_hunk.py:1494-1596 | the exported relocation block merges on import, naming the same targets with the same offsets |
| ImageRoundTrip.TargetOffsets | amiga_hunk.py:1494-1506 | every relocation target appears among the exported groups, with its offsets |
| ImageRoundTrip.TargetsOfGroups | amiga_hunk.py:1494-1506 | the exported groups name only targets of the segment |
| ImageRoundTrip.RelocsRestored | amiga_hunk.py:1494-1596 | import of the exported relocations gives back the segment's relocation map |
| ImageRoundTrip.SymbolsRestored | amiga_hunk.py:1511-1610 | import of the exported symbol block gives back the symbols without file names, or none for an empty table |
| ImageRoundTrip.DebugRestored | amiga_hunk.py:1520-1635 | import of the exported debug blocks gives back the line files with their paths split |
| ImageRoundTrip.HeaderRestored | amiga_hunk.py:1540-1557 | the exported segment block imports with its type and padded data; as written with size 0 and the longword count as data offset, by name with the padded size at offset 0 |
| ImageRoundTrip.ExportSegmentsSpec | amiga_hunk.py:1472-1490 | export of all segments succeeds, each with the shape its setup call gives |
| ImageRoundTrip.SegmentRoundTrip | amiga_hunk.py:1535-1575 | import of an exported segment, as parsed, gives back the segment `Restored` describes for that setup call, with its id |
| ImageRoundTrip.ExportedImage | amiga_hunk.py:1469-1491 | export of an image succeeds with one fresh hunk segment per segment, each in the shape its setup call gives |
| ImageRoundTrip.ImageRoundTrip | amiga_hunk.py:1447-1482 | at block level, export, create, parse and import succeed; the header table is all zeros as written and the padded longword counts by name; the image comes back with symbol file names dropped and source paths split, with sizes 0 as written and padded to longwords by name |
| ImageRoundTrip.RestoredUnchanged | amiga_hunk.py:1469-1635 | with the size passed by name, an image already in that form comes back unchanged |
| ImageRoundTrip.DirectoryLostOnSecondTrip | amiga_hunk.py:1523-1628 | export writes only the file name, so a second trip empties the directory |
| ImageFile.CreateOne | amiga_hunk.py:1720-1734 | `create_block_file` of one segment holding only its segment block gives a one-entry header, the block and `HUNK_END` |
| ImageFile.SavedCodeBlocks | amiga_hunk.py:1469-1482 | an image of one plain code segment exports as a single segment holding the block its setup call makes |
| ImageFile.EncodeCons | amiga_hunk.py:816-827 | a writable block in front of a writable list is written as its tag, its body and then the rest |
| ImageFile.EncodeThree | amiga_hunk.py:816-827 | a header, one block and `HUNK_END` are writable and written tag by tag |
| ImageFile.ReadEmptyCode | amiga_hunk.py:268-274 | a code tag followed by a size of 0 longwords reads as a code block with no data, leaving the cursor on the next bytes |
| ImageFile.ReadNoTag | amiga_hunk.py:783-809 | four bytes that form no known tag stop the read with that tag's error |
| ImageFile.AsWrittenSaved | amiga_hunk.py:1463-1482 | as written, the saved bytes are a header with table [0], the code tag, a 0 size long, the padded code and `HUNK_END` |
| ImageFile.ReadAsWritten | amiga_hunk.py:783-809 | reading those bytes stops at the first code longword, taken as a tag |
| ImageFile.AsWrittenCodeUnreadable | amiga_hunk.py:1447-1482 | as written, `save_image_fobj` of one code segment succeeds, and `load_image_fobj` of its bytes fails with the first code longword as an unknown tag |
| ImageFile.ByNameCodeBlocksRead | amiga_hunk.py:1447-1467 | with the size passed by name, the saved bytes read back as the header, the code block with its padded data, and `HUNK_END` |
| ImageFile.CodeBlocksImport | amiga_hunk.py:1447-1456 | those blocks parse to one segment and import as one code segment with the padded data and size |
| ImageFile.ByNameCodeReadable | amiga_hunk.py:1447-1467 | with the size passed by name, `load_image_fobj(save_image_fobj(img))` gives back the code segment, its size padded to whole longwords |
| Relocator.GetSizes | amiga_hunk.py:1743-1749 | `get_sizes` lists each segment's size in order |
| Relocator.GetTotalSize | amiga_hunk.py:1751-1757 | `get_total_size` adds each size with its padding |
| Relocator.SpanIsTotal | amiga_hunk.py:1751-1757 | the total is `BinImage.get_size` plus one padding per segment |
| Relocator.SeqAddrs | amiga_hunk.py:1759-1767 | the first address is the base; each next one is the previous plus its segment's size and the padding |
| Relocator.LayoutInBlob | amiga_hunk.py:1759-1778 | every segment with its padding lies inside the blob of `get_total_size` bytes starting at the base |
| Relocator.GetSeqAddrs | amiga_hunk.py:1759-1767 | `get_seq_addrs` equals `SeqAddrs` |
| Relocator.Assign | amiga_hunk.py:1802 | slice assignment keeps the bytes before, places the source and keeps those after; it grows the buffer when the source runs past the end |
| Relocator.FreshBuffer | amiga_hunk.py:1789-1802 | a new segment buffer is its data followed by zeros up to its size, or the data alone when longer |
| Relocator.CopyData | amiga_hunk.py:1796-1802 | `_copy_data` gives the buffer `CopySpec` describes, the same array or a grown one |
| Relocator.AssignInPlace | amiga_hunk.py:1802 | a slice assignment within the buffer updates it in place |
| Relocator.AssignGrown | amiga_hunk.py:1802 | a slice assignment past the end gives a new, longer buffer |
| Relocator.PatchLongSpec | amiga_hunk.py:1816-1831 | one patch succeeds exactly when the field lies in the buffer and the sum stays in the signed 32-bit range; the field then holds the old value plus the delta and no other byte changes |
| Relocator.ApplyPatches | amiga_hunk.py:1813-1814 | patching keeps the buffer's length |
| Relocator.ApplyPatchesKeeps | amiga_hunk.py:1804-1814 | patching changes no byte outside the patched fields |
| Relocator.ApplyPatchesSets | amiga_hunk.py:1804-1821 | with disjoint fields, each field ends up as its old value plus its delta |
| Relocator.TargetPatches | amiga_hunk.py:1812-1820 | each relocation's field is at its offset plus the extra offset, and gets its addend plus the target's address |
| Relocator.TargetsValid | amiga_hunk.py:1806-1810 | the targets visited are relocation keys with an address |
| Relocator.PatchesOfHolds | amiga_hunk.py:1806-1814 | every relocation to a visited target is patched |
| Relocator.PatchesOfFrom | amiga_hunk.py:1806-1814 | every patch comes from a relocation to a visited target |
| Relocator.RelocatedField | amiga_hunk.py:1804-1821 | after `_reloc_data` each relocated field holds its stored value plus its addend plus its target's address |
| Relocator.RelocatedKeeps | amiga_hunk.py:1804-1821 | `_reloc_data` leaves every byte outside the relocated fields as it was |
| Relocator.ReadLong | amiga_hunk.py:1824-1826 | `read_long` succeeds exactly when four bytes remain and returns their signed value |
| Relocator.WriteLong | amiga_hunk.py:1829-1831 | `write_long` stores a signed 32-bit value in place, and raises without a change outside that range |
| Relocator.RelocOne | amiga_hunk.py:1816-1821 | `_reloc` patches one field as `PatchLong` says, or raises its error |
| Relocator.RelocTarget | amiga_hunk.py:1812-1814 | the relocations of one target are applied in order as `ApplyPatches` says |
| Relocator.PatchStep | amiga_hunk.py:1813-1814 | one patch is the first step of applying the list |
| Relocator.RelocData | amiga_hunk.py:1804-1814 | `_reloc_data` updates the buffer as `Relocated` says, or raises the first error |
| Relocator.SegmentBuffer | amiga_hunk.py:1787-1792 | a relocated segment buffer has the segment's size and holds its data, then zeros, wherever no relocation lies |
| Relocator.RelocateAllSpec | amiga_hunk.py:1786-1793 | `relocate` succeeds exactly when every segment does, giving one buffer per segment |
| Relocator.RelocateAllFirstError | amiga_hunk.py:1786-1793 | `relocate` fails with the error of the first segment that fails |
| Relocator.RelocateSegment | amiga_hunk.py:1788-1792 | one segment's new buffer equals `SegmentImage` |
| Relocator.Relocate | amiga_hunk.py:1781-1794 | `relocate` raises on an address count unlike the segment count, otherwise gives fresh buffers equal to `RelocateSpec` |
| Relocator.LayoutStep | amiga_hunk.py:1775-1778 | one turn of the blob loop copies and relocates one segment, then moves past it and its padding |
| Relocator.LayoutLength | amiga_hunk.py:1769-1779 | when each segment's data fits its size and padding, the blob keeps the length of `get_total_size` |
| Relocator.PlaceSegment | amiga_hunk.py:1775-1778 | the loop body for one segment advances `LayoutFrom` by one segment |
| Relocator.RelocateOneBlock | amiga_hunk.py:1769-1779 | `relocate_one_block` gives a fresh blob equal to `OneBlockSpec`, or its error |

## Left out

- The IDA loader entry points (`accept_file`, `load_file`, `move_segm`): they drive a foreign host API.
- File paths (`read_path`, `write_path`, `load_image`, `save_image`, `is_image`): opening and closing files is I/O. The model works on byte sequences; `load_image_fobj` and `save_image_fobj` are `ImageFile.LoadImage` and `ImageFile.SaveImage`.
- The byte-level round trip of `save_image_fobj` and `load_image_fobj` is proved only for an image of one plain code segment (`ImageFile.ByNameCodeReadable`). In general the reader records each block's file position as its data offset, so the blocks read back differ from the blocks written in that field; the general round trip is stated at block level (`ImageRoundTrip.ImageRoundTrip`).
- `LibLoop`, the member loop of `HunkLibBlock.parse`, stays a recursive function: it re-enters the block dispatch for each member. Every other parse loop is also a cursor method of `BlockReaders`. The write loops are functions producing bytes.
- `__str__`, `__repr__` and `get_block_type_names`: text formatting only.
- Stream seeking: `f.tell()` is the cursor. The library and index writers' seek-back length patches are computed up front.
- `HunkOverlayBlock.write` divides a byte string by 4 and raises a `TypeError`, so overlay blocks are parsed but never writable.
- Library and index blocks are parsed and written, but their round trip is not proved. Only their word counts and cursor bounds are stated.
- `DispatchRoundTrip.BlockOfEncoded`: relocation blocks with an empty offset group and debug data that is not whole longwords are excluded. `RelocRoundTrip.RelocLongEmptyGroupEnds` and `BodyRoundTrip.DebugUnalignedIsCut` state what happens to them instead.
- Names holding a NUL byte do not round-trip: the reader stops at the first NUL.
- `HunkParseError`, `AssertionError`, `IndexError`, `struct.error`, `ValueError` and the bare `Exception` for duplicate symbols are all one `HunkError` datatype. Each error site has its own constructor, and no messages are kept.
  - `Relocator.RelocOne`: `struct.error` from `unpack` becomes `ShortRead`, and from `pack` becomes `ValueOutOfRange`.
  - `HunkDebug.Decode`: the `HEAD` signature `assert` is an error result. Under `python -O` the source would accept any signature.
- `BinFmt.ExportSegments`: export is stated for segments whose code or data segments carry data (`Exportable`). The source raises a `TypeError` on `None` data there; that path is not modelled.
- `ImageRoundTrip.ImageRoundTrip` is stated at block level, for images the format can hold:
  - plain relocations only;
  - offsets and values within 32 bits;
  - 24-bit lines with 8-bit flags;
  - NUL-free names that fit 2^24 longwords;
  - non-empty relocation groups.

  Symbol `file_name` is not written by the format and comes back as `None`. Lines of 2^24 or more are cut (`LinePack.WideLineBecomesFlags`).
- `Relocator.RelocData`: relocation keys in the source are `Segment` objects whose `id` indexes `addrs`. Here they are integer ids, and targets without an address are not visited. A valid image (`Image.ValidImage`) has no such targets.
- `Relocator.RelocatedField`: the per-field statement assumes no two relocation fields overlap. Overlapping fields are patched in order, as `Relocator.ApplyPatches` says.
- `Relocator.CopyData`: aliasing is modelled as "the same array or a fresh one". Python's `bytearray` grows in place under the same reference.
- `Relocator.GetTotalSize`: the padding is a natural number. A negative padding would shrink the blob in the source.
- `Segment.file_data`, `BinImage.file_data` and `file_type` are back-references to the objects they came from and are not kept.
- `HunkSegment.size` is derived from `size_longs`, so only `size_longs` is kept.

## Findings

| source | as written | input that shows it | evidently intended | confidence | as-written member | corrected member |
|---|---|---|---|---|---|---|
| amiga_hunk.py:1293-1299 | `setup_code` and `setup_data` pass `size_longs` as the third positional argument of `HunkSegmentBlock`, which is `data_offset`, so `size_longs` stays 0 | `setup_code` on four bytes of code: `create` reports size 0 and the block is written with a zero size long, so a reader takes no data and reads the code as the next tag | pass `size_longs=size_longs` by name | high (not executed) | SegmentSetup.SetupCodeLosesSize | SegmentSetup.SetupCodeRoundTrip |
| amiga_hunk.py:1311-1313 | `setup_bss` passes the size in longwords positionally into `data_offset`, so `size_longs` stays 0 | `setup_bss(16)`: `create` reports size 0, so the header declares an empty BSS hunk | pass `size_longs=size_longs` by name | high (not executed) | SegmentSetup.SetupBssSize | SegmentSetup.SetupBssSize |
| amiga_hunk.py:1463-1482 | `create_load_seg_file_from_image` calls the setups above, so `save_image_fobj` writes a header table of zeros and zero size longs | an image of one CODE segment holding four zero bytes: the load reads an empty code block, then takes the code longword 0 as a block tag and fails | pass `size_longs=size_longs` by name, so that save then load gives the image back | high (not executed) | ImageFile.AsWrittenCodeUnreadable | ImageFile.ByNameCodeReadable |
