/** What each Hunk*Block.parse reads, as functions of the stream bytes and the
    cursor position. A loop of the source is a tail-recursive function whose
    parameters are the loop's variables. The methods in BlockReaders run every
    one of these loops but LibLoop with a cursor and are proved equal to these
    functions; LibLoop re-enters the block dispatch and stays a function. */
module BlockParse {
  import opened Base
  import opened HunkIds
  import opened Names
  import opened Blocks

  // ---------------------------------------------------------------------------
  // Shared loops

  /** `for i in xrange(n): offsets.append(self._read_long(f))`. */
  function LongsLoop(s: seq<Byte>, pos: nat, n: nat, acc: seq<nat>): (r: Result<Read<seq<nat>>>)
    requires pos <= |s|
    ensures r.Ok? ==> r.value.next == pos + 4 * n <= |s| && |r.value.value| == |acc| + n
    ensures r.Ok? ==> r.value.value[..|acc|] == acc
    decreases n
  {
    if n == 0 then Ok(Read(acc, pos))
    else
      var v :- ReadLongAt(s, pos);
      LongsLoop(s, v.next, n - 1, acc + [v.value])
  }

  /** The same loop over 16-bit words. */
  function WordsLoop(s: seq<Byte>, pos: nat, n: nat, acc: seq<nat>): (r: Result<Read<seq<nat>>>)
    requires pos <= |s|
    ensures r.Ok? ==> r.value.next == pos + 2 * n <= |s| && |r.value.value| == |acc| + n
    ensures r.Ok? ==> r.value.value[..|acc|] == acc
    decreases n
  {
    if n == 0 then Ok(Read(acc, pos))
    else
      var v :- ReadWordAt(s, pos);
      WordsLoop(s, v.next, n - 1, acc + [v.value])
  }

  // ---------------------------------------------------------------------------
  // HUNK_HEADER

  /** The resident-library name loop: a short name fails, a zero size ends it. */
  function HeaderNamesLoop(s: seq<Byte>, pos: nat, acc: seq<seq<Byte>>): (r: Result<Read<seq<seq<Byte>>>>)
    requires pos <= |s|
    ensures r.Ok? ==> pos < r.value.next <= |s|
    decreases |s| - pos
  {
    var nr :- ReadName(s, pos);
    match nr.value
    case NameShort => Err(BadHeaderNames)
    case NameOk(size, text) =>
      if size == 0 then Ok(Read(acc, nr.next))
      else HeaderNamesLoop(s, nr.next, acc + [text])
  }

  /** The n longwords from pos, each ANDed with 0x3fffffff: the low 30 bits
      of the stored longword, without the memory flags. */
  function MaskedSizes(s: seq<Byte>, pos: nat, n: nat): (r: seq<nat>)
    requires pos + 4 * n <= |s|
    ensures |r| == n && forall i :: 0 <= i < n ==> r[i] < 0x4000_0000
  {
    seq(n, i requires 0 <= i < n => LongValue(s[pos + 4 * i..pos + 4 * i + 4]) % 0x4000_0000)
  }

  lemma MaskedSizesCons(s: seq<Byte>, pos: nat, n: nat)
    requires 0 < n && pos + 4 * n <= |s|
    ensures MaskedSizes(s, pos, n) == [LongValue(s[pos..pos + 4]) % 0x4000_0000] + MaskedSizes(s, pos + 4, n - 1)
  {
    var r := MaskedSizes(s, pos, n);
    var q := MaskedSizes(s, pos + 4, n - 1);
    forall i | 1 <= i < n
      ensures r[i] == q[i - 1]
    {
      assert pos + 4 * i == pos + 4 + 4 * (i - 1);
    }
  }

  /** The size-table loop: each entry ANDed with 0x3fffffff. */
  function HunkSizesLoop(s: seq<Byte>, pos: nat, n: nat, acc: seq<nat>): (r: Result<Read<seq<nat>>>)
    requires pos <= |s|
    ensures r.Ok? <==> pos + 4 * n <= |s|
    ensures r.Ok? ==> r.value == Read(acc + MaskedSizes(s, pos, n), pos + 4 * n)
    decreases n
  {
    if n == 0 then
      assert acc + MaskedSizes(s, pos, 0) == acc;
      Ok(Read(acc, pos))
    else
      var v :- ReadLongAt(s, pos);
      var r := HunkSizesLoop(s, v.next, n - 1, acc + [v.value % 0x4000_0000]);
      if r.Ok? then
        MaskedSizesCons(s, pos, n);
        assert acc + [v.value % 0x4000_0000] + MaskedSizes(s, pos + 4, n - 1) == acc + MaskedSizes(s, pos, n);
        r
      else r
  }

  /** last_hunk - first_hunk + 1 entries; xrange of a negative count is empty. */
  function HunkCount(firstHunk: nat, lastHunk: nat): nat
  {
    if lastHunk + 1 >= firstHunk then lastHunk + 1 - firstHunk else 0
  }

  function ParseHeader(s: seq<Byte>, pos: nat): (r: Result<Read<Block>>)
    requires pos <= |s|
    ensures r.Ok? ==> r.value.value.HeaderBlock? && pos < r.value.next <= |s|
    ensures r.Ok? ==> |r.value.value.hunkTable| == HunkCount(r.value.value.firstHunk, r.value.value.lastHunk)
    ensures r.Ok? ==> var n := |r.value.value.hunkTable|;
              4 * n <= r.value.next && r.value.value.hunkTable == MaskedSizes(s, r.value.next - 4 * n, n)
  {
    var names :- HeaderNamesLoop(s, pos, []);
    var tableSize :- ReadLongAt(s, names.next);
    var first :- ReadLongAt(s, tableSize.next);
    var last :- ReadLongAt(s, first.next);
    var table :- HunkSizesLoop(s, last.next, HunkCount(first.value, last.value), []);
    Ok(Read(HeaderBlock(names.value, tableSize.value, first.value, last.value, table.value), table.next))
  }

  // ---------------------------------------------------------------------------
  // HUNK_CODE / HUNK_DATA / HUNK_BSS

  /** The data read is not checked for length: a truncated segment keeps
      whatever bytes were left. */
  function ParseSegment(s: seq<Byte>, pos: nat, id: nat): (r: Result<Read<Block>>)
    requires pos <= |s|
    ensures r.Ok? <==> pos + 4 <= |s|
    ensures r.Ok? ==> r.value.value.SegmentBlock? && r.value.value.id == id && pos < r.value.next <= |s|
    ensures r.Ok? ==> (r.value.value.data.None? <==> id == HUNK_BSS)
  {
    var size :- ReadLongAt(s, pos);
    if id != HUNK_BSS then
      var data := ReadUpTo(s, size.next, size.value * 4);
      Ok(Read(SegmentBlock(id, Some(data.value), size.next, size.value), data.next))
    else
      Ok(Read(SegmentBlock(id, None, 0, size.value), size.next))
  }

  // ---------------------------------------------------------------------------
  // Relocations

  /** HunkRelocLongBlock.parse: (num, hunk, offsets...) groups up to num == 0. */
  function RelocLongLoop(s: seq<Byte>, pos: nat, acc: seq<RelocGroup>): (r: Result<Read<seq<RelocGroup>>>)
    requires pos <= |s|
    ensures r.Ok? ==> pos < r.value.next <= |s|
    decreases |s| - pos
  {
    var num :- ReadLongAt(s, pos);
    if num.value == 0 then Ok(Read(acc, num.next))
    else
      var hunk :- ReadLongAt(s, num.next);
      var offsets :- LongsLoop(s, hunk.next, num.value, []);
      RelocLongLoop(s, offsets.next, acc + [RelocGroup(hunk.value, offsets.value)])
  }

  /** HunkRelocWordBlock.parse: num_words counts the words read so far; after
      the zero terminator one pad word is read when that count is odd. */
  function RelocWordLoop(s: seq<Byte>, pos: nat, numWords: nat, acc: seq<RelocGroup>)
    : (r: Result<Read<seq<RelocGroup>>>)
    requires pos <= |s|
    ensures r.Ok? ==> pos < r.value.next <= |s|
    decreases |s| - pos
  {
    var num :- ReadWordAt(s, pos);
    var words := numWords + 1;
    if num.value == 0 then
      if words % 2 == 1 then
        var pad :- ReadWordAt(s, num.next);
        Ok(Read(acc, pad.next))
      else Ok(Read(acc, num.next))
    else
      var hunk :- ReadWordAt(s, num.next);
      var offsets :- WordsLoop(s, hunk.next, num.value, []);
      RelocWordLoop(s, offsets.next, words + num.value + 1, acc + [RelocGroup(hunk.value, offsets.value)])
  }

  // ---------------------------------------------------------------------------
  // HUNK_DEBUG, HUNK_OVERLAY

  /** num_longs, then up to num_longs * 4 bytes (not checked for length). */
  function ParseDebug(s: seq<Byte>, pos: nat): (r: Result<Read<Block>>)
    requires pos <= |s|
    ensures r.Ok? <==> pos + 4 <= |s|
    ensures r.Ok? ==> r.value.value.DebugBlock? && pos < r.value.next <= |s|
  {
    var n :- ReadLongAt(s, pos);
    var data := ReadUpTo(s, n.next, n.value * 4);
    Ok(Read(DebugBlock(data.value), data.next))
  }

  function ParseOverlay(s: seq<Byte>, pos: nat): (r: Result<Read<Block>>)
    requires pos <= |s|
    ensures r.Ok? <==> pos + 4 <= |s|
    ensures r.Ok? ==> r.value.value.OverlayBlock? && pos < r.value.next <= |s|
  {
    var n :- ReadLongAt(s, pos);
    var data := ReadUpTo(s, n.next, n.value * 4);
    Ok(Read(OverlayBlock(n.next, data.value), data.next))
  }

  // ---------------------------------------------------------------------------
  // HUNK_SYMBOL, HUNK_UNIT, HUNK_NAME

  /** (name, offset) pairs up to a name of size 0. A short name leaves the
      cursor at the end of the stream, so the offset read after it fails. */
  function SymbolLoop(s: seq<Byte>, pos: nat, acc: seq<SymbolEntry>): (r: Result<Read<seq<SymbolEntry>>>)
    requires pos <= |s|
    ensures r.Ok? ==> pos < r.value.next <= |s|
    decreases |s| - pos
  {
    var nr :- ReadName(s, pos);
    match nr.value
    case NameShort => Err(ShortRead)
    case NameOk(size, text) =>
      if size == 0 then Ok(Read(acc, nr.next))
      else
        var off :- ReadLongAt(s, nr.next);
        SymbolLoop(s, off.next, acc + [SymbolEntry(text, off.value)])
  }

  /** HUNK_UNIT / HUNK_NAME: a short name is kept as None, without an error. */
  function ParseUnitName(s: seq<Byte>, pos: nat): (r: Result<Read<Option<seq<Byte>>>>)
    requires pos <= |s|
    ensures r.Ok? <==> pos + 4 <= |s|
    ensures r.Ok? ==> pos < r.value.next <= |s|
    ensures r.Ok? ==> (r.value.value.None? <==> ReadName(s, pos).value.value.NameShort?)
  {
    var nr :- ReadName(s, pos);
    match nr.value
    case NameShort => Ok(Read(None, nr.next))
    case NameOk(_, text) => Ok(Read(Some(text), nr.next))
  }

  // ---------------------------------------------------------------------------
  // HUNK_EXT

  /** One entry's payload, chosen by the type byte. */
  function ParseExtPayload(s: seq<Byte>, pos: nat, extType: nat): (r: Result<Read<ExtPayload>>)
    requires pos <= |s|
    ensures r.Ok? ==> pos < r.value.next <= |s|
    ensures r.Ok? ==> (r.value.value.ExtCommon? <==> extType == EXT_ABSCOMMON)
    ensures r.Ok? ==> (r.value.value.ExtRef? <==> extType != EXT_ABSCOMMON && extType >= 0x80)
  {
    if extType == EXT_ABSCOMMON then
      var v :- ReadLongAt(s, pos);
      Ok(Read(ExtCommon(v.value), v.next))
    else if extType >= 0x80 then
      var n :- ReadLongAt(s, pos);
      var offsets :- LongsLoop(s, n.next, n.value, []);
      Ok(Read(ExtRef(offsets.value), offsets.next))
    else
      var v :- ReadLongAt(s, pos);
      Ok(Read(ExtDef(v.value), v.next))
  }

  /** Entries up to a zero tag longword; the tag's top byte is the type and
      its low 24 bits the name's unit count. */
  function ExtLoop(s: seq<Byte>, pos: nat, acc: seq<ExtEntry>): (r: Result<Read<seq<ExtEntry>>>)
    requires pos <= |s|
    ensures r.Ok? ==> pos < r.value.next <= |s|
    decreases |s| - pos
  {
    var tag :- ReadLongAt(s, pos);
    if tag.value == 0 then Ok(Read(acc, tag.next))
    else
      var extType := tag.value / TWO_24;
      var nr := ReadNameSize(s, tag.next, tag.value % TWO_24);
      match nr.value
      case NameShort => Err(ShortRead)
      case NameOk(_, text) =>
        var payload :- ParseExtPayload(s, nr.next, extType);
        ExtLoop(s, payload.next, acc + [ExtEntry(text, extType, payload.value)])
  }

  // ---------------------------------------------------------------------------
  // HUNK_INDEX

  function IndexDefsLoop(s: seq<Byte>, pos: nat, n: nat, acc: seq<IndexSymbolDef>)
    : (r: Result<Read<seq<IndexSymbolDef>>>)
    requires pos <= |s|
    ensures r.Ok? ==> r.value.next == pos + 6 * n <= |s| && |r.value.value| == |acc| + n
    decreases n
  {
    if n == 0 then Ok(Read(acc, pos))
    else
      var nameOff :- ReadWordAt(s, pos);
      var value :- ReadWordAt(s, nameOff.next);
      var stype :- ReadWordAt(s, value.next);
      IndexDefsLoop(s, stype.next, n - 1, acc + [IndexSymbolDef(nameOff.value, value.value, stype.value)])
  }

  /** One hunk record; it costs 5 + num_refs + 3 * num_defs words. */
  function ParseIndexHunk(s: seq<Byte>, pos: nat): (r: Result<Read<IndexHunk>>)
    requires pos <= |s|
    ensures r.Ok? ==> r.value.next == pos + 2 * IndexHunkWords(r.value.value) <= |s|
  {
    var nameOff :- ReadWordAt(s, pos);
    var longs :- ReadWordAt(s, nameOff.next);
    var ctype :- ReadWordAt(s, longs.next);
    var numRefs :- ReadWordAt(s, ctype.next);
    var refs :- WordsLoop(s, numRefs.next, numRefs.value, []);
    var numDefs :- ReadWordAt(s, refs.next);
    var defs :- IndexDefsLoop(s, numDefs.next, numDefs.value, []);
    Ok(Read(IndexHunk(nameOff.value, longs.value, ctype.value, refs.value, defs.value), defs.next))
  }

  function IndexHunkWords(h: IndexHunk): nat
  {
    5 + |h.symRefs| + 3 * |h.symDefs|
  }

  /** The hunk records of one unit; numWords is the remaining word budget. */
  function IndexHunksLoop(s: seq<Byte>, pos: nat, n: nat, numWords: int, acc: seq<IndexHunk>)
    : (r: Result<Read<(seq<IndexHunk>, int)>>)
    requires pos <= |s|
    ensures r.Ok? ==> pos <= r.value.next <= |s| && r.value.value.1 <= numWords - 5 * n
    decreases n
  {
    if n == 0 then Ok(Read((acc, numWords), pos))
    else
      match ParseIndexHunk(s, pos)
      case Err(e) => Err(e)
      case Ok(h) => IndexHunksLoop(s, h.next, n - 1, numWords - IndexHunkWords(h.value), acc + [h.value])
  }

  /** `while num_words > 1`: unit records; then one alignment word exactly
      when the budget left is 1. */
  function IndexUnitsLoop(s: seq<Byte>, pos: nat, numWords: int, acc: seq<IndexUnit>)
    : (r: Result<Read<seq<IndexUnit>>>)
    requires pos <= |s|
    ensures r.Ok? ==> pos <= r.value.next <= |s|
    decreases if numWords > 0 then numWords else 0
  {
    if numWords > 1 then
      var nameOff :- ReadWordAt(s, pos);
      var first :- ReadWordAt(s, nameOff.next);
      var numHunks :- ReadWordAt(s, first.next);
      var hunks :- IndexHunksLoop(s, numHunks.next, numHunks.value, numWords - 3, []);
      IndexUnitsLoop(s, hunks.next, hunks.value.1,
                     acc + [IndexUnit(nameOff.value, first.value, hunks.value.0)])
    else if numWords == 1 then
      var pad :- ReadWordAt(s, pos);
      Ok(Read(acc, pad.next))
    else Ok(Read(acc, pos))
  }

  /** HunkIndexBlock.parse: the budget is num_longs * 2 words less the
      string table (strtab_size / 2, floored) and its size word. */
  function ParseIndex(s: seq<Byte>, pos: nat): (r: Result<Read<Block>>)
    requires pos <= |s|
    ensures r.Ok? ==> r.value.value.IndexBlock? && pos < r.value.next <= |s|
  {
    var numLongs :- ReadLongAt(s, pos);
    var strSize :- ReadWordAt(s, numLongs.next);
    var strtab := ReadUpTo(s, strSize.next, strSize.value);
    var numWords := numLongs.value * 2 - strSize.value / 2 - 1;
    var units :- IndexUnitsLoop(s, strtab.next, numWords, []);
    Ok(Read(IndexBlock(strtab.value, units.value), units.next))
  }

  // ---------------------------------------------------------------------------
  // Dispatch and HUNK_LIB (mutually recursive: a library holds blocks)

  /** The block body after its tag, by the codec hunk_block_type_map selects. */
  function ParseBody(s: seq<Byte>, pos: nat, id: nat): (r: Result<Read<Block>>)
    requires pos <= |s| && KindOf(id).Some?
    ensures r.Ok? ==> pos <= r.value.next <= |s|
    decreases |s| - pos, 2
  {
    match KindOf(id).value
    case KHeader => ParseHeader(s, pos)
    case KSegment => ParseSegment(s, pos, id)
    case KRelocLong =>
      var relocs :- RelocLongLoop(s, pos, []);
      Ok(Read(RelocLongBlock(id, relocs.value), relocs.next))
    case KRelocWord =>
      var relocs :- RelocWordLoop(s, pos, 0, []);
      Ok(Read(RelocWordBlock(relocs.value), relocs.next))
    case KEnd => Ok(Read(EndBlock, pos))
    case KDebug => ParseDebug(s, pos)
    case KSymbol =>
      var syms :- SymbolLoop(s, pos, []);
      Ok(Read(SymbolBlock(syms.value), syms.next))
    case KOverlay => ParseOverlay(s, pos)
    case KBreak => Ok(Read(BreakBlock, pos))
    case KUnit =>
      var name :- ParseUnitName(s, pos);
      Ok(Read(UnitBlock(name.value), name.next))
    case KName =>
      var name :- ParseUnitName(s, pos);
      Ok(Read(NameBlock(name.value), name.next))
    case KExt =>
      var entries :- ExtLoop(s, pos, []);
      Ok(Read(ExtBlock(entries.value), entries.next))
    case KLib => ParseLib(s, pos)
    case KIndex => ParseIndex(s, pos)
  }

  /** HunkLibBlock.parse: member blocks while the cursor is below the end of
      the num_longs * 4 byte region (a member may run past it). */
  function ParseLib(s: seq<Byte>, pos: nat): (r: Result<Read<Block>>)
    requires pos <= |s|
    ensures r.Ok? ==> r.value.value.LibBlock? && pos < r.value.next <= |s|
    decreases |s| - pos, 1
  {
    var numLongs :- ReadLongAt(s, pos);
    LibLoop(s, numLongs.next, numLongs.next + numLongs.value * 4, [], [])
  }

  /** One member per iteration: its tag (an empty read ends the region, a
      1-3 byte one fails), masked to 16 bits and looked up. */
  function LibLoop(s: seq<Byte>, pos: nat, endPos: nat, blocks: seq<Block>, offsets: seq<nat>)
    : (r: Result<Read<Block>>)
    requires pos <= |s|
    ensures r.Ok? ==> r.value.value.LibBlock? && pos <= r.value.next <= |s|
    decreases |s| - pos, 0
  {
    if pos >= endPos then Ok(Read(LibBlock(blocks, offsets), pos))
    else
      var tag := ReadUpTo(s, pos, 4);
      if |tag.value| == 0 then Ok(Read(LibBlock(blocks, offsets), tag.next))
      else if |tag.value| != 4 then Err(TagTooShort)
      else
        var id := LongValue(tag.value) % HUNK_TYPE_MASK_MOD;
        if KindOf(id).None? then Err(UnsupportedHunkType(id))
        else
          var b :- ParseBody(s, tag.next, id);
          LibLoop(s, b.next, endPos, blocks + [b.value], offsets + [pos])
  }
}
