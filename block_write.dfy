/** What each Hunk*Block.write emits, as functions returning the bytes
    appended to the output stream. The length-prefixed regions of HUNK_LIB and
    HUNK_INDEX are encoded in two passes (body first, then its length) instead
    of seeking back to patch a placeholder. */
module BlockWrite {
  import opened Base
  import opened HunkIds
  import opened Names
  import opened Blocks
  import BlockParse

  predicate Longs32(xs: seq<nat>) { forall i :: 0 <= i < |xs| ==> xs[i] < TWO_32 }
  predicate Words16(xs: seq<nat>) { forall i :: 0 <= i < |xs| ==> xs[i] < TWO_16 }

  function EncodeLongs(xs: seq<nat>): (r: seq<Byte>)
    requires Longs32(xs)
    ensures |r| == 4 * |xs|
  {
    if xs == [] then [] else Long(xs[0]) + EncodeLongs(xs[1..])
  }

  function EncodeWords(xs: seq<nat>): (r: seq<Byte>)
    requires Words16(xs)
    ensures |r| == 2 * |xs|
  {
    if xs == [] then [] else Word(xs[0]) + EncodeWords(xs[1..])
  }

  // ---------------------------------------------------------------------------
  // HUNK_HEADER

  predicate NamesWritable(names: seq<seq<Byte>>)
    decreases names
  {
    names == [] || (CanWriteName(names[0], None) && NamesWritable(names[1..]))
  }

  function EncodeNames(names: seq<seq<Byte>>): seq<Byte>
    requires NamesWritable(names)
  {
    if names == [] then [] else EncodeName(names[0], None) + EncodeNames(names[1..])
  }

  /** Resident names, a 0 longword, table_size, first_hunk, last_hunk and
      every hunk_table entry as written (not masked). */
  function EncodeHeader(names: seq<seq<Byte>>, tableSize: nat, first: nat, last: nat, table: seq<nat>)
    : (r: seq<Byte>)
    requires NamesWritable(names) && tableSize < TWO_32 && first < TWO_32 && last < TWO_32 && Longs32(table)
    ensures |r| == |EncodeNames(names)| + 16 + 4 * |table|
  {
    EncodeNames(names) + Long(0) + Long(tableSize) + Long(first) + Long(last) + EncodeLongs(table)
  }

  // ---------------------------------------------------------------------------
  // Relocations

  predicate GroupsLongWritable(groups: seq<RelocGroup>)
    decreases groups
  {
    groups == [] ||
    (&& |groups[0].offsets| < TWO_32 && groups[0].hunkNum < TWO_32 && Longs32(groups[0].offsets)
     && GroupsLongWritable(groups[1..]))
  }

  /** Each group as (len, hunk, offsets...), then a 0 longword. */
  function EncodeRelocLong(groups: seq<RelocGroup>): (r: seq<Byte>)
    requires GroupsLongWritable(groups)
    ensures |r| % 4 == 0
  {
    if groups == [] then Long(0)
    else
      Long(|groups[0].offsets|) + Long(groups[0].hunkNum) + EncodeLongs(groups[0].offsets)
      + EncodeRelocLong(groups[1..])
  }

  predicate GroupsWordWritable(groups: seq<RelocGroup>)
    decreases groups
  {
    groups == [] ||
    (&& |groups[0].offsets| < TWO_16 && groups[0].hunkNum < TWO_16 && Words16(groups[0].offsets)
     && GroupsWordWritable(groups[1..]))
  }

  function EncodeWordGroups(groups: seq<RelocGroup>): (r: seq<Byte>)
    requires GroupsWordWritable(groups)
    ensures |r| == 2 * GroupWords(groups)
  {
    if groups == [] then []
    else
      Word(|groups[0].offsets|) + Word(groups[0].hunkNum) + EncodeWords(groups[0].offsets)
      + EncodeWordGroups(groups[1..])
  }

  /** Words the groups take: 2 + len(offsets) each. */
  function GroupWords(groups: seq<RelocGroup>): nat
  {
    if groups == [] then 0 else 2 + |groups[0].offsets| + GroupWords(groups[1..])
  }

  /** HunkRelocWordBlock.write: the groups in words, a 0 word, and one more
      0 word when the word count so far is odd. */
  function EncodeRelocWord(groups: seq<RelocGroup>): (r: seq<Byte>)
    requires GroupsWordWritable(groups)
  {
    var numWords := GroupWords(groups) + 1;
    EncodeWordGroups(groups) + Word(0) + (if numWords % 2 == 1 then Word(0) else [])
  }

  // ---------------------------------------------------------------------------
  // HUNK_SYMBOL, HUNK_EXT

  predicate SymbolsWritable(syms: seq<SymbolEntry>)
    decreases syms
  {
    syms == [] || (CanWriteName(syms[0].name, None) && syms[0].offset < TWO_32 && SymbolsWritable(syms[1..]))
  }

  function EncodeSymbols(syms: seq<SymbolEntry>): seq<Byte>
    requires SymbolsWritable(syms)
  {
    if syms == [] then Long(0)
    else EncodeName(syms[0].name, None) + Long(syms[0].offset) + EncodeSymbols(syms[1..])
  }

  /** The payload the writer picks by ext_type must be the one the entry has. */
  predicate ExtEntryWritable(e: ExtEntry) {
    && CanWriteName(e.name, Some(e.extType))
    && (if e.extType == EXT_ABSCOMMON then e.payload.ExtCommon? && e.payload.bssSize < TWO_32
        else if e.extType >= 0x80 then e.payload.ExtRef? && |e.payload.offsets| < TWO_32 && Longs32(e.payload.offsets)
        else e.payload.ExtDef? && e.payload.value < TWO_32)
  }

  function EncodeExtPayload(p: ExtPayload): seq<Byte>
    requires match p
             case ExtCommon(v) => v < TWO_32
             case ExtRef(offs) => |offs| < TWO_32 && Longs32(offs)
             case ExtDef(v) => v < TWO_32
  {
    match p
    case ExtCommon(v) => Long(v)
    case ExtRef(offs) => Long(|offs|) + EncodeLongs(offs)
    case ExtDef(v) => Long(v)
  }

  predicate EntriesWritable(entries: seq<ExtEntry>)
    decreases entries
  {
    entries == [] || (ExtEntryWritable(entries[0]) && EntriesWritable(entries[1..]))
  }

  function EncodeExt(entries: seq<ExtEntry>): seq<Byte>
    requires EntriesWritable(entries)
  {
    if entries == [] then Long(0)
    else
      EncodeName(entries[0].name, Some(entries[0].extType)) + EncodeExtPayload(entries[0].payload)
      + EncodeExt(entries[1..])
  }

  // ---------------------------------------------------------------------------
  // HUNK_INDEX

  predicate IndexDefWritable(d: IndexSymbolDef) {
    d.nameOff < TWO_16 && d.value < TWO_16 && d.symCtype < TWO_16
  }

  predicate IndexHunkWritable(h: IndexHunk) {
    && h.nameOff < TWO_16 && h.hunkLongs < TWO_16 && h.hunkCtype < TWO_16
    && |h.symRefs| < TWO_16 && Words16(h.symRefs)
    && |h.symDefs| < TWO_16 && (forall i :: 0 <= i < |h.symDefs| ==> IndexDefWritable(h.symDefs[i]))
  }

  predicate IndexUnitWritable(u: IndexUnit) {
    && u.nameOff < TWO_16 && u.firstHunkLongOff < TWO_16 && |u.hunks| < TWO_16
    && (forall i :: 0 <= i < |u.hunks| ==> IndexHunkWritable(u.hunks[i]))
  }

  function EncodeIndexDefs(defs: seq<IndexSymbolDef>): (r: seq<Byte>)
    requires forall i :: 0 <= i < |defs| ==> IndexDefWritable(defs[i])
    ensures |r| == 6 * |defs|
  {
    if defs == [] then []
    else
      assert IndexDefWritable(defs[0]);
      Word(defs[0].nameOff) + Word(defs[0].value) + Word(defs[0].symCtype) + EncodeIndexDefs(defs[1..])
  }

  function EncodeIndexHunk(h: IndexHunk): (r: seq<Byte>)
    requires IndexHunkWritable(h)
    ensures |r| == 2 * BlockParse.IndexHunkWords(h)
  {
    Word(h.nameOff) + Word(h.hunkLongs) + Word(h.hunkCtype)
    + Word(|h.symRefs|) + EncodeWords(h.symRefs)
    + Word(|h.symDefs|) + EncodeIndexDefs(h.symDefs)
  }

  function EncodeIndexHunks(hunks: seq<IndexHunk>): (r: seq<Byte>)
    requires forall i :: 0 <= i < |hunks| ==> IndexHunkWritable(hunks[i])
    ensures |r| == 2 * HunksWords(hunks)
  {
    if hunks == [] then [] else assert IndexHunkWritable(hunks[0]); EncodeIndexHunk(hunks[0]) + EncodeIndexHunks(hunks[1..])
  }

  function HunksWords(hunks: seq<IndexHunk>): nat
  {
    if hunks == [] then 0 else BlockParse.IndexHunkWords(hunks[0]) + HunksWords(hunks[1..])
  }

  function EncodeIndexUnits(units: seq<IndexUnit>): (r: seq<Byte>)
    requires forall i :: 0 <= i < |units| ==> IndexUnitWritable(units[i])
    ensures |r| == 2 * UnitsWords(units)
  {
    if units == [] then []
    else
      assert IndexUnitWritable(units[0]);
      Word(units[0].nameOff) + Word(units[0].firstHunkLongOff) + Word(|units[0].hunks|)
      + EncodeIndexHunks(units[0].hunks) + EncodeIndexUnits(units[1..])
  }

  /** Words the unit records take: 3 per unit plus its hunk records. */
  function UnitsWords(units: seq<IndexUnit>): nat
  {
    if units == [] then 0 else 3 + HunksWords(units[0].hunks) + UnitsWords(units[1..])
  }

  /** The word count HunkIndexBlock.write keeps, before the alignment word. */
  function IndexWords(strtab: seq<Byte>, units: seq<IndexUnit>): nat
  {
    |strtab| / 2 + 1 + UnitsWords(units)
  }

  predicate IndexWritable(strtab: seq<Byte>, units: seq<IndexUnit>) {
    && |strtab| < TWO_16
    && (forall i :: 0 <= i < |units| ==> IndexUnitWritable(units[i]))
    && (IndexWords(strtab, units) + 1) / 2 < TWO_32
  }

  /** HunkIndexBlock.write: the long count is the word count (rounded up to
      even by the alignment word) halved. */
  function EncodeIndex(strtab: seq<Byte>, units: seq<IndexUnit>): seq<Byte>
    requires IndexWritable(strtab, units)
  {
    var words := IndexWords(strtab, units);
    var padded := if words % 2 == 1 then words + 1 else words;
    Long(padded / 2) + Word(|strtab|) + strtab + EncodeIndexUnits(units)
    + (if words % 2 == 1 then Word(0) else [])
  }

  // ---------------------------------------------------------------------------
  // Any block, and HUNK_LIB

  /** What every write in the block demands of its values (struct.pack
      ranges, names present, the payload the ext type selects). */
  predicate Writable(b: Block)
    decreases b, 2
  {
    match b
    case HeaderBlock(names, ts, fh, lh, table) =>
      NamesWritable(names) && ts < TWO_32 && fh < TWO_32 && lh < TWO_32 && Longs32(table)
    case SegmentBlock(_, _, _, sizeLongs) => sizeLongs < TWO_32
    case RelocLongBlock(_, groups) => GroupsLongWritable(groups)
    case RelocWordBlock(groups) => GroupsWordWritable(groups)
    case EndBlock => true
    case OverlayBlock(_, _) => false
    case BreakBlock => true
    case DebugBlock(d) => |d| / 4 < TWO_32
    case SymbolBlock(syms) => SymbolsWritable(syms)
    case UnitBlock(name) => name.Some? && CanWriteName(name.value, None)
    case NameBlock(name) => name.Some? && CanWriteName(name.value, None)
    case ExtBlock(entries) => EntriesWritable(entries)
    case LibBlock(blocks, _) => MembersWritable(blocks) && |EncodeMembers(blocks)| / 4 < TWO_32
    case IndexBlock(strtab, units) => IndexWritable(strtab, units)
  }

  predicate MembersWritable(blocks: seq<Block>)
    decreases blocks, 0
  {
    forall i :: 0 <= i < |blocks| ==> BlkId(blocks[i]) < TWO_32 && Writable(blocks[i])
  }

  /** The bytes of Hunk*Block.write for b (its tag not included). */
  function EncodeBlock(b: Block): seq<Byte>
    requires Writable(b)
    decreases b, 3
  {
    match b
    case HeaderBlock(names, ts, fh, lh, table) => EncodeHeader(names, ts, fh, lh, table)
    case SegmentBlock(_, data, _, sizeLongs) =>
      Long(sizeLongs) + (if data.Some? then data.value else [])
    case RelocLongBlock(_, groups) => EncodeRelocLong(groups)
    case RelocWordBlock(groups) => EncodeRelocWord(groups)
    case EndBlock => []
    case BreakBlock => []
    case DebugBlock(d) => Long(|d| / 4) + d
    case SymbolBlock(syms) => EncodeSymbols(syms)
    case UnitBlock(name) => EncodeName(name.value, None)
    case NameBlock(name) => EncodeName(name.value, None)
    case ExtBlock(entries) => EncodeExt(entries)
    case LibBlock(blocks, _) =>
      var body := EncodeMembers(blocks);
      Long(|body| / 4) + body
    case IndexBlock(strtab, units) => EncodeIndex(strtab, units)
  }

  /** The members of a library, each as its raw tag and its body. */
  function EncodeMembers(blocks: seq<Block>): seq<Byte>
    requires MembersWritable(blocks)
    decreases blocks, 1
  {
    if blocks == [] then []
    else Long(BlkId(blocks[0])) + EncodeBlock(blocks[0]) + EncodeMembers(blocks[1..])
  }
}
