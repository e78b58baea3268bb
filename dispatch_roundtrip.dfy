/** Any block read back through the codec its tag selects: parse(write(b))
    == b for every block kind whose write and parse are inverse on the
    block's values. */
module DispatchRoundTrip {
  import opened Base
  import opened HunkIds
  import opened Names
  import opened Blocks
  import opened BlockParse
  import opened BlockWrite
  import opened BlockRoundTrip
  import opened RelocRoundTrip
  import opened BodyRoundTrip

  /** b, written with its body at pos, reads back as b: its values fit the
      writer, survive the reader (no NUL in names, no empty relocation
      group, whole longwords of data), and the stream positions it records
      are the ones it is written at. Overlay, library and index blocks are
      not covered. */
  predicate Decodes(b: Block, pos: nat) {
    && Writable(b)
    && match b
       case HeaderBlock(names, _, fh, lh, table) =>
         NamesDecode(names) && SizesFit(table) && |table| == HunkCount(fh, lh)
       case SegmentBlock(id, data, off, size) =>
         && HUNK_CODE <= id <= HUNK_BSS
         && (if id == HUNK_BSS then data.None? && off == 0
             else data.Some? && |data.value| == 4 * size && off == pos + 4)
       case RelocLongBlock(id, groups) => KindOf(id) == Some(KRelocLong) && GroupsNonEmpty(groups)
       case RelocWordBlock(groups) => GroupsNonEmpty(groups)
       case EndBlock => true
       case BreakBlock => true
       case DebugBlock(d) => |d| % 4 == 0
       case SymbolBlock(syms) => SymbolsDecode(syms)
       case UnitBlock(name) => NameDecodes(name.value)
       case NameBlock(name) => NameDecodes(name.value)
       case ExtBlock(entries) => ExtDecode(entries)
       case OverlayBlock(_, _) => false
       case LibBlock(_, _) => false
       case IndexBlock(_, _) => false
  }

  lemma RelocLongBlockOfEncoded(id: nat, groups: seq<RelocGroup>, s: seq<Byte>, pos: nat, end: nat)
    requires KindOf(id) == Some(KRelocLong) && GroupsLongWritable(groups) && GroupsNonEmpty(groups)
    requires At(s, pos, EncodeRelocLong(groups)) && end == pos + |EncodeRelocLong(groups)|
    ensures pos <= |s| && ParseBody(s, pos, id) == Ok(Read(RelocLongBlock(id, groups), end))
  {
    RelocLongLoopOfEncoded(groups, s, pos, [], end);
    assert [] + groups == groups;
  }

  lemma RelocWordBlockOfEncoded(groups: seq<RelocGroup>, s: seq<Byte>, pos: nat, end: nat)
    requires GroupsWordWritable(groups) && GroupsNonEmpty(groups)
    requires At(s, pos, EncodeRelocWord(groups)) && end == pos + |EncodeRelocWord(groups)|
    ensures pos <= |s| && ParseBody(s, pos, HUNK_RELOC32SHORT) == Ok(Read(RelocWordBlock(groups), end))
  {
    RelocWordOfEncoded(groups, s, pos, end);
  }

  lemma SymbolBlockOfEncoded(syms: seq<SymbolEntry>, s: seq<Byte>, pos: nat, end: nat)
    requires SymbolsWritable(syms) && SymbolsDecode(syms)
    requires At(s, pos, EncodeSymbols(syms)) && end == pos + |EncodeSymbols(syms)|
    ensures pos <= |s| && ParseBody(s, pos, HUNK_SYMBOL) == Ok(Read(SymbolBlock(syms), end))
  {
    SymbolLoopOfEncoded(syms, s, pos, [], end);
    assert [] + syms == syms;
  }

  lemma ExtBlockOfEncoded(entries: seq<ExtEntry>, s: seq<Byte>, pos: nat, end: nat)
    requires EntriesWritable(entries) && ExtDecode(entries)
    requires At(s, pos, EncodeExt(entries)) && end == pos + |EncodeExt(entries)|
    ensures pos <= |s| && ParseBody(s, pos, HUNK_EXT) == Ok(Read(ExtBlock(entries), end))
  {
    assert ExtLoop(s, pos, []) == Ok(Read(entries, end)) by {
      ExtLoopOfEncoded(entries, s, pos, [], end);
      assert [] + entries == entries;
    }
    ExtBlockOfLoop(s, pos, entries, end);
  }

  /** The EXT branch of the dispatch gives what its loop reads. */
  lemma ExtBlockOfLoop(s: seq<Byte>, pos: nat, entries: seq<ExtEntry>, end: nat)
    requires pos <= |s| && ExtLoop(s, pos, []) == Ok(Read(entries, end))
    ensures ParseBody(s, pos, HUNK_EXT) == Ok(Read(ExtBlock(entries), end))
  {
    assert KindOf(HUNK_EXT) == Some(KExt);
  }

  lemma UnitBlockOfEncoded(b: Block, s: seq<Byte>, pos: nat, end: nat)
    requires (b.UnitBlock? || b.NameBlock?) && b.name.Some?
    requires CanWriteName(b.name.value, None) && NameDecodes(b.name.value)
    requires At(s, pos, EncodeName(b.name.value, None)) && end == pos + |EncodeName(b.name.value, None)|
    ensures pos <= |s| && ParseBody(s, pos, BlkId(b)) == Ok(Read(b, end))
  {
    UnitNameOfEncoded(b.name.value, s, pos, end);
  }

  lemma SegmentBlockOfEncoded(b: Block, s: seq<Byte>, pos: nat, end: nat)
    requires b.SegmentBlock? && Decodes(b, pos)
    requires At(s, pos, EncodeBlock(b)) && end == pos + |EncodeBlock(b)|
    ensures pos <= |s| && ParseBody(s, pos, BlkId(b)) == Ok(Read(b, end))
  {
    if b.id == HUNK_BSS {
      assert EncodeBlock(b) == Long(b.sizeLongs);
      BssOfEncoded(b.sizeLongs, s, pos);
    } else {
      assert EncodeBlock(b) == Long(b.sizeLongs) + b.data.value;
      SegmentOfEncoded(b.id, b.data.value, b.sizeLongs, s, pos, end);
    }
  }

  /** HunkBlock.parse(write(b)) == b, the cursor just after what was written. */
  lemma BlockOfEncoded(b: Block, s: seq<Byte>, pos: nat, end: nat)
    requires Decodes(b, pos)
    requires At(s, pos, EncodeBlock(b)) && end == pos + |EncodeBlock(b)|
    ensures pos <= |s| && KindOf(BlkId(b)).Some?
    ensures ParseBody(s, pos, BlkId(b)) == Ok(Read(b, end))
  {
    AtSlice(s, pos, EncodeBlock(b));
    match b
    case HeaderBlock(names, ts, fh, lh, table) =>
      HeaderOfEncoded(names, ts, fh, lh, table, s, pos, end);
    case SegmentBlock(_, _, _, _) =>
      SegmentBlockOfEncoded(b, s, pos, end);
    case RelocLongBlock(id, groups) =>
      RelocLongBlockOfEncoded(id, groups, s, pos, end);
    case RelocWordBlock(groups) =>
      RelocWordBlockOfEncoded(groups, s, pos, end);
    case EndBlock =>
    case BreakBlock =>
    case DebugBlock(d) =>
      DebugOfEncoded(d, s, pos, end);
    case SymbolBlock(syms) =>
      SymbolBlockOfEncoded(syms, s, pos, end);
    case UnitBlock(_) =>
      UnitBlockOfEncoded(b, s, pos, end);
    case NameBlock(_) =>
      UnitBlockOfEncoded(b, s, pos, end);
    case ExtBlock(entries) =>
      ExtBlockOfEncoded(entries, s, pos, end);
  }
}
