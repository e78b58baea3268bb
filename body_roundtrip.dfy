/** Round trips of the blocks whose bodies are names, a counted payload or a
    name list: HUNK_SYMBOL, HUNK_UNIT / HUNK_NAME, HUNK_DEBUG and the
    segment blocks. */
module BodyRoundTrip {
  import opened Base
  import opened HunkIds
  import opened Names
  import opened Blocks
  import opened BlockParse
  import opened BlockWrite
  import opened BlockRoundTrip

  /** A written untagged name reads back; the empty name reads as the
      (0, "") terminator, which is what it was written as. */
  lemma NameAt(name: seq<Byte>, rest: seq<Byte>, s: seq<Byte>, pos: nat)
    requires CanWriteName(name, None) && NameDecodes(name)
    requires At(s, pos, EncodeName(name, None) + rest)
    ensures pos + NameSize(name) <= |s|
    ensures ReadName(s, pos) == Ok(Read(NameOk(4 * NameLongs(|name|), name), pos + NameSize(name)))
    ensures At(s, pos + NameSize(name), rest)
  {
    AtSplit(s, pos, EncodeName(name, None), rest);
    AtSlice(s, pos, EncodeName(name, None));
    if name == [] {
      assert EncodeName(name, None) == Long(0) + [];
      AtLong(s, pos, 0, []);
    } else {
      ReadNameOfEncoded(name, s, pos);
    }
  }

  // ---------------------------------------------------------------------------
  // HUNK_SYMBOL

  /** Every symbol name reads back and none is empty (an empty one would read
      as the terminator). */
  predicate SymbolsDecode(syms: seq<SymbolEntry>)
    decreases syms
  {
    syms == [] || (NameDecodes(syms[0].name) && syms[0].name != [] && SymbolsDecode(syms[1..]))
  }

  lemma SymbolsLayout(syms: seq<SymbolEntry>)
    requires SymbolsWritable(syms) && SymbolsDecode(syms) && syms != []
    ensures SymbolsWritable(syms[1..]) && SymbolsDecode(syms[1..])
    ensures CanWriteName(syms[0].name, None) && NameDecodes(syms[0].name) && syms[0].name != []
    ensures syms[0].offset < TWO_32
    ensures EncodeSymbols(syms) ==
            EncodeName(syms[0].name, None) + (Long(syms[0].offset) + EncodeSymbols(syms[1..]))
    ensures |EncodeSymbols(syms)| == NameSize(syms[0].name) + 4 + |EncodeSymbols(syms[1..])|
  {
  }

  lemma SymbolStep(s: seq<Byte>, pos: nat, acc: seq<SymbolEntry>, size: nat, e: SymbolEntry, p: nat, next: nat)
    requires pos <= |s| && ReadName(s, pos) == Ok(Read(NameOk(size, e.name), p))
    requires size != 0 && p <= |s| && ReadLongAt(s, p) == Ok(Read(e.offset, next))
    ensures next <= |s| && SymbolLoop(s, pos, acc) == SymbolLoop(s, next, acc + [e])
  {
  }

  /** One written symbol is read by one turn of the loop. */
  lemma SymbolEntryAt(e: SymbolEntry, rest: seq<Byte>, s: seq<Byte>, pos: nat, acc: seq<SymbolEntry>, next: nat)
    requires CanWriteName(e.name, None) && NameDecodes(e.name) && e.name != [] && e.offset < TWO_32
    requires At(s, pos, EncodeName(e.name, None) + (Long(e.offset) + rest))
    requires next == pos + NameSize(e.name) + 4
    ensures next <= |s| && At(s, next, rest)
    ensures SymbolLoop(s, pos, acc) == SymbolLoop(s, next, acc + [e])
  {
    NameAt(e.name, Long(e.offset) + rest, s, pos);
    AtLongTo(s, pos + NameSize(e.name), e.offset, rest, next);
    SymbolStep(s, pos, acc, 4 * NameLongs(|e.name|), e, pos + NameSize(e.name), next);
  }

  lemma {:induction false} SymbolLoopOfEncoded(syms: seq<SymbolEntry>, s: seq<Byte>, pos: nat,
                                               acc: seq<SymbolEntry>, end: nat)
    requires SymbolsWritable(syms) && SymbolsDecode(syms)
    requires At(s, pos, EncodeSymbols(syms)) && end == pos + |EncodeSymbols(syms)|
    ensures SymbolLoop(s, pos, acc) == Ok(Read(acc + syms, end))
    decreases syms
  {
    if syms == [] {
      assert EncodeSymbols(syms) == Long(0) + [];
      AtLong(s, pos, 0, []);
      assert acc + syms == acc;
    } else {
      var next := pos + NameSize(syms[0].name) + 4;
      SymbolsLayout(syms);
      SymbolEntryAt(syms[0], EncodeSymbols(syms[1..]), s, pos, acc, next);
      SymbolLoopOfEncoded(syms[1..], s, next, acc + [syms[0]], end);
      ConsAppend(acc, syms);
    }
  }

  // ---------------------------------------------------------------------------
  // HUNK_EXT

  /** _read_name_size only looks at the low 24 bits of its count. */
  lemma ReadNameSizeMask(s: seq<Byte>, pos: nat, count: nat)
    requires pos <= |s|
    ensures ReadNameSize(s, pos, count % TWO_24) == ReadNameSize(s, pos, count)
  {
  }

  /** An entry reads back when its name has no NUL and its tag longword is
      not 0 (an empty name of type 0 would read as the terminator). */
  predicate ExtEntryDecodes(e: ExtEntry) {
    NulFree(e.name) && NameCount(e.name, Some(e.extType)) != 0
  }

  predicate ExtDecode(entries: seq<ExtEntry>)
    decreases entries
  {
    entries == [] || (ExtEntryDecodes(entries[0]) && ExtDecode(entries[1..]))
  }

  lemma ExtLayout(entries: seq<ExtEntry>)
    requires EntriesWritable(entries) && ExtDecode(entries) && entries != []
    ensures ExtEntryWritable(entries[0]) && ExtEntryDecodes(entries[0])
    ensures EntriesWritable(entries[1..]) && ExtDecode(entries[1..])
    ensures EncodeExt(entries) ==
            EncodeName(entries[0].name, Some(entries[0].extType)) +
            (EncodeExtPayload(entries[0].payload) + EncodeExt(entries[1..]))
  {
  }

  /** The tagged name of an entry: the tag longword gives back the type and
      the unit count, and the text reads back. */
  lemma ExtNameAt(name: seq<Byte>, t: nat, rest: seq<Byte>, s: seq<Byte>, pos: nat, next: nat)
    requires CanWriteName(name, Some(t)) && NulFree(name)
    requires At(s, pos, EncodeName(name, Some(t)) + rest) && next == pos + NameSize(name)
    ensures ReadLongAt(s, pos) == Ok(Read(NameCount(name, Some(t)), pos + 4))
    ensures NameCount(name, Some(t)) / TWO_24 == t
    ensures ReadNameSize(s, pos + 4, NameCount(name, Some(t)) % TWO_24) ==
            Read(NameOk(4 * NameLongs(|name|), name), next)
    ensures next <= |s| && At(s, next, rest)
  {
    var enc := EncodeName(name, Some(t));
    AtSplit(s, pos, enc, rest);
    AtSlice(s, pos, enc);
    EncodeNameLayout(name, Some(t));
    NameCountSplit(name, Some(t));
    assert s[pos..pos + 4] == enc[..4];
    ReadLongOfLong(NameCount(name, Some(t)), s, pos);
    ReadNameSizeOfEncoded(name, Some(t), s, pos);
    ReadNameSizeMask(s, pos + 4, NameCount(name, Some(t)));
  }

  /** The payload the type selects reads back. */
  lemma ExtPayloadAt(e: ExtEntry, rest: seq<Byte>, s: seq<Byte>, pos: nat, next: nat)
    requires ExtEntryWritable(e)
    requires At(s, pos, EncodeExtPayload(e.payload) + rest) && next == pos + |EncodeExtPayload(e.payload)|
    ensures ParseExtPayload(s, pos, e.extType) == Ok(Read(e.payload, next))
    ensures next <= |s| && At(s, next, rest)
  {
    match e.payload
    case ExtCommon(v) =>
      AtLong(s, pos, v, rest);
    case ExtDef(v) =>
      AtLong(s, pos, v, rest);
    case ExtRef(offs) =>
      assert EncodeExtPayload(e.payload) + rest == Long(|offs|) + (EncodeLongs(offs) + rest);
      AtLong(s, pos, |offs|, EncodeLongs(offs) + rest);
      AtSplit(s, pos + 4, EncodeLongs(offs), rest);
      LongsLoopOfEncoded(offs, s, pos + 4, []);
      assert [] + offs == offs;
  }

  lemma ExtStep(s: seq<Byte>, pos: nat, acc: seq<ExtEntry>, e: ExtEntry, count: nat, q: nat, next: nat)
    requires pos <= |s| && ReadLongAt(s, pos) == Ok(Read(count, pos + 4))
    requires count != 0 && count / TWO_24 == e.extType
    requires pos + 4 <= |s| && ReadNameSize(s, pos + 4, count % TWO_24) == Read(NameOk(4 * NameLongs(|e.name|), e.name), q)
    requires q <= |s| && ParseExtPayload(s, q, e.extType) == Ok(Read(e.payload, next))
    ensures next <= |s| && ExtLoop(s, pos, acc) == ExtLoop(s, next, acc + [e])
  {
  }

  /** One written entry is read by one turn of the loop. */
  lemma ExtEntryAt(e: ExtEntry, rest: seq<Byte>, s: seq<Byte>, pos: nat, acc: seq<ExtEntry>, next: nat)
    requires ExtEntryWritable(e) && ExtEntryDecodes(e)
    requires At(s, pos, EncodeName(e.name, Some(e.extType)) + (EncodeExtPayload(e.payload) + rest))
    requires next == pos + NameSize(e.name) + |EncodeExtPayload(e.payload)|
    ensures next <= |s| && At(s, next, rest)
    ensures ExtLoop(s, pos, acc) == ExtLoop(s, next, acc + [e])
  {
    ExtNameAt(e.name, e.extType, EncodeExtPayload(e.payload) + rest, s, pos, pos + NameSize(e.name));
    ExtPayloadAt(e, rest, s, pos + NameSize(e.name), next);
    ExtStep(s, pos, acc, e, NameCount(e.name, Some(e.extType)), pos + NameSize(e.name), next);
  }

  lemma {:induction false} ExtLoopOfEncoded(entries: seq<ExtEntry>, s: seq<Byte>, pos: nat,
                                            acc: seq<ExtEntry>, end: nat)
    requires EntriesWritable(entries) && ExtDecode(entries)
    requires At(s, pos, EncodeExt(entries)) && end == pos + |EncodeExt(entries)|
    ensures ExtLoop(s, pos, acc) == Ok(Read(acc + entries, end))
    decreases entries
  {
    if entries == [] {
      assert EncodeExt(entries) == Long(0) + [];
      AtLong(s, pos, 0, []);
      assert acc + entries == acc;
    } else {
      var e := entries[0];
      var next := pos + NameSize(e.name) + |EncodeExtPayload(e.payload)|;
      ExtLayout(entries);
      ExtEntryAt(e, EncodeExt(entries[1..]), s, pos, acc, next);
      ExtLoopOfEncoded(entries[1..], s, next, acc + [e], end);
      ConsAppend(acc, entries);
    }
  }

  // ---------------------------------------------------------------------------
  // HUNK_UNIT / HUNK_NAME

  /** A unit or name block's name reads back, the empty name included. */
  lemma UnitNameOfEncoded(name: seq<Byte>, s: seq<Byte>, pos: nat, end: nat)
    requires CanWriteName(name, None) && NameDecodes(name)
    requires At(s, pos, EncodeName(name, None)) && end == pos + |EncodeName(name, None)|
    ensures ParseUnitName(s, pos) == Ok(Read(Some(name), end))
  {
    assert EncodeName(name, None) + [] == EncodeName(name, None);
    NameAt(name, [], s, pos);
  }

  // ---------------------------------------------------------------------------
  // HUNK_DEBUG

  /** Debug data of whole longwords reads back. */
  lemma DebugOfEncoded(d: seq<Byte>, s: seq<Byte>, pos: nat, end: nat)
    requires |d| % 4 == 0 && |d| / 4 < TWO_32
    requires At(s, pos, Long(|d| / 4) + d) && end == pos + 4 + |d|
    ensures ParseDebug(s, pos) == Ok(Read(DebugBlock(d), end))
  {
    AtLong(s, pos, |d| / 4, d);
    AtSlice(s, pos + 4, d);
  }

  /** write stores int(len / 4) longs but all the bytes: for data of n
      longwords and r more bytes, the reader takes the n longwords and stops
      r bytes short, leaving them to be taken for the next block tag. */
  lemma DebugUnalignedIsCut(d: seq<Byte>, n: nat, r: nat, s: seq<Byte>, pos: nat)
    requires |d| == 4 * n + r && 0 < r < 4 && n < TWO_32
    requires At(s, pos, Long(n) + d)
    ensures ParseDebug(s, pos) == Ok(Read(DebugBlock(d[..4 * n]), pos + 4 + 4 * n))
  {
    assert ReadLongAt(s, pos) == Ok(Read(n, pos + 4)) && pos + 4 + |d| <= |s| && s[pos + 4..pos + 4 + |d|] == d by {
      AtLong(s, pos, n, d);
      AtSlice(s, pos + 4, d);
    }
    assert s[pos + 4..pos + 4 + 4 * n] == d[..4 * n];
  }

  // ---------------------------------------------------------------------------
  // HUNK_CODE / HUNK_DATA / HUNK_BSS

  /** A code or data block reads back when its data is size_longs longwords
      and its data_offset is where that data sits. */
  lemma SegmentOfEncoded(id: nat, data: seq<Byte>, sizeLongs: nat, s: seq<Byte>, pos: nat, end: nat)
    requires id != HUNK_BSS && sizeLongs < TWO_32 && |data| == 4 * sizeLongs
    requires At(s, pos, Long(sizeLongs) + data) && end == pos + 4 + |data|
    ensures ParseSegment(s, pos, id) == Ok(Read(SegmentBlock(id, Some(data), pos + 4, sizeLongs), end))
  {
    AtLong(s, pos, sizeLongs, data);
    AtSlice(s, pos + 4, data);
  }

  /** A BSS block is its size alone. */
  lemma BssOfEncoded(sizeLongs: nat, s: seq<Byte>, pos: nat)
    requires sizeLongs < TWO_32 && At(s, pos, Long(sizeLongs))
    ensures ParseSegment(s, pos, HUNK_BSS) == Ok(Read(SegmentBlock(HUNK_BSS, None, 0, sizeLongs), pos + 4))
  {
    assert Long(sizeLongs) == Long(sizeLongs) + [];
    AtLong(s, pos, sizeLongs, []);
  }
}
