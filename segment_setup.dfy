/** The HunkSegment.setup_* family: a segment filled from a BinImage
    segment's data, relocations, symbols and debug lines. */
module SegmentSetup {
  import opened Base
  import opened HunkIds
  import opened Names
  import opened Blocks
  import opened BlockParse
  import opened BlockWrite
  import opened BlockRoundTrip
  import opened BodyRoundTrip
  import opened HunkDebug
  import opened LoadSeg

  /** HunkSegment._pad_data: the data zero-padded to whole longwords, and
      the number of longwords. */
  function PadData(data: seq<Byte>): (r: (seq<Byte>, nat))
    ensures |r.0| == 4 * r.1 && |data| <= 4 * r.1 < |data| + 4
    ensures r.0[..|data|] == data && forall i :: |data| <= i < |r.0| ==> r.0[i] == 0
  {
    var add := if |data| % 4 > 0 then 4 - |data| % 4 else 0;
    var padded := data + Zeros(add);
    assert padded[..|data|] == data;
    (padded, (|data| + 3) / 4)
  }

  // ---------------------------------------------------------------------------
  // Segment blocks: as written and as intended

  /** HunkSegmentBlock(blk_id, data, size_longs) as setup_code, setup_data
      and setup_bss call it: the third positional parameter is data_offset,
      so the size lands there and size_longs keeps its default 0. */
  function PositionalSegmentBlock(id: nat, data: Option<seq<Byte>>, sizeLongs: nat): (b: Block)
    ensures b.SegmentBlock? && b.sizeLongs == 0 && b.dataOffset == sizeLongs
  {
    SegmentBlock(id, data, sizeLongs, 0)
  }

  function SetupCodeAsWritten(seg: HunkSegment, data: seq<Byte>): HunkSegment
  {
    var (padded, sizeLongs) := PadData(data);
    seg.(segBlk := Some(PositionalSegmentBlock(HUNK_CODE, Some(padded), sizeLongs)))
  }

  function SetupDataAsWritten(seg: HunkSegment, data: seq<Byte>): HunkSegment
  {
    var (padded, sizeLongs) := PadData(data);
    seg.(segBlk := Some(PositionalSegmentBlock(HUNK_DATA, Some(padded), sizeLongs)))
  }

  function SetupBssAsWritten(seg: HunkSegment, sizeBytes: nat): HunkSegment
  {
    seg.(segBlk := Some(PositionalSegmentBlock(HUNK_BSS, None, (sizeBytes + 3) / 4)))
  }

  /** As written, a code segment built from data claims 0 longwords: create
      reports size 0 for the header, and a reader of the written block takes
      no data and is left facing the data bytes as the next tag. */
  lemma SetupCodeLosesSize(data: seq<Byte>)
    requires data != [] && |data| < TWO_32
    ensures var seg := SetupCodeAsWritten(NewSegment, data);
            && Create(seg).Ok? && Create(seg).value.2 == 0
            && Writable(seg.segBlk.value)
            && |EncodeBlock(seg.segBlk.value)| > 4
            && ParseSegment(EncodeBlock(seg.segBlk.value), 0, HUNK_CODE) ==
               Ok(Read(SegmentBlock(HUNK_CODE, Some([]), 4, 0), 4))
  {
    var seg := SetupCodeAsWritten(NewSegment, data);
    var enc := EncodeBlock(seg.segBlk.value);
    assert enc[0..4] == Long(0);
    LongRoundTrip(0);
  }

  /** setup_code with the size passed by name. */
  function SetupCode(seg: HunkSegment, data: seq<Byte>): HunkSegment
  {
    var (padded, sizeLongs) := PadData(data);
    seg.(segBlk := Some(SegmentBlock(HUNK_CODE, Some(padded), 0, sizeLongs)))
  }

  function SetupData(seg: HunkSegment, data: seq<Byte>): HunkSegment
  {
    var (padded, sizeLongs) := PadData(data);
    seg.(segBlk := Some(SegmentBlock(HUNK_DATA, Some(padded), 0, sizeLongs)))
  }

  function SetupBss(seg: HunkSegment, sizeBytes: nat): HunkSegment
  {
    seg.(segBlk := Some(SegmentBlock(HUNK_BSS, None, 0, (sizeBytes + 3) / 4)))
  }

  /** With the size in place, create reports the padded size and the written
      code or data block reads back with all of its data. */
  lemma SetupCodeRoundTrip(data: seq<Byte>, isData: bool)
    requires |data| < TWO_32
    ensures var seg := if isData then SetupData(NewSegment, data) else SetupCode(NewSegment, data);
            var b := seg.segBlk.value;
            && b.SegmentBlock? && Writable(b)
            && Create(seg).Ok? && 4 * Create(seg).value.2 == |b.data.value|
            && |data| <= |b.data.value| < |data| + 4 && b.data.value[..|data|] == data
            && ParseSegment(EncodeBlock(b), 0, b.id) ==
               Ok(Read(b.(dataOffset := 4), |EncodeBlock(b)|))
  {
    var seg := if isData then SetupData(NewSegment, data) else SetupCode(NewSegment, data);
    var b := seg.segBlk.value;
    var enc := EncodeBlock(b);
    AtSlice(enc, 0, enc);
    SegmentOfEncoded(b.id, b.data.value, b.sizeLongs, enc, 0, |enc|);
  }

  /** As written a BSS segment is created with size 0; with the size in
      place it reads back as ceil(size / 4) longwords. */
  lemma SetupBssSize(sizeBytes: nat)
    requires sizeBytes + 3 < 4 * TWO_32
    ensures Create(SetupBssAsWritten(NewSegment, sizeBytes)).value.2 == 0
    ensures var b := SetupBss(NewSegment, sizeBytes).segBlk.value;
            && Writable(b)
            && Create(SetupBss(NewSegment, sizeBytes)).value.2 == b.sizeLongs
            && sizeBytes <= 4 * b.sizeLongs < sizeBytes + 4
            && ParseSegment(EncodeBlock(b), 0, HUNK_BSS) == Ok(Read(b, 4))
  {
    var b := SetupBss(NewSegment, sizeBytes).segBlk.value;
    var enc := EncodeBlock(b);
    AtSlice(enc, 0, enc);
    BssOfEncoded(b.sizeLongs, enc, 0);
  }

  // ---------------------------------------------------------------------------
  // Relocations, symbols, debug info

  /** HunkSegment._are_relocs_short: no offset above 65535. */
  function AreRelocsShort(relocs: seq<RelocGroup>): (r: bool)
    ensures r <==> forall g, o :: 0 <= g < |relocs| && 0 <= o < |relocs[g].offsets| ==> relocs[g].offsets[o] <= 65535
    decreases relocs
  {
    if relocs == [] then true
    else OffsetsShort(relocs[0].offsets) && AreRelocsShort(relocs[1..])
  }

  function OffsetsShort(offsets: seq<nat>): (r: bool)
    ensures r <==> forall o :: 0 <= o < |offsets| ==> offsets[o] <= 65535
    decreases offsets
  {
    offsets == [] || (offsets[0] <= 65535 && OffsetsShort(offsets[1..]))
  }

  /** setup_relocs: one HUNK_RELOC32SHORT block when every offset fits a word
      (and the long form is not forced), else one HUNK_ABSRELOC32 block. */
  function SetupRelocs(seg: HunkSegment, relocs: seq<RelocGroup>, forceLong: bool): (r: HunkSegment)
    ensures r.relocBlks.Some? && |r.relocBlks.value| == 1
    ensures r.relocBlks.value[0].RelocWordBlock? <==> !forceLong && AreRelocsShort(relocs)
  {
    if !forceLong && AreRelocsShort(relocs) then seg.(relocBlks := Some([RelocWordBlock(relocs)]))
    else seg.(relocBlks := Some([RelocLongBlock(HUNK_ABSRELOC32, relocs)]))
  }

  predicate GroupsFit(relocs: seq<RelocGroup>, limit: nat)
  {
    forall g :: 0 <= g < |relocs| ==> relocs[g].hunkNum < limit && |relocs[g].offsets| < limit
  }

  /** The block setup_relocs picks can be written: the word form only holds
      offsets that fit a word. */
  lemma SetupRelocsWritable(seg: HunkSegment, relocs: seq<RelocGroup>, forceLong: bool)
    requires GroupsFit(relocs, TWO_16)
    requires forall g, o :: 0 <= g < |relocs| && 0 <= o < |relocs[g].offsets| ==> relocs[g].offsets[o] < TWO_32
    ensures Writable(SetupRelocs(seg, relocs, forceLong).relocBlks.value[0])
  {
    if !forceLong && AreRelocsShort(relocs) {
      WordGroupsWritable(relocs);
    } else {
      LongGroupsWritable(relocs);
    }
  }

  lemma {:induction false} WordGroupsWritable(relocs: seq<RelocGroup>)
    requires GroupsFit(relocs, TWO_16) && AreRelocsShort(relocs)
    ensures GroupsWordWritable(relocs)
    decreases relocs
  {
    if relocs != [] {
      WordGroupsWritable(relocs[1..]);
    }
  }

  lemma {:induction false} LongGroupsWritable(relocs: seq<RelocGroup>)
    requires GroupsFit(relocs, TWO_32)
    requires forall g, o :: 0 <= g < |relocs| && 0 <= o < |relocs[g].offsets| ==> relocs[g].offsets[o] < TWO_32
    ensures GroupsLongWritable(relocs)
    decreases relocs
  {
    if relocs != [] {
      LongGroupsWritable(relocs[1..]);
    }
  }

  /** setup_symbols. */
  function SetupSymbols(seg: HunkSegment, symbols: seq<SymbolEntry>): (r: HunkSegment)
    ensures r.symbolBlk == Some(SymbolBlock(symbols))
  {
    seg.(symbolBlk := Some(SymbolBlock(symbols)))
  }

  /** setup_debug: the info is kept and a HUNK_DEBUG block with its encoding
      is appended. */
  function SetupDebug(seg: HunkSegment, info: DebugInfo): (r: HunkSegment)
    requires Encodable(info)
  {
    seg.(debugInfos := Append(seg.debugInfos, info),
         debugBlks := Append(seg.debugBlks, DebugBlock(Encode(info))))
  }

  /** The debug block setup_debug appends decodes to the info it was made
      from, as parse will decode it. */
  lemma SetupDebugDecodes(seg: HunkSegment, info: DebugInfo)
    requires Encodable(info) && info.DebugLineInfo? && NulFree(info.srcFile)
    ensures var r := SetupDebug(seg, info);
            && r.debugBlks.Some? && r.debugBlks.value != []
            && Decode(DebugDataOf(r.debugBlks.value[|r.debugBlks.value| - 1])) == Ok(Some(info))
            && r.debugInfos.Some? && r.debugInfos.value[|r.debugInfos.value| - 1] == info
  {
    LineRoundTrip(info);
  }
}
