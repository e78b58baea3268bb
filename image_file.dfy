/** BinFmtHunk.save_image_fobj and load_image_fobj: an image written as the
    bytes of a load-seg file, and an image read back from such bytes. */
module ImageFile {
  import opened Base
  import opened HunkIds
  import opened Blocks
  import opened BlockParse
  import opened BlockWrite
  import opened BlockRoundTrip
  import opened DispatchRoundTrip
  import opened BlockFile
  import opened LoadSeg
  import opened SegmentSetup
  import opened SegFile
  import opened Image
  import opened BinFmt

  /** save_image_fobj: the load-seg file made from the image, its blocks, and
      the bytes HunkBlockFile.write puts out for them in load-seg mode. A block
      struct.pack cannot write fails the save. */
  function SaveImage(img: BinImage, call: SetupCall): Result<seq<Byte>>
    requires forall i :: 0 <= i < |img.segments| ==> Exportable(img.segments[i], |img.segments|)
  {
    var f :- ExportImage(img, call);
    var blks :- CreateFile(f).1;
    if FileWritable(blks) then Ok(EncodeFile(blks, true)) else Err(ValueOutOfRange)
  }

  /** load_image_fobj: the blocks read in load-seg mode, the load-seg file
      parsed from them, and the image made from that; the first error raised
      on the way is the result. */
  function LoadImage(s: seq<Byte>): Result<BinImage>
  {
    var rd := ReadLoop(s, 0, true, []);
    if rd.error.Some? then Err(rd.error.value)
    else
      var (g, err) := ParseFile(EmptyFile, rd.blocks);
      if err.Some? then Err(err.value) else ImportImage(g)
  }

  /** A code segment with data and nothing else. */
  predicate PlainCode(seg: Segment) {
    && seg.segType == SEGMENT_TYPE_CODE && seg.data.Some?
    && seg.relocs == map[] && seg.symtab.None? && seg.debugLine.None?
  }

  /** A load-seg file of one segment that has only its segment block makes
      the header, that block and HUNK_END. */
  lemma CreateOne(b: Block)
    ensures CreateFile(LoadSegFile(None, [NewSegment.(segBlk := Some(b))])).1 ==
            Ok([HeaderBlock([], 1, 0, 0, [SizeLongsOf(b)]), b, EndBlock])
  {
    var seg := NewSegment.(segBlk := Some(b));
    assert [b] + [] + [] + [] == [b];
    assert Create(seg) == Ok((seg.(blocks := Some([b])), [b], SizeLongsOf(b)));
    assert [seg][1..] == [] && [] + [b] + [EndBlock] == [b, EndBlock] && [] + [SizeLongsOf(b)] == [SizeLongsOf(b)];
    assert [] + [seg.(blocks := Some([b]))] == [seg.(blocks := Some([b]))];
    assert CreateLoop([], [seg], [], []) ==
           CreateLoop([seg.(blocks := Some([b]))], [], [b, EndBlock], [SizeLongsOf(b)]);
    assert CreateLoop([], [seg], [], []).1 == Ok(([b, EndBlock], [SizeLongsOf(b)]));
    assert HeaderSetup([SizeLongsOf(b)]) == Ok(HeaderBlock([], 1, 0, 0, [SizeLongsOf(b)]));
    assert [HeaderBlock([], 1, 0, 0, [SizeLongsOf(b)])] + [b, EndBlock] ==
           [HeaderBlock([], 1, 0, 0, [SizeLongsOf(b)]), b, EndBlock];
  }

  /** An image of one plain code segment exports as that segment's block
      alone, and is created as the header, the block and HUNK_END. */
  lemma SavedCodeBlocks(seg: Segment, call: SetupCall)
    requires PlainCode(seg)
    ensures ExportImage(BinImage([seg]), call) ==
            Ok(LoadSegFile(None, [NewSegment.(segBlk := TypeSetup(seg, call).value.segBlk)]))
    ensures var b := TypeSetup(seg, call).value.segBlk.value;
            CreateFile(ExportImage(BinImage([seg]), call).value).1 ==
            Ok([HeaderBlock([], 1, 0, 0, [SizeLongsOf(b)]), b, EndBlock])
  {
    var h := TypeSetup(seg, call).value;
    RelocTargetsSpec(seg, 1);
    assert ExportGroups(seg.relocs, RelocTargets(seg, 1)) == Ok([]) by {
      assert RelocTargets(seg, 1) == [];
    }
    assert ExportSegment(seg, 1, call) == Ok(h);
    assert [seg][1..] == [] && [h] + [] == [h];
    assert ExportSegments([seg], 1, call) == Ok([h]);
    assert h == NewSegment.(segBlk := h.segBlk);
    CreateOne(h.segBlk.value);
  }

  /** Writing a block in front of a writable list: its tag, its body, then
      the rest. */
  lemma EncodeCons(b: Block, rest: seq<Block>, isLoadSeg: bool)
    requires Writable(b) && BlkId(b) < TWO_32 && FileWritable(rest)
    ensures FileWritable([b] + rest)
    ensures EncodeFile([b] + rest, isLoadSeg) ==
            Long(WriteId(b, isLoadSeg)) + (EncodeBlock(b) + EncodeFile(rest, isLoadSeg))
  {
    assert ([b] + rest)[1..] == rest;
  }

  /** The bytes of a header, one block and HUNK_END in a load-seg file. */
  lemma EncodeThree(h: Block, c: Block)
    requires Writable(h) && Writable(c) && BlkId(h) < TWO_32 && BlkId(c) < TWO_32
    ensures FileWritable([h, c, EndBlock])
    ensures EncodeFile([h, c, EndBlock], true) ==
            Long(WriteId(h, true)) + (EncodeBlock(h) + (Long(WriteId(c, true)) + (EncodeBlock(c) + Long(HUNK_END))))
  {
    EncodeCons(EndBlock, [], true);
    assert [EndBlock] + [] == [EndBlock];
    assert EncodeFile([EndBlock], true) == Long(HUNK_END);
    EncodeCons(c, [EndBlock], true);
    assert [c] + [EndBlock] == [c, EndBlock];
    EncodeCons(h, [c, EndBlock], true);
    assert [h] + [c, EndBlock] == [h, c, EndBlock];
  }

  /** A code tag, a size of 0 longwords and then four bytes: the code
      block is read without data and the cursor is left on those bytes. */
  lemma ReadEmptyCode(s: seq<Byte>, code: nat, rest: seq<Byte>)
    requires At(s, code, Long(HUNK_CODE) + (Long(0) + rest))
    ensures code + 8 <= |s| && At(s, code + 8, rest)
    ensures ReadOne(s, code, true) == Ok(Some(Read(SegmentBlock(HUNK_CODE, Some([]), code + 8, 0), code + 8)))
  {
    AtLong(s, code, HUNK_CODE, Long(0) + rest);
    AtLong(s, code + 4, 0, rest);
    ReadLongBytes(s, code);
    LongRoundTrip(HUNK_CODE);
    assert ParseSegment(s, code + 4, HUNK_CODE) == Ok(Read(SegmentBlock(HUNK_CODE, Some([]), code + 8, 0), code + 8));
  }

  /** Four bytes that form no block tag stop the read with that error. */
  lemma ReadNoTag(s: seq<Byte>, pos: nat, p: seq<Byte>)
    requires |p| >= 4 && At(s, pos, p)
    requires KindOf(LongValue(p[..4]) % HUNK_TYPE_MASK_MOD).None?
    ensures pos <= |s| && ReadOne(s, pos, true) == Err(UnsupportedHunkType(LongValue(p[..4]) % HUNK_TYPE_MASK_MOD))
  {
    AtSlice(s, pos, p);
    assert s[pos..pos + 4] == p[..4];
  }

  /** As written, setup_code leaves size_longs 0: saving an image of one
      code segment writes its data after a size of 0 longwords, so a load
      reads an empty code block and then takes the first four data bytes
      for the next block's tag. Unless those bytes happen to form a block
      tag, the load fails. */
  lemma AsWrittenCodeUnreadable(seg: Segment)
    requires PlainCode(seg) && seg.data.value != []
    requires KindOf(LongValue(PadData(seg.data.value).0[..4]) % HUNK_TYPE_MASK_MOD).None?
    ensures SaveImage(BinImage([seg]), AsWritten).Ok?
    ensures LoadImage(SaveImage(BinImage([seg]), AsWritten).value) ==
            Err(UnsupportedHunkType(LongValue(PadData(seg.data.value).0[..4]) % HUNK_TYPE_MASK_MOD))
  {
    AsWrittenSaved(seg);
    ReadAsWritten(SaveImage(BinImage([seg]), AsWritten).value, PadData(seg.data.value).0);
  }

  /** The bytes saved as written: the header with a size of 0, the code tag,
      a size of 0, the padded data and HUNK_END. */
  lemma AsWrittenSaved(seg: Segment)
    requires PlainCode(seg)
    ensures SaveImage(BinImage([seg]), AsWritten) ==
            Ok(Long(HUNK_HEADER) + (EncodeBlock(HeaderBlock([], 1, 0, 0, [0])) +
               (Long(HUNK_CODE) + (Long(0) + (PadData(seg.data.value).0 + Long(HUNK_END))))))
  {
    var (p, k) := PadData(seg.data.value);
    var c := PositionalSegmentBlock(HUNK_CODE, Some(p), k);
    var h := HeaderBlock([], 1, 0, 0, [0]);
    SavedCodeBlocks(seg, AsWritten);
    assert Decodes(h, 4) by { HeaderSetupDecodes([0], 4); }
    EncodeThree(h, c);
    assert WriteId(h, true) == HUNK_HEADER && WriteId(c, true) == HUNK_CODE;
    assert EncodeBlock(c) == Long(0) + p;
    assert EncodeBlock(c) + Long(HUNK_END) == Long(0) + (p + Long(HUNK_END));
  }

  /** Reading those bytes: the header, an empty code block, then the data
      taken for a tag that names no block. */
  lemma ReadAsWritten(s: seq<Byte>, p: seq<Byte>)
    requires |p| >= 4 && KindOf(LongValue(p[..4]) % HUNK_TYPE_MASK_MOD).None?
    requires s == Long(HUNK_HEADER) + (EncodeBlock(HeaderBlock([], 1, 0, 0, [0])) +
                  (Long(HUNK_CODE) + (Long(0) + (p + Long(HUNK_END)))))
    ensures ReadLoop(s, 0, true, []).error == Some(UnsupportedHunkType(LongValue(p[..4]) % HUNK_TYPE_MASK_MOD))
  {
    var h := HeaderBlock([], 1, 0, 0, [0]);
    assert Decodes(h, 4) by { HeaderSetupDecodes([0], 4); }
    var tail := Long(HUNK_CODE) + (Long(0) + (p + Long(HUNK_END)));
    var code := 4 + |EncodeBlock(h)|;
    AtSlice(s, 0, s);
    ReadOneOfEncoded(h, tail, s, 0, true, code);
    ReadEmptyCode(s, code, p + Long(HUNK_END));
    AtSplit(s, code + 8, p, Long(HUNK_END));
    ReadNoTag(s, code + 8, p);
    ReadStep(s, 0, true, [], h, code);
    ReadStep(s, code, true, [h], SegmentBlock(HUNK_CODE, Some([]), code + 8, 0), code + 8);
  }

  /** With the size passed by name the save writes the blocks create made
      and the load reads them back, the code block now carrying the
      position of its data (32: the header's tag and five longwords, the
      code tag and the size). */
  lemma ByNameCodeBlocksRead(seg: Segment)
    requires PlainCode(seg) && |seg.data.value| <= 0xFFFF_FFFC
    ensures var (p, k) := PadData(seg.data.value);
            && SaveImage(BinImage([seg]), SizeByName).Ok?
            && ReadLoop(SaveImage(BinImage([seg]), SizeByName).value, 0, true, []) ==
               ReadOutcome([HeaderBlock([], 1, 0, 0, [k]), SegmentBlock(HUNK_CODE, Some(p), 32, k), EndBlock], None)
  {
    var (p, k) := PadData(seg.data.value);
    var c := SegmentBlock(HUNK_CODE, Some(p), 0, k);
    var h := HeaderBlock([], 1, 0, 0, [k]);
    SavedCodeBlocks(seg, SizeByName);
    assert Decodes(h, 4) by { HeaderSetupDecodes([k], 4); }
    assert |EncodeBlock(h)| == 20;
    var read := c.(dataOffset := 32);
    var rblks := [h, read, EndBlock];
    assert FileDecodes(rblks, 0, true) by {
      assert rblks[1..] == [read, EndBlock] && rblks[1..][1..] == [EndBlock] && rblks[1..][1..][1..] == [];
      assert FileDecodes([EndBlock], 32 + 4 * k, true);
      assert |EncodeBlock(read)| == 4 + 4 * k;
      assert FileDecodes([read, EndBlock], 24, true);
    }
    FileRoundTrip(rblks, true);
    EncodeThree(h, c);
    EncodeThree(h, read);
    assert SaveImage(BinImage([seg]), SizeByName) == Ok(EncodeFile(rblks, true));
  }

  /** The blocks read back above parse into one segment and import as one
      code segment of k longwords at data offset 32. */
  lemma CodeBlocksImport(p: seq<Byte>, k: nat)
    requires |p| == 4 * k && k < 0x4000_0000
    ensures var blks := [HeaderBlock([], 1, 0, 0, [k]), SegmentBlock(HUNK_CODE, Some(p), 32, k), EndBlock];
            && ParseFile(EmptyFile, blks).1 == None
            && ImportImage(ParseFile(EmptyFile, blks).0) == Ok(BinImage([MakeSegment(SEGMENT_TYPE_CODE, 4 * k, Some(p), 32)]))
  {
    var read := SegmentBlock(HUNK_CODE, Some(p), 32, k);
    var blks := [HeaderBlock([], 1, 0, 0, [k]), read, EndBlock];
    var f := LoadSegFile(None, [NewSegment.(segBlk := Some(read))]);
    CreateOne(read);
    assert Fresh(f.segments);
    CreateThenParseFile(f);
    var g := ParseFile(EmptyFile, blks).0;
    var g0 := g.segments[0];
    assert g0.segBlk == Some(read) && g0.sizeLongs == Some(k);
    assert g0.relocBlks.None? && g0.symbolBlk.None? && g0.debugInfos.None?;
    var m := MakeSegment(SEGMENT_TYPE_CODE, 4 * k, Some(p), 32);
    assert ImportHeader(g0) == Ok(m);
    assert g.segments == [g0];
    assert ImportHeaders(BinImage([]), g.segments) == Ok(BinImage([m])) by {
      assert g.segments[1..] == [];
    }
    assert Attach(m, g0, 1) == Ok(m);
    assert AttachAll([m], g.segments, 1) == Ok([m]) by {
      assert [m][1..] == [] && g.segments[1..] == [] && [m] + [] == [m];
    }
  }

  /** With the size passed by name the image of one code segment saves and
      loads: one code segment of the padded size, with the padded data, at
      the position of that data in the file. */
  lemma ByNameCodeReadable(seg: Segment)
    requires PlainCode(seg) && |seg.data.value| <= 0xFFFF_FFFC
    ensures SaveImage(BinImage([seg]), SizeByName).Ok?
    ensures var (p, k) := PadData(seg.data.value);
            LoadImage(SaveImage(BinImage([seg]), SizeByName).value) ==
            Ok(BinImage([MakeSegment(SEGMENT_TYPE_CODE, 4 * k, Some(p), 32)]))
  {
    var (p, k) := PadData(seg.data.value);
    ByNameCodeBlocksRead(seg);
    CodeBlocksImport(p, k);
  }
}
