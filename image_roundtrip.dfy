/** A BinImage exported with create_load_seg_file_from_image, flattened with
    create_block_file, read back with parse_block_file and imported with
    create_image_from_load_seg_file: what comes back, segment by segment. */
module ImageRoundTrip {
  import opened Base
  import opened HunkIds
  import opened Names
  import opened Blocks
  import opened HunkDebug
  import opened LoadSeg
  import opened SegmentSetup
  import opened SegFile
  import opened Image
  import opened LinePack
  import opened BinFmt

  // ---------------------------------------------------------------------------
  // What survives

  /** Debug lines that come back as they were: NUL-free file names (the
      name is read up to its first NUL) and lines of 24 bits (the upper 8
      bits of the stored value are the flags). */
  predicate LinesRestorable(files: seq<DebugLineFile>) {
    forall i :: 0 <= i < |files| ==>
      && NulFree(files[i].srcFile)
      && forall k :: 0 <= k < |files[i].entries| ==> files[i].entries[k].srcLine < TWO_24 && files[i].entries[k].flags < 256
  }

  /** A segment export accepts and import restores: a known type, plain
      relocations to segments of the image, debug lines that fit. */
  predicate Portable(seg: Segment, n: nat) {
    && Exportable(seg, n) && seg.segType <= SEGMENT_TYPE_BSS && PlainRelocsOnly(seg)
    && (seg.debugLine.Some? ==> AllEncodable(LineInfos(seg.debugLine.value)) && LinesRestorable(seg.debugLine.value))
  }

  /** A debug line file after the trip: the directory is recovered from the
      path written, the entries are unchanged. */
  function RestoredFile(f: DebugLineFile): DebugLineFile {
    var (dir, file) := SplitPath(f.srcFile);
    DebugLineFile(file, Some(dir), f.baseOffset, f.entries)
  }

  function RestoredFiles(files: seq<DebugLineFile>): seq<DebugLineFile> {
    seq(|files|, i requires 0 <= i < |files| => RestoredFile(files[i]))
  }

  /** A symbol table after the trip: file names are lost, and an empty table
      is no table. */
  function RestoredSymbols(syms: seq<Symbol>): Option<seq<Symbol>> {
    if syms == [] then None
    else Some(seq(|syms|, i requires 0 <= i < |syms| => syms[i].(fileName := None)))
  }

  /** The number of longwords setup_* computes for a segment: its padded
      data, or its size rounded up for BSS. */
  function SetupLongs(s: Segment): nat
    requires s.segType != SEGMENT_TYPE_BSS ==> s.data.Some?
  {
    if s.segType == SEGMENT_TYPE_BSS then (s.size + 3) / 4 else PadData(s.data.value).1
  }

  /** The segment the trip gives back: data padded to whole longwords, flags
      reset, the relocations as they were, symbols and debug lines as above.
      With the size passed by name the size is rounded up to whole longwords
      and the data offset is 0; as written the size is 0 and the longword
      count comes back as the data offset. */
  function Restored(s: Segment, call: SetupCall): Segment
    requires s.segType <= SEGMENT_TYPE_BSS && (s.segType != SEGMENT_TYPE_BSS ==> s.data.Some?)
  {
    var bss := s.segType == SEGMENT_TYPE_BSS;
    Segment(s.segType,
            if call.AsWritten? then 0 else 4 * SetupLongs(s),
            if bss then None else Some(PadData(s.data.value).0),
            if call.AsWritten? then SetupLongs(s) else 0,
            0, s.relocs,
            if s.symtab.Some? then RestoredSymbols(s.symtab.value) else None,
            s.id,
            if s.debugLine.Some? && s.debugLine.value != [] then
              Some(RestoredFiles(s.debugLine.value))
            else None)
  }

  /** The segments the trip gives back for an image's segments. */
  function RestoredSegments(segs: seq<Segment>, call: SetupCall): seq<Segment>
    requires forall i :: 0 <= i < |segs| ==> Exportable(segs[i], |segs|) && Portable(segs[i], |segs|)
  {
    assert forall i :: 0 <= i < |segs| ==> Portable(segs[i], |segs|);
    assert forall i :: 0 <= i < |segs| ==> segs[i].segType <= SEGMENT_TYPE_BSS;
    assert forall i :: 0 <= i < |segs| ==> Exportable(segs[i], |segs|);
    assert forall i :: 0 <= i < |segs| ==>
             (segs[i].segType == SEGMENT_TYPE_CODE || segs[i].segType == SEGMENT_TYPE_DATA ==> segs[i].data.Some?);
    seq(|segs|, i requires 0 <= i < |segs| => Restored(segs[i], call))
  }

  // ---------------------------------------------------------------------------
  // What export builds, part by part

  /** The groups export writes for a segment. */
  function ExportedGroups(seg: Segment, n: nat): (groups: seq<RelocGroup>)
    requires Exportable(seg, n) && PlainRelocsOnly(seg)
    ensures |groups| == |RelocTargets(seg, n)|
    ensures forall k :: 0 <= k < |groups| ==>
              groups[k].hunkNum == RelocTargets(seg, n)[k] && groups[k].hunkNum in seg.relocs &&
              PlainRelocs(groups[k].offsets) == seg.relocs[groups[k].hunkNum]
  {
    ExportGroupsOk(seg, n);
    ExportGroups(seg.relocs, RelocTargets(seg, n)).value
  }

  /** h is what export makes of seg: a segment block for its type, one
      relocation block when it has relocations, a symbol block when it has a
      table, and a kept info and a HUNK_DEBUG block per debug line file. */
  predicate ExportedShape(seg: Segment, n: nat, h: HunkSegment, call: SetupCall)
    requires Portable(seg, n)
  {
    && h.blocks.None? && h.sizeLongs.None?
    && h.segBlk == TypeSetup(seg, call).value.segBlk
    && h.relocBlks == (if seg.relocs == map[] then None
                       else SetupRelocs(NewSegment, ExportedGroups(seg, n), false).relocBlks)
    && h.symbolBlk == (if seg.symtab.Some? then Some(SymbolBlock(ExportSymbols(seg.symtab.value))) else None)
    && h.debugInfos == (if seg.debugLine.Some? then Join(None, LineInfos(seg.debugLine.value)) else None)
    && h.debugBlks == (if seg.debugLine.Some? then Join(None, DebugBlocksOf(LineInfos(seg.debugLine.value))) else None)
  }

  /** Export of a portable segment succeeds and gives that shape. */
  lemma ExportSegmentParts(seg: Segment, n: nat, call: SetupCall)
    requires Portable(seg, n)
    ensures ExportSegment(seg, n, call).Ok? && ExportedShape(seg, n, ExportSegment(seg, n, call).value, call)
  {
    ExportSegmentSucceeds(seg, n, call);
    RelocTargetsSpec(seg, n);
    var groups := ExportedGroups(seg, n);
    if seg.relocs != map[] {
      var t0 :| t0 in seg.relocs;
      assert t0 in RelocTargets(seg, n);
    }
    var h := TypeSetup(seg, call).value;
    var h1 := if groups != [] then SetupRelocs(h, groups, false) else h;
    var h2 := if seg.symtab.Some? then SetupSymbols(h1, ExportSymbols(seg.symtab.value)) else h1;
    if seg.debugLine.Some? {
      ExportDebugAppends(h2, seg.debugLine.value);
    }
  }

  /** An exported segment is ready for create: no recorded blocks, and
      parts parse accepts, its debug blocks decoding. */
  lemma ExportedAssembled(seg: Segment, n: nat, h: HunkSegment, call: SetupCall)
    requires Portable(seg, n) && ExportedShape(seg, n, h, call)
    ensures h.blocks.None? && Assembled(h)
  {
    assert h.segBlk.Some? && IsBeginId(BlkId(h.segBlk.value));
    assert h.relocBlks.Some? ==> h.relocBlks.value != [] && AllTagged(h.relocBlks.value, IsRelocId);
    assert h.symbolBlk.Some? ==> IsSymbolId(BlkId(h.symbolBlk.value));
    assert h.debugBlks.Some? ==> h.debugBlks.value != [] && AllTagged(h.debugBlks.value, IsDebugId);
    if seg.debugLine.Some? {
      var infos := LineInfos(seg.debugLine.value);
      var blks := DebugBlocksOf(infos);
      JoinNone(blks);
      forall i | 0 <= i < |blks|
        ensures Decode(DebugDataOf(blks[i])).Ok?
      {
        LineRoundTrip(infos[i]);
      }
    }
  }

  /** The debug blocks of LINE tables with NUL-free names decode to the
      tables. */
  lemma {:induction false} DecodedLineInfos(infos: seq<DebugInfo>)
    requires AllEncodable(infos)
    requires forall i :: 0 <= i < |infos| ==> infos[i].DebugLineInfo? && NulFree(infos[i].srcFile)
    ensures DecodedInfos(DebugBlocksOf(infos)) == infos
    decreases |infos|
  {
    if infos != [] {
      var blks := DebugBlocksOf(infos);
      LineRoundTrip(infos[0]);
      assert blks[1..] == DebugBlocksOf(infos[1..]);
      DecodedLineInfos(infos[1..]);
      assert [infos[0]] + infos[1..] == infos;
    }
  }

  /** A packed table unpacks to the file it was made of, its path split. */
  lemma {:induction false} LineFilesRestored(files: seq<DebugLineFile>)
    requires LinesRestorable(files)
    ensures LineFiles(LineInfos(files)) == RestoredFiles(files)
    decreases |files|
  {
    if files == [] {
      assert LineInfos(files) == [];
    } else {
      LineInfosCons(files);
      assert LinesRestorable(files[1..]) by {
        forall i | 0 <= i < |files[1..]|
          ensures NulFree(files[1..][i].srcFile)
        {
          assert files[1..][i] == files[i + 1];
        }
      }
      LineFilesRestored(files[1..]);
      assert RestoredFiles(files) == [RestoredFile(files[0])] + RestoredFiles(files[1..]);
      var f := files[0];
      var info := LineInfoOf(f);
      assert LineInfos(files)[1..] == LineInfos(files[1..]);
      forall k | 0 <= k < |f.entries|
        ensures Unpack(info.entries[k].srcLine) == (f.entries[k].srcLine, f.entries[k].flags)
      {
        UnpackPack(f.entries[k].srcLine, f.entries[k].flags);
      }
      assert LineFileOf(info.srcFile, info.baseOffset, info.entries) == RestoredFile(f);
    }
  }

  // ---------------------------------------------------------------------------
  // Import of what export built, part by part

  /** The targets the groups name are the targets of their groups, and a
      target no group names has no offsets. */
  lemma {:induction false} GroupTargetsSpec(groups: seq<RelocGroup>)
    ensures forall k :: 0 <= k < |groups| ==> groups[k].hunkNum in GroupTargets(groups)
    ensures forall t :: t in GroupTargets(groups) ==> exists k :: 0 <= k < |groups| && groups[k].hunkNum == t
    ensures forall t :: t !in GroupTargets(groups) ==> GroupOffsets(groups, t) == []
    decreases |groups|
  {
    if groups != [] {
      var rest := groups[1..];
      assert forall k :: 0 < k < |groups| ==> groups[k] == rest[k - 1];
      GroupTargetsSpec(rest);
      forall t | t in GroupTargets(groups)
        ensures exists k :: 0 <= k < |groups| && groups[k].hunkNum == t
      {
        if t != groups[0].hunkNum {
          var k :| 0 <= k < |rest| && rest[k].hunkNum == t;
          assert groups[k + 1].hunkNum == t;
        }
      }
    }
  }

  /** Groups in increasing target order name each target once: a group's
      target gets exactly that group's offsets. */
  lemma {:induction false} GroupsByTarget(groups: seq<RelocGroup>)
    requires forall i, j :: 0 <= i < j < |groups| ==> groups[i].hunkNum < groups[j].hunkNum
    ensures forall k :: 0 <= k < |groups| ==> GroupOffsets(groups, groups[k].hunkNum) == groups[k].offsets
    decreases |groups|
  {
    if groups != [] {
      var rest := groups[1..];
      var h0 := groups[0].hunkNum;
      assert forall k :: 0 < k < |groups| ==> groups[k] == rest[k - 1];
      GroupsByTarget(rest);
      assert GroupOffsets(rest, h0) == [] by {
        GroupTargetsSpec(rest);
        assert forall k :: 0 <= k < |rest| ==> rest[k].hunkNum != h0;
        assert h0 !in GroupTargets(rest);
      }
      assert GroupOffsets(groups, h0) == groups[0].offsets + [];
      forall k | 0 < k < |groups|
        ensures GroupOffsets(groups, groups[k].hunkNum) == groups[k].offsets
      {
        assert h0 < groups[k].hunkNum;
        assert GroupOffsets(groups, groups[k].hunkNum) == [] + GroupOffsets(rest, rest[k - 1].hunkNum);
      }
    }
  }

  /** The exported relocation block: present when the segment has
      relocations, one block whose groups import accepts. */
  lemma ExportedRelocsMerge(seg: Segment, n: nat, h: HunkSegment, call: SetupCall)
    requires Portable(seg, n) && ExportedShape(seg, n, h, call)
    ensures h.relocBlks.Some? <==> seg.relocs != map[]
    ensures h.relocBlks.Some? ==>
              && Mergeable(h.relocBlks.value, n)
              && BlockTargets(h.relocBlks.value) == GroupTargets(ExportedGroups(seg, n))
              && forall t :: BlockOffsets(h.relocBlks.value, t) == GroupOffsets(ExportedGroups(seg, n), t)
  {
    if seg.relocs != map[] {
      var groups := ExportedGroups(seg, n);
      var b := h.relocBlks.value[0];
      assert h.relocBlks.value == [b] && GroupsOf(b) == groups && IsRelocId(BlkId(b));
      assert Mergeable(h.relocBlks.value, n) by {
        RelocTargetsSpec(seg, n);
        assert forall g :: 0 <= g < |groups| ==> groups[g].hunkNum in RelocTargets(seg, n);
      }
      assert BlockTargets(h.relocBlks.value) == GroupTargets(groups) + {};
      forall t
        ensures BlockOffsets(h.relocBlks.value, t) == GroupOffsets(groups, t)
      {
        assert BlockOffsets(h.relocBlks.value, t) == GroupOffsets(groups, t) + [];
      }
    }
  }

  /** Each relocation target of the segment gets exactly its own offsets in
      the exported groups. */
  lemma TargetOffsets(seg: Segment, n: nat, t: nat)
    requires Exportable(seg, n) && PlainRelocsOnly(seg) && t in seg.relocs
    ensures t in GroupTargets(ExportedGroups(seg, n))
    ensures PlainRelocs(GroupOffsets(ExportedGroups(seg, n), t)) == seg.relocs[t]
  {
    RelocTargetsSpec(seg, n);
    var targets := RelocTargets(seg, n);
    var groups := ExportedGroups(seg, n);
    GroupsByTarget(groups);
    GroupTargetsSpec(groups);
    assert t in targets;
    var k :| 0 <= k < |targets| && targets[k] == t;
    assert groups[k].hunkNum == t;
  }

  /** The exported groups name only targets of the segment. */
  lemma TargetsOfGroups(seg: Segment, n: nat)
    requires Exportable(seg, n) && PlainRelocsOnly(seg)
    ensures forall t :: t in GroupTargets(ExportedGroups(seg, n)) ==> t in seg.relocs
  {
    RelocTargetsSpec(seg, n);
    GroupTargetsSpec(ExportedGroups(seg, n));
  }

  /** Import of the exported relocation blocks: they merge, and give back
      the segment's relocations. */
  lemma RelocsRestored(seg: Segment, n: nat, h: HunkSegment, m: map<nat, seq<Reloc>>, call: SetupCall)
    requires Portable(seg, n) && ExportedShape(seg, n, h, call)
    requires h.relocBlks.None? ==> m == map[]
    requires h.relocBlks.Some? ==>
               && m.Keys == BlockTargets(h.relocBlks.value)
               && forall t :: Existing(m, t) == PlainRelocs(BlockOffsets(h.relocBlks.value, t))
    ensures h.relocBlks.Some? ==> Mergeable(h.relocBlks.value, n)
    ensures m == seg.relocs
  {
    ExportedRelocsMerge(seg, n, h, call);
    if seg.relocs != map[] {
      var groups := ExportedGroups(seg, n);
      forall t | t in seg.relocs
        ensures t in m && m[t] == seg.relocs[t]
      {
        TargetOffsets(seg, n, t);
        assert Existing(m, t) == PlainRelocs(GroupOffsets(groups, t));
      }
      TargetsOfGroups(seg, n);
    }
  }

  /** Import of the exported symbol block. */
  lemma SymbolsRestored(seg: Segment, symtab: Option<seq<Symbol>>)
    requires seg.symtab.Some?
    requires var syms := ExportSymbols(seg.symtab.value);
             && (symtab.Some? <==> syms != [])
             && (symtab.Some? ==>
                   |symtab.value| == |syms| &&
                   forall i :: 0 <= i < |syms| ==> symtab.value[i] == Symbol(syms[i].offset, syms[i].name, None))
    ensures symtab == RestoredSymbols(seg.symtab.value)
  {
    var syms := seg.symtab.value;
    assert |ExportSymbols(syms)| == |syms|;
    if symtab.Some? {
      var r := RestoredSymbols(syms).value;
      forall i | 0 <= i < |syms|
        ensures symtab.value[i] == r[i]
      {
        assert ExportSymbols(syms)[i] == SymbolEntry(syms[i].name, syms[i].offset);
      }
      assert symtab.value == r;
    }
  }

  /** Import of the exported debug blocks: the files, their paths split. */
  lemma DebugRestored(seg: Segment, n: nat, h: HunkSegment, call: SetupCall)
    requires Portable(seg, n) && ExportedShape(seg, n, h, call)
    ensures var infos := ParsedInfos(h);
            (if infos.Some? then Some(LineFiles(infos.value)) else None) == Restored(seg, call).debugLine
  {
    var lines := if seg.debugLine.Some? && seg.debugLine.value != [] then Some(RestoredFiles(seg.debugLine.value)) else None;
    assert Restored(seg, call).debugLine == lines;
    if seg.debugLine.Some? && seg.debugLine.value != [] {
      var files := seg.debugLine.value;
      var infos := LineInfos(files);
      assert ParsedInfos(h) == Some(infos) by {
        var blks := DebugBlocksOf(infos);
        JoinNone(blks);
        JoinNone(infos);
        assert h.debugBlks == Some(blks);
        assert forall i :: 0 <= i < |infos| ==> infos[i].srcFile == files[i].srcFile;
        DecodedLineInfos(infos);
      }
      LineFilesRestored(files);
    } else {
      assert ParsedInfos(h) == None by {
        if seg.debugLine.Some? {
          assert LineInfos(seg.debugLine.value) == [];
          assert DebugBlocksOf([]) == [];
        }
        assert DecodedInfos([]) == [];
      }
    }
  }

  /** The segment block export writes converts to a segment of the same
      type with its data padded to whole longwords; its size and data
      offset are those the setup call left in the block. */
  lemma HeaderRestored(seg: Segment, n: nat, h: HunkSegment, call: SetupCall)
    requires Portable(seg, n) && ExportedShape(seg, n, h, call)
    ensures h.segBlk.Some?
    ensures var p := h.(sizeLongs := Some(SizeLongsOf(h.segBlk.value)));
            && ImportHeader(p).Ok?
            && var s := ImportHeader(p).value;
               && s.segType == seg.segType && s.size == Restored(seg, call).size && s.data == Restored(seg, call).data
               && s.dataOffset == Restored(seg, call).dataOffset && s.flags == 0 && s.relocs == map[] && s.symtab.None? && s.debugLine.None?
  {
  }

  // ---------------------------------------------------------------------------
  // The whole trip

  /** Export of all segments succeeds when each is portable, each in its
      shape. */
  lemma {:induction false} ExportSegmentsSpec(segs: seq<Segment>, n: nat, call: SetupCall)
    requires forall i :: 0 <= i < |segs| ==> Exportable(segs[i], n) && Portable(segs[i], n)
    ensures ExportSegments(segs, n, call).Ok?
    ensures forall i :: 0 <= i < |segs| ==> ExportedShape(segs[i], n, ExportSegments(segs, n, call).value[i], call)
    decreases |segs|
  {
    if segs != [] {
      assert forall i :: 0 < i < |segs| ==> segs[i] == segs[1..][i - 1];
      ExportSegmentParts(segs[0], n, call);
      ExportSegmentsSpec(segs[1..], n, call);
    }
  }

  /** One segment's trip, given what parse gives back for its exported
      HunkSegment h. */
  lemma SegmentRoundTrip(seg: Segment, n: nat, i: nat, h: HunkSegment, p: HunkSegment, call: SetupCall)
    requires Portable(seg, n) && ExportedShape(seg, n, h, call)
    requires h.segBlk.Some?
    requires && p.segBlk == h.segBlk && p.relocBlks == h.relocBlks && p.symbolBlk == h.symbolBlk
             && p.debugInfos == ParsedInfos(h) && p.sizeLongs == Some(SizeLongsOf(h.segBlk.value))
    ensures ImportHeader(p).Ok?
    ensures p.relocBlks.None? || Mergeable(p.relocBlks.value, n)
    ensures Attach(ImportHeader(p).value.(id := i), p, n) == Ok(Restored(seg, call).(id := i))
  {
    HeaderRestored(seg, n, h, call);
    assert ImportHeader(p) == ImportHeader(h.(sizeLongs := Some(SizeLongsOf(h.segBlk.value))));
    var s := ImportHeader(p).value.(id := i);
    AttachSpec(s, p, n);
    if p.relocBlks.Some? {
      MergeBlocksSucceeds(p.relocBlks.value, s.relocs, n);
      MergeBlocksKeys(p.relocBlks.value, s.relocs, n);
      MergeBlocksValues(p.relocBlks.value, s.relocs, n);
      var m := MergeBlocks(p.relocBlks.value, s.relocs, n);
      if m.Ok? {
        RelocsRestored(seg, n, h, m.value, call);
      } else {
        RelocsRestored(seg, n, h, map[], call);
      }
    } else {
      RelocsRestored(seg, n, h, map[], call);
    }
    var r := Attach(s, p, n).value;
    if seg.symtab.Some? {
      SymbolsRestored(seg, r.symtab);
    }
    DebugRestored(seg, n, h, call);
  }

  /** Export of a portable image succeeds and gives fresh segments, each in
      the shape export makes of its segment. */
  lemma ExportedImage(img: BinImage, call: SetupCall)
    requires img.segments != []
    requires forall i :: 0 <= i < |img.segments| ==>
               Exportable(img.segments[i], |img.segments|) && Portable(img.segments[i], |img.segments|)
    ensures ExportImage(img, call).Ok?
    ensures var f := ExportImage(img, call).value;
            && |f.segments| == |img.segments| && f.segments != [] && Fresh(f.segments)
            && forall i :: 0 <= i < |img.segments| ==>
                 ExportedShape(img.segments[i], |img.segments|, f.segments[i], call)
  {
    var n := |img.segments|;
    ExportSegmentsSpec(img.segments, n, call);
    var f := ExportImage(img, call).value;
    assert f.segments == ExportSegments(img.segments, n, call).value;
    forall i | 0 <= i < n
      ensures f.segments[i].blocks.None? && Assembled(f.segments[i])
    {
      ExportedAssembled(img.segments[i], n, f.segments[i], call);
    }
  }

  /** create_image_from_load_seg_file(parse_block_file(create_block_file(
      create_load_seg_file_from_image(img)))): every stage succeeds, and the
      image that comes back has, segment by segment, the type, the
      relocations and the ids of the original, its data and size padded to
      whole longwords, its symbols without file names and its debug lines
      with the directory taken from the path. */
  lemma ImageRoundTrip(img: BinImage, call: SetupCall)
    requires img.segments != [] && ValidImage(img)
    requires forall i :: 0 <= i < |img.segments| ==>
               Exportable(img.segments[i], |img.segments|) && Portable(img.segments[i], |img.segments|)
    ensures ExportImage(img, call).Ok? && CreateFile(ExportImage(img, call).value).1.Ok?
    ensures var h := CreateFile(ExportImage(img, call).value).1.value[0];
            && h.HeaderBlock? && |h.hunkTable| == |img.segments|
            && forall i :: 0 <= i < |img.segments| ==>
                 && Portable(img.segments[i], |img.segments|)
                 && h.hunkTable[i] == if call.AsWritten? then 0 else SetupLongs(img.segments[i])
    ensures var (g, err) := ParseFile(EmptyFile, CreateFile(ExportImage(img, call).value).1.value);
            && err == None
            && ImportImage(g).Ok?
            && ImportImage(g).value == BinImage(RestoredSegments(img.segments, call))
  {
    var n := |img.segments|;
    ExportedImage(img, call);
    var f := ExportImage(img, call).value;
    CreateThenParseFile(f);
    var (g, err) := ParseFile(EmptyFile, CreateFile(f).1.value);
    assert |g.segments| == n;
    forall i | 0 <= i < n
      ensures SizeLongsOf(f.segments[i].segBlk.value) == if call.AsWritten? then 0 else SetupLongs(img.segments[i])
    {
      assert ExportedShape(img.segments[i], n, f.segments[i], call);
    }
    forall i | 0 <= i < n
      ensures ImportHeader(g.segments[i]).Ok?
      ensures g.segments[i].relocBlks.None? || Mergeable(g.segments[i].relocBlks.value, n)
      ensures Attach(ImportHeader(g.segments[i]).value.(id := i), g.segments[i], n) == Ok(Restored(img.segments[i], call))
    {
      ExportedAssembled(img.segments[i], n, f.segments[i], call);
      SegmentRoundTrip(img.segments[i], n, i, f.segments[i], g.segments[i], call);
    }
    ImportImageSpec(g);
  }

  // ---------------------------------------------------------------------------
  // What the trip keeps and what it loses

  /** A segment whose data already fills whole longwords, without flags or
      data offset, with a nonempty symbol table without file names and
      debug lines named without a directory, comes back unchanged. */
  lemma RestoredUnchanged(s: Segment)
    requires s.segType <= SEGMENT_TYPE_BSS && (s.segType != SEGMENT_TYPE_BSS ==> s.data.Some?)
    requires s.segType == SEGMENT_TYPE_BSS ==> s.size % 4 == 0 && s.data.None?
    requires s.segType != SEGMENT_TYPE_BSS ==> |s.data.value| % 4 == 0 && s.size == |s.data.value|
    requires s.dataOffset == 0 && s.flags == 0
    requires s.symtab.Some? ==> s.symtab.value != [] && forall i :: 0 <= i < |s.symtab.value| ==> s.symtab.value[i].fileName.None?
    requires s.debugLine.Some? ==>
               s.debugLine.value != [] &&
               forall i :: 0 <= i < |s.debugLine.value| ==>
                 SLASH !in s.debugLine.value[i].srcFile && s.debugLine.value[i].dirName == Some([])
    ensures Restored(s, SizeByName) == s
    ensures s.size > 0 ==> Restored(s, AsWritten) != s
  {
    if s.segType != SEGMENT_TYPE_BSS {
      var (padded, _) := PadData(s.data.value);
      assert padded == padded[..|s.data.value|];
    }
    if s.symtab.Some? {
      assert RestoredSymbols(s.symtab.value).value == s.symtab.value;
    }
    if s.debugLine.Some? {
      var files := s.debugLine.value;
      forall i | 0 <= i < |files|
        ensures RestoredFile(files[i]) == files[i]
      {
        SplitPathSpec(files[i].srcFile);
      }
      assert Restored(s, SizeByName).debugLine.value == files;
    }
  }

  /** The directory survives one trip, but not two: export writes only the
      file name, so the second import finds no '/' and an empty directory. */
  lemma DirectoryLostOnSecondTrip(f: DebugLineFile)
    ensures RestoredFile(RestoredFile(f)) == RestoredFile(f).(dirName := Some([]))
  {
    var (dir, file) := SplitPath(f.srcFile);
    SplitPathSpec(f.srcFile);
    SplitPathSpec(file);
    assert SLASH !in file;
  }
}
