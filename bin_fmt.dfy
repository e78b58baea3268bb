/** BinFmtHunk, the bridge between a LoadSeg() file's segments and a
    BinImage: create_image_from_load_seg_file (import) and
    create_load_seg_file_from_image (export). */
module BinFmt {
  import opened Base
  import opened HunkIds
  import opened Names
  import opened Blocks
  import opened HunkDebug
  import opened LoadSeg
  import opened SegmentSetup
  import opened SegFile
  import opened Image
  import opened LinePack

  // ---------------------------------------------------------------------------
  // _add_hunk_relocs: the relocation merge

  /** blk.relocs of a relocation block. */
  function GroupsOf(b: Block): seq<RelocGroup> {
    if b.RelocLongBlock? || b.RelocWordBlock? then b.relocs else []
  }

  /** Reloc(o) for every offset: a longword address without addend. */
  function PlainRelocs(offsets: seq<nat>): seq<Reloc> {
    seq(|offsets|, i requires 0 <= i < |offsets| => Reloc(offsets[i], 2, 0))
  }

  /** The entries of the Relocations kept for target t, or none yet. */
  function Existing(m: map<nat, seq<Reloc>>, t: nat): seq<Reloc> {
    if t in m then m[t] else []
  }

  /** The groups of one block merged in order; a target beyond the n
      segments of the image is an IndexError. */
  function MergeGroups(groups: seq<RelocGroup>, m: map<nat, seq<Reloc>>, n: nat): Result<map<nat, seq<Reloc>>>
    decreases |groups|
  {
    if groups == [] then Ok(m)
    else
      var g := groups[0];
      if g.hunkNum >= n then Err(BadSegmentIndex)
      else MergeGroups(groups[1..], m[g.hunkNum := Existing(m, g.hunkNum) + PlainRelocs(g.offsets)], n)
  }

  /** _add_hunk_relocs over a segment's relocation blocks. */
  function MergeBlocks(blks: seq<Block>, m: map<nat, seq<Reloc>>, n: nat): Result<map<nat, seq<Reloc>>>
    decreases |blks|
  {
    if blks == [] then Ok(m)
    else if !IsRelocId(BlkId(blks[0])) then Err(InvalidRelocation)
    else
      var m1 :- MergeGroups(GroupsOf(blks[0]), m, n);
      MergeBlocks(blks[1..], m1, n)
  }

  /** The loop of _add_hunk_relocs over one block's groups: each group's
      offsets appended, one at a time, to the entry of its target. */
  method MergeBlockGroups(groups: seq<RelocGroup>, relocs: map<nat, seq<Reloc>>, n: nat)
    returns (r: Result<map<nat, seq<Reloc>>>)
    ensures r == MergeGroups(groups, relocs, n)
  {
    var m: map<nat, seq<Reloc>> := relocs;
    for j := 0 to |groups|
      invariant MergeGroups(groups[j..], m, n) == MergeGroups(groups, relocs, n)
    {
      var g := groups[j];
      assert groups[j..][0] == g && groups[j..][1..] == groups[j + 1..];
      if g.hunkNum >= n {
        return Err(BadSegmentIndex);
      }
      var rl := Existing(m, g.hunkNum);
      for k := 0 to |g.offsets|
        invariant rl == Existing(m, g.hunkNum) + PlainRelocs(g.offsets[..k])
      {
        rl := rl + [Reloc(g.offsets[k], 2, 0)];
      }
      assert g.offsets[..|g.offsets|] == g.offsets;
      m := m[g.hunkNum := rl];
    }
    assert groups[|groups|..] == [];
    return Ok(m);
  }

  /** _add_hunk_relocs: the segment's relocation dictionary is extended in
      place, one offset at a time, reusing the entry of a target it already
      has. */
  method AddHunkRelocs(blks: seq<Block>, relocs: map<nat, seq<Reloc>>, n: nat)
    returns (r: Result<map<nat, seq<Reloc>>>)
    ensures r == MergeBlocks(blks, relocs, n)
  {
    var m: map<nat, seq<Reloc>> := relocs;
    for i := 0 to |blks|
      invariant MergeBlocks(blks[i..], m, n) == MergeBlocks(blks, relocs, n)
    {
      var b := blks[i];
      assert blks[i..][0] == b && blks[i..][1..] == blks[i + 1..];
      if !IsRelocId(BlkId(b)) {
        return Err(InvalidRelocation);
      }
      var merged := MergeBlockGroups(GroupsOf(b), m, n);
      if merged.Err? {
        return Err(merged.error);
      }
      m := merged.value;
    }
    assert blks[|blks|..] == [];
    return Ok(m);
  }

  /** The offsets, in order, of the groups that target t. */
  function GroupOffsets(groups: seq<RelocGroup>, t: nat): seq<nat>
    decreases |groups|
  {
    if groups == [] then []
    else (if groups[0].hunkNum == t then groups[0].offsets else []) + GroupOffsets(groups[1..], t)
  }

  /** The offsets, in order, of every group of every block that targets t. */
  function BlockOffsets(blks: seq<Block>, t: nat): seq<nat>
    decreases |blks|
  {
    if blks == [] then [] else GroupOffsets(GroupsOf(blks[0]), t) + BlockOffsets(blks[1..], t)
  }

  /** The targets the groups name. */
  function GroupTargets(groups: seq<RelocGroup>): set<nat>
    decreases |groups|
  {
    if groups == [] then {} else {groups[0].hunkNum} + GroupTargets(groups[1..])
  }

  /** The targets the groups of the blocks name. */
  function BlockTargets(blks: seq<Block>): set<nat>
    decreases |blks|
  {
    if blks == [] then {} else GroupTargets(GroupsOf(blks[0])) + BlockTargets(blks[1..])
  }

  /** What _add_hunk_relocs accepts: relocation blocks only, and targets
      among the n segments. */
  predicate Mergeable(blks: seq<Block>, n: nat) {
    forall b :: 0 <= b < |blks| ==>
      IsRelocId(BlkId(blks[b])) && forall g :: 0 <= g < |GroupsOf(blks[b])| ==> GroupsOf(blks[b])[g].hunkNum < n
  }

  lemma PlainAppend(a: seq<nat>, b: seq<nat>)
    ensures PlainRelocs(a + b) == PlainRelocs(a) + PlainRelocs(b)
  {
  }

  lemma {:induction false} MergeGroupsSucceeds(groups: seq<RelocGroup>, m: map<nat, seq<Reloc>>, n: nat)
    ensures MergeGroups(groups, m, n).Ok? <==> forall g :: 0 <= g < |groups| ==> groups[g].hunkNum < n
    ensures MergeGroups(groups, m, n).Err? ==> MergeGroups(groups, m, n).error == BadSegmentIndex
    decreases |groups|
  {
    if groups != [] {
      var g := groups[0];
      MergeGroupsSucceeds(groups[1..], m[g.hunkNum := Existing(m, g.hunkNum) + PlainRelocs(g.offsets)], n);
      assert forall k :: 0 < k < |groups| ==> groups[k] == groups[1..][k - 1];
    }
  }

  /** The merged targets are the old ones and those the groups name. */
  lemma {:induction false} MergeGroupsKeys(groups: seq<RelocGroup>, m: map<nat, seq<Reloc>>, n: nat)
    requires MergeGroups(groups, m, n).Ok?
    ensures MergeGroups(groups, m, n).value.Keys == m.Keys + GroupTargets(groups)
    decreases |groups|
  {
    if groups != [] {
      var g := groups[0];
      MergeGroupsKeys(groups[1..], m[g.hunkNum := Existing(m, g.hunkNum) + PlainRelocs(g.offsets)], n);
    }
  }

  /** Each target's entries are the old ones followed by the groups'
      offsets for it, in order. */
  lemma {:induction false} MergeGroupsValues(groups: seq<RelocGroup>, m: map<nat, seq<Reloc>>, n: nat)
    requires MergeGroups(groups, m, n).Ok?
    ensures forall t :: Existing(MergeGroups(groups, m, n).value, t) == Existing(m, t) + PlainRelocs(GroupOffsets(groups, t))
    decreases |groups|
  {
    if groups != [] {
      var g := groups[0];
      var m1 := m[g.hunkNum := Existing(m, g.hunkNum) + PlainRelocs(g.offsets)];
      var r := MergeGroups(groups[1..], m1, n).value;
      assert MergeGroups(groups, m, n).value == r;
      forall t
        ensures Existing(r, t) == Existing(m, t) + PlainRelocs(GroupOffsets(groups, t))
      {
        var head := if g.hunkNum == t then g.offsets else [];
        var tail := GroupOffsets(groups[1..], t);
        assert Existing(r, t) == Existing(m1, t) + PlainRelocs(tail) by {
          MergeGroupsValues(groups[1..], m1, n);
        }
        assert GroupOffsets(groups, t) == head + tail;
        assert Existing(m1, t) == Existing(m, t) + PlainRelocs(head);
        assert PlainRelocs(head + tail) == PlainRelocs(head) + PlainRelocs(tail) by { PlainAppend(head, tail); }
      }
    }
  }

  lemma {:induction false} MergeBlocksSucceeds(blks: seq<Block>, m: map<nat, seq<Reloc>>, n: nat)
    ensures MergeBlocks(blks, m, n).Ok? <==> Mergeable(blks, n)
    ensures MergeBlocks(blks, m, n).Err? ==>
              MergeBlocks(blks, m, n).error == InvalidRelocation || MergeBlocks(blks, m, n).error == BadSegmentIndex
    decreases |blks|
  {
    if blks != [] {
      MergeGroupsSucceeds(GroupsOf(blks[0]), m, n);
      var r1 := MergeGroups(GroupsOf(blks[0]), m, n);
      if r1.Ok? {
        MergeBlocksSucceeds(blks[1..], r1.value, n);
      }
      assert forall b :: 0 < b < |blks| ==> blks[b] == blks[1..][b - 1];
    }
  }

  /** The merged targets are the segment's old ones and every one a block
      names. */
  lemma {:induction false} MergeBlocksKeys(blks: seq<Block>, m: map<nat, seq<Reloc>>, n: nat)
    requires MergeBlocks(blks, m, n).Ok?
    ensures MergeBlocks(blks, m, n).value.Keys == m.Keys + BlockTargets(blks)
    decreases |blks|
  {
    if blks != [] {
      MergeGroupsKeys(GroupsOf(blks[0]), m, n);
      MergeBlocksKeys(blks[1..], MergeGroups(GroupsOf(blks[0]), m, n).value, n);
    }
  }

  /** The merge keeps every entry the segment had and appends, per target,
      every offset the blocks name for it, in block and group order. */
  lemma {:induction false} MergeBlocksValues(blks: seq<Block>, m: map<nat, seq<Reloc>>, n: nat)
    requires MergeBlocks(blks, m, n).Ok?
    ensures forall t :: Existing(MergeBlocks(blks, m, n).value, t) == Existing(m, t) + PlainRelocs(BlockOffsets(blks, t))
    decreases |blks|
  {
    if blks != [] {
      var groups := GroupsOf(blks[0]);
      MergeGroupsValues(groups, m, n);
      var m1 := MergeGroups(groups, m, n).value;
      MergeBlocksValues(blks[1..], m1, n);
      forall t
        ensures Existing(MergeBlocks(blks, m, n).value, t) == Existing(m, t) + PlainRelocs(BlockOffsets(blks, t))
      {
        PlainAppend(GroupOffsets(groups, t), BlockOffsets(blks[1..], t));
      }
    }
  }

  // ---------------------------------------------------------------------------
  // Import: create_image_from_load_seg_file

  /** The segment type of a segment block tag. */
  function SegTypeOf(id: nat): (t: Option<nat>)
    ensures t.Some? <==> id == HUNK_CODE || id == HUNK_DATA || id == HUNK_BSS
    ensures t == Some(SEGMENT_TYPE_CODE) <==> id == HUNK_CODE
    ensures t == Some(SEGMENT_TYPE_DATA) <==> id == HUNK_DATA
    ensures t == Some(SEGMENT_TYPE_BSS) <==> id == HUNK_BSS
  {
    if id == HUNK_CODE then Some(SEGMENT_TYPE_CODE)
    else if id == HUNK_DATA then Some(SEGMENT_TYPE_DATA)
    else if id == HUNK_BSS then Some(SEGMENT_TYPE_BSS)
    else None
  }

  /** The first loop: the Segment made from one HunkSegment. seg_blk must
      exist, size_longs must have been set by parse_block_file, and the
      block must be a code, data or BSS segment block (only those carry
      data and data_offset). */
  function ImportHeader(h: HunkSegment): Result<Segment>
  {
    if h.segBlk.None? then Err(NoSegmentBlock)
    else if h.sizeLongs.None? then Err(NoSegmentSize)
    else
      var b := h.segBlk.value;
      if !b.SegmentBlock? || SegTypeOf(b.id).None? then Err(UnknownSegmentType)
      else Ok(MakeSegment(SegTypeOf(b.id).value, h.sizeLongs.value * 4, b.data, b.dataOffset))
  }

  function ImportHeaders(img: BinImage, hsegs: seq<HunkSegment>): Result<BinImage>
    decreases |hsegs|
  {
    if hsegs == [] then Ok(img)
    else
      var s :- ImportHeader(hsegs[0]);
      ImportHeaders(AddSegment(img, s), hsegs[1..])
  }

  /** blk.symbols of the symbol block. */
  function SymbolsOf(b: Block): seq<SymbolEntry> {
    if b.SymbolBlock? then b.symbols else []
  }

  /** _add_hunk_symbols: an empty block leaves the segment without a table. */
  function AddHunkSymbols(b: Block, symtab: Option<seq<Symbol>>): Option<seq<Symbol>> {
    var syms := SymbolsOf(b);
    if syms == [] then symtab
    else Some(seq(|syms|, i requires 0 <= i < |syms| => Symbol(syms[i].offset, syms[i].name, None)))
  }

  /** One HunkDebugLine as a DebugLineFile: the path split at its last '/',
      each stored line split into line and flags. */
  function LineFileOf(srcFile: seq<Byte>, baseOffset: nat, entries: seq<LineEntry>): DebugLineFile {
    var (dir, file) := SplitPath(srcFile);
    DebugLineFile(file, Some(dir), baseOffset,
                  seq(|entries|, i requires 0 <= i < |entries| =>
                        DebugLineEntry(entries[i].offset, Unpack(entries[i].srcLine).0, Unpack(entries[i].srcLine).1)))
  }

  /** _add_debug_infos: the LINE tables in order; other debug infos are
      skipped. */
  function LineFiles(infos: seq<DebugInfo>): seq<DebugLineFile>
    decreases |infos|
  {
    if infos == [] then []
    else
      var rest := LineFiles(infos[1..]);
      match infos[0]
      case DebugLineInfo(srcFile, baseOffset, entries) => [LineFileOf(srcFile, baseOffset, entries)] + rest
      case DebugAny(_, _, _) => rest
  }

  /** The second loop for one segment: relocations, symbols, debug lines. */
  function Attach(seg: Segment, h: HunkSegment, n: nat): Result<Segment>
  {
    var relocs :- if h.relocBlks.Some? then MergeBlocks(h.relocBlks.value, seg.relocs, n) else Ok(seg.relocs);
    Ok(seg.(relocs := relocs,
            symtab := if h.symbolBlk.Some? then AddHunkSymbols(h.symbolBlk.value, seg.symtab) else seg.symtab,
            debugLine := if h.debugInfos.Some? then Some(LineFiles(h.debugInfos.value)) else seg.debugLine))
  }

  function AttachAll(segs: seq<Segment>, hsegs: seq<HunkSegment>, n: nat): (r: Result<seq<Segment>>)
    requires |segs| == |hsegs|
    ensures r.Ok? ==> |r.value| == |segs|
    decreases |segs|
  {
    if segs == [] then Ok([])
    else
      var s :- Attach(segs[0], hsegs[0], n);
      var rest :- AttachAll(segs[1..], hsegs[1..], n);
      Ok([s] + rest)
  }

  lemma {:induction false} ImportHeadersLength(img: BinImage, hsegs: seq<HunkSegment>)
    ensures ImportHeaders(img, hsegs).Ok? ==>
              |ImportHeaders(img, hsegs).value.segments| == |img.segments| + |hsegs|
    decreases |hsegs|
  {
    if hsegs != [] && ImportHeader(hsegs[0]).Ok? {
      ImportHeadersLength(AddSegment(img, ImportHeader(hsegs[0]).value), hsegs[1..]);
    }
  }

  /** create_image_from_load_seg_file. */
  function ImportImage(f: LoadSegFile): Result<BinImage>
  {
    var img :- ImportHeaders(BinImage([]), f.segments);
    ImportHeadersLength(BinImage([]), f.segments);
    var segs :- AttachAll(img.segments, f.segments, |img.segments|);
    Ok(BinImage(segs))
  }

  // ---------------------------------------------------------------------------
  // What import builds

  lemma {:induction false} GroupTargetsBelow(groups: seq<RelocGroup>, n: nat)
    requires forall g :: 0 <= g < |groups| ==> groups[g].hunkNum < n
    ensures forall t :: t in GroupTargets(groups) ==> t < n
    decreases |groups|
  {
    if groups != [] {
      assert forall k :: 0 < k < |groups| ==> groups[k] == groups[1..][k - 1];
      GroupTargetsBelow(groups[1..], n);
    }
  }

  /** Accepted relocation blocks only name segments of the image. */
  lemma {:induction false} BlockTargetsBelow(blks: seq<Block>, n: nat)
    requires Mergeable(blks, n)
    ensures forall t :: t in BlockTargets(blks) ==> t < n
    decreases |blks|
  {
    if blks != [] {
      GroupTargetsBelow(GroupsOf(blks[0]), n);
      assert forall k :: 0 < k < |blks| ==> blks[k] == blks[1..][k - 1];
      BlockTargetsBelow(blks[1..], n);
    }
  }

  /** The first loop fails at the first HunkSegment that does not convert,
      and otherwise adds one Segment per HunkSegment, numbered in order. */
  lemma {:induction false} ImportHeadersSpec(img: BinImage, hsegs: seq<HunkSegment>)
    ensures ImportHeaders(img, hsegs).Ok? <==> forall i :: 0 <= i < |hsegs| ==> ImportHeader(hsegs[i]).Ok?
    ensures ImportHeaders(img, hsegs).Err? ==>
              exists i :: 0 <= i < |hsegs| && ImportHeader(hsegs[i]).Err? &&
                          ImportHeaders(img, hsegs).error == ImportHeader(hsegs[i]).error
    ensures ImportHeaders(img, hsegs).Ok? ==>
              var segs := ImportHeaders(img, hsegs).value.segments;
              && |segs| == |img.segments| + |hsegs| && segs[..|img.segments|] == img.segments
              && forall i :: 0 <= i < |hsegs| ==>
                   segs[|img.segments| + i] == ImportHeader(hsegs[i]).value.(id := |img.segments| + i)
    decreases |hsegs|
  {
    if hsegs != [] {
      assert forall k :: 0 < k < |hsegs| ==> hsegs[k] == hsegs[1..][k - 1];
      var h := ImportHeader(hsegs[0]);
      if h.Ok? {
        var img1 := AddSegment(img, h.value);
        ImportHeadersSpec(img1, hsegs[1..]);
        if ImportHeaders(img, hsegs).Err? {
          var i :| 0 <= i < |hsegs[1..]| && ImportHeader(hsegs[1..][i]).Err? &&
                   ImportHeaders(img1, hsegs[1..]).error == ImportHeader(hsegs[1..][i]).error;
          assert hsegs[i + 1] == hsegs[1..][i];
        } else {
          var segs := ImportHeaders(img, hsegs).value.segments;
          assert segs[..|img1.segments|][..|img.segments|] == segs[..|img.segments|];
          forall i | 0 <= i < |hsegs|
            ensures segs[|img.segments| + i] == ImportHeader(hsegs[i]).value.(id := |img.segments| + i)
          {
            if i == 0 {
              assert segs[..|img1.segments|][|img.segments|] == segs[|img.segments|];
            }
          }
        }
      }
    }
  }

  /** The second loop fails at the first segment whose attachments fail and
      otherwise attaches each segment's own. */
  lemma {:induction false} AttachAllSpec(segs: seq<Segment>, hsegs: seq<HunkSegment>, n: nat)
    requires |segs| == |hsegs|
    ensures AttachAll(segs, hsegs, n).Ok? <==> forall i :: 0 <= i < |segs| ==> Attach(segs[i], hsegs[i], n).Ok?
    ensures AttachAll(segs, hsegs, n).Ok? ==>
              forall i :: 0 <= i < |segs| ==> AttachAll(segs, hsegs, n).value[i] == Attach(segs[i], hsegs[i], n).value
    decreases |segs|
  {
    if segs != [] {
      assert forall k :: 0 < k < |segs| ==> segs[k] == segs[1..][k - 1] && hsegs[k] == hsegs[1..][k - 1];
      AttachAllSpec(segs[1..], hsegs[1..], n);
    }
  }

  /** What Attach adds to a segment made by the first loop: the merged
      relocations, the symbols and the debug lines of its HunkSegment. */
  lemma AttachSpec(seg: Segment, h: HunkSegment, n: nat)
    requires seg.relocs == map[] && seg.symtab.None? && seg.debugLine.None?
    ensures Attach(seg, h, n).Ok? <==> h.relocBlks.None? || Mergeable(h.relocBlks.value, n)
    ensures Attach(seg, h, n).Ok? ==>
              var s := Attach(seg, h, n).value;
              && s.segType == seg.segType && s.size == seg.size && s.data == seg.data
              && s.dataOffset == seg.dataOffset && s.id == seg.id
              && (h.relocBlks.None? ==> s.relocs == map[])
              && (h.relocBlks.Some? ==>
                    && s.relocs.Keys == BlockTargets(h.relocBlks.value)
                    && (forall t :: t in s.relocs ==> t < n)
                    && forall t :: Existing(s.relocs, t) == PlainRelocs(BlockOffsets(h.relocBlks.value, t)))
              && (s.symtab.Some? <==> h.symbolBlk.Some? && SymbolsOf(h.symbolBlk.value) != [])
              && (s.symtab.Some? ==>
                    var syms := SymbolsOf(h.symbolBlk.value);
                    |s.symtab.value| == |syms| &&
                    forall i :: 0 <= i < |syms| ==> s.symtab.value[i] == Symbol(syms[i].offset, syms[i].name, None))
              && s.debugLine == (if h.debugInfos.Some? then Some(LineFiles(h.debugInfos.value)) else None)
  {
    if h.relocBlks.Some? {
      MergeBlocksSucceeds(h.relocBlks.value, seg.relocs, n);
      if Mergeable(h.relocBlks.value, n) {
        MergeBlocksKeys(h.relocBlks.value, seg.relocs, n);
        MergeBlocksValues(h.relocBlks.value, seg.relocs, n);
        BlockTargetsBelow(h.relocBlks.value, n);
      }
    }
  }

  /** Import succeeds exactly when every HunkSegment converts and every
      relocation list merges; the image then has one segment per
      HunkSegment, numbered in order, each with its own attachments, and
      every relocation targets a segment of the image. */
  lemma ImportImageSpec(f: LoadSegFile)
    ensures ImportImage(f).Ok? <==>
              && (forall i :: 0 <= i < |f.segments| ==> ImportHeader(f.segments[i]).Ok?)
              && (forall i :: 0 <= i < |f.segments| ==>
                    f.segments[i].relocBlks.None? || Mergeable(f.segments[i].relocBlks.value, |f.segments|))
    ensures ImportImage(f).Ok? ==>
              var img := ImportImage(f).value;
              && |img.segments| == |f.segments| && ValidImage(img)
              && forall i :: 0 <= i < |f.segments| ==>
                   && ImportHeader(f.segments[i]).Ok?
                   && Attach(ImportHeader(f.segments[i]).value.(id := i), f.segments[i], |f.segments|).Ok?
                   && img.segments[i] ==
                      Attach(ImportHeader(f.segments[i]).value.(id := i), f.segments[i], |f.segments|).value
  {
    var empty := BinImage([]);
    ImportHeadersSpec(empty, f.segments);
    var hs := ImportHeaders(empty, f.segments);
    if hs.Ok? {
      var segs := hs.value.segments;
      var n := |f.segments|;
      assert |segs| == n;
      forall i | 0 <= i < n
        ensures segs[i] == ImportHeader(f.segments[i]).value.(id := i)
        ensures Attach(segs[i], f.segments[i], n).Ok? <==>
                  f.segments[i].relocBlks.None? || Mergeable(f.segments[i].relocBlks.value, n)
      {
        assert segs[|empty.segments| + i] == segs[i];
        AttachSpec(segs[i], f.segments[i], n);
      }
      AttachAllSpec(segs, f.segments, n);
      if ImportImage(f).Ok? {
        var img := ImportImage(f).value;
        forall i | 0 <= i < n
          ensures img.segments[i].id == i && forall t :: t in img.segments[i].relocs ==> t < n
        {
          AttachSpec(segs[i], f.segments[i], n);
        }
      }
    }
  }

  /** The second loop's body for one segment: the relocation blocks merged
      into the segment's dictionary, then its symbols and debug lines. */
  method AttachSegment(seg: Segment, h: HunkSegment, n: nat) returns (r: Result<Segment>)
    ensures r == Attach(seg, h, n)
  {
    var relocs := seg.relocs;
    if h.relocBlks.Some? {
      var m := AddHunkRelocs(h.relocBlks.value, seg.relocs, n);
      if m.Err? {
        return Err(m.error);
      }
      relocs := m.value;
    }
    var symtab := seg.symtab;
    if h.symbolBlk.Some? {
      symtab := AddHunkSymbols(h.symbolBlk.value, seg.symtab);
    }
    var debugLine := seg.debugLine;
    if h.debugInfos.Some? {
      debugLine := Some(LineFiles(h.debugInfos.value));
    }
    return Ok(seg.(relocs := relocs, symtab := symtab, debugLine := debugLine));
  }

  /** The first loop of create_image_from_load_seg_file: one Segment per
      HunkSegment, added to a new image. */
  method AddSegments(hsegs: seq<HunkSegment>) returns (r: Result<BinImage>)
    ensures r == ImportHeaders(BinImage([]), hsegs)
    ensures r.Ok? ==> |r.value.segments| == |hsegs|
  {
    var img := BinImage([]);
    for i := 0 to |hsegs|
      invariant |img.segments| == i
      invariant ImportHeaders(img, hsegs[i..]) == ImportHeaders(BinImage([]), hsegs)
    {
      assert hsegs[i..][0] == hsegs[i] && hsegs[i..][1..] == hsegs[i + 1..];
      var s := ImportHeader(hsegs[i]);
      if s.Err? {
        return Err(s.error);
      }
      img := AddSegment(img, s.value);
    }
    assert hsegs[|hsegs|..] == [];
    return Ok(img);
  }

  /** The second loop: each segment given its own attachments. */
  method AttachSegments(segs: seq<Segment>, hsegs: seq<HunkSegment>, n: nat) returns (r: Result<seq<Segment>>)
    requires |segs| == |hsegs|
    ensures r == AttachAll(segs, hsegs, n)
  {
    var done: seq<Segment> := [];
    assert segs[0..] == segs && hsegs[0..] == hsegs;
    assert forall rest: seq<Segment> :: [] + rest == rest;
    for i := 0 to |segs|
      invariant |done| == i
      invariant (match AttachAll(segs[i..], hsegs[i..], n)
                 case Err(e) => Err(e)
                 case Ok(rest) => Ok(done + rest)) == AttachAll(segs, hsegs, n)
    {
      assert segs[i..][0] == segs[i] && segs[i..][1..] == segs[i + 1..];
      assert hsegs[i..][0] == hsegs[i] && hsegs[i..][1..] == hsegs[i + 1..];
      var s := AttachSegment(segs[i], hsegs[i], n);
      if s.Err? {
        return Err(s.error);
      }
      var rest := AttachAll(segs[i + 1..], hsegs[i + 1..], n);
      if rest.Ok? {
        assert done + [s.value] + rest.value == done + ([s.value] + rest.value);
      }
      done := done + [s.value];
    }
    assert segs[|segs|..] == [] && hsegs[|segs|..] == [];
    assert done + [] == done;
    return Ok(done);
  }

  /** create_image_from_load_seg_file. */
  method CreateImage(f: LoadSegFile) returns (r: Result<BinImage>)
    ensures r == ImportImage(f)
  {
    var img := AddSegments(f.segments);
    if img.Err? {
      return Err(img.error);
    }
    var segs := AttachSegments(img.value.segments, f.segments, |img.value.segments|);
    if segs.Err? {
      return Err(segs.error);
    }
    return Ok(BinImage(segs.value));
  }

  // ---------------------------------------------------------------------------
  // Export: create_load_seg_file_from_image

  /** A Reloc the hunk format can hold: a longword address, no addend. */
  predicate PlainReloc(r: Reloc) {
    r.width == 2 && r.addend == 0
  }

  /** The offsets of one target's relocations; any other kind raises. */
  function RelocOffsets(rels: seq<Reloc>): (r: Result<seq<nat>>)
    ensures r.Ok? <==> forall k :: 0 <= k < |rels| ==> PlainReloc(rels[k])
    ensures r.Err? ==> r.error == InvalidRelocation
    ensures r.Ok? ==> PlainRelocs(r.value) == rels
    decreases |rels|
  {
    if rels == [] then Ok([])
    else if !PlainReloc(rels[0]) then Err(InvalidRelocation)
    else
      var rest :- RelocOffsets(rels[1..]);
      assert PlainRelocs([rels[0].offset] + rest) == [rels[0]] + PlainRelocs(rest);
      assert [rels[0]] + rels[1..] == rels;
      Ok([rels[0].offset] + rest)
  }

  /** _add_bin_img_relocs: one (target, offsets) group per target, in the
      order given. */
  function ExportGroups(relocs: map<nat, seq<Reloc>>, targets: seq<nat>): (r: Result<seq<RelocGroup>>)
    requires forall k :: 0 <= k < |targets| ==> targets[k] in relocs
    ensures r.Ok? <==> forall k, j :: 0 <= k < |targets| && 0 <= j < |relocs[targets[k]]| ==> PlainReloc(relocs[targets[k]][j])
    ensures r.Err? ==> r.error == InvalidRelocation
    ensures r.Ok? ==> |r.value| == |targets| &&
                      forall k :: 0 <= k < |targets| ==>
                        r.value[k].hunkNum == targets[k] && PlainRelocs(r.value[k].offsets) == relocs[targets[k]]
    decreases |targets|
  {
    if targets == [] then Ok([])
    else
      var offsets :- RelocOffsets(relocs[targets[0]]);
      var rest :- ExportGroups(relocs, targets[1..]);
      assert forall k :: 0 < k < |targets| ==> targets[k] == targets[1..][k - 1];
      Ok([RelocGroup(targets[0], offsets)] + rest)
  }

  /** _add_bin_img_symbols: (name, offset) pairs; the file name is dropped. */
  function ExportSymbols(syms: seq<Symbol>): seq<SymbolEntry> {
    seq(|syms|, i requires 0 <= i < |syms| => SymbolEntry(syms[i].name, syms[i].offset))
  }

  /** One DebugLineFile as a HunkDebugLine: the source file name alone (the
      directory is dropped) and each line packed with its flags. */
  function LineInfoOf(f: DebugLineFile): DebugInfo {
    DebugLineInfo(f.srcFile, f.baseOffset,
                  seq(|f.entries|, i requires 0 <= i < |f.entries| =>
                        LineEntry(f.entries[i].offset, Pack(f.entries[i].srcLine, f.entries[i].flags))))
  }

  /** _add_bin_img_debug_info: setup_debug per file, which encodes at once;
      a value that does not fit its field is a struct.error. */
  function ExportDebug(h: HunkSegment, files: seq<DebugLineFile>): Result<HunkSegment>
    decreases |files|
  {
    if files == [] then Ok(h)
    else
      var info := LineInfoOf(files[0]);
      if !Encodable(info) then Err(ValueOutOfRange)
      else ExportDebug(SetupDebug(h, info), files[1..])
  }

  /** What export demands of a segment: code and data carry bytes, and
      relocations target segments of the image. */
  predicate Exportable(seg: Segment, n: nat) {
    && (seg.segType == SEGMENT_TYPE_CODE || seg.segType == SEGMENT_TYPE_DATA ==> seg.data.Some?)
    && forall t :: t in seg.relocs ==> t < n
  }

  /** How setup_code, setup_data and setup_bss build the segment block.
      AsWritten is the source's call, which passes the size positionally
      into data_offset; SizeByName passes size_longs by keyword. */
  datatype SetupCall = AsWritten | SizeByName

  /** A new HunkSegment set up for the segment's type. */
  function TypeSetup(seg: Segment, call: SetupCall): Result<HunkSegment>
    requires seg.segType == SEGMENT_TYPE_CODE || seg.segType == SEGMENT_TYPE_DATA ==> seg.data.Some?
  {
    if seg.segType == SEGMENT_TYPE_CODE then
      Ok(if call.AsWritten? then SetupCodeAsWritten(NewSegment, seg.data.value) else SetupCode(NewSegment, seg.data.value))
    else if seg.segType == SEGMENT_TYPE_DATA then
      Ok(if call.AsWritten? then SetupDataAsWritten(NewSegment, seg.data.value) else SetupData(NewSegment, seg.data.value))
    else if seg.segType == SEGMENT_TYPE_BSS then
      Ok(if call.AsWritten? then SetupBssAsWritten(NewSegment, seg.size) else SetupBss(NewSegment, seg.size))
    else Err(UnknownSegmentType)
  }

  /** The HunkSegment create_load_seg_file_from_image makes of one Segment. */
  function ExportSegment(seg: Segment, n: nat, call: SetupCall): Result<HunkSegment>
    requires Exportable(seg, n)
  {
    var h :- TypeSetup(seg, call);
    var targets := RelocTargets(seg, n);
    RelocTargetsSpec(seg, n);
    var groups :- ExportGroups(seg.relocs, targets);
    var h1 := if groups != [] then SetupRelocs(h, groups, false) else h;
    var h2 := if seg.symtab.Some? then SetupSymbols(h1, ExportSymbols(seg.symtab.value)) else h1;
    if seg.debugLine.Some? then ExportDebug(h2, seg.debugLine.value) else Ok(h2)
  }

  function ExportSegments(segs: seq<Segment>, n: nat, call: SetupCall): (r: Result<seq<HunkSegment>>)
    requires forall i :: 0 <= i < |segs| ==> Exportable(segs[i], n)
    ensures r.Ok? ==> |r.value| == |segs|
    decreases |segs|
  {
    if segs == [] then Ok([])
    else
      var h :- ExportSegment(segs[0], n, call);
      var rest :- ExportSegments(segs[1..], n, call);
      Ok([h] + rest)
  }

  /** create_load_seg_file_from_image: a new LoadSegFile, without header
      block, holding one HunkSegment per Segment. */
  function ExportImage(img: BinImage, call: SetupCall): Result<LoadSegFile>
    requires forall i :: 0 <= i < |img.segments| ==> Exportable(img.segments[i], |img.segments|)
  {
    var segs :- ExportSegments(img.segments, |img.segments|, call);
    Ok(LoadSegFile(None, segs))
  }

  // ---------------------------------------------------------------------------
  // What export builds

  function LineInfos(files: seq<DebugLineFile>): seq<DebugInfo> {
    seq(|files|, i requires 0 <= i < |files| => LineInfoOf(files[i]))
  }

  predicate AllEncodable(infos: seq<DebugInfo>) {
    forall i :: 0 <= i < |infos| ==> Encodable(infos[i])
  }

  /** The HUNK_DEBUG blocks setup_debug makes of the infos. */
  function DebugBlocksOf(infos: seq<DebugInfo>): seq<Block>
    requires AllEncodable(infos)
  {
    seq(|infos|, i requires 0 <= i < |infos| => DebugBlock(Encode(infos[i])))
  }

  /** A DebugLineFile can be exported exactly when its base offset, name,
      offsets and lines fit their fields and its flags fit 8 bits. */
  lemma LineInfoEncodable(f: DebugLineFile)
    ensures Encodable(LineInfoOf(f)) <==>
              && f.baseOffset < TWO_32 && CanWriteName(f.srcFile, None)
              && forall k :: 0 <= k < |f.entries| ==>
                   f.entries[k].offset < TWO_32 && f.entries[k].srcLine < TWO_32 && f.entries[k].flags < 256
  {
    var info := LineInfoOf(f);
    forall k | 0 <= k < |f.entries|
      ensures info.entries[k].srcLine < TWO_32 <==> f.entries[k].srcLine < TWO_32 && f.entries[k].flags < 256
    {
      PackFits(f.entries[k].srcLine, f.entries[k].flags);
    }
  }

  lemma LineInfosCons(files: seq<DebugLineFile>)
    requires files != []
    ensures LineInfos(files) == [LineInfoOf(files[0])] + LineInfos(files[1..])
    ensures AllEncodable(LineInfos(files)) <==> Encodable(LineInfoOf(files[0])) && AllEncodable(LineInfos(files[1..]))
  {
    var infos := LineInfos(files);
    var rest := LineInfos(files[1..]);
    assert infos == [LineInfoOf(files[0])] + rest;
    if AllEncodable(infos) {
      assert Encodable(infos[0]);
      forall k | 0 <= k < |rest|
        ensures Encodable(rest[k])
      {
        assert rest[k] == infos[k + 1];
      }
    }
    if Encodable(infos[0]) && AllEncodable(rest) {
      forall k | 0 < k < |infos|
        ensures Encodable(infos[k])
      {
        assert infos[k] == rest[k - 1];
      }
    }
  }

  /** Debug export fails with a struct.error at the first file that does
      not fit. */
  lemma {:induction false} ExportDebugSucceeds(h: HunkSegment, files: seq<DebugLineFile>)
    ensures ExportDebug(h, files).Ok? <==> AllEncodable(LineInfos(files))
    ensures ExportDebug(h, files).Err? ==> ExportDebug(h, files).error == ValueOutOfRange
    decreases |files|
  {
    if files != [] {
      LineInfosCons(files);
      var info := LineInfoOf(files[0]);
      if Encodable(info) {
        ExportDebugSucceeds(SetupDebug(h, info), files[1..]);
      }
    }
  }

  /** Otherwise every file's info is kept and its encoding appended as a
      HUNK_DEBUG block, in order; nothing else changes. */
  lemma {:induction false} ExportDebugAppends(h: HunkSegment, files: seq<DebugLineFile>)
    requires AllEncodable(LineInfos(files))
    ensures ExportDebug(h, files).Ok?
    ensures ExportDebug(h, files).value ==
              h.(debugInfos := Join(h.debugInfos, LineInfos(files)),
                 debugBlks := Join(h.debugBlks, DebugBlocksOf(LineInfos(files))))
    decreases |files|
  {
    if files == [] {
      assert LineInfos(files) == [];
    } else {
      LineInfosCons(files);
      var info := LineInfoOf(files[0]);
      var rest := LineInfos(files[1..]);
      ExportDebugAppends(SetupDebug(h, info), files[1..]);
      assert DebugBlocksOf([info] + rest) == [DebugBlock(Encode(info))] + DebugBlocksOf(rest);
      JoinCons(h.debugInfos, info, rest);
      JoinCons(h.debugBlks, DebugBlock(Encode(info)), DebugBlocksOf(rest));
    }
  }

  /** The relocations a segment holds can be exported exactly when each is a
      plain longword address. */
  predicate PlainRelocsOnly(seg: Segment) {
    forall t, k :: t in seg.relocs && 0 <= k < |seg.relocs[t]| ==> PlainReloc(seg.relocs[t][k])
  }

  /** The groups export writes: one per target, in id order. */
  lemma ExportGroupsOk(seg: Segment, n: nat)
    requires Exportable(seg, n)
    ensures forall k :: 0 <= k < |RelocTargets(seg, n)| ==> RelocTargets(seg, n)[k] in seg.relocs
    ensures ExportGroups(seg.relocs, RelocTargets(seg, n)).Ok? <==> PlainRelocsOnly(seg)
  {
    RelocTargetsSpec(seg, n);
    var targets := RelocTargets(seg, n);
    if ExportGroups(seg.relocs, targets).Ok? {
      forall t, k | t in seg.relocs && 0 <= k < |seg.relocs[t]|
        ensures PlainReloc(seg.relocs[t][k])
      {
        assert t in targets;
        var j :| 0 <= j < |targets| && targets[j] == t;
      }
    }
  }

  /** Export fails on an unknown segment type first, then on a relocation
      that is not a plain address, then on debug lines that do not fit. */
  lemma ExportSegmentSucceeds(seg: Segment, n: nat, call: SetupCall)
    requires Exportable(seg, n)
    ensures ExportSegment(seg, n, call).Ok? <==>
              && seg.segType <= SEGMENT_TYPE_BSS
              && PlainRelocsOnly(seg)
              && (seg.debugLine.Some? ==> AllEncodable(LineInfos(seg.debugLine.value)))
    ensures seg.segType > SEGMENT_TYPE_BSS ==> ExportSegment(seg, n, call) == Err(UnknownSegmentType)
    ensures seg.segType <= SEGMENT_TYPE_BSS && !PlainRelocsOnly(seg) ==> ExportSegment(seg, n, call) == Err(InvalidRelocation)
  {
    ExportGroupsOk(seg, n);
    if TypeSetup(seg, call).Ok? && ExportGroups(seg.relocs, RelocTargets(seg, n)).Ok? {
      var groups := ExportGroups(seg.relocs, RelocTargets(seg, n)).value;
      var h := TypeSetup(seg, call).value;
      var h1 := if groups != [] then SetupRelocs(h, groups, false) else h;
      var h2 := if seg.symtab.Some? then SetupSymbols(h1, ExportSymbols(seg.symtab.value)) else h1;
      if seg.debugLine.Some? {
        ExportDebugSucceeds(h2, seg.debugLine.value);
      }
    }
  }

  /** Export writes relocations when the segment has any, in one block,
      HUNK_RELOC32SHORT exactly when every offset fits 16 bits. */
  lemma ExportRelocForm(seg: Segment, n: nat, call: SetupCall)
    requires Exportable(seg, n) && ExportSegment(seg, n, call).Ok?
    ensures var h := ExportSegment(seg, n, call).value;
            && (h.relocBlks.Some? <==> seg.relocs != map[])
            && (h.relocBlks.Some? ==>
                  && |h.relocBlks.value| == 1
                  && (h.relocBlks.value[0].RelocWordBlock? <==>
                        forall t, k :: t in seg.relocs && 0 <= k < |seg.relocs[t]| ==> seg.relocs[t][k].offset <= 65535))
  {
    RelocTargetsSpec(seg, n);
    var targets := RelocTargets(seg, n);
    var groups := ExportGroups(seg.relocs, targets).value;
    var h := TypeSetup(seg, call).value;
    var h1 := if groups != [] then SetupRelocs(h, groups, false) else h;
    var h2 := if seg.symtab.Some? then SetupSymbols(h1, ExportSymbols(seg.symtab.value)) else h1;
    if seg.debugLine.Some? {
      ExportDebugSucceeds(h2, seg.debugLine.value);
      ExportDebugAppends(h2, seg.debugLine.value);
    }
    if seg.relocs != map[] {
      var t0 :| t0 in seg.relocs;
      assert t0 in targets;
    }
    if groups != [] {
      assert groups[0].hunkNum in seg.relocs;
    }
    GroupsShortIff(seg, n);
  }

  /** The exported groups are short exactly when every offset fits 16
      bits. */
  lemma GroupsShortIff(seg: Segment, n: nat)
    requires Exportable(seg, n)
    requires forall k :: 0 <= k < |RelocTargets(seg, n)| ==> RelocTargets(seg, n)[k] in seg.relocs
    requires ExportGroups(seg.relocs, RelocTargets(seg, n)).Ok?
    ensures AreRelocsShort(ExportGroups(seg.relocs, RelocTargets(seg, n)).value) <==>
            forall t, k :: t in seg.relocs && 0 <= k < |seg.relocs[t]| ==> seg.relocs[t][k].offset <= 65535
  {
    RelocTargetsSpec(seg, n);
    var targets := RelocTargets(seg, n);
    var groups := ExportGroups(seg.relocs, targets).value;
    forall t, k | t in seg.relocs && 0 <= k < |seg.relocs[t]| && AreRelocsShort(groups)
      ensures seg.relocs[t][k].offset <= 65535
    {
      assert t in targets;
      var j :| 0 <= j < |targets| && targets[j] == t;
      assert PlainRelocs(groups[j].offsets)[k] == seg.relocs[t][k];
    }
    if forall t, k :: t in seg.relocs && 0 <= k < |seg.relocs[t]| ==> seg.relocs[t][k].offset <= 65535 {
      forall g, o | 0 <= g < |groups| && 0 <= o < |groups[g].offsets|
        ensures groups[g].offsets[o] <= 65535
      {
        assert PlainRelocs(groups[g].offsets)[o] == seg.relocs[targets[g]][o];
      }
    }
  }
}
