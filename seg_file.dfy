/** HunkLoadSegFile: the header block and the segments of a LoadSeg() file;
    parse_block_file assigns a block list to segments checked against the
    header's size table, create_block_file flattens the segments back. */
module SegFile {
  import opened Base
  import opened HunkIds
  import opened Blocks
  import opened BlockParse
  import opened LoadSeg
  import opened RunSplit
  import opened BlockRoundTrip
  import opened DispatchRoundTrip

  /** The fields of a HunkLoadSegFile. */
  datatype LoadSegFile = LoadSegFile(hdrBlk: Option<Block>, segments: seq<HunkSegment>)

  const EmptyFile: LoadSegFile := LoadSegFile(None, [])

  /** hdr_blk.hunk_table: a block tagged HUNK_HEADER is a HunkHeaderBlock. */
  function HunkTableOf(b: Block): seq<nat> {
    if b.HeaderBlock? then b.hunkTable else []
  }

  // ---------------------------------------------------------------------------
  // parse_block_file

  /** The segments loop: each run parsed into a new segment appended to
      segs; the first failure stops it, the failed run adding nothing. */
  function ParseRuns(segs: seq<HunkSegment>, runs: seq<seq<Block>>): (r: (seq<HunkSegment>, Option<HunkError>))
    ensures r.1.None? <==> forall i :: 0 <= i < |runs| ==> SegmentOf(runs[i]).Ok?
    ensures r.1.None? ==> |r.0| == |segs| + |runs| && r.0[..|segs|] == segs
    ensures r.1.None? ==> forall i :: 0 <= i < |runs| ==> r.0[|segs| + i] == SegmentOf(runs[i]).value
    decreases |runs|
  {
    if runs == [] then (segs, None)
    else
      match SegmentOf(runs[0])
      case Err(e) => (segs, Some(e))
      case Ok(seg) =>
        var r := ParseRuns(segs + [seg], runs[1..]);
        assert forall i :: 1 <= i < |runs| ==> runs[i] == runs[1..][i - 1];
        assert r.1.None? ==> r.0[..|segs|] == (segs + [seg])[..|segs|];
        r
  }

  /** The segments after the size loop: the first |table| get
      size_longs = hunk_table[i]. */
  function WithSizes(segs: seq<HunkSegment>, table: seq<nat>): seq<HunkSegment>
    requires |table| <= |segs|
  {
    seq(|segs|, i requires 0 <= i < |segs| =>
      if i < |table| then segs[i].(sizeLongs := Some(table[i])) else segs[i])
  }

  /** HunkLoadSegFile.parse_block_file: the new state and the error raised,
      if any. hdr_blk is set before the rounds run and stays set when they
      fail; segments parsed before a failing one stay appended. */
  function ParseFile(f: LoadSegFile, blks: seq<Block>): (LoadSegFile, Option<HunkError>)
  {
    if blks == [] then (f, Some(NoHunkBlocks))
    else if BlkId(blks[0]) != HUNK_HEADER then (f, Some(NoHeaderBlock))
    else
      var f1 := f.(hdrBlk := Some(blks[0]));
      match FirstRound(blks[1..])
      case Err(e) => (f1, Some(e))
      case Ok(first) =>
        match SecondRound(first)
        case Err(e) => (f1, Some(e))
        case Ok(second) =>
          var table := HunkTableOf(blks[0]);
          if |table| != |second| then (f1, Some(HunksDontMatchHeader))
          else
            var (segs, err) := ParseRuns(f.segments, second);
            if err.Some? then (f1.(segments := segs), err)
            else (f1.(segments := WithSizes(segs, table)), None)
  }

  /** The runs parse_block_file assigns to segments. */
  function RunsOf(blks: seq<Block>): seq<seq<Block>>
    requires blks != []
  {
    match FirstRound(blks[1..])
    case Ok(first) => (match SecondRound(first) case Ok(second) => second case Err(_) => [])
    case Err(_) => []
  }

  /** What parse_block_file gives a new HunkLoadSegFile, run by run: every
      block after the header passes the first round, and the runs hold the
      blocks of every HUNK_END-separated run that has a segment block, in
      order, one run per entry of the header's size table. */
  lemma ParseFileRuns(blks: seq<Block>)
    ensures ParseFile(EmptyFile, blks).1 == None ==>
            && BlkId(blks[0]) == HUNK_HEADER && ParseFile(EmptyFile, blks).0.hdrBlk == Some(blks[0])
            && (forall i :: 1 <= i < |blks| ==> RoundValid(blks[i]))
            && FirstRound(blks[1..]).Ok?
            && Concat(RunsOf(blks)) == Concat(WithBegin(FirstRound(blks[1..]).value))
            && |ParseFile(EmptyFile, blks).0.segments| == |HunkTableOf(blks[0])| == |RunsOf(blks)|
            && OneBeginEach(RunsOf(blks))
  {
    if ParseFile(EmptyFile, blks).1 == None {
      assert blks != [] && BlkId(blks[0]) == HUNK_HEADER && FirstRound(blks[1..]).Ok?;
      var first := FirstRound(blks[1..]).value;
      assert SecondRound(first).Ok?;
      assert forall i :: 1 <= i < |blks| ==> RoundValid(blks[i]) by {
        FirstRoundSpec(blks[1..]);
        assert forall i :: 1 <= i < |blks| ==> blks[i] == blks[1..][i - 1];
      }
      SecondRoundSpec(first);
    }
  }

  /** What parse_block_file gives a new HunkLoadSegFile, segment by
      segment: segment i holds run i whole, its last segment block, and the
      size the header's table gives it. */
  lemma ParseFileSegments(blks: seq<Block>)
    ensures ParseFile(EmptyFile, blks).1 == None ==>
            var g := ParseFile(EmptyFile, blks).0;
            var runs := RunsOf(blks);
            && |g.segments| == |runs| == |HunkTableOf(blks[0])|
            && forall i :: 0 <= i < |runs| ==>
                 && g.segments[i].blocks == Some(runs[i])
                 && g.segments[i].segBlk == LastBegin(runs[i])
                 && g.segments[i].sizeLongs == Some(HunkTableOf(blks[0])[i])
  {
    if ParseFile(EmptyFile, blks).1 == None {
      assert blks != [] && BlkId(blks[0]) == HUNK_HEADER && FirstRound(blks[1..]).Ok?;
      var first := FirstRound(blks[1..]).value;
      assert SecondRound(first).Ok?;
      var runs := SecondRound(first).value;
      var table := HunkTableOf(blks[0]);
      var (segs, err) := ParseRuns([], runs);
      assert err == None && |table| == |runs|;
      var g := ParseFile(EmptyFile, blks).0;
      assert g == LoadSegFile(Some(blks[0]), WithSizes(segs, table));
      forall i | 0 <= i < |runs|
        ensures g.segments[i].blocks == Some(runs[i]) && g.segments[i].segBlk == LastBegin(runs[i])
      {
        assert segs[i] == segs[0 + i];
        SegmentOfSpec(runs[i]);
      }
    }
  }

  /** The error cases of parse_block_file, in the order it checks them. */
  lemma ParseFileErrors(f: LoadSegFile, blks: seq<Block>)
    ensures blks == [] ==> ParseFile(f, blks) == (f, Some(NoHunkBlocks))
    ensures blks != [] && BlkId(blks[0]) != HUNK_HEADER ==> ParseFile(f, blks) == (f, Some(NoHeaderBlock))
    ensures blks != [] && BlkId(blks[0]) == HUNK_HEADER && FirstRound(blks[1..]).Err? ==>
            ParseFile(f, blks).1.Some? && ParseFile(f, blks).1.value.InvalidBlock?
            && exists i :: 1 <= i < |blks| && !RoundValid(blks[i]) && ParseFile(f, blks).1.value.id == BlkId(blks[i])
    ensures blks != [] && BlkId(blks[0]) == HUNK_HEADER && FirstRound(blks[1..]).Ok? && SecondRound(FirstRound(blks[1..]).value).Err? ==>
            ParseFile(f, blks).1 == Some(CannotSplit)
    ensures blks != [] && BlkId(blks[0]) == HUNK_HEADER ==> ParseFile(f, blks).0.hdrBlk == Some(blks[0])
  {
    if blks != [] && BlkId(blks[0]) == HUNK_HEADER {
      FirstLoopSucceeds(blks[1..], [], false);
      if FirstRound(blks[1..]).Err? {
        var i :| 0 <= i < |blks[1..]| && !RoundValid(blks[1..][i]) && FirstRound(blks[1..]).error == InvalidBlock(BlkId(blks[1..][i]));
        assert blks[i + 1] == blks[1..][i];
      } else {
        SecondRoundSpec(FirstRound(blks[1..]).value);
      }
    }
  }

  // ---------------------------------------------------------------------------
  // create_block_file

  /** A new HunkHeaderBlock, before setup. */
  const EmptyHeader: Block := HeaderBlock([], 0, 0, 0, [])

  /** HunkHeaderBlock.setup: fails on an empty size list; otherwise the
      hunk range 0 .. n-1 covers exactly the n sizes. */
  function HeaderSetup(sizes: seq<nat>): (r: Result<Block>)
    ensures r.Err? <==> sizes == []
    ensures r.Err? ==> r.error == NoHunksForHeader
    ensures r.Ok? ==> && r.value.HeaderBlock? && r.value.reslibNames == [] && r.value.hunkTable == sizes
                      && r.value.tableSize == |sizes| && r.value.firstHunk == 0
                      && HunkCount(r.value.firstHunk, r.value.lastHunk) == |sizes|
  {
    if sizes == [] then Err(NoHunksForHeader)
    else Ok(HeaderBlock([], |sizes|, 0, |sizes| - 1, sizes))
  }

  /** The header built by setup reads back through HunkHeaderBlock.parse when
      the sizes fit its 30 bits. */
  lemma HeaderSetupDecodes(sizes: seq<nat>, pos: nat)
    requires sizes != [] && |sizes| <= TWO_31 && SizesFit(sizes)
    ensures Decodes(HeaderSetup(sizes).value, pos)
  {
  }

  /** The loop over the segments: each one's create appends its blocks and
      a HUNK_END, and its size is collected; a failing create stops the
      loop, the segments before it keeping the blocks they recorded. */
  function CreateLoop(done: seq<HunkSegment>, todo: seq<HunkSegment>, blks: seq<Block>, sizes: seq<nat>)
    : (r: (seq<HunkSegment>, Result<(seq<Block>, seq<nat>)>))
    ensures |r.0| == |done| + |todo|
    decreases |todo|
  {
    if todo == [] then (done, Ok((blks, sizes)))
    else
      match Create(todo[0])
      case Err(e) => (done + todo, Err(e))
      case Ok((seg, bl, size)) => CreateLoop(done + [seg], todo[1..], blks + bl + [EndBlock], sizes + [size])
  }

  /** HunkLoadSegFile.create_block_file: the new state and the blocks, the
      header first. hdr_blk is a new header from the start and is set up
      only once every segment has been created. */
  function CreateFile(f: LoadSegFile): (LoadSegFile, Result<seq<Block>>)
  {
    var (segs, res) := CreateLoop([], f.segments, [], []);
    match res
    case Err(e) => (LoadSegFile(Some(EmptyHeader), segs), Err(e))
    case Ok((blks, sizes)) =>
      match HeaderSetup(sizes)
      case Err(e) => (LoadSegFile(Some(EmptyHeader), segs), Err(e))
      case Ok(h) => (LoadSegFile(Some(h), segs), Ok([h] + blks))
  }

  // ---------------------------------------------------------------------------
  // create, then parse

  /** The block lists create gives the segments, and their sizes. */
  function CreatedRuns(segs: seq<HunkSegment>): seq<seq<Block>>
    requires forall i :: 0 <= i < |segs| ==> segs[i].segBlk.Some?
    decreases |segs|
  {
    if segs == [] then [] else [Create(segs[0]).value.1] + CreatedRuns(segs[1..])
  }

  function CreatedSizes(segs: seq<HunkSegment>): seq<nat>
    requires forall i :: 0 <= i < |segs| ==> segs[i].segBlk.Some?
    decreases |segs|
  {
    if segs == [] then [] else [Create(segs[0]).value.2] + CreatedSizes(segs[1..])
  }

  lemma {:induction false} CreateLoopOk(done: seq<HunkSegment>, todo: seq<HunkSegment>, blks: seq<Block>, sizes: seq<nat>)
    requires forall i :: 0 <= i < |todo| ==> todo[i].segBlk.Some?
    ensures CreateLoop(done, todo, blks, sizes).1 ==
            Ok((blks + Terminated(CreatedRuns(todo)), sizes + CreatedSizes(todo)))
    decreases |todo|
  {
    if todo == [] {
      assert blks + [] == blks && sizes + [] == sizes;
    } else {
      var (seg, bl, size) := Create(todo[0]).value;
      CreateLoopOk(done + [seg], todo[1..], blks + bl + [EndBlock], sizes + [size]);
      assert blks + bl + [EndBlock] + Terminated(CreatedRuns(todo[1..])) == blks + Terminated(CreatedRuns(todo));
      assert sizes + [size] + CreatedSizes(todo[1..]) == sizes + CreatedSizes(todo);
    }
  }

  /** Segments built by the setup_* family, ready for create: no recorded
      blocks, and parts parse accepts. */
  predicate Fresh(segs: seq<HunkSegment>) {
    forall i :: 0 <= i < |segs| ==> segs[i].blocks.None? && Assembled(segs[i])
  }

  lemma {:induction false} CreatedRunsShape(segs: seq<HunkSegment>)
    requires Fresh(segs)
    ensures |CreatedRuns(segs)| == |CreatedSizes(segs)| == |segs|
    ensures forall i :: 0 <= i < |segs| ==>
              && CreatedRuns(segs)[i] == Create(segs[i]).value.1
              && CreatedSizes(segs)[i] == SizeLongsOf(segs[i].segBlk.value)
    decreases |segs|
  {
    if segs != [] {
      CreatedRunsShape(segs[1..]);
      assert forall i :: 1 <= i < |segs| ==> segs[i] == segs[1..][i - 1];
    }
  }

  /** A segment's created blocks pass both rounds unchanged. */
  lemma CreatedRunOk(seg: HunkSegment)
    requires seg.blocks.None? && Assembled(seg)
    ensures RunOk(Create(seg).value.1) && BeginCount(Create(seg).value.1) == 1
  {
    var (s, rs, ds, ys) := Pieces(seg);
    assert Create(seg).value.1 == s + rs + ds + ys;
    PiecesAccepted(seg);
    SelectedBegin(seg);
  }

  /** The created runs pass both rounds unchanged and parse back into the
      segments' parts. */
  lemma CreatedRunsParse(segs: seq<HunkSegment>)
    requires Fresh(segs)
    ensures |CreatedRuns(segs)| == |segs|
    ensures forall i :: 0 <= i < |segs| ==> RunOk(CreatedRuns(segs)[i]) && BeginCount(CreatedRuns(segs)[i]) == 1
    ensures forall i :: 0 <= i < |segs| ==>
              var p := SegmentOf(CreatedRuns(segs)[i]);
              && p.Ok?
              && p.value.segBlk == segs[i].segBlk && p.value.relocBlks == segs[i].relocBlks
              && p.value.debugBlks == segs[i].debugBlks && p.value.symbolBlk == segs[i].symbolBlk
              && p.value.debugInfos == ParsedInfos(segs[i])
  {
    CreatedRunsShape(segs);
    forall i | 0 <= i < |segs|
      ensures RunOk(CreatedRuns(segs)[i]) && BeginCount(CreatedRuns(segs)[i]) == 1
    {
      CreatedRunOk(segs[i]);
    }
    forall i | 0 <= i < |segs|
      ensures var p := SegmentOf(CreatedRuns(segs)[i]);
              && p.Ok?
              && p.value.segBlk == segs[i].segBlk && p.value.relocBlks == segs[i].relocBlks
              && p.value.debugBlks == segs[i].debugBlks && p.value.symbolBlk == segs[i].symbolBlk
              && p.value.debugInfos == ParsedInfos(segs[i])
    {
      CreateThenParse(segs[i]);
    }
  }

  /** parse_block_file(create_block_file()) on segments made by the setup_*
      family: as many segments, each with its segment, relocation, debug and
      symbol blocks, and sized with what create reported for it. */
  lemma CreateThenParseFile(f: LoadSegFile)
    requires f.segments != [] && Fresh(f.segments)
    ensures CreateFile(f).1.Ok?
    ensures var h := CreateFile(f).1.value[0];
            && h.HeaderBlock? && |h.hunkTable| == |f.segments|
            && forall i :: 0 <= i < |f.segments| ==> h.hunkTable[i] == SizeLongsOf(f.segments[i].segBlk.value)
    ensures var (g, err) := ParseFile(EmptyFile, CreateFile(f).1.value);
            && err == None && g.hdrBlk == CreateFile(f).0.hdrBlk
            && |g.segments| == |f.segments|
            && forall i :: 0 <= i < |f.segments| ==>
                 && g.segments[i].segBlk == f.segments[i].segBlk
                 && g.segments[i].relocBlks == f.segments[i].relocBlks
                 && g.segments[i].debugBlks == f.segments[i].debugBlks
                 && g.segments[i].symbolBlk == f.segments[i].symbolBlk
                 && g.segments[i].debugInfos == ParsedInfos(f.segments[i])
                 && g.segments[i].sizeLongs == Some(SizeLongsOf(f.segments[i].segBlk.value))
  {
    var segs := f.segments;
    var runs := CreatedRuns(segs);
    var sizes := CreatedSizes(segs);
    assert |runs| == |sizes| == |segs| by { CreatedRunsShape(segs); }
    var h := HeaderSetup(sizes).value;
    assert CreateFile(f).1 == Ok([h] + Terminated(runs)) && CreateFile(f).0.hdrBlk == Some(h) by {
      CreateLoopOk([], segs, [], []);
      assert [] + Terminated(runs) == Terminated(runs) && [] + sizes == sizes;
    }
    forall i | 0 <= i < |segs|
      ensures h.hunkTable[i] == SizeLongsOf(segs[i].segBlk.value)
    {
      CreatedSegmentParsed(segs, i);
    }
    var parsed := ParseRuns([], runs).0;
    var blks := [h] + Terminated(runs);
    assert ParseFile(EmptyFile, blks) == (LoadSegFile(Some(h), WithSizes(parsed, sizes)), None) by {
      CreatedRunsParse(segs);
      ParseFileOfCreated(h, runs);
    }
    var g := ParseFile(EmptyFile, blks).0;
    forall i | 0 <= i < |segs|
      ensures && g.segments[i].segBlk == segs[i].segBlk
              && g.segments[i].relocBlks == segs[i].relocBlks
              && g.segments[i].debugBlks == segs[i].debugBlks
              && g.segments[i].symbolBlk == segs[i].symbolBlk
              && g.segments[i].debugInfos == ParsedInfos(segs[i])
              && g.segments[i].sizeLongs == Some(SizeLongsOf(segs[i].segBlk.value))
    {
      CreatedSegmentParsed(segs, i);
      assert g.segments[i] == parsed[i].(sizeLongs := Some(sizes[i]));
    }
  }

  /** The i-th segment parsed back from the created runs, and the size
      create reported for it. */
  lemma CreatedSegmentParsed(segs: seq<HunkSegment>, i: nat)
    requires Fresh(segs) && i < |segs|
    ensures var parsed := ParseRuns([], CreatedRuns(segs)).0;
            var sizes := CreatedSizes(segs);
            && i < |parsed| && i < |sizes|
            && parsed[i].segBlk == segs[i].segBlk && parsed[i].relocBlks == segs[i].relocBlks
            && parsed[i].debugBlks == segs[i].debugBlks && parsed[i].symbolBlk == segs[i].symbolBlk
            && parsed[i].debugInfos == ParsedInfos(segs[i])
            && sizes[i] == SizeLongsOf(segs[i].segBlk.value)
  {
    var runs := CreatedRuns(segs);
    CreatedRunsShape(segs);
    CreatedRunsParse(segs);
    var parsed := ParseRuns([], runs).0;
    assert parsed[i] == parsed[0 + i];
  }

  /** parse_block_file on a header followed by runs that pass both rounds
      and each parse into a segment. */
  lemma ParseFileOfCreated(h: Block, runs: seq<seq<Block>>)
    requires h.HeaderBlock? && |h.hunkTable| == |runs|
    requires forall i :: 0 <= i < |runs| ==>
               RunOk(runs[i]) && BeginCount(runs[i]) == 1 && SegmentOf(runs[i]).Ok?
    ensures ParseRuns([], runs).1 == None
    ensures ParseFile(EmptyFile, [h] + Terminated(runs)) ==
            (LoadSegFile(Some(h), WithSizes(ParseRuns([], runs).0, h.hunkTable)), None)
  {
    var blks := [h] + Terminated(runs);
    assert blks[1..] == Terminated(runs);
    FirstRoundOfTerminated(runs);
    SecondRoundOfOne(runs);
  }

  // ---------------------------------------------------------------------------
  // The object

  class HunkLoadSegFile {
    var hdrBlk: Option<Block>
    var segments: seq<HunkSegment>

    constructor()
      ensures hdrBlk == None && segments == []
    {
      hdrBlk := None;
      segments := [];
    }

    function Value(): LoadSegFile
      reads this
    {
      LoadSegFile(hdrBlk, segments)
    }

    method AddSegment(seg: HunkSegment)
      modifies this
      ensures segments == old(segments) + [seg] && hdrBlk == old(hdrBlk)
    {
      segments := segments + [seg];
    }

    /** parse_block_file, returning the error it raises, if any. */
    method ParseBlockFile(blks: seq<Block>) returns (err: Option<HunkError>)
      modifies this
      ensures (Value(), err) == ParseFile(old(Value()), blks)
    {
      if blks == [] {
        return Some(NoHunkBlocks);
      }
      var hdr := blks[0];
      if BlkId(hdr) != HUNK_HEADER {
        return Some(NoHeaderBlock);
      }
      hdrBlk := Some(hdr);
      var first := SplitAtEnd(blks[1..]);
      if first.Err? {
        return Some(first.error);
      }
      var second := SplitAtBegins(first.value);
      if second.Err? {
        return Some(second.error);
      }
      var runs := second.value;
      var table := HunkTableOf(hdr);
      if |table| != |runs| {
        return Some(HunksDontMatchHeader);
      }
      ghost var segs0 := segments;
      for k := 0 to |runs|
        invariant hdrBlk == Some(hdr)
        invariant ParseRuns(segments, runs[k..]) == ParseRuns(segs0, runs)
      {
        assert runs[k..][0] == runs[k] && runs[k..][1..] == runs[k + 1..];
        var seg := ParseSegmentBlocks(runs[k]);
        if seg.Err? {
          return Some(seg.error);
        }
        segments := segments + [seg.value];
      }
      assert runs[|runs|..] == [];
      ghost var parsed := ParseRuns(segs0, runs).0;
      assert segments == parsed;
      for i := 0 to |table|
        invariant |segments| == |segs0| + |runs|
        invariant forall j :: 0 <= j < |segments| ==>
                    segments[j] == if j < i then ParseRuns(segs0, runs).0[j].(sizeLongs := Some(table[j]))
                                   else ParseRuns(segs0, runs).0[j]
        invariant hdrBlk == Some(hdr)
      {
        segments := segments[i := segments[i].(sizeLongs := Some(table[i]))];
      }
      assert segments == WithSizes(parsed, table);
      return None;
    }

    /** create_block_file, returning the blocks or the error it raises. */
    method CreateBlockFile() returns (r: Result<seq<Block>>)
      modifies this
      ensures (Value(), r) == CreateFile(old(Value()))
    {
      hdrBlk := Some(EmptyHeader);
      var blks: seq<Block> := [];
      var sizes: seq<nat> := [];
      ghost var segs0 := segments;
      for k := 0 to |segments|
        invariant |segments| == |segs0|
        invariant CreateLoop(segments[..k], segments[k..], blks, sizes) == CreateLoop([], segs0, [], [])
        invariant hdrBlk == Some(EmptyHeader)
      {
        assert segments[k..][0] == segments[k] && segments[k..][1..] == segments[k + 1..];
        var created := Create(segments[k]);
        if created.Err? {
          assert segments[..k] + segments[k..] == segments;
          return Err(created.error);
        }
        var (seg, bl, size) := created.value;
        ghost var before := segments;
        segments := segments[k := seg];
        assert segments[..k + 1] == before[..k] + [seg];
        assert segments[k + 1..] == before[k + 1..];
        blks := blks + bl + [EndBlock];
        sizes := sizes + [size];
      }
      assert segments[..|segments|] == segments && segments[|segments|..] == [];
      var hdr := HeaderSetup(sizes);
      if hdr.Err? {
        return Err(hdr.error);
      }
      hdrBlk := Some(hdr.value);
      return Ok([hdr.value] + blks);
    }
  }
}
