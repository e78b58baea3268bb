/** HunkSegment: the blocks of one segment of a LoadSeg() file, sorted into
    the segment block, its relocations, its debug blocks and its symbols;
    built either from a run of read blocks (parse) or from a BinImage
    segment (the setup_* family), and flattened back (create). */
module LoadSeg {
  import opened Base
  import opened HunkIds
  import opened Names
  import opened Blocks
  import opened HunkDebug

  /** The fields of a HunkSegment; None where the source leaves None.
      sizeLongs is None until parse_block_file sets it. */
  datatype HunkSegment = HunkSegment(
    blocks: Option<seq<Block>>,
    segBlk: Option<Block>,
    symbolBlk: Option<Block>,
    relocBlks: Option<seq<Block>>,
    debugBlks: Option<seq<Block>>,
    debugInfos: Option<seq<DebugInfo>>,
    sizeLongs: Option<nat>)

  const NewSegment: HunkSegment := HunkSegment(None, None, None, None, None, None, None)

  /** A list field after `if x is None: x = []; x.append(v)`. */
  function Append<T>(xs: Option<seq<T>>, x: T): Option<seq<T>> {
    Some((if xs.None? then [] else xs.value) + [x])
  }

  /** A list field after appending all of vs that way (untouched when vs is
      empty). */
  function Join<T>(xs: Option<seq<T>>, vs: seq<T>): Option<seq<T>> {
    if vs == [] then xs else Some((if xs.None? then [] else xs.value) + vs)
  }

  predicate IsRelocId(id: nat) {
    id == HUNK_ABSRELOC32 || id == HUNK_RELOC32SHORT
  }

  /** The tags HunkSegment.parse accepts. HUNK_NAME is not among them. */
  predicate IsSegmentPartId(id: nat) {
    IsBeginId(id) || id == HUNK_SYMBOL || id == HUNK_DEBUG || IsRelocId(id)
  }

  /** blk.debug_data: every block tagged HUNK_DEBUG is a HunkDebugBlock. */
  function DebugDataOf(b: Block): seq<Byte> {
    if b.DebugBlock? then b.debugData else []
  }

  /** blk.size_longs of the block in seg_blk, a HunkSegmentBlock. */
  function SizeLongsOf(b: Block): nat {
    if b.SegmentBlock? then b.sizeLongs else 0
  }

  // ---------------------------------------------------------------------------
  // parse

  /** One turn of the loop of HunkSegment.parse. */
  function ParseStep(seg: HunkSegment, b: Block): Result<HunkSegment>
  {
    var id := BlkId(b);
    if IsBeginId(id) then Ok(seg.(segBlk := Some(b)))
    else if id == HUNK_SYMBOL then
      if seg.symbolBlk.None? then Ok(seg.(symbolBlk := Some(b))) else Err(DuplicateSymbols)
    else if id == HUNK_DEBUG then
      var info :- Decode(DebugDataOf(b));
      Ok(seg.(debugBlks := Append(seg.debugBlks, b),
              debugInfos := if info.Some? then Append(seg.debugInfos, info.value) else seg.debugInfos))
    else if IsRelocId(id) then Ok(seg.(relocBlks := Append(seg.relocBlks, b)))
    else Err(InvalidHunkBlock)
  }

  function ParseLoop(seg: HunkSegment, blocks: seq<Block>): Result<HunkSegment>
    decreases |blocks|
  {
    if blocks == [] then Ok(seg)
    else
      var next :- ParseStep(seg, blocks[0]);
      ParseLoop(next, blocks[1..])
  }

  /** HunkSegment.parse on a new segment. */
  function SegmentOf(blocks: seq<Block>): Result<HunkSegment>
  {
    ParseLoop(NewSegment.(blocks := Some(blocks)), blocks)
  }

  /** HunkSegment.parse, filling the fields block by block. */
  method ParseSegmentBlocks(blocks: seq<Block>) returns (r: Result<HunkSegment>)
    ensures r == SegmentOf(blocks)
  {
    var seg := NewSegment.(blocks := Some(blocks));
    var i := 0;
    while i < |blocks|
      invariant i <= |blocks|
      invariant ParseLoop(seg, blocks[i..]) == SegmentOf(blocks)
    {
      var b := blocks[i];
      var id := BlkId(b);
      assert blocks[i..][0] == b && blocks[i..][1..] == blocks[i + 1..];
      if IsBeginId(id) {
        seg := seg.(segBlk := Some(b));
      } else if id == HUNK_SYMBOL {
        if seg.symbolBlk.Some? {
          return Err(DuplicateSymbols);
        }
        seg := seg.(symbolBlk := Some(b));
      } else if id == HUNK_DEBUG {
        seg := seg.(debugBlks := Append(seg.debugBlks, b));
        var info := Decode(DebugDataOf(b));
        if info.Err? {
          return Err(info.error);
        }
        if info.value.Some? {
          seg := seg.(debugInfos := Append(seg.debugInfos, info.value.value));
        }
      } else if IsRelocId(id) {
        seg := seg.(relocBlks := Append(seg.relocBlks, b));
      } else {
        return Err(InvalidHunkBlock);
      }
      i := i + 1;
    }
    return Ok(seg);
  }

  // What parse collects

  predicate IsSymbolId(id: nat) { id == HUNK_SYMBOL }
  predicate IsDebugId(id: nat) { id == HUNK_DEBUG }

  /** The blocks of the list whose tag pick selects, in order. */
  function Select(blocks: seq<Block>, pick: nat -> bool): (r: seq<Block>)
    ensures |r| <= |blocks|
    decreases blocks
  {
    if blocks == [] then []
    else (if pick(BlkId(blocks[0])) then [blocks[0]] else []) + Select(blocks[1..], pick)
  }

  lemma {:induction false} SelectAppend(a: seq<Block>, b: seq<Block>, pick: nat -> bool)
    ensures Select(a + b, pick) == Select(a, pick) + Select(b, pick)
    decreases a
  {
    if a == [] {
      assert a + b == b;
    } else {
      var head := if pick(BlkId(a[0])) then [a[0]] else [];
      assert (a + b)[0] == a[0] && (a + b)[1..] == a[1..] + b;
      assert Select(a + b, pick) == head + Select(a[1..] + b, pick);
      SelectAppend(a[1..], b, pick);
      assert head + (Select(a[1..], pick) + Select(b, pick)) == (head + Select(a[1..], pick)) + Select(b, pick);
    }
  }

  /** A block parse takes: a segment part whose debug data, if any, decodes. */
  predicate Accepted(b: Block) {
    IsSegmentPartId(BlkId(b)) && (BlkId(b) == HUNK_DEBUG ==> Decode(DebugDataOf(b)).Ok?)
  }

  /** Every block accepted. */
  predicate PartsAccepted(blocks: seq<Block>)
    decreases blocks
  {
    blocks == [] || (Accepted(blocks[0]) && PartsAccepted(blocks[1..]))
  }

  lemma {:induction false} PartsAcceptedAll(blocks: seq<Block>)
    requires forall i :: 0 <= i < |blocks| ==> Accepted(blocks[i])
    ensures PartsAccepted(blocks)
    decreases blocks
  {
    if blocks != [] {
      PartsAcceptedAll(blocks[1..]);
    }
  }

  /** The last segment block of the list. */
  function LastBegin(blocks: seq<Block>): Option<Block>
    decreases blocks
  {
    if blocks == [] then None
    else
      var rest := LastBegin(blocks[1..]);
      if rest.Some? then rest else if IsBeginId(BlkId(blocks[0])) then Some(blocks[0]) else None
  }

  lemma JoinCons<T>(xs: Option<seq<T>>, x: T, vs: seq<T>)
    ensures Join(Append(xs, x), vs) == Join(xs, [x] + vs)
  {
    var old_ := if xs.None? then [] else xs.value;
    assert old_ + [x] + vs == old_ + ([x] + vs);
    assert [x] + vs != [];
    if vs == [] {
      assert [x] + vs == [x];
    }
  }

  lemma JoinNone<T>(vs: seq<T>)
    ensures Join(None, vs) == (if vs == [] then None else Some(vs))
  {
    assert [] + vs == vs;
  }

  /** parse fails exactly on a block it does not take, a second symbol block
      or debug data that does not decode. */
  lemma {:induction false} ParseLoopSucceeds(seg: HunkSegment, blocks: seq<Block>)
    ensures ParseLoop(seg, blocks).Ok? <==>
            PartsAccepted(blocks) && |Select(blocks, IsSymbolId)| + (if seg.symbolBlk.Some? then 1 else 0) <= 1
    decreases blocks
  {
    if blocks != [] {
      var step := ParseStep(seg, blocks[0]);
      if step.Ok? {
        ParseLoopSucceeds(step.value, blocks[1..]);
      }
    }
  }

  /** One block's share of what the loop collects. */
  lemma SelectCons(b: Block, rest: seq<Block>, pick: nat -> bool)
    ensures Select([b] + rest, pick) == if pick(BlkId(b)) then [b] + Select(rest, pick) else Select(rest, pick)
  {
    assert ([b] + rest)[0] == b && ([b] + rest)[1..] == rest;
    assert [] + Select(rest, pick) == Select(rest, pick);
  }

  /** A successful parse files every relocation and debug block, in order,
      and keeps the last segment block and the symbol block. */
  lemma {:induction false} ParseLoopCollects(seg: HunkSegment, blocks: seq<Block>)
    requires ParseLoop(seg, blocks).Ok?
    ensures var r := ParseLoop(seg, blocks).value;
            && r.relocBlks == Join(seg.relocBlks, Select(blocks, IsRelocId))
            && r.debugBlks == Join(seg.debugBlks, Select(blocks, IsDebugId))
            && r.segBlk == (if LastBegin(blocks).Some? then LastBegin(blocks) else seg.segBlk)
            && r.symbolBlk == (if Select(blocks, IsSymbolId) != [] then Some(Select(blocks, IsSymbolId)[0]) else seg.symbolBlk)
            && r.blocks == seg.blocks && r.sizeLongs == seg.sizeLongs
    decreases blocks
  {
    if blocks != [] {
      var b := blocks[0];
      var next := ParseStep(seg, b).value;
      ParseLoopCollects(next, blocks[1..]);
      assert blocks == [b] + blocks[1..];
      SelectCons(b, blocks[1..], IsRelocId);
      SelectCons(b, blocks[1..], IsDebugId);
      SelectCons(b, blocks[1..], IsSymbolId);
      if IsRelocId(BlkId(b)) {
        JoinCons(seg.relocBlks, b, Select(blocks[1..], IsRelocId));
      }
      if IsDebugId(BlkId(b)) {
        assert next.debugBlks == Append(seg.debugBlks, b);
        assert Select(blocks, IsDebugId) == [b] + Select(blocks[1..], IsDebugId);
        JoinCons(seg.debugBlks, b, Select(blocks[1..], IsDebugId));
      }
      if IsSymbolId(BlkId(b)) {
        ParseLoopSucceeds(next, blocks[1..]);
      }
    }
  }

  /** The debug infos the debug blocks decode to, in order; a block whose
      data is too short for a header yields none. */
  function DecodedInfos(blocks: seq<Block>): seq<DebugInfo>
    decreases |blocks|
  {
    if blocks == [] then []
    else
      var d := Decode(DebugDataOf(blocks[0]));
      (if d.Ok? && d.value.Some? then [d.value.value] else []) + DecodedInfos(blocks[1..])
  }

  /** The debug_infos parse gives a segment with these debug blocks. */
  function ParsedInfos(seg: HunkSegment): Option<seq<DebugInfo>> {
    Join(None, DecodedInfos(if seg.debugBlks.Some? then seg.debugBlks.value else []))
  }

  /** A successful parse keeps the decoded info of every debug block, in
      order. */
  lemma {:induction false} ParseLoopInfos(seg: HunkSegment, blocks: seq<Block>)
    requires ParseLoop(seg, blocks).Ok?
    ensures ParseLoop(seg, blocks).value.debugInfos == Join(seg.debugInfos, DecodedInfos(Select(blocks, IsDebugId)))
    decreases blocks
  {
    if blocks != [] {
      var b := blocks[0];
      var next := ParseStep(seg, b).value;
      ParseLoopInfos(next, blocks[1..]);
      assert blocks == [b] + blocks[1..];
      SelectCons(b, blocks[1..], IsDebugId);
      if IsDebugId(BlkId(b)) {
        var rest := Select(blocks[1..], IsDebugId);
        assert Select(blocks, IsDebugId) == [b] + rest;
        assert ([b] + rest)[0] == b && ([b] + rest)[1..] == rest;
        var d := Decode(DebugDataOf(b));
        if d.value.Some? {
          JoinCons(seg.debugInfos, d.value.value, DecodedInfos(rest));
        } else {
          assert [] + DecodedInfos(rest) == DecodedInfos(rest);
        }
      }
    }
  }

  /** HunkSegment.parse: which lists succeed, and what the segment holds. */
  lemma SegmentOfSpec(blocks: seq<Block>)
    ensures SegmentOf(blocks).Ok? <==> PartsAccepted(blocks) && |Select(blocks, IsSymbolId)| <= 1
    ensures SegmentOf(blocks).Ok? ==>
            var seg := SegmentOf(blocks).value;
            var relocs := Select(blocks, IsRelocId);
            var debugs := Select(blocks, IsDebugId);
            var symbols := Select(blocks, IsSymbolId);
            && seg.blocks == Some(blocks)
            && seg.segBlk == LastBegin(blocks)
            && seg.relocBlks == (if relocs == [] then None else Some(relocs))
            && seg.debugBlks == (if debugs == [] then None else Some(debugs))
            && seg.symbolBlk == (if symbols == [] then None else Some(symbols[0]))
  {
    ParseLoopSucceeds(NewSegment.(blocks := Some(blocks)), blocks);
    if SegmentOf(blocks).Ok? {
      ParseLoopCollects(NewSegment.(blocks := Some(blocks)), blocks);
      JoinNone(Select(blocks, IsRelocId));
      JoinNone(Select(blocks, IsDebugId));
    }
  }

  /** HUNK_NAME is a valid extra block for the assembler but HunkSegment.parse
      rejects it. */
  lemma NameBlockRejected(blocks: seq<Block>, i: nat)
    requires i < |blocks| && blocks[i].NameBlock?
    ensures IsExtraId(BlkId(blocks[i]))
    ensures SegmentOf(blocks).Err?
  {
    SegmentOfSpec(blocks);
    NotAcceptedAt(blocks, i);
  }

  lemma {:induction false} NotAcceptedAt(blocks: seq<Block>, i: nat)
    requires i < |blocks| && !IsSegmentPartId(BlkId(blocks[i]))
    ensures !PartsAccepted(blocks)
    decreases i
  {
    if i > 0 {
      NotAcceptedAt(blocks[1..], i - 1);
    }
  }

  // ---------------------------------------------------------------------------
  // create

  /** HunkSegment.create: the blocks to append (the parsed ones, or the
      segment block, relocations, debug blocks and symbols in that order),
      the segment's size in longwords, and the segment with its blocks
      recorded. */
  function Create(seg: HunkSegment): (r: Result<(HunkSegment, seq<Block>, nat)>)
    ensures r.Err? <==> seg.segBlk.None?
    ensures r.Ok? ==> r.value.0.blocks == Some(r.value.1)
    ensures r.Ok? && seg.blocks.Some? ==> r.value.0 == seg
    ensures r.Ok? && seg.blocks.None? ==> r.value.1 != [] && r.value.1[0] == seg.segBlk.value
  {
    if seg.segBlk.None? then Err(NoSegmentBlock)
    else if seg.blocks.Some? then Ok((seg, seg.blocks.value, SizeLongsOf(seg.segBlk.value)))
    else
      var bl := [seg.segBlk.value]
                + (if seg.relocBlks.Some? then seg.relocBlks.value else [])
                + (if seg.debugBlks.Some? then seg.debugBlks.value else [])
                + (if seg.symbolBlk.Some? then [seg.symbolBlk.value] else []);
      Ok((seg.(blocks := Some(bl)), bl, SizeLongsOf(seg.segBlk.value)))
  }

  // ---------------------------------------------------------------------------
  // create, then parse

  /** Every block of the list carries a tag pick selects. */
  predicate AllTagged(blocks: seq<Block>, pick: nat -> bool) {
    forall i :: 0 <= i < |blocks| ==> pick(BlkId(blocks[i]))
  }

  /** No block of the list carries a tag pick selects. */
  predicate NoneTagged(blocks: seq<Block>, pick: nat -> bool) {
    forall i :: 0 <= i < |blocks| ==> !pick(BlkId(blocks[i]))
  }

  lemma {:induction false} SelectAll(blocks: seq<Block>, pick: nat -> bool)
    requires AllTagged(blocks, pick)
    ensures Select(blocks, pick) == blocks
    decreases blocks
  {
    if blocks != [] {
      SelectAll(blocks[1..], pick);
    }
  }

  lemma {:induction false} SelectNone(blocks: seq<Block>, pick: nat -> bool)
    requires NoneTagged(blocks, pick)
    ensures Select(blocks, pick) == []
    decreases blocks
  {
    if blocks != [] {
      SelectNone(blocks[1..], pick);
    }
  }

  lemma {:induction false} LastBeginNone(blocks: seq<Block>)
    requires NoneTagged(blocks, IsBeginId)
    ensures LastBegin(blocks) == None
    decreases blocks
  {
    if blocks != [] {
      LastBeginNone(blocks[1..]);
    }
  }

  lemma SelectFour(a: seq<Block>, b: seq<Block>, c: seq<Block>, d: seq<Block>, pick: nat -> bool)
    ensures Select(a + b + c + d, pick) == Select(a, pick) + Select(b, pick) + Select(c, pick) + Select(d, pick)
  {
    SelectAppend(a + b + c, d, pick);
    SelectAppend(a + b, c, pick);
    SelectAppend(a, b, pick);
  }

  /** A segment create can flatten and parse can take back: a segment block,
      relocation blocks, debug blocks whose data decodes and a symbol
      block, each list present only when it holds something. */
  predicate Assembled(seg: HunkSegment) {
    && seg.segBlk.Some? && IsBeginId(BlkId(seg.segBlk.value))
    && (seg.relocBlks.Some? ==> seg.relocBlks.value != [] && AllTagged(seg.relocBlks.value, IsRelocId))
    && (seg.debugBlks.Some? ==>
          && seg.debugBlks.value != [] && AllTagged(seg.debugBlks.value, IsDebugId)
          && forall i :: 0 <= i < |seg.debugBlks.value| ==> Decode(DebugDataOf(seg.debugBlks.value[i])).Ok?)
    && (seg.symbolBlk.Some? ==> IsSymbolId(BlkId(seg.symbolBlk.value)))
  }

  /** The lists create concatenates, as Create lays them out. */
  function Pieces(seg: HunkSegment): (seq<Block>, seq<Block>, seq<Block>, seq<Block>)
    requires seg.segBlk.Some?
  {
    ([seg.segBlk.value],
     if seg.relocBlks.Some? then seg.relocBlks.value else [],
     if seg.debugBlks.Some? then seg.debugBlks.value else [],
     if seg.symbolBlk.Some? then [seg.symbolBlk.value] else [])
  }

  lemma PiecesAccepted(seg: HunkSegment)
    requires Assembled(seg)
    ensures var (s, rs, ds, ys) := Pieces(seg);
            && PartsAccepted(s + rs + ds + ys)
            && forall i :: 0 <= i < |s + rs + ds + ys| ==> Accepted((s + rs + ds + ys)[i])
  {
    var (s, rs, ds, ys) := Pieces(seg);
    var bl := s + rs + ds + ys;
    forall i | 0 <= i < |bl|
      ensures Accepted(bl[i])
    {
      if i >= |s| + |rs| + |ds| {
        assert bl[i] == ys[i - |s| - |rs| - |ds|];
      } else if i >= |s| + |rs| {
        assert bl[i] == ds[i - |s| - |rs|];
      } else if i >= |s| {
        assert bl[i] == rs[i - |s|];
      }
    }
    PartsAcceptedAll(bl);
  }

  /** Only the segment block begins a segment. */
  lemma SelectedBegin(seg: HunkSegment)
    requires Assembled(seg)
    ensures var (s, rs, ds, ys) := Pieces(seg); Select(s + rs + ds + ys, IsBeginId) == s
  {
    var (s, rs, ds, ys) := Pieces(seg);
    SelectFour(s, rs, ds, ys, IsBeginId);
    SelectAll(s, IsBeginId);
    SelectNone(rs, IsBeginId);
    SelectNone(ds, IsBeginId);
    SelectNone(ys, IsBeginId);
  }

  /** The relocation blocks are picked out whole by their tags. */
  lemma SelectedRelocs(seg: HunkSegment)
    requires Assembled(seg)
    ensures var (s, rs, ds, ys) := Pieces(seg); Select(s + rs + ds + ys, IsRelocId) == rs
  {
    var (s, rs, ds, ys) := Pieces(seg);
    SelectFour(s, rs, ds, ys, IsRelocId);
    SelectNone(s, IsRelocId);
    SelectAll(rs, IsRelocId);
    SelectNone(ds, IsRelocId);
    SelectNone(ys, IsRelocId);
  }

  /** So are the debug blocks. */
  lemma SelectedDebugs(seg: HunkSegment)
    requires Assembled(seg)
    ensures var (s, rs, ds, ys) := Pieces(seg); Select(s + rs + ds + ys, IsDebugId) == ds
  {
    var (s, rs, ds, ys) := Pieces(seg);
    SelectFour(s, rs, ds, ys, IsDebugId);
    SelectNone(s, IsDebugId);
    SelectNone(rs, IsDebugId);
    SelectAll(ds, IsDebugId);
    SelectNone(ys, IsDebugId);
  }

  /** And the symbol block. */
  lemma SelectedSymbols(seg: HunkSegment)
    requires Assembled(seg)
    ensures var (s, rs, ds, ys) := Pieces(seg); Select(s + rs + ds + ys, IsSymbolId) == ys
  {
    var (s, rs, ds, ys) := Pieces(seg);
    SelectFour(s, rs, ds, ys, IsSymbolId);
    SelectNone(s, IsSymbolId);
    SelectNone(rs, IsSymbolId);
    SelectNone(ds, IsSymbolId);
    SelectAll(ys, IsSymbolId);
  }

  /** The segment block comes first and no other block begins a segment. */
  lemma LastBeginFirst(seg: HunkSegment)
    requires Assembled(seg)
    ensures var (s, rs, ds, ys) := Pieces(seg); LastBegin(s + rs + ds + ys) == seg.segBlk
  {
    var (s, rs, ds, ys) := Pieces(seg);
    var rest := rs + ds + ys;
    assert NoneTagged(rest, IsBeginId) by {
      forall i | 0 <= i < |rest|
        ensures !IsBeginId(BlkId(rest[i]))
      {
        if i >= |rs| + |ds| {
          assert rest[i] == ys[i - |rs| - |ds|];
        } else if i >= |rs| {
          assert rest[i] == ds[i - |rs|];
        } else {
          assert rest[i] == rs[i];
        }
      }
    }
    LastBeginNone(rest);
    var bl := s + rs + ds + ys;
    assert bl == [seg.segBlk.value] + rest;
    assert bl[1..] == rest;
  }

  /** parse(create(seg)) gives back the segment block, the relocation and
      debug blocks in order and the symbol block. */
  lemma CreateThenParse(seg: HunkSegment)
    requires seg.blocks.None? && Assembled(seg)
    ensures Create(seg).Ok?
    ensures var bl := Create(seg).value.1;
            && SegmentOf(bl).Ok?
            && SegmentOf(bl).value.segBlk == seg.segBlk
            && SegmentOf(bl).value.relocBlks == seg.relocBlks
            && SegmentOf(bl).value.debugBlks == seg.debugBlks
            && SegmentOf(bl).value.symbolBlk == seg.symbolBlk
            && SegmentOf(bl).value.debugInfos == ParsedInfos(seg)
  {
    var (s, rs, ds, ys) := Pieces(seg);
    assert Create(seg).value.1 == s + rs + ds + ys;
    PiecesAccepted(seg);
    SelectedRelocs(seg);
    SelectedDebugs(seg);
    SelectedSymbols(seg);
    LastBeginFirst(seg);
    SegmentOfSpec(s + rs + ds + ys);
    ParseLoopSucceeds(NewSegment.(blocks := Some(s + rs + ds + ys)), s + rs + ds + ys);
    ParseLoopInfos(NewSegment.(blocks := Some(s + rs + ds + ys)), s + rs + ds + ys);
  }
}
