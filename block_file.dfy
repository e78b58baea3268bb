/** HunkBlockFile: a Hunk file as a flat list of blocks, each a 4-byte tag
    followed by its body. Tags are masked to 16 bits on read; in LoadSeg()
    files tag 1015 (HUNK_DREL32) stands for HUNK_RELOC32SHORT. */
module BlockFile {
  import opened Base
  import opened HunkIds
  import opened Names
  import opened Blocks
  import opened BlockParse
  import opened BlockWrite
  import opened BlockRoundTrip
  import opened DispatchRoundTrip

  /** What a read leaves behind: the blocks appended so far, and the error
      that stopped it, if any (the source raises after appending). */
  datatype ReadOutcome = ReadOutcome(blocks: seq<Block>, error: Option<HunkError>)

  /** The id a read tag selects: masked with HUNK_TYPE_MASK, then, in load-seg
      files only, 1015 taken for 1020. */
  function ReadId(raw: nat, isLoadSeg: bool): (id: nat)
    ensures id < HUNK_TYPE_MASK_MOD
    ensures id == HUNK_RELOC32SHORT && raw % HUNK_TYPE_MASK_MOD == HUNK_DREL32 <==>
            isLoadSeg && raw % HUNK_TYPE_MASK_MOD == HUNK_DREL32
    ensures id != raw % HUNK_TYPE_MASK_MOD ==> isLoadSeg && raw % HUNK_TYPE_MASK_MOD == HUNK_DREL32
  {
    var id := raw % HUNK_TYPE_MASK_MOD;
    if isLoadSeg && id == HUNK_DREL32 then HUNK_RELOC32SHORT else id
  }

  /** The tag written for a block: 1020 goes out as 1015 in load-seg files. */
  function WriteId(b: Block, isLoadSeg: bool): nat
  {
    if isLoadSeg && BlkId(b) == HUNK_RELOC32SHORT then HUNK_DREL32 else BlkId(b)
  }

  /** One turn of HunkBlockFile.read: None at the end of the stream, else the
      block and the cursor after it. */
  function ReadOne(s: seq<Byte>, pos: nat, isLoadSeg: bool): (r: Result<Option<Read<Block>>>)
    requires pos <= |s|
    ensures r.Ok? && r.value.None? <==> pos == |s|
    ensures r.Ok? && r.value.Some? ==> pos + 4 <= r.value.value.next <= |s|
    ensures pos < |s| < pos + 4 ==> r == Err(TagTooShort)
  {
    var tag := ReadUpTo(s, pos, 4);
    if |tag.value| == 0 then Ok(None)
    else if |tag.value| != 4 then Err(TagTooShort)
    else
      var raw := LongValue(tag.value);
      if KindOf(raw % HUNK_TYPE_MASK_MOD).None? then Err(UnsupportedHunkType(raw % HUNK_TYPE_MASK_MOD))
      else
        var id := ReadId(raw, isLoadSeg);
        var b :- ParseBody(s, tag.next, id);
        Ok(Some(b))
  }

  /** HunkBlockFile.read from pos to the end of the stream, appending to acc. */
  function ReadLoop(s: seq<Byte>, pos: nat, isLoadSeg: bool, acc: seq<Block>): (r: ReadOutcome)
    requires pos <= |s|
    ensures acc <= r.blocks
    decreases |s| - pos
  {
    match ReadOne(s, pos, isLoadSeg)
    case Err(e) => ReadOutcome(acc, Some(e))
    case Ok(None) => ReadOutcome(acc, None)
    case Ok(Some(b)) => ReadLoop(s, b.next, isLoadSeg, acc + [b.value])
  }

  /** What HunkBlockFile.write demands: every block writable, its tag a
      32-bit value. */
  predicate FileWritable(blocks: seq<Block>)
    decreases blocks
  {
    blocks == [] || (BlkId(blocks[0]) < TWO_32 && Writable(blocks[0]) && FileWritable(blocks[1..]))
  }

  /** HunkBlockFile.write: each block as its tag and its body. */
  function EncodeFile(blocks: seq<Block>, isLoadSeg: bool): seq<Byte>
    requires FileWritable(blocks)
    decreases blocks
  {
    if blocks == [] then []
    else Long(WriteId(blocks[0], isLoadSeg)) + EncodeBlock(blocks[0]) + EncodeFile(blocks[1..], isLoadSeg)
  }

  /** The file from block i on: block i's tag and body, then the rest. */
  lemma EncodeFileAt(bs: seq<Block>, i: nat, isLoadSeg: bool)
    requires i < |bs| && FileWritable(bs[i..])
    ensures Writable(bs[i]) && FileWritable(bs[i + 1..])
    ensures EncodeFile(bs[i..], isLoadSeg) ==
            (Long(WriteId(bs[i], isLoadSeg)) + EncodeBlock(bs[i])) + EncodeFile(bs[i + 1..], isLoadSeg)
  {
    assert bs[i..][0] == bs[i] && bs[i..][1..] == bs[i + 1..];
  }

  /** HunkBlockFile._map_blkid_to_type on the first block. */
  function DetectType(blocks: seq<Block>): (t: FileType)
    ensures blocks == [] ==> t == TypeUnknown
  {
    if blocks == [] then TypeUnknown else MapBlkIdToType(BlkId(blocks[0]))
  }

  /** HunkBlockFile.peek_type: the first tag, not masked, mapped to a file
      type. Being a function of the stream it leaves the cursor where it was. */
  function PeekType(s: seq<Byte>, pos: nat): (t: FileType)
    requires pos <= |s|
    ensures pos + 4 > |s| ==> t == TypeUnknown
  {
    if pos + 4 <= |s| then MapBlkIdToType(LongValue(s[pos..pos + 4])) else TypeUnknown
  }

  // ---------------------------------------------------------------------------
  // Round trip of a whole file

  /** Every block reads back at the position it is written at; in load-seg
      files no long-form block may carry tag 1015, which would be read as
      the word form. */
  predicate FileDecodes(blocks: seq<Block>, pos: nat, isLoadSeg: bool)
    decreases blocks
  {
    blocks == [] ||
    (&& Decodes(blocks[0], pos + 4) && BlkId(blocks[0]) < TWO_16
     && !(isLoadSeg && BlkId(blocks[0]) == HUNK_DREL32)
     && FileDecodes(blocks[1..], pos + 4 + |EncodeBlock(blocks[0])|, isLoadSeg))
  }

  lemma FileDecodesWritable(blocks: seq<Block>, pos: nat, isLoadSeg: bool)
    requires FileDecodes(blocks, pos, isLoadSeg)
    ensures FileWritable(blocks)
    decreases blocks
  {
    if blocks != [] {
      FileDecodesWritable(blocks[1..], pos + 4 + |EncodeBlock(blocks[0])|, isLoadSeg);
    }
  }

  /** The written tag reads back as the block's own id: 1015 and 1020 swap
      back in load-seg files. */
  lemma WriteIdReadsBack(b: Block, isLoadSeg: bool)
    requires BlkId(b) < TWO_16 && KindOf(BlkId(b)).Some? && !(isLoadSeg && BlkId(b) == HUNK_DREL32)
    ensures KindOf(WriteId(b, isLoadSeg) % HUNK_TYPE_MASK_MOD).Some?
    ensures ReadId(WriteId(b, isLoadSeg), isLoadSeg) == BlkId(b)
  {
  }

  lemma ReadOneOfEncoded(b: Block, rest: seq<Byte>, s: seq<Byte>, pos: nat, isLoadSeg: bool, next: nat)
    requires Decodes(b, pos + 4) && BlkId(b) < TWO_16 && !(isLoadSeg && BlkId(b) == HUNK_DREL32)
    requires At(s, pos, Long(WriteId(b, isLoadSeg)) + (EncodeBlock(b) + rest))
    requires next == pos + 4 + |EncodeBlock(b)|
    ensures next <= |s| && At(s, next, rest)
    ensures ReadOne(s, pos, isLoadSeg) == Ok(Some(Read(b, next)))
  {
    var w := WriteId(b, isLoadSeg);
    assert pos + 4 <= |s| && LongValue(s[pos..pos + 4]) == w && At(s, pos + 4, EncodeBlock(b) + rest) by {
      AtLong(s, pos, w, EncodeBlock(b) + rest);
      ReadLongBytes(s, pos);
      LongRoundTrip(w);
    }
    assert At(s, pos + 4, EncodeBlock(b)) && At(s, next, rest) by {
      AtSplit(s, pos + 4, EncodeBlock(b), rest);
    }
    assert ParseBody(s, pos + 4, BlkId(b)) == Ok(Read(b, next)) by {
      BlockOfEncoded(b, s, pos + 4, next);
    }
    WriteIdReadsBack(b, isLoadSeg);
    ReadOneOfTag(s, pos, isLoadSeg, w, b, next);
  }

  /** ReadOne from the tag it reads and the block its body parses to. */
  lemma ReadOneOfTag(s: seq<Byte>, pos: nat, isLoadSeg: bool, w: nat, b: Block, next: nat)
    requires pos + 4 <= |s| && LongValue(s[pos..pos + 4]) == w
    requires KindOf(w % HUNK_TYPE_MASK_MOD).Some? && ReadId(w, isLoadSeg) == BlkId(b)
    requires KindOf(BlkId(b)).Some? && ParseBody(s, pos + 4, BlkId(b)) == Ok(Read(b, next))
    ensures ReadOne(s, pos, isLoadSeg) == Ok(Some(Read(b, next)))
  {
  }

  lemma ReadStep(s: seq<Byte>, pos: nat, isLoadSeg: bool, acc: seq<Block>, b: Block, next: nat)
    requires pos <= |s| && ReadOne(s, pos, isLoadSeg) == Ok(Some(Read(b, next)))
    ensures next <= |s| && ReadLoop(s, pos, isLoadSeg, acc) == ReadLoop(s, next, isLoadSeg, acc + [b])
  {
  }

  /** The first block's tag and body, then the rest of the file. */
  lemma FileLayout(blocks: seq<Block>, pos: nat, isLoadSeg: bool)
    requires FileDecodes(blocks, pos, isLoadSeg) && FileWritable(blocks) && blocks != []
    ensures FileWritable(blocks[1..]) && Writable(blocks[0])
    ensures Decodes(blocks[0], pos + 4) && BlkId(blocks[0]) < TWO_16
    ensures !(isLoadSeg && BlkId(blocks[0]) == HUNK_DREL32)
    ensures FileDecodes(blocks[1..], pos + 4 + |EncodeBlock(blocks[0])|, isLoadSeg)
    ensures EncodeFile(blocks, isLoadSeg) ==
            Long(WriteId(blocks[0], isLoadSeg)) + (EncodeBlock(blocks[0]) + EncodeFile(blocks[1..], isLoadSeg))
  {
  }

  lemma ReadEnd(s: seq<Byte>, pos: nat, isLoadSeg: bool, acc: seq<Block>)
    requires pos == |s|
    ensures ReadLoop(s, pos, isLoadSeg, acc) == ReadOutcome(acc, None)
  {
  }

  lemma {:induction false} ReadLoopOfEncoded(blocks: seq<Block>, s: seq<Byte>, pos: nat, isLoadSeg: bool,
                                             acc: seq<Block>)
    requires FileDecodes(blocks, pos, isLoadSeg) && FileWritable(blocks)
    requires At(s, pos, EncodeFile(blocks, isLoadSeg)) && pos + |EncodeFile(blocks, isLoadSeg)| == |s|
    ensures ReadLoop(s, pos, isLoadSeg, acc) == ReadOutcome(acc + blocks, None)
    decreases blocks
  {
    if blocks == [] {
      ReadEnd(s, pos, isLoadSeg, acc);
      assert acc + blocks == acc;
    } else {
      var b := blocks[0];
      var next := pos + 4 + |EncodeBlock(b)|;
      var rest := EncodeFile(blocks[1..], isLoadSeg);
      FileLayout(blocks, pos, isLoadSeg);
      ReadOneOfEncoded(b, rest, s, pos, isLoadSeg, next);
      ReadStep(s, pos, isLoadSeg, acc, b, next);
      ReadLoopOfEncoded(blocks[1..], s, next, isLoadSeg, acc + [b]);
      ConsAppend(acc, blocks);
    }
  }

  /** HunkBlockFile.read(write(blocks)) == blocks, in both modes: in a
      load-seg file HUNK_RELOC32SHORT goes out as 1015 and comes back as
      1020. */
  lemma FileRoundTrip(blocks: seq<Block>, isLoadSeg: bool)
    requires FileDecodes(blocks, 0, isLoadSeg)
    ensures FileWritable(blocks)
    ensures ReadLoop(EncodeFile(blocks, isLoadSeg), 0, isLoadSeg, []) == ReadOutcome(blocks, None)
  {
    FileDecodesWritable(blocks, 0, isLoadSeg);
    var s := EncodeFile(blocks, isLoadSeg);
    AtSlice(s, 0, s);
    ReadLoopOfEncoded(blocks, s, 0, isLoadSeg, []);
    assert [] + blocks == blocks;
  }

  // ---------------------------------------------------------------------------
  // Tags

  /** The memory-flag bits above bit 15 do not change what a tag selects. */
  lemma TagMaskIgnoresFlags(id: nat, flags: nat, isLoadSeg: bool)
    requires id < HUNK_TYPE_MASK_MOD
    ensures ReadId(id + flags * HUNK_TYPE_MASK_MOD, isLoadSeg) == ReadId(id, isLoadSeg)
  {
    assert (id + flags * HUNK_TYPE_MASK_MOD) % HUNK_TYPE_MASK_MOD == id;
  }

  /** In a load-seg file a long-form block tagged 1015 is parsed as the word
      form; outside load-seg files it keeps its own codec. */
  lemma Drel32InLoadSeg(raw: nat)
    requires raw % HUNK_TYPE_MASK_MOD == HUNK_DREL32
    ensures KindOf(ReadId(raw, true)) == Some(KRelocWord)
    ensures KindOf(ReadId(raw, false)) == Some(KRelocLong)
  {
  }

  /** peek_type does not mask the tag: a header tag carrying memory flags
      peeks as unknown although read takes it for a header. */
  lemma PeekIgnoresMask(s: seq<Byte>, pos: nat, flags: nat)
    requires 0 < flags && HUNK_HEADER + flags * HUNK_TYPE_MASK_MOD < TWO_32
    requires pos + 4 <= |s| && s[pos..pos + 4] == Long(HUNK_HEADER + flags * HUNK_TYPE_MASK_MOD)
    ensures PeekType(s, pos) == TypeUnknown
    ensures ReadId(LongValue(s[pos..pos + 4]), false) == HUNK_HEADER
  {
    LongRoundTrip(HUNK_HEADER + flags * HUNK_TYPE_MASK_MOD);
    TagMaskIgnoresFlags(HUNK_HEADER, flags, false);
  }

  /** On a written file peek_type agrees with detect_type on the blocks. */
  lemma PeekMatchesDetect(blocks: seq<Block>, isLoadSeg: bool)
    requires FileWritable(blocks)
    ensures PeekType(EncodeFile(blocks, isLoadSeg), 0) == DetectType(blocks)
  {
    if blocks != [] {
      var s := EncodeFile(blocks, isLoadSeg);
      var w := WriteId(blocks[0], isLoadSeg);
      assert s[0..4] == Long(w);
      LongRoundTrip(w);
    }
  }

  // ---------------------------------------------------------------------------
  // The block list object

  class HunkBlockFile {
    var blocks: seq<Block>

    constructor (blocks: seq<Block>)
      ensures this.blocks == blocks
    {
      this.blocks := blocks;
    }

    /** read: append the blocks of s; an error leaves the ones read before it. */
    method Read(s: seq<Byte>, isLoadSeg: bool) returns (err: Option<HunkError>)
      modifies this
      ensures ReadOutcome(blocks, err) == ReadLoop(s, 0, isLoadSeg, old(blocks))
    {
      var pos := 0;
      err := None;
      while true
        invariant pos <= |s|
        invariant ReadLoop(s, pos, isLoadSeg, blocks) == ReadLoop(s, 0, isLoadSeg, old(blocks))
        decreases |s| - pos
      {
        var r := ReadOne(s, pos, isLoadSeg);
        if r.Err? {
          err := Some(r.error);
          return;
        }
        if r.value.None? {
          return;
        }
        blocks := blocks + [r.value.value.value];
        pos := r.value.value.next;
      }
    }

    /** write: the tag and body of every block, in order. */
    method Write(isLoadSeg: bool) returns (out: seq<Byte>)
      requires FileWritable(blocks)
      ensures out == EncodeFile(blocks, isLoadSeg)
    {
      var bs := blocks;
      out := [];
      var i := 0;
      while i < |bs|
        invariant i <= |bs| && FileWritable(bs[i..])
        invariant out + EncodeFile(bs[i..], isLoadSeg) == EncodeFile(bs, isLoadSeg)
      {
        EncodeFileAt(bs, i, isLoadSeg);
        out := out + (Long(WriteId(bs[i], isLoadSeg)) + EncodeBlock(bs[i]));
        i := i + 1;
      }
      assert bs[i..] == [];
    }

    function DetectTypeOf(): (t: FileType)
      reads this
      ensures t == DetectType(blocks)
    {
      DetectType(blocks)
    }
  }
}
