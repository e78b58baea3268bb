/** The Hunk block variants (one per HunkBlock subclass) with the fields the
    source keeps for each. */
module Blocks {
  import opened Base
  import opened HunkIds

  /** One (hunk_num, [offsets]) group of a relocation block. */
  datatype RelocGroup = RelocGroup(hunkNum: nat, offsets: seq<nat>)

  /** One (name, offset) pair of HUNK_SYMBOL. */
  datatype SymbolEntry = SymbolEntry(name: seq<Byte>, offset: nat)

  /** The type-dependent part of a HunkExtEntry: bss_size for EXT_ABSCOMMON,
      ref_offsets for the reference kinds (type >= 0x80), def_value otherwise. */
  datatype ExtPayload = ExtCommon(bssSize: nat) | ExtRef(offsets: seq<nat>) | ExtDef(value: nat)

  datatype ExtEntry = ExtEntry(name: seq<Byte>, extType: nat, payload: ExtPayload)

  datatype IndexSymbolDef = IndexSymbolDef(nameOff: nat, value: nat, symCtype: nat)

  datatype IndexHunk = IndexHunk(nameOff: nat, hunkLongs: nat, hunkCtype: nat,
                                 symRefs: seq<nat>, symDefs: seq<IndexSymbolDef>)

  datatype IndexUnit = IndexUnit(nameOff: nat, firstHunkLongOff: nat, hunks: seq<IndexHunk>)

  datatype Block =
    | HeaderBlock(reslibNames: seq<seq<Byte>>, tableSize: nat, firstHunk: nat, lastHunk: nat,
                  hunkTable: seq<nat>)
      /** HUNK_CODE / HUNK_DATA / HUNK_BSS; data is None for BSS. */
    | SegmentBlock(id: nat, data: Option<seq<Byte>>, dataOffset: nat, sizeLongs: nat)
      /** HUNK_ABSRELOC32 and the other long-form tags. */
    | RelocLongBlock(id: nat, relocs: seq<RelocGroup>)
      /** HUNK_RELOC32SHORT. */
    | RelocWordBlock(relocs: seq<RelocGroup>)
    | EndBlock
    | OverlayBlock(overlayOffset: nat, overlayData: seq<Byte>)
    | BreakBlock
    | DebugBlock(debugData: seq<Byte>)
    | SymbolBlock(symbols: seq<SymbolEntry>)
    | UnitBlock(name: Option<seq<Byte>>)
    | NameBlock(name: Option<seq<Byte>>)
    | ExtBlock(entries: seq<ExtEntry>)
      /** The member blocks and the stream position of each member's tag. */
    | LibBlock(blocks: seq<Block>, offsets: seq<nat>)
    | IndexBlock(strtab: seq<Byte>, units: seq<IndexUnit>)

  /** blk_id of a block. */
  function BlkId(b: Block): nat
  {
    match b
    case HeaderBlock(_, _, _, _, _) => HUNK_HEADER
    case SegmentBlock(id, _, _, _) => id
    case RelocLongBlock(id, _) => id
    case RelocWordBlock(_) => HUNK_RELOC32SHORT
    case EndBlock => HUNK_END
    case OverlayBlock(_, _) => HUNK_OVERLAY
    case BreakBlock => HUNK_BREAK
    case DebugBlock(_) => HUNK_DEBUG
    case SymbolBlock(_) => HUNK_SYMBOL
    case UnitBlock(_) => HUNK_UNIT
    case NameBlock(_) => HUNK_NAME
    case ExtBlock(_) => HUNK_EXT
    case LibBlock(_, _) => HUNK_LIB
    case IndexBlock(_, _) => HUNK_INDEX
  }
}
