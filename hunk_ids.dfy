/** Block tags, external-symbol kinds, container kinds and the lookup tables of
    amiga_hunk.py (HUNK_*, EXT_*, TYPE_*, hunk_block_type_map and the two
    load-seg tag lists). */
module HunkIds {
  import opened Base

  const HUNK_UNIT: nat := 999
  const HUNK_NAME: nat := 1000
  const HUNK_CODE: nat := 1001
  const HUNK_DATA: nat := 1002
  const HUNK_BSS: nat := 1003
  const HUNK_ABSRELOC32: nat := 1004
  const HUNK_RELRELOC16: nat := 1005
  const HUNK_RELRELOC8: nat := 1006
  const HUNK_EXT: nat := 1007
  const HUNK_SYMBOL: nat := 1008
  const HUNK_DEBUG: nat := 1009
  const HUNK_END: nat := 1010
  const HUNK_HEADER: nat := 1011
  const HUNK_OVERLAY: nat := 1013
  const HUNK_BREAK: nat := 1014
  const HUNK_DREL32: nat := 1015
  const HUNK_DREL16: nat := 1016
  const HUNK_DREL8: nat := 1017
  const HUNK_LIB: nat := 1018
  const HUNK_INDEX: nat := 1019
  const HUNK_RELOC32SHORT: nat := 1020
  const HUNK_PPC_CODE: nat := 1257

  const EXT_ABSCOMMON: nat := 130

  /** Mask applied to a raw tag before it is looked up. */
  const HUNK_TYPE_MASK_MOD: nat := 0x1_0000

  /** Container kinds reported by peek_type and detect_type. */
  datatype FileType = TypeUnknown | TypeLoadSeg | TypeUnit | TypeLib

  /** Which block codec a tag selects in hunk_block_type_map. */
  datatype BlockKind =
    | KHeader | KSegment | KRelocLong | KRelocWord | KEnd | KDebug | KSymbol
    | KOverlay | KBreak | KUnit | KName | KExt | KLib | KIndex

  /** hunk_block_type_map: the tags the block stream accepts. HUNK_PPC_CODE
      and the other 1021+ tags are not in it. */
  function KindOf(id: nat): (k: Option<BlockKind>)
    ensures k.Some? <==> HUNK_UNIT <= id <= HUNK_RELOC32SHORT && id != 1012
    ensures k == Some(KSegment) <==> HUNK_CODE <= id <= HUNK_BSS
    ensures k == Some(KRelocLong) <==>
              HUNK_ABSRELOC32 <= id <= HUNK_RELRELOC8 || HUNK_DREL32 <= id <= HUNK_DREL8
  {
    if id == HUNK_HEADER then Some(KHeader)
    else if id == HUNK_CODE || id == HUNK_DATA || id == HUNK_BSS then Some(KSegment)
    else if id == HUNK_ABSRELOC32 || id == HUNK_RELRELOC16 || id == HUNK_RELRELOC8
         || id == HUNK_DREL32 || id == HUNK_DREL16 || id == HUNK_DREL8 then Some(KRelocLong)
    else if id == HUNK_RELOC32SHORT then Some(KRelocWord)
    else if id == HUNK_END then Some(KEnd)
    else if id == HUNK_DEBUG then Some(KDebug)
    else if id == HUNK_SYMBOL then Some(KSymbol)
    else if id == HUNK_OVERLAY then Some(KOverlay)
    else if id == HUNK_BREAK then Some(KBreak)
    else if id == HUNK_UNIT then Some(KUnit)
    else if id == HUNK_NAME then Some(KName)
    else if id == HUNK_EXT then Some(KExt)
    else if id == HUNK_LIB then Some(KLib)
    else if id == HUNK_INDEX then Some(KIndex)
    else None
  }

  /** HunkBlockFile._map_blkid_to_type. */
  function MapBlkIdToType(id: nat): (t: FileType)
    ensures t == TypeLoadSeg <==> id == HUNK_HEADER
    ensures t == TypeUnit <==> id == HUNK_UNIT
    ensures t == TypeLib <==> id == HUNK_LIB
  {
    if id == HUNK_HEADER then TypeLoadSeg
    else if id == HUNK_UNIT then TypeUnit
    else if id == HUNK_LIB then TypeLib
    else TypeUnknown
  }

  /** loadseg_valid_begin_hunks. */
  predicate IsBeginId(id: nat) {
    id == HUNK_CODE || id == HUNK_DATA || id == HUNK_BSS || id == HUNK_PPC_CODE
  }

  /** loadseg_valid_extra_hunks. */
  predicate IsExtraId(id: nat) {
    id == HUNK_ABSRELOC32 || id == HUNK_RELOC32SHORT || id == HUNK_DEBUG
    || id == HUNK_SYMBOL || id == HUNK_NAME
  }
}
