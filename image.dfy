/** The BinImage model: segments with their relocations (keyed by target
    segment), symbol tables and debug line tables, and the queries the
    source offers on them. */
module Image {
  import opened Base

  const SEGMENT_TYPE_CODE: nat := 0
  const SEGMENT_TYPE_DATA: nat := 1
  const SEGMENT_TYPE_BSS: nat := 2

  /** A relocation: patch the field at offset; width 2 means a longword. */
  datatype Reloc = Reloc(offset: nat, width: nat, addend: int)

  datatype Symbol = Symbol(offset: nat, name: seq<Byte>, fileName: Option<seq<Byte>>)

  datatype DebugLineEntry = DebugLineEntry(offset: nat, srcLine: nat, flags: nat)

  datatype DebugLineFile = DebugLineFile(srcFile: seq<Byte>, dirName: Option<seq<Byte>>, baseOffset: nat,
                                         entries: seq<DebugLineEntry>)

  /** A Segment; relocs maps a target segment's id to its Relocations'
      entries (the source keys the dictionary by the target object, whose
      id is its index in the image). */
  datatype Segment = Segment(
    segType: nat,
    size: nat,
    data: Option<seq<Byte>>,
    dataOffset: nat,
    flags: nat,
    relocs: map<nat, seq<Reloc>>,
    symtab: Option<seq<Symbol>>,
    id: nat,
    debugLine: Option<seq<DebugLineFile>>)

  datatype BinImage = BinImage(segments: seq<Segment>)

  /** Segment(seg_type, size, data, data_offset): no relocations, symbols or
      debug lines yet; the id is set when the segment is added. */
  function MakeSegment(segType: nat, size: nat, data: Option<seq<Byte>>, dataOffset: nat): Segment {
    Segment(segType, size, data, dataOffset, 0, map[], None, 0, None)
  }

  /** Every segment's id is its index and every relocation targets a
      segment of the image. */
  predicate ValidImage(img: BinImage) {
    forall i :: 0 <= i < |img.segments| ==>
      img.segments[i].id == i && forall t :: t in img.segments[i].relocs ==> t < |img.segments|
  }

  /** BinImage.add_segment: the segment gets the next id. */
  function AddSegment(img: BinImage, seg: Segment): (r: BinImage)
    ensures |r.segments| == |img.segments| + 1 && r.segments[..|img.segments|] == img.segments
    ensures r.segments[|img.segments|] == seg.(id := |img.segments|)
  {
    BinImage(img.segments + [seg.(id := |img.segments|)])
  }

  /** Adding a segment whose relocations target the image keeps ids equal
      to indices. */
  lemma AddSegmentValid(img: BinImage, seg: Segment)
    requires ValidImage(img)
    requires forall t :: t in seg.relocs ==> t <= |img.segments|
    ensures ValidImage(AddSegment(img, seg))
  {
    var r := AddSegment(img, seg);
    forall i | 0 <= i < |r.segments|
      ensures r.segments[i].id == i && forall t :: t in r.segments[i].relocs ==> t < |r.segments|
    {
      if i < |img.segments| {
        assert r.segments[i] == img.segments[i];
      }
    }
  }

  // ---------------------------------------------------------------------------
  // Segment.get_reloc_to_segs

  /** The relocation targets from k up to n, in increasing id order. */
  function TargetsFrom(relocs: map<nat, seq<Reloc>>, k: nat, n: nat): seq<nat>
    decreases n - k
  {
    if k >= n then [] else (if k in relocs then [k] else []) + TargetsFrom(relocs, k + 1, n)
  }

  /** get_reloc_to_segs: the targets sorted by id (n bounds the ids). */
  function RelocTargets(seg: Segment, n: nat): seq<nat> {
    TargetsFrom(seg.relocs, 0, n)
  }

  lemma {:induction false} TargetsFromSpec(relocs: map<nat, seq<Reloc>>, k: nat, n: nat)
    ensures forall t :: t in TargetsFrom(relocs, k, n) <==> t in relocs && k <= t < n
    ensures forall i, j :: 0 <= i < j < |TargetsFrom(relocs, k, n)| ==> TargetsFrom(relocs, k, n)[i] < TargetsFrom(relocs, k, n)[j]
    ensures forall i :: 0 <= i < |TargetsFrom(relocs, k, n)| ==> k <= TargetsFrom(relocs, k, n)[i]
    decreases n - k
  {
    if k < n {
      TargetsFromSpec(relocs, k + 1, n);
    }
  }

  /** The targets are exactly the relocation keys below n, each once, in
      increasing order. */
  lemma RelocTargetsSpec(seg: Segment, n: nat)
    ensures forall t :: t in RelocTargets(seg, n) <==> t in seg.relocs && t < n
    ensures forall i, j :: 0 <= i < j < |RelocTargets(seg, n)| ==> RelocTargets(seg, n)[i] < RelocTargets(seg, n)[j]
  {
    TargetsFromSpec(seg.relocs, 0, n);
  }

  // ---------------------------------------------------------------------------
  // Queries

  /** The sizes of the segments added up. */
  function TotalSize(segs: seq<Segment>): nat
    decreases |segs|
  {
    if segs == [] then 0 else TotalSize(segs[..|segs| - 1]) + segs[|segs| - 1].size
  }

  /** BinImage.get_size. */
  method GetSize(img: BinImage) returns (total: nat)
    ensures total == TotalSize(img.segments)
  {
    total := 0;
    for i := 0 to |img.segments|
      invariant total == TotalSize(img.segments[..i])
    {
      assert img.segments[..i + 1][..i] == img.segments[..i];
      total := total + img.segments[i].size;
    }
    assert img.segments[..|img.segments|] == img.segments;
  }

  /** Segment.find_symbol: the name of the first symbol at offset. */
  method FindSymbol(seg: Segment, offset: nat) returns (name: Option<seq<Byte>>)
    ensures name.None? <==> seg.symtab.None? || forall i :: 0 <= i < |seg.symtab.value| ==> seg.symtab.value[i].offset != offset
    ensures name.Some? ==> exists i :: 0 <= i < |seg.symtab.value| && seg.symtab.value[i].offset == offset
                                      && name.value == seg.symtab.value[i].name
                                      && forall j :: 0 <= j < i ==> seg.symtab.value[j].offset != offset
  {
    if seg.symtab.None? {
      return None;
    }
    var syms := seg.symtab.value;
    for i := 0 to |syms|
      invariant forall j :: 0 <= j < i ==> syms[j].offset != offset
    {
      if syms[i].offset == offset {
        return Some(syms[i].name);
      }
    }
    return None;
  }

  /** Segment.find_debug_line: the first entry at offset, file by file. */
  method FindDebugLine(seg: Segment, offset: nat) returns (e: Option<DebugLineEntry>)
    ensures e.None? <==> (seg.debugLine.None? ||
              forall f, k :: 0 <= f < |seg.debugLine.value| && 0 <= k < |seg.debugLine.value[f].entries| ==>
                seg.debugLine.value[f].entries[k].offset != offset)
    ensures e.Some? ==> (e.value.offset == offset &&
              exists f, k :: 0 <= f < |seg.debugLine.value| && 0 <= k < |seg.debugLine.value[f].entries|
                && seg.debugLine.value[f].entries[k] == e.value
                && (forall g, j :: 0 <= g < f && 0 <= j < |seg.debugLine.value[g].entries| ==>
                      seg.debugLine.value[g].entries[j].offset != offset)
                && (forall j :: 0 <= j < k ==> seg.debugLine.value[f].entries[j].offset != offset))
  {
    if seg.debugLine.None? {
      return None;
    }
    var files := seg.debugLine.value;
    for f := 0 to |files|
      invariant forall g, k :: 0 <= g < f && 0 <= k < |files[g].entries| ==> files[g].entries[k].offset != offset
    {
      var entries := files[f].entries;
      for k := 0 to |entries|
        invariant forall j :: 0 <= j < k ==> entries[j].offset != offset
      {
        if entries[k].offset == offset {
          return Some(entries[k]);
        }
      }
    }
    return None;
  }

  /** Segment.find_reloc: the first relocation, targets taken in id order
      and each target's relocations in their order, whose offset lies in
      [offset, offset + size], with its target and offset. */
  method FindReloc(seg: Segment, offset: nat, size: nat) returns (r: Option<(Reloc, nat, nat)>)
    ensures r.None? <==> forall t, k :: t in seg.relocs && 0 <= k < |seg.relocs[t]| ==>
                           !(offset <= seg.relocs[t][k].offset <= offset + size)
    ensures r.Some? ==> var (rel, t, off) := r.value;
              && t in seg.relocs && off == rel.offset && offset <= off <= offset + size
              && (exists k :: 0 <= k < |seg.relocs[t]| && seg.relocs[t][k] == rel &&
                    forall j :: 0 <= j < k ==> !(offset <= seg.relocs[t][j].offset <= offset + size))
              && forall u, k :: u in seg.relocs && u < t && 0 <= k < |seg.relocs[u]| ==>
                   !(offset <= seg.relocs[u][k].offset <= offset + size)
  {
    // get_reloc_to_segs sorts the targets; every id lies below bound
    var bound := 0;
    var ks := seg.relocs.Keys;
    while ks != {}
      invariant ks <= seg.relocs.Keys
      invariant forall t :: t in seg.relocs && t !in ks ==> t < bound
      decreases |ks|
    {
      var t :| t in ks;
      if bound <= t {
        bound := t + 1;
      }
      ks := ks - {t};
    }
    var targets := RelocTargets(seg, bound);
    RelocTargetsSpec(seg, bound);
    for i := 0 to |targets|
      invariant forall u, k :: u in seg.relocs && (i < |targets| ==> u < targets[i]) && 0 <= k < |seg.relocs[u]| ==>
                  !(offset <= seg.relocs[u][k].offset <= offset + size)
    {
      var t := targets[i];
      var rels := seg.relocs[t];
      for k := 0 to |rels|
        invariant forall j :: 0 <= j < k ==> !(offset <= rels[j].offset <= offset + size)
      {
        var off := rels[k].offset;
        if offset <= off <= offset + size {
          return Some((rels[k], t, off));
        }
      }
      assert forall u :: u in seg.relocs && u < (if i + 1 < |targets| then targets[i + 1] else bound) ==> u <= t by {
        forall u | u in seg.relocs && u < (if i + 1 < |targets| then targets[i + 1] else bound)
          ensures u <= t
        {
          assert u in targets;
          var j :| 0 <= j < |targets| && targets[j] == u;
          assert j <= i;
        }
      }
    }
    return None;
  }
}
