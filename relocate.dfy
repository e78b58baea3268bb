/** Relocate: lays out the segments of a BinImage at given addresses and
    patches every relocation's signed 32-bit big-endian field with the
    address of its target segment, one buffer per segment or one blob for
    all of them. */
module Relocator {
  import opened Base
  import opened Image

  // ---------------------------------------------------------------------------
  // Sizes and addresses

  /** Relocate.get_sizes. */
  method GetSizes(segs: seq<Segment>) returns (sizes: seq<nat>)
    ensures |sizes| == |segs| && forall i :: 0 <= i < |segs| ==> sizes[i] == segs[i].size
  {
    sizes := [];
    for i := 0 to |segs|
      invariant |sizes| == i && forall j :: 0 <= j < i ==> sizes[j] == segs[j].size
    {
      sizes := sizes + [segs[i].size];
    }
  }

  /** The sizes of the segments, each with the padding after it, added up. */
  function Span(segs: seq<Segment>, padding: nat): nat
    decreases |segs|
  {
    if segs == [] then 0 else Span(segs[..|segs| - 1], padding) + segs[|segs| - 1].size + padding
  }

  /** With padding, a blob is BinImage.get_size plus one padding per segment. */
  lemma {:induction false} SpanIsTotal(segs: seq<Segment>, padding: nat)
    ensures Span(segs, padding) == TotalSize(segs) + |segs| * padding
    decreases |segs|
  {
    if segs != [] {
      SpanIsTotal(segs[..|segs| - 1], padding);
    }
  }

  /** Each prefix ends where the next segment starts. */
  lemma SpanSteps(segs: seq<Segment>, padding: nat)
    ensures forall i :: 0 <= i < |segs| ==> Span(segs[..i + 1], padding) == Span(segs[..i], padding) + segs[i].size + padding
  {
    forall i | 0 <= i < |segs|
      ensures Span(segs[..i + 1], padding) == Span(segs[..i], padding) + segs[i].size + padding
    {
      assert segs[..i + 1][..i] == segs[..i];
    }
  }

  /** A prefix spans no more than the whole. */
  lemma {:induction false} SpanPrefix(segs: seq<Segment>, i: nat, padding: nat)
    requires i <= |segs|
    ensures Span(segs[..i], padding) <= Span(segs, padding)
    decreases |segs|
  {
    if i < |segs| {
      var init := segs[..|segs| - 1];
      assert init[..i] == segs[..i];
      SpanPrefix(init, i, padding);
    } else {
      assert segs[..i] == segs;
    }
  }

  lemma {:induction false} SpanCons(segs: seq<Segment>, padding: nat)
    requires segs != []
    ensures Span(segs, padding) == segs[0].size + padding + Span(segs[1..], padding)
    decreases |segs|
  {
    if |segs| == 1 {
      assert segs[..0] == [] && segs[1..] == [];
    } else {
      var init := segs[..|segs| - 1];
      SpanCons(init, padding);
      assert init[0] == segs[0] && init[1..] == segs[1..][..|segs| - 2];
      assert segs[1..][|segs| - 2] == segs[|segs| - 1];
    }
  }

  /** Relocate.get_total_size. */
  method GetTotalSize(segs: seq<Segment>, padding: nat) returns (total: nat)
    ensures total == Span(segs, padding)
  {
    total := 0;
    for i := 0 to |segs|
      invariant total == Span(segs[..i], padding)
    {
      assert segs[..i + 1][..i] == segs[..i];
      total := total + segs[i].size + padding;
    }
    assert segs[..|segs|] == segs;
  }

  /** The start address of each segment laid out in one blob at base: the
      first at base, each next one after the previous segment and its
      padding. */
  function SeqAddrs(segs: seq<Segment>, base: int, padding: nat): (addrs: seq<int>)
    ensures |addrs| == |segs|
    ensures |segs| > 0 ==> addrs[0] == base
    ensures forall i :: 0 <= i < |segs| - 1 ==> addrs[i + 1] == addrs[i] + segs[i].size + padding
  {
    SpanSteps(segs, padding);
    seq(|segs|, i requires 0 <= i < |segs| => base + Span(segs[..i], padding))
  }

  /** Every segment lies inside the blob: it starts at its address and ends,
      with its padding, at most get_total_size bytes after base. */
  lemma LayoutInBlob(segs: seq<Segment>, base: int, padding: nat)
    ensures forall i :: 0 <= i < |segs| ==>
              base <= SeqAddrs(segs, base, padding)[i] &&
              SeqAddrs(segs, base, padding)[i] + segs[i].size + padding <= base + Span(segs, padding)
  {
    SpanSteps(segs, padding);
    forall i | 0 <= i < |segs|
      ensures Span(segs[..i], padding) + segs[i].size + padding <= Span(segs, padding)
    {
      SpanPrefix(segs, i + 1, padding);
    }
  }

  /** Relocate.get_seq_addrs. */
  method GetSeqAddrs(segs: seq<Segment>, base: int, padding: nat) returns (addrs: seq<int>)
    ensures addrs == SeqAddrs(segs, base, padding)
  {
    addrs := [];
    var addr := base;
    for i := 0 to |segs|
      invariant |addrs| == i && addr == base + Span(segs[..i], padding)
      invariant forall j :: 0 <= j < i ==> addrs[j] == base + Span(segs[..j], padding)
    {
      assert segs[..i + 1][..i] == segs[..i];
      addrs := addrs + [addr];
      addr := addr + segs[i].size + padding;
    }
    ghost var spec := SeqAddrs(segs, base, padding);
    assert |spec| == |addrs| && forall j :: 0 <= j < |segs| ==> spec[j] == addrs[j];
  }

  // ---------------------------------------------------------------------------
  // Copying data

  /** bytearray slice assignment buf[off:off + len(src)] = src, off within
      the buffer: src replaces the bytes from off on, and the buffer grows
      when src runs past its end. */
  function Assign(buf: seq<Byte>, off: nat, src: seq<Byte>): (r: seq<Byte>)
    requires off <= |buf|
    ensures |r| == if off + |src| <= |buf| then |buf| else off + |src|
    ensures r[..off] == buf[..off] && r[off..off + |src|] == src
    ensures forall j :: off + |src| <= j < |buf| ==> r[j] == buf[j]
  {
    var r := buf[..off] + src + (if off + |src| <= |buf| then buf[off + |src|..] else []);
    assert r[off..off + |src|] == src;
    r
  }

  /** Relocate._copy_data: the segment's data, if any, placed at off. */
  function CopySpec(buf: seq<Byte>, seg: Segment, off: nat): (r: seq<Byte>)
    requires off <= |buf|
  {
    if seg.data.None? then buf else Assign(buf, off, seg.data.value)
  }

  /** A new segment buffer holds the data followed by zeros up to the
      segment's size; data longer than the size makes the buffer as long as
      the data. */
  lemma FreshBuffer(seg: Segment)
    ensures CopySpec(Zeros(seg.size), seg, 0) ==
            if seg.data.None? then Zeros(seg.size)
            else if |seg.data.value| <= seg.size then seg.data.value + Zeros(seg.size - |seg.data.value|)
            else seg.data.value
  {
    if seg.data.Some? {
      var d := seg.data.value;
      var r := CopySpec(Zeros(seg.size), seg, 0);
      if |d| <= seg.size {
        assert r == d + Zeros(seg.size - |d|);
      } else {
        assert r == d;
      }
    }
  }

  /** Relocate._copy_data on a bytearray: in place, or into a longer buffer
      when the data runs past the end, as the bytearray then grows. */
  method CopyData(data: array<Byte>, seg: Segment, offset: nat) returns (r: array<Byte>)
    requires offset <= data.Length
    modifies data
    ensures r == data || fresh(r)
    ensures r[..] == CopySpec(old(data[..]), seg, offset)
  {
    if seg.data.None? {
      return data;
    }
    var src := seg.data.value;
    if offset + |src| <= data.Length {
      AssignInPlace(data, offset, src);
      return data;
    }
    r := AssignGrown(data, offset, src);
  }

  /** The slice assignment when src ends within the buffer. */
  method AssignInPlace(data: array<Byte>, offset: nat, src: seq<Byte>)
    requires offset + |src| <= data.Length
    modifies data
    ensures data[..] == Assign(old(data[..]), offset, src)
  {
    ghost var buf := data[..];
    for k := 0 to |src|
      invariant data[..offset] == buf[..offset]
      invariant data[offset..offset + k] == src[..k]
      invariant data[offset + |src|..] == buf[offset + |src|..]
    {
      data[offset + k] := src[k];
      assert data[offset..offset + k + 1] == data[offset..offset + k] + [src[k]];
    }
    assert data[..] == data[..offset] + data[offset..offset + |src|] + data[offset + |src|..];
  }

  /** The slice assignment when src runs past the end: a new, longer
      buffer. */
  method AssignGrown(data: array<Byte>, offset: nat, src: seq<Byte>) returns (r: array<Byte>)
    requires offset <= data.Length < offset + |src|
    ensures fresh(r) && r[..] == Assign(data[..], offset, src)
  {
    r := new Byte[offset + |src|](_ => 0);
    for k := 0 to offset
      invariant r[..k] == data[..k]
    {
      r[k] := data[k];
      assert r[..k + 1] == r[..k] + [data[k]];
    }
    for k := 0 to |src|
      invariant r[..offset] == data[..offset]
      invariant r[offset..offset + k] == src[..k]
    {
      r[offset + k] := src[k];
      assert r[offset..offset + k + 1] == r[offset..offset + k] + [src[k]];
    }
    assert r[..] == r[..offset] + r[offset..offset + |src|];
  }

  // ---------------------------------------------------------------------------
  // Patching

  /** One relocation to apply: the field at pos gets delta added. */
  datatype Patch = Patch(pos: nat, delta: int)

  /** Relocate._reloc: read_long, add, write_long. A field cut short by the
      end of the buffer fails struct.unpack; a sum outside the signed
      32-bit range fails struct.pack. */
  function PatchLong(buf: seq<Byte>, p: Patch): Result<seq<Byte>>
  {
    if p.pos + 4 > |buf| then Err(ShortRead)
    else
      var v := SignedLongValue(buf[p.pos..p.pos + 4]) + p.delta;
      if v < -TWO_31 || v >= TWO_31 then Err(ValueOutOfRange)
      else Ok(buf[..p.pos] + SignedLong(v) + buf[p.pos + 4..])
  }

  /** A patch fails exactly on a short field or a sum that does not fit;
      otherwise the field holds the sum and every other byte is kept. */
  lemma PatchLongSpec(buf: seq<Byte>, p: Patch)
    ensures PatchLong(buf, p).Ok? <==>
              p.pos + 4 <= |buf| && -TWO_31 <= SignedLongValue(buf[p.pos..p.pos + 4]) + p.delta < TWO_31
    ensures PatchLong(buf, p).Ok? ==>
              var r := PatchLong(buf, p).value;
              && |r| == |buf|
              && SignedLongValue(r[p.pos..p.pos + 4]) == SignedLongValue(buf[p.pos..p.pos + 4]) + p.delta
              && forall j :: 0 <= j < |buf| && (j < p.pos || p.pos + 4 <= j) ==> r[j] == buf[j]
  {
    if PatchLong(buf, p).Ok? {
      var v := SignedLongValue(buf[p.pos..p.pos + 4]) + p.delta;
      var r := PatchLong(buf, p).value;
      assert r[p.pos..p.pos + 4] == SignedLong(v);
      SignedLongRoundTrip(v);
    }
  }

  /** The patches applied in order; the first that fails stops the rest. */
  function ApplyPatches(buf: seq<Byte>, ps: seq<Patch>): (r: Result<seq<Byte>>)
    ensures r.Ok? ==> |r.value| == |buf|
    decreases |ps|
  {
    if ps == [] then Ok(buf)
    else
      var b1 :- PatchLong(buf, ps[0]);
      ApplyPatches(b1, ps[1..])
  }

  /** Whether byte j lies in the field of some patch. */
  predicate Covered(ps: seq<Patch>, j: int) {
    exists k :: 0 <= k < |ps| && ps[k].pos <= j < ps[k].pos + 4
  }

  /** Patching keeps the length and every byte no field covers. */
  lemma {:induction false} ApplyPatchesKeeps(buf: seq<Byte>, ps: seq<Patch>)
    requires ApplyPatches(buf, ps).Ok?
    ensures |ApplyPatches(buf, ps).value| == |buf|
    ensures forall j :: 0 <= j < |buf| && !Covered(ps, j) ==> ApplyPatches(buf, ps).value[j] == buf[j]
    decreases |ps|
  {
    if ps != [] {
      PatchLongSpec(buf, ps[0]);
      var b1 := PatchLong(buf, ps[0]).value;
      ApplyPatchesKeeps(b1, ps[1..]);
      assert forall k :: 0 <= k < |ps| - 1 ==> ps[1..][k] == ps[k + 1];
      forall j | 0 <= j < |buf| && !Covered(ps, j)
        ensures ApplyPatches(buf, ps).value[j] == buf[j]
      {
        assert !(ps[0].pos <= j < ps[0].pos + 4);
        assert !Covered(ps[1..], j);
      }
    }
  }

  /** No two fields overlap. */
  predicate Disjoint(ps: seq<Patch>) {
    forall a, b :: 0 <= a < b < |ps| ==> ps[a].pos + 4 <= ps[b].pos || ps[b].pos + 4 <= ps[a].pos
  }

  /** The tail of a list of disjoint fields is disjoint. */
  lemma DisjointTail(ps: seq<Patch>)
    requires ps != [] && Disjoint(ps)
    ensures Disjoint(ps[1..])
  {
    forall a, b | 0 <= a < b < |ps| - 1
      ensures ps[1..][a].pos + 4 <= ps[1..][b].pos || ps[1..][b].pos + 4 <= ps[1..][a].pos
    {
      assert ps[1..][a] == ps[a + 1] && ps[1..][b] == ps[b + 1];
    }
  }

  /** Two buffers that agree on the four bytes at pos agree on that field. */
  lemma SameField(a: seq<Byte>, b: seq<Byte>, pos: nat)
    requires pos + 4 <= |a| && pos + 4 <= |b|
    requires forall j :: pos <= j < pos + 4 ==> a[j] == b[j]
    ensures a[pos..pos + 4] == b[pos..pos + 4]
  {
  }

  /** With fields that do not overlap, each field ends up holding what was
      stored there plus its delta. */
  lemma {:induction false} ApplyPatchesSets(buf: seq<Byte>, ps: seq<Patch>)
    requires ApplyPatches(buf, ps).Ok? && Disjoint(ps)
    ensures forall k :: 0 <= k < |ps| ==>
              ps[k].pos + 4 <= |buf| &&
              SignedLongValue(ApplyPatches(buf, ps).value[ps[k].pos..ps[k].pos + 4]) ==
              SignedLongValue(buf[ps[k].pos..ps[k].pos + 4]) + ps[k].delta
    decreases |ps|
  {
    if ps != [] {
      var p := ps[0];
      var rest := ps[1..];
      PatchLongSpec(buf, p);
      var b1 := PatchLong(buf, p).value;
      assert ApplyPatches(buf, ps) == ApplyPatches(b1, rest);
      var r := ApplyPatches(b1, rest).value;
      DisjointTail(ps);
      ApplyPatchesSets(b1, rest);
      ApplyPatchesKeeps(b1, rest);
      forall j | p.pos <= j < p.pos + 4
        ensures r[j] == b1[j]
      {
        forall k | 0 <= k < |rest|
          ensures !(rest[k].pos <= j < rest[k].pos + 4)
        {
          assert rest[k] == ps[k + 1];
        }
      }
      SameField(r, b1, p.pos);
      forall k | 1 <= k < |ps|
        ensures ps[k].pos + 4 <= |buf| &&
                SignedLongValue(r[ps[k].pos..ps[k].pos + 4]) == SignedLongValue(buf[ps[k].pos..ps[k].pos + 4]) + ps[k].delta
      {
        var q := ps[k];
        assert q == rest[k - 1];
        assert p.pos + 4 <= q.pos || q.pos + 4 <= p.pos;
        SameField(b1, buf, q.pos);
      }
    }
  }

  // ---------------------------------------------------------------------------
  // A segment's relocations

  /** The patches of one target's relocations, each offset moved by extra. */
  function TargetPatches(rels: seq<Reloc>, toAddr: int, extra: nat): (ps: seq<Patch>)
    ensures |ps| == |rels|
    ensures forall k :: 0 <= k < |rels| ==> ps[k] == Patch(rels[k].offset + extra, rels[k].addend + toAddr)
  {
    seq(|rels|, k requires 0 <= k < |rels| => Patch(rels[k].offset + extra, rels[k].addend + toAddr))
  }

  /** Relocate._reloc_data's patches: target by target in the order given,
      each target's relocations in list order. */
  function PatchesOf(seg: Segment, targets: seq<nat>, addrs: seq<int>, extra: nat): seq<Patch>
    requires forall i :: 0 <= i < |targets| ==> targets[i] in seg.relocs && targets[i] < |addrs|
    decreases |targets|
  {
    if targets == [] then []
    else TargetPatches(seg.relocs[targets[0]], addrs[targets[0]], extra) + PatchesOf(seg, targets[1..], addrs, extra)
  }

  /** The targets sorted by id (get_reloc_to_segs) are relocation keys
      with an address. */
  lemma TargetsValid(seg: Segment, n: nat)
    ensures forall i :: 0 <= i < |RelocTargets(seg, n)| ==> RelocTargets(seg, n)[i] in seg.relocs && RelocTargets(seg, n)[i] < n
  {
    RelocTargetsSpec(seg, n);
    forall i | 0 <= i < |RelocTargets(seg, n)|
      ensures RelocTargets(seg, n)[i] in seg.relocs && RelocTargets(seg, n)[i] < n
    {
      assert RelocTargets(seg, n)[i] in RelocTargets(seg, n);
    }
  }

  /** The patches of a segment: target by target in id order. */
  function SegmentPatches(seg: Segment, addrs: seq<int>, extra: nat): seq<Patch>
  {
    TargetsValid(seg, |addrs|);
    PatchesOf(seg, RelocTargets(seg, |addrs|), addrs, extra)
  }

  /** The patch of relocation k to target t, its offset moved by extra. */
  function RelocPatch(seg: Segment, addrs: seq<int>, extra: nat, t: nat, k: nat): Patch
    requires t in seg.relocs && t < |addrs| && k < |seg.relocs[t]|
  {
    Patch(seg.relocs[t][k].offset + extra, seg.relocs[t][k].addend + addrs[t])
  }

  /** Every relocation to a listed target is one of the patches. */
  lemma {:induction false} PatchesOfHolds(seg: Segment, targets: seq<nat>, addrs: seq<int>, extra: nat, t: nat, k: nat)
    requires forall i :: 0 <= i < |targets| ==> targets[i] in seg.relocs && targets[i] < |addrs|
    requires t in targets && k < |seg.relocs[t]|
    ensures RelocPatch(seg, addrs, extra, t, k) in PatchesOf(seg, targets, addrs, extra)
    decreases |targets|
  {
    var here := TargetPatches(seg.relocs[targets[0]], addrs[targets[0]], extra);
    var later := PatchesOf(seg, targets[1..], addrs, extra);
    assert PatchesOf(seg, targets, addrs, extra) == here + later;
    if t == targets[0] {
      assert here[k] == RelocPatch(seg, addrs, extra, t, k);
      assert (here + later)[k] == here[k];
    } else {
      assert targets == [targets[0]] + targets[1..];
      assert t in targets[1..];
      PatchesOfHolds(seg, targets[1..], addrs, extra, t, k);
      var i :| 0 <= i < |later| && later[i] == RelocPatch(seg, addrs, extra, t, k);
      assert (here + later)[|here| + i] == later[i];
    }
  }

  /** Every patch is the patch of some relocation to a listed target. */
  lemma {:induction false} PatchesOfFrom(seg: Segment, targets: seq<nat>, addrs: seq<int>, extra: nat, i: nat)
    requires forall i :: 0 <= i < |targets| ==> targets[i] in seg.relocs && targets[i] < |addrs|
    requires i < |PatchesOf(seg, targets, addrs, extra)|
    ensures exists t: nat, k: nat :: t in targets && k < |seg.relocs[t]| &&
                           PatchesOf(seg, targets, addrs, extra)[i] == RelocPatch(seg, addrs, extra, t, k)
    decreases |targets|
  {
    var here := TargetPatches(seg.relocs[targets[0]], addrs[targets[0]], extra);
    var later := PatchesOf(seg, targets[1..], addrs, extra);
    assert PatchesOf(seg, targets, addrs, extra) == here + later;
    if i < |here| {
      assert PatchesOf(seg, targets, addrs, extra)[i] == RelocPatch(seg, addrs, extra, targets[0], i);
    } else {
      PatchesOfFrom(seg, targets[1..], addrs, extra, i - |here|);
      var t: nat, k: nat :| t in targets[1..] && k < |seg.relocs[t]| && later[i - |here|] == RelocPatch(seg, addrs, extra, t, k);
      assert t in targets;
    }
  }

  /** Relocate._reloc_data on a buffer: its patches applied in order. */
  function Relocated(buf: seq<Byte>, seg: Segment, addrs: seq<int>, extra: nat): Result<seq<Byte>>
  {
    ApplyPatches(buf, SegmentPatches(seg, addrs, extra))
  }

  /** A segment relocated without error, where no two fields overlap: the
      field of relocation k to target t holds what was stored there plus
      the addend plus the target's address. */
  lemma RelocatedField(buf: seq<Byte>, seg: Segment, addrs: seq<int>, extra: nat, t: nat, k: nat)
    requires Relocated(buf, seg, addrs, extra).Ok? && Disjoint(SegmentPatches(seg, addrs, extra))
    requires t in seg.relocs && t < |addrs| && k < |seg.relocs[t]|
    ensures var o := seg.relocs[t][k].offset + extra;
            && o + 4 <= |buf|
            && |Relocated(buf, seg, addrs, extra).value| == |buf|
            && SignedLongValue(Relocated(buf, seg, addrs, extra).value[o..o + 4]) ==
               SignedLongValue(buf[o..o + 4]) + seg.relocs[t][k].addend + addrs[t]
  {
    var ps := SegmentPatches(seg, addrs, extra);
    assert RelocPatch(seg, addrs, extra, t, k) in ps by {
      TargetsValid(seg, |addrs|);
      RelocTargetsSpec(seg, |addrs|);
      PatchesOfHolds(seg, RelocTargets(seg, |addrs|), addrs, extra, t, k);
    }
    var p := RelocPatch(seg, addrs, extra, t, k);
    var i :| 0 <= i < |ps| && ps[i] == p;
    assert p.pos + 4 <= |buf| &&
           SignedLongValue(ApplyPatches(buf, ps).value[p.pos..p.pos + 4]) ==
           SignedLongValue(buf[p.pos..p.pos + 4]) + p.delta by {
      ApplyPatchesSets(buf, ps);
    }
  }

  /** A segment relocated without error keeps its length and every byte that
      no relocation's field covers. */
  lemma RelocatedKeeps(buf: seq<Byte>, seg: Segment, addrs: seq<int>, extra: nat, j: nat)
    requires Relocated(buf, seg, addrs, extra).Ok? && j < |buf|
    requires forall t, k :: t in seg.relocs && t < |addrs| && 0 <= k < |seg.relocs[t]| ==>
               !(seg.relocs[t][k].offset + extra <= j < seg.relocs[t][k].offset + extra + 4)
    ensures |Relocated(buf, seg, addrs, extra).value| == |buf|
    ensures Relocated(buf, seg, addrs, extra).value[j] == buf[j]
  {
    var ps := SegmentPatches(seg, addrs, extra);
    TargetsValid(seg, |addrs|);
    RelocTargetsSpec(seg, |addrs|);
    forall i | 0 <= i < |ps|
      ensures !(ps[i].pos <= j < ps[i].pos + 4)
    {
      PatchesOfFrom(seg, RelocTargets(seg, |addrs|), addrs, extra, i);
      var t: nat, k: nat :| t in RelocTargets(seg, |addrs|) && k < |seg.relocs[t]| &&
                            ps[i] == RelocPatch(seg, addrs, extra, t, k);
      assert t in seg.relocs && t < |addrs|;
      assert ps[i].pos == seg.relocs[t][k].offset + extra;
    }
    ApplyPatchesKeeps(buf, ps);
  }

  /** Relocate.read_long. */
  method ReadLong(data: array<Byte>, offset: nat) returns (r: Result<int>)
    ensures r.Ok? <==> offset + 4 <= data.Length
    ensures r.Ok? ==> r.value == SignedLongValue(data[offset..offset + 4]) && -TWO_31 <= r.value < TWO_31
    ensures r.Err? ==> r.error == ShortRead
  {
    if offset + 4 > data.Length {
      return Err(ShortRead);
    }
    return Ok(SignedLongValue(data[offset..offset + 4]));
  }

  /** Relocate.write_long: the field at offset, which the read before it
      found whole, set to the value, if it fits 32 signed bits. */
  method WriteLong(data: array<Byte>, offset: nat, value: int) returns (err: Option<HunkError>)
    requires offset + 4 <= data.Length
    modifies data
    ensures err.None? <==> -TWO_31 <= value < TWO_31
    ensures err.Some? ==> err.value == ValueOutOfRange && data[..] == old(data[..])
    ensures err.None? ==> data[..] == old(data[..offset]) + SignedLong(value) + old(data[offset + 4..])
  {
    if value < -TWO_31 || value >= TWO_31 {
      return Some(ValueOutOfRange);
    }
    var d := SignedLong(value);
    ghost var buf := data[..];
    data[offset] := d[0];
    data[offset + 1] := d[1];
    data[offset + 2] := d[2];
    data[offset + 3] := d[3];
    assert data[..] == buf[..offset] + d + buf[offset + 4..];
    return None;
  }

  /** Relocate._reloc: one field patched in place. */
  method RelocOne(data: array<Byte>, p: Patch) returns (err: Option<HunkError>)
    modifies data
    ensures err.None? <==> PatchLong(old(data[..]), p).Ok?
    ensures err.Some? ==> err.value == PatchLong(old(data[..]), p).error
    ensures err.None? ==> data[..] == PatchLong(old(data[..]), p).value
  {
    var stored := ReadLong(data, p.pos);
    if stored.Err? {
      return Some(stored.error);
    }
    err := WriteLong(data, p.pos, stored.value + p.delta);
  }

  /** One step of the patch list. */
  lemma ApplyPatchesCons(buf: seq<Byte>, p: Patch, rest: seq<Patch>)
    ensures PatchLong(buf, p).Err? ==> ApplyPatches(buf, [p] + rest) == Err(PatchLong(buf, p).error)
    ensures PatchLong(buf, p).Ok? ==> ApplyPatches(buf, [p] + rest) == ApplyPatches(PatchLong(buf, p).value, rest)
  {
    assert ([p] + rest)[0] == p && ([p] + rest)[1..] == rest;
  }

  /** Two patch lists in a row: the second applied to what the first gives,
      unless the first fails. */
  lemma {:induction false} ApplyPatchesAppend(buf: seq<Byte>, a: seq<Patch>, b: seq<Patch>)
    ensures ApplyPatches(buf, a).Err? ==> ApplyPatches(buf, a + b) == Err(ApplyPatches(buf, a).error)
    ensures ApplyPatches(buf, a).Ok? ==> ApplyPatches(buf, a + b) == ApplyPatches(ApplyPatches(buf, a).value, b)
    decreases |a|
  {
    if a == [] {
      assert a + b == b;
    } else {
      assert a + b == [a[0]] + (a[1..] + b);
      ApplyPatchesCons(buf, a[0], a[1..] + b);
      if PatchLong(buf, a[0]).Ok? {
        ApplyPatchesAppend(PatchLong(buf, a[0]).value, a[1..], b);
      }
    }
  }

  /** The inner loop of Relocate._reloc_data: the relocations to one target
      patched in place, in list order. */
  method RelocTarget(data: array<Byte>, rels: seq<Reloc>, toAddr: int, offset: nat) returns (err: Option<HunkError>)
    modifies data
    ensures var spec := ApplyPatches(old(data[..]), TargetPatches(rels, toAddr, offset));
            && (err.None? <==> spec.Ok?)
            && (err.Some? ==> err.value == spec.error)
            && (err.None? ==> data[..] == spec.value)
  {
    err := None;
    ghost var ps := TargetPatches(rels, toAddr, offset);
    ghost var spec := ApplyPatches(data[..], ps);
    assert ps[0..] == ps;
    for k := 0 to |rels|
      invariant err.None?
      invariant ApplyPatches(data[..], ps[k..]) == spec
    {
      var p := Patch(rels[k].offset + offset, rels[k].addend + toAddr);
      assert ps[k..][0] == p;
      err := PatchStep(data, p, ps[k..]);
      if err.Some? {
        return;
      }
      assert ps[k..][1..] == ps[k + 1..];
    }
    assert ps[|rels|..] == [];
  }

  /** One patch of a list applied in place: the rest of the list then
      continues from what it gives. */
  method PatchStep(data: array<Byte>, p: Patch, ghost ps: seq<Patch>) returns (err: Option<HunkError>)
    requires ps != [] && ps[0] == p
    modifies data
    ensures err.Some? ==> ApplyPatches(old(data[..]), ps) == Err(err.value)
    ensures err.None? ==> ApplyPatches(old(data[..]), ps) == ApplyPatches(data[..], ps[1..])
  {
    assert ps == [p] + ps[1..];
    ApplyPatchesCons(data[..], p, ps[1..]);
    err := RelocOne(data, p);
  }

  /** Relocate._reloc_data: for each target, in id order, its relocations
      patched in place. */
  method RelocData(data: array<Byte>, seg: Segment, addrs: seq<int>, offset: nat) returns (err: Option<HunkError>)
    modifies data
    ensures var spec := Relocated(old(data[..]), seg, addrs, offset);
            && (err.None? <==> spec.Ok?)
            && (err.Some? ==> err.value == spec.error)
            && (err.None? ==> data[..] == spec.value)
  {
    err := None;
    var targets := RelocTargets(seg, |addrs|);
    TargetsValid(seg, |addrs|);
    ghost var spec := Relocated(data[..], seg, addrs, offset);
    assert targets[0..] == targets;
    for i := 0 to |targets|
      invariant err.None?
      invariant ApplyPatches(data[..], PatchesOf(seg, targets[i..], addrs, offset)) == spec
    {
      var t := targets[i];
      ghost var here := TargetPatches(seg.relocs[t], addrs[t], offset);
      ghost var later := PatchesOf(seg, targets[i + 1..], addrs, offset);
      assert targets[i..][0] == t && targets[i..][1..] == targets[i + 1..];
      assert PatchesOf(seg, targets[i..], addrs, offset) == here + later;
      ApplyPatchesAppend(data[..], here, later);
      err := RelocTarget(data, seg.relocs[t], addrs[t], offset);
      if err.Some? {
        return;
      }
    }
    assert targets[|targets|..] == [];
  }

  // ---------------------------------------------------------------------------
  // Relocate.relocate: one buffer per segment

  /** A segment's relocated buffer: a new buffer of its size, its data
      copied in, its relocations applied. */
  function SegmentImage(seg: Segment, addrs: seq<int>): Result<seq<Byte>>
  {
    Relocated(CopySpec(Zeros(seg.size), seg, 0), seg, addrs, 0)
  }

  /** A relocated segment whose data fits its size has a buffer of exactly
      that size, holding its data followed by zeros wherever no relocation's
      field lies. */
  lemma SegmentBuffer(seg: Segment, addrs: seq<int>, j: nat)
    requires SegmentImage(seg, addrs).Ok? && j < seg.size
    requires seg.data.Some? ==> |seg.data.value| <= seg.size
    requires forall t, k :: t in seg.relocs && t < |addrs| && 0 <= k < |seg.relocs[t]| ==>
               !(seg.relocs[t][k].offset <= j < seg.relocs[t][k].offset + 4)
    ensures |SegmentImage(seg, addrs).value| == seg.size
    ensures SegmentImage(seg, addrs).value[j] == if seg.data.Some? && j < |seg.data.value| then seg.data.value[j] else 0
  {
    FreshBuffer(seg);
    RelocatedKeeps(CopySpec(Zeros(seg.size), seg, 0), seg, addrs, 0, j);
  }

  /** The buffers of all segments, in order; the first failure is the
      result. */
  function RelocateAll(segs: seq<Segment>, addrs: seq<int>): Result<seq<seq<Byte>>>
    decreases |segs|
  {
    if segs == [] then Ok([])
    else
      var d :- SegmentImage(segs[0], addrs);
      var rest :- RelocateAll(segs[1..], addrs);
      Ok([d] + rest)
  }

  /** Relocate.relocate: one address per segment, or a ValueError. */
  function RelocateSpec(img: BinImage, addrs: seq<int>): Result<seq<seq<Byte>>>
  {
    if |img.segments| != |addrs| then Err(AddressCountMismatch) else RelocateAll(img.segments, addrs)
  }

  /** relocate succeeds exactly when every segment relocates, giving each
      its own buffer. */
  lemma {:induction false} RelocateAllSpec(segs: seq<Segment>, addrs: seq<int>)
    ensures RelocateAll(segs, addrs).Ok? <==> forall i :: 0 <= i < |segs| ==> SegmentImage(segs[i], addrs).Ok?
    ensures RelocateAll(segs, addrs).Ok? ==>
              |RelocateAll(segs, addrs).value| == |segs| &&
              forall i :: 0 <= i < |segs| ==> RelocateAll(segs, addrs).value[i] == SegmentImage(segs[i], addrs).value
    decreases |segs|
  {
    if segs != [] {
      assert forall i :: 0 < i < |segs| ==> segs[i] == segs[1..][i - 1];
      RelocateAllSpec(segs[1..], addrs);
    }
  }

  /** relocate fails as the first segment that fails. */
  lemma {:induction false} RelocateAllFirstError(segs: seq<Segment>, addrs: seq<int>, i: nat)
    requires i < |segs| && SegmentImage(segs[i], addrs).Err?
    requires forall j :: 0 <= j < i ==> SegmentImage(segs[j], addrs).Ok?
    ensures RelocateAll(segs, addrs) == Err(SegmentImage(segs[i], addrs).error)
    decreases i
  {
    if i > 0 {
      assert forall j :: 0 <= j < i - 1 ==> segs[1..][j] == segs[j + 1];
      assert segs[1..][i - 1] == segs[i];
      RelocateAllFirstError(segs[1..], addrs, i - 1);
    }
  }

  /** The body of relocate's loop for one segment: a new zeroed buffer of
      its size, the data copied in, the relocations applied. */
  method RelocateSegment(seg: Segment, addrs: seq<int>) returns (r: Result<array<Byte>>)
    ensures r.Ok? <==> SegmentImage(seg, addrs).Ok?
    ensures r.Err? ==> r.error == SegmentImage(seg, addrs).error
    ensures r.Ok? ==> fresh(r.value) && r.value[..] == SegmentImage(seg, addrs).value
  {
    var data := new Byte[seg.size](_ => 0);
    assert data[..] == Zeros(seg.size);
    data := CopyData(data, seg, 0);
    var err := RelocData(data, seg, addrs, 0);
    if err.Some? {
      return Err(err.value);
    }
    return Ok(data);
  }

  /** Relocate.relocate. */
  method Relocate(img: BinImage, addrs: seq<int>) returns (r: Result<seq<array<Byte>>>)
    ensures r.Ok? <==> RelocateSpec(img, addrs).Ok?
    ensures r.Err? ==> r.error == RelocateSpec(img, addrs).error
    ensures r.Ok? ==> |r.value| == |img.segments| == |RelocateSpec(img, addrs).value| &&
                      forall i :: 0 <= i < |r.value| ==> fresh(r.value[i]) && r.value[i][..] == RelocateSpec(img, addrs).value[i]
  {
    var segs := img.segments;
    if |segs| != |addrs| {
      return Err(AddressCountMismatch);
    }
    var datas: seq<array<Byte>> := [];
    ghost var contents: seq<seq<Byte>> := [];
    for i := 0 to |segs|
      invariant |datas| == |contents| == i
      invariant forall j :: 0 <= j < i ==> SegmentImage(segs[j], addrs) == Ok(contents[j])
      invariant forall j :: 0 <= j < i ==> fresh(datas[j])
      invariant forall j :: 0 <= j < i ==> datas[j][..] == contents[j]
    {
      var data := RelocateSegment(segs[i], addrs);
      if data.Err? {
        assert RelocateAll(segs, addrs) == Err(data.error) by {
          RelocateAllFirstError(segs, addrs, i);
        }
        return Err(data.error);
      }
      datas := datas + [data.value];
      contents := contents + [data.value[..]];
    }
    assert RelocateAll(segs, addrs).Ok? && |RelocateAll(segs, addrs).value| == |segs| &&
           forall j :: 0 <= j < |segs| ==> RelocateAll(segs, addrs).value[j] == SegmentImage(segs[j], addrs).value by {
      RelocateAllSpec(segs, addrs);
    }
    return Ok(datas);
  }

  // ---------------------------------------------------------------------------
  // Relocate.relocate_one_block: all segments in one blob

  /** The blob from the segment at offset on: each segment copied in at its
      offset and relocated, the next one after it and its padding. */
  function LayoutFrom(buf: seq<Byte>, segs: seq<Segment>, addrs: seq<int>, padding: nat, offset: nat): Result<seq<Byte>>
    requires offset + Span(segs, padding) <= |buf|
    decreases |segs|
  {
    if segs == [] then Ok(buf)
    else
      SpanCons(segs, padding);
      var copied := CopySpec(buf, segs[0], offset);
      var b :- Relocated(copied, segs[0], addrs, offset);
      LayoutFrom(b, segs[1..], addrs, padding, offset + segs[0].size + padding)
  }

  /** One step of the layout: the first segment copied in and relocated,
      then the rest after it and its padding. */
  lemma LayoutStep(buf: seq<Byte>, segs: seq<Segment>, addrs: seq<int>, padding: nat, offset: nat)
    requires segs != [] && offset + Span(segs, padding) <= |buf|
    ensures offset <= |buf|
    ensures var b := Relocated(CopySpec(buf, segs[0], offset), segs[0], addrs, offset);
            && (b.Err? ==> LayoutFrom(buf, segs, addrs, padding, offset) == Err(b.error))
            && (b.Ok? ==> offset + segs[0].size + padding + Span(segs[1..], padding) <= |b.value| &&
                          LayoutFrom(buf, segs, addrs, padding, offset) ==
                          LayoutFrom(b.value, segs[1..], addrs, padding, offset + segs[0].size + padding))
  {
    SpanCons(segs, padding);
  }

  /** relocate_one_block: a zeroed blob of get_total_size bytes laid out
      from base with get_seq_addrs. */
  function OneBlockSpec(img: BinImage, base: int, padding: nat): Result<seq<Byte>>
  {
    var segs := img.segments;
    LayoutFrom(Zeros(Span(segs, padding)), segs, SeqAddrs(segs, base, padding), padding, 0)
  }

  /** When every segment's data fits its size and padding, the blob is
      exactly get_total_size bytes long. */
  lemma {:induction false} LayoutLength(buf: seq<Byte>, segs: seq<Segment>, addrs: seq<int>, padding: nat, offset: nat)
    requires offset + Span(segs, padding) <= |buf|
    requires forall i :: 0 <= i < |segs| && segs[i].data.Some? ==> |segs[i].data.value| <= segs[i].size + padding
    requires LayoutFrom(buf, segs, addrs, padding, offset).Ok?
    ensures |LayoutFrom(buf, segs, addrs, padding, offset).value| == |buf|
    decreases |segs|
  {
    if segs != [] {
      LayoutStep(buf, segs, addrs, padding, offset);
      SpanCons(segs, padding);
      var b := Relocated(CopySpec(buf, segs[0], offset), segs[0], addrs, offset).value;
      assert forall i :: 0 < i < |segs| ==> segs[i] == segs[1..][i - 1];
      LayoutLength(b, segs[1..], addrs, padding, offset + segs[0].size + padding);
    }
  }

  /** One turn of relocate_one_block's loop: the first segment's data
      copied in at offset, then its relocations patched; the layout of the
      rest then continues from what this gives. */
  method PlaceSegment(data: array<Byte>, segs: seq<Segment>, addrs: seq<int>, padding: nat, offset: nat)
    returns (r: Result<array<Byte>>)
    requires segs != [] && offset + Span(segs, padding) <= data.Length
    modifies data
    ensures r.Err? ==> LayoutFrom(old(data[..]), segs, addrs, padding, offset) == Err(r.error)
    ensures r.Ok? ==> && (r.value == data || fresh(r.value))
                      && offset + segs[0].size + padding + Span(segs[1..], padding) <= r.value.Length
                      && LayoutFrom(old(data[..]), segs, addrs, padding, offset) ==
                         LayoutFrom(r.value[..], segs[1..], addrs, padding, offset + segs[0].size + padding)
  {
    LayoutStep(data[..], segs, addrs, padding, offset);
    var d := CopyData(data, segs[0], offset);
    var err := RelocData(d, segs[0], addrs, offset);
    if err.Some? {
      return Err(err.value);
    }
    return Ok(d);
  }

  /** Relocate.relocate_one_block. */
  method RelocateOneBlock(img: BinImage, base: int, padding: nat) returns (r: Result<array<Byte>>)
    ensures r.Ok? <==> OneBlockSpec(img, base, padding).Ok?
    ensures r.Err? ==> r.error == OneBlockSpec(img, base, padding).error
    ensures r.Ok? ==> fresh(r.value) && r.value[..] == OneBlockSpec(img, base, padding).value
  {
    var segs := img.segments;
    var total := GetTotalSize(segs, padding);
    var data := new Byte[total](_ => 0);
    assert data[..] == Zeros(total);
    var addrs := GetSeqAddrs(segs, base, padding);
    var offset: nat := 0;
    ghost var spec := OneBlockSpec(img, base, padding);
    assert segs[0..] == segs;
    for i := 0 to |segs|
      invariant fresh(data)
      invariant offset + Span(segs[i..], padding) <= data.Length
      invariant LayoutFrom(data[..], segs[i..], addrs, padding, offset) == spec
    {
      var seg := segs[i];
      assert segs[i..][0] == seg && segs[i..][1..] == segs[i + 1..];
      var placed := PlaceSegment(data, segs[i..], addrs, padding, offset);
      if placed.Err? {
        return Err(placed.error);
      }
      data := placed.value;
      offset := offset + seg.size + padding;
    }
    assert segs[|segs|..] == [];
    return Ok(data);
  }
}
