/** HunkDebug: the contents of a HUNK_DEBUG block. A SAS/C "LINE" table maps
    code offsets to source lines; "HEAD" and any other tag keep their bytes. */
module HunkDebug {
  import opened Base
  import opened Names

  /** One (offset, src_line) pair of a LINE table. */
  datatype LineEntry = LineEntry(offset: nat, srcLine: nat)

  datatype DebugInfo =
      /** HunkDebugLine: tag "LINE". */
    | DebugLineInfo(srcFile: seq<Byte>, baseOffset: nat, entries: seq<LineEntry>)
      /** HunkDebugAny: any other tag, its data kept as bytes. */
    | DebugAny(tag: seq<Byte>, data: seq<Byte>, baseOffset: nat)

  /** "LINE", "HEAD" and the "DBGV01\0\0" signature after HEAD. */
  const LINE: seq<Byte> := [0x4c, 0x49, 0x4e, 0x45]
  const HEAD: seq<Byte> := [0x48, 0x45, 0x41, 0x44]
  const DBGV01: seq<Byte> := [0x44, 0x42, 0x47, 0x56, 0x30, 0x31, 0, 0]

  /** HunkDebug._read_string: a longword count of 4-byte units, then the
      text up to its first NUL; the slice is cut short at the end of the
      buffer without an error. */
  function ReadString(d: seq<Byte>, pos: nat): (r: (seq<Byte>, nat))
    requires pos + 4 <= |d|
    ensures r.1 % 4 == 0 && NulFree(r.0)
    ensures pos + 4 + |r.0| <= |d| && r.0 == d[pos + 4..pos + 4 + |r.0|]
  {
    var size := LongValue(d[pos..pos + 4]) * 4;
    var off := pos + 4;
    var data := d[off..if off + size <= |d| then off + size else |d|];
    var e := FirstNul(data);
    assert data[..e] == d[off..off + e];
    (data[..e], size)
  }

  /** The (src_line, offset) longword pairs of a LINE table, from off on. */
  function LineEntries(d: seq<Byte>, off: nat, num: nat): (r: seq<LineEntry>)
    requires off + 8 * num <= |d|
    ensures |r| == num
    decreases num
  {
    if num == 0 then []
    else [LineEntry(LongValue(d[off + 4..off + 8]), LongValue(d[off..off + 4]))] + LineEntries(d, off + 8, num - 1)
  }

  /** len(range((avail) / 8)): Python's floor division makes a negative
      byte count an empty range. */
  function EntryCount(avail: int): (n: nat)
    ensures 8 * n <= (if avail < 0 then 0 else avail)
    ensures avail >= 0 ==> avail < 8 * n + 8
  {
    if avail <= 0 then 0 else avail / 8
  }

  /** The LINE branch of HunkDebug.decode: the file name at +8, then as many
      whole entries as follow it. */
  function DecodeLine(d: seq<Byte>): (r: DebugInfo)
    requires 12 <= |d|
    ensures r.DebugLineInfo? && NulFree(r.srcFile)
  {
    var (srcFile, srcSize) := ReadString(d, 8);
    var off := 12 + srcSize;
    var entries := if off <= |d| then LineEntries(d, off, EntryCount(|d| - off)) else [];
    DebugLineInfo(srcFile, LongValue(d[0..4]), entries)
  }

  /** HunkDebug.decode: None below 12 bytes; the HEAD signature is an
      assertion, here an error. */
  function Decode(d: seq<Byte>): (r: Result<Option<DebugInfo>>)
    ensures r.Ok? && r.value.Some? <==> 12 <= |d| && (d[4..8] == HEAD ==> 16 <= |d| && d[8..16] == DBGV01)
    ensures r.Ok? && r.value.Some? ==> r.value.value.baseOffset == LongValue(d[0..4])
  {
    if |d| < 12 then Ok(None)
    else
      var baseOffset := LongValue(d[0..4]);
      var tag := d[4..8];
      if tag == LINE then Ok(Some(DecodeLine(d)))
      else if tag == HEAD then
        if d[8..if 16 <= |d| then 16 else |d|] != DBGV01 then Err(BadDebugHeader)
        else Ok(Some(DebugAny(tag, d[16..], baseOffset)))
      else Ok(Some(DebugAny(tag, d[8..], baseOffset)))
  }

  predicate EntriesFit(entries: seq<LineEntry>) {
    forall i :: 0 <= i < |entries| ==> entries[i].offset < TWO_32 && entries[i].srcLine < TWO_32
  }

  /** What HunkDebug.encode can write: 32-bit values, and no HunkDebugAny
      tagged LINE (the LINE branch reads fields only HunkDebugLine has). */
  predicate Encodable(info: DebugInfo) {
    && info.baseOffset < TWO_32
    && match info
       case DebugLineInfo(srcFile, _, entries) => CanWriteName(srcFile, None) && EntriesFit(entries)
       case DebugAny(tag, _, _) => tag != LINE
  }

  function EncodeEntries(entries: seq<LineEntry>): (r: seq<Byte>)
    requires EntriesFit(entries)
    ensures |r| == 8 * |entries|
  {
    if entries == [] then []
    else Long(entries[0].srcLine) + Long(entries[0].offset) + EncodeEntries(entries[1..])
  }

  /** HunkDebug.encode; _write_string is the untagged name field. */
  function Encode(info: DebugInfo): (r: seq<Byte>)
    requires Encodable(info)
  {
    match info
    case DebugLineInfo(srcFile, baseOffset, entries) =>
      Long(baseOffset) + LINE + EncodeName(srcFile, None) + EncodeEntries(entries)
    case DebugAny(tag, data, baseOffset) =>
      if tag == HEAD then Long(baseOffset) + tag + DBGV01 + data
      else Long(baseOffset) + tag + data
  }

  // ---------------------------------------------------------------------------
  // Round trips

  lemma {:induction false} LineEntriesOfEncoded(entries: seq<LineEntry>, d: seq<Byte>, off: nat)
    requires EntriesFit(entries)
    requires off + 8 * |entries| <= |d| && d[off..off + 8 * |entries|] == EncodeEntries(entries)
    ensures LineEntries(d, off, |entries|) == entries
    decreases entries
  {
    if entries != [] {
      var e := entries[0];
      var enc := EncodeEntries(entries);
      assert enc == Long(e.srcLine) + Long(e.offset) + EncodeEntries(entries[1..]);
      assert enc[..4] == Long(e.srcLine) && enc[4..8] == Long(e.offset) && enc[8..] == EncodeEntries(entries[1..]);
      assert 8 * |entries| == 8 + 8 * |entries[1..]|;
      var w := d[off..off + 8 * |entries|];
      assert d[off..off + 4] == w[..4];
      assert d[off + 4..off + 8] == w[4..8] by { SliceOfSlice(d, off, off + 8 * |entries|, 4, 8); }
      assert d[off + 8..off + 8 + 8 * |entries[1..]|] == w[8..];
      LongRoundTrip(e.srcLine);
      LongRoundTrip(e.offset);
      LineEntriesOfEncoded(entries[1..], d, off + 8);
    }
  }

  /** _read_string of a NUL-free name written by _write_string. */
  lemma ReadStringOfEncoded(name: seq<Byte>, d: seq<Byte>, pos: nat)
    requires CanWriteName(name, None) && NulFree(name)
    requires pos + |EncodeName(name, None)| <= |d| && d[pos..pos + |EncodeName(name, None)|] == EncodeName(name, None)
    ensures ReadString(d, pos) == (name, 4 * NameLongs(|name|))
  {
    var enc := EncodeName(name, None);
    var size := 4 * NameLongs(|name|);
    EncodeNameLayout(name, None);
    assert d[pos..pos + 4] == enc[..4];
    LongRoundTrip(NameLongs(|name|));
    var data := d[pos + 4..pos + 4 + size];
    assert data == enc[4..];
    assert data[..|name|] == enc[4..4 + |name|];
    FirstNulAfter(name, data);
  }

  /** The layout of an encoded LINE table. */
  lemma LineLayout(info: DebugInfo, d: seq<Byte>)
    requires info.DebugLineInfo? && Encodable(info) && d == Encode(info)
    ensures var n := |EncodeName(info.srcFile, None)|;
            && |d| == 8 + n + 8 * |info.entries| && n == 4 + 4 * NameLongs(|info.srcFile|)
            && d[0..4] == Long(info.baseOffset) && d[4..8] == LINE
            && d[8..8 + n] == EncodeName(info.srcFile, None)
            && d[8 + n..] == EncodeEntries(info.entries)
  {
  }

  /** A LINE table with a NUL-free file name decodes to itself. */
  lemma LineRoundTrip(info: DebugInfo)
    requires info.DebugLineInfo? && Encodable(info) && NulFree(info.srcFile)
    ensures Decode(Encode(info)) == Ok(Some(info))
  {
    var d := Encode(info);
    LineLayout(info, d);
    DecodeLineOfEncoded(info, d);
  }

  lemma DecodeLineOfEncoded(info: DebugInfo, d: seq<Byte>)
    requires info.DebugLineInfo? && Encodable(info) && NulFree(info.srcFile) && d == Encode(info)
    ensures 12 <= |d| && DecodeLine(d) == info
  {
    LineLayout(info, d);
    DecodeLineOfLayout(info, d);
  }

  /** The same, from the layout of the bytes alone. */
  lemma DecodeLineOfLayout(info: DebugInfo, d: seq<Byte>)
    requires info.DebugLineInfo? && Encodable(info) && NulFree(info.srcFile)
    requires var n := |EncodeName(info.srcFile, None)|;
             && |d| == 8 + n + 8 * |info.entries| && n == 4 + 4 * NameLongs(|info.srcFile|)
             && d[0..4] == Long(info.baseOffset) && d[4..8] == LINE
             && d[8..8 + n] == EncodeName(info.srcFile, None)
             && d[8 + n..] == EncodeEntries(info.entries)
    ensures 12 <= |d| && DecodeLine(d) == info
  {
    var size := 4 * NameLongs(|info.srcFile|);
    var k := |info.entries|;
    assert LongValue(d[0..4]) == info.baseOffset by { LongRoundTrip(info.baseOffset); }
    assert ReadString(d, 8) == (info.srcFile, size) by { ReadStringOfEncoded(info.srcFile, d, 8); }
    var off := 12 + size;
    assert off == 8 + |EncodeName(info.srcFile, None)| && off + 8 * k == |d|;
    assert EntryCount(|d| - (12 + size)) == k by { EntryCountOfWhole(k); }
    assert LineEntries(d, off, k) == info.entries by {
      assert d[off..off + 8 * k] == d[off..];
      LineEntriesOfEncoded(info.entries, d, off);
    }
    DecodeLineOfParts(d, info.srcFile, info.baseOffset, size, info.entries);
  }

  /** DecodeLine from what each of its reads gives. */
  lemma DecodeLineOfParts(d: seq<Byte>, srcFile: seq<Byte>, baseOffset: nat, size: nat, entries: seq<LineEntry>)
    requires 12 + size + 8 * |entries| == |d|
    requires LongValue(d[0..4]) == baseOffset && ReadString(d, 8).0 == srcFile && ReadString(d, 8).1 == size
    requires EntryCount(|d| - (12 + size)) == |entries| && LineEntries(d, 12 + size, |entries|) == entries
    ensures DecodeLine(d) == DebugLineInfo(srcFile, baseOffset, entries)
  {
  }

  /** Whole entries are counted exactly. */
  lemma EntryCountOfWhole(k: nat)
    ensures EntryCount(8 * k) == k
  {
  }

  /** A HEAD block keeps the bytes after its signature. */
  lemma HeadRoundTrip(data: seq<Byte>, baseOffset: nat)
    requires baseOffset < TWO_32
    ensures Decode(Encode(DebugAny(HEAD, data, baseOffset))) == Ok(Some(DebugAny(HEAD, data, baseOffset)))
  {
    var d := Encode(DebugAny(HEAD, data, baseOffset));
    assert d == Long(baseOffset) + HEAD + DBGV01 + data;
    assert d[0..4] == Long(baseOffset) && d[4..8] == HEAD && d[8..16] == DBGV01 && d[16..] == data;
    LongRoundTrip(baseOffset);
  }

  /** Any other four-byte tag keeps its data, provided there are at least
      four bytes of it; with fewer the block is too short and decodes to
      None. */
  lemma AnyRoundTrip(tag: seq<Byte>, data: seq<Byte>, baseOffset: nat)
    requires baseOffset < TWO_32 && |tag| == 4 && tag != LINE && tag != HEAD
    ensures 4 <= |data| ==> Decode(Encode(DebugAny(tag, data, baseOffset))) == Ok(Some(DebugAny(tag, data, baseOffset)))
    ensures |data| < 4 ==> Decode(Encode(DebugAny(tag, data, baseOffset))) == Ok(None)
  {
    var d := Encode(DebugAny(tag, data, baseOffset));
    assert d == Long(baseOffset) + tag + data;
    assert d[0..4] == Long(baseOffset) && d[4..8] == tag && d[8..] == data;
    LongRoundTrip(baseOffset);
  }

  /** A LINE table holds (len - 12 - name size) / 8 entries, the trailing
      bytes that do not make a whole entry ignored. */
  lemma LineEntryCount(d: seq<Byte>)
    requires 12 <= |d| && d[4..8] == LINE
    ensures Decode(d).Ok? && Decode(d).value.Some? && Decode(d).value.value.DebugLineInfo?
    ensures var size := LongValue(d[8..12]) * 4;
            |Decode(d).value.value.entries| == if 12 + size <= |d| then (|d| - 12 - size) / 8 else 0
  {
  }
}
