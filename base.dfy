/** Bytes, big-endian integers, a read cursor and the error taxonomy shared by
    every layer of the Hunk reader/writer. */
module Base {

  /** One byte of a Hunk stream. */
  type Byte = b: int | 0 <= b < 256

  const TWO_16: int := 0x1_0000
  const TWO_24: int := 0x100_0000
  const TWO_31: int := 0x8000_0000
  const TWO_32: int := 0x1_0000_0000

  datatype Option<+T> = None | Some(value: T)

  /** Every way an operation of the core can fail. `HunkParseError`, a
      `struct.error`, an `IndexError`, an `AssertionError` and a `ValueError`
      of the source each map to one constructor. */
  datatype HunkError =
    | ShortRead                    // read_long / read_word failed
    | TagTooShort                  // a 1-3 byte block tag
    | UnsupportedHunkType(id: nat) // a tag not in the block type map
    | BadHeaderNames               // a resident library name was cut short
    | NoHunkBlocks                 // an empty block list given to the assembler
    | NoHeaderBlock                // block 0 is not HUNK_HEADER
    | InvalidBlock(id: nat)        // a block outside the load-seg begin/extra lists
    | CannotSplit                  // an extra block before the first segment block of a run
    | HunksDontMatchHeader         // run count differs from the header's size table
    | DuplicateSymbols             // a second HUNK_SYMBOL in one segment
    | InvalidHunkBlock             // a block HunkSegment.parse does not accept
    | NoSegmentBlock               // HunkSegment.create without a segment block
    | NoSegmentSize                // a HunkSegment whose size_longs was never set
    | NoHunksForHeader             // HunkHeaderBlock.setup of an empty size list
    | UnknownSegmentType           // a segment kind the bridge cannot map
    | InvalidRelocation            // a Reloc that is not a plain 32-bit address
    | BadSegmentIndex              // a relocation target beyond the segment list
    | BadDebugHeader               // HEAD debug data without the DBGV01 signature
    | AddressCountMismatch         // relocate: addresses and segments differ in number
    | ValueOutOfRange              // struct.pack/unpack of a value or slice that does not fit

  datatype Result<+T> = Ok(value: T) | Err(error: HunkError) {
    predicate IsFailure() { Err? }
    function PropagateFailure<U>(): Result<U> requires Err? { Err(error) }
    function Extract(): T requires Ok? { value }
  }

  /** A value decoded from a stream together with the cursor position after it. */
  datatype Read<+T> = Read(value: T, next: nat)

  // ---------------------------------------------------------------------------
  // Big-endian words and longs (struct ">H" and ">I")

  function Word(v: nat): (r: seq<Byte>)
    requires v < TWO_16
    ensures |r| == 2
  {
    [v / 0x100, v % 0x100]
  }

  function Long(v: nat): (r: seq<Byte>)
    requires v < TWO_32
    ensures |r| == 4
  {
    [v / 0x100_0000, v / 0x1_0000 % 0x100, v / 0x100 % 0x100, v % 0x100]
  }

  function WordValue(b: seq<Byte>): (v: nat)
    requires |b| == 2
    ensures v < TWO_16
  {
    b[0] as int * 0x100 + b[1] as int
  }

  function LongValue(b: seq<Byte>): (v: nat)
    requires |b| == 4
    ensures v < TWO_32
  {
    b[0] as int * 0x100_0000 + b[1] as int * 0x1_0000 + b[2] as int * 0x100 + b[3] as int
  }

  lemma WordRoundTrip(v: nat)
    requires v < TWO_16
    ensures WordValue(Word(v)) == v
  {
  }

  lemma WordValueRoundTrip(b: seq<Byte>)
    requires |b| == 2
    ensures Word(WordValue(b)) == b
  {
  }

  lemma LongRoundTrip(v: nat)
    requires v < TWO_32
    ensures LongValue(Long(v)) == v
  {
    var q1 := v / 0x100;
    var q2 := q1 / 0x100;
    var q3 := q2 / 0x100;
    assert v == q1 * 0x100 + v % 0x100 && q1 == q2 * 0x100 + q1 % 0x100 && q2 == q3 * 0x100 + q2 % 0x100;
    assert q2 == v / 0x1_0000 by { ByteShiftTwice(v); }
    assert q3 == v / 0x100_0000 by { ByteShiftTwice(q1); ByteShiftTwice(v); assert q1 / 0x1_0000 == v / 0x100_0000; }
  }

  /** Two byte shifts are one shift by sixteen bits. */
  lemma ByteShiftTwice(v: nat)
    ensures v / 0x100 / 0x100 == v / 0x1_0000
  {
    var q := v / 0x1_0000;
    var r := v % 0x1_0000;
    assert v == q * 0x1_0000 + r && r < 0x1_0000;
    assert v / 0x100 == q * 0x100 + r / 0x100;
  }

  lemma LongValueRoundTrip(b: seq<Byte>)
    requires |b| == 4
    ensures Long(LongValue(b)) == b
  {
    var v := LongValue(b);
    assert v / 0x100 == b[0] as int * 0x1_0000 + b[1] as int * 0x100 + b[2] as int;
    assert v / 0x1_0000 == b[0] as int * 0x100 + b[1] as int;
    assert v / 0x100_0000 == b[0];
  }

  /** Two's-complement reading of four bytes (struct ">i"). */
  function SignedLongValue(b: seq<Byte>): (v: int)
    requires |b| == 4
    ensures -TWO_31 <= v < TWO_31
  {
    var u := LongValue(b);
    if u >= TWO_31 then u - TWO_32 else u
  }

  /** struct.pack(">i", v): defined only on the signed 32-bit range. */
  function SignedLong(v: int): (r: seq<Byte>)
    requires -TWO_31 <= v < TWO_31
    ensures |r| == 4
  {
    Long(if v < 0 then v + TWO_32 else v)
  }

  lemma SignedLongRoundTrip(v: int)
    requires -TWO_31 <= v < TWO_31
    ensures SignedLongValue(SignedLong(v)) == v
  {
    LongRoundTrip(if v < 0 then v + TWO_32 else v);
  }

  // ---------------------------------------------------------------------------
  // Reading at a cursor (f.read on a seekable stream)

  /** f.read(n): at most n bytes, fewer at the end of the stream. */
  function ReadUpTo(s: seq<Byte>, pos: nat, n: nat): (r: Read<seq<Byte>>)
    requires pos <= |s|
    ensures r.next <= |s| && r.next == pos + |r.value|
    ensures |r.value| == n <==> pos + n <= |s|
    ensures r.value == s[pos..r.next]
  {
    var end := if pos + n <= |s| then pos + n else |s|;
    Read(s[pos..end], end)
  }

  /** HunkBlock._read_long: four bytes or a ShortRead failure. */
  function ReadLongAt(s: seq<Byte>, pos: nat): (r: Result<Read<nat>>)
    requires pos <= |s|
    ensures r.Ok? <==> pos + 4 <= |s|
    ensures r.Ok? ==> r.value.next == pos + 4 && r.value.value < TWO_32
  {
    if pos + 4 <= |s| then
      Ok(Read(LongValue(s[pos..pos + 4]), pos + 4))
    else Err(ShortRead)
  }

  /** HunkBlock._read_word: two bytes or a ShortRead failure. */
  function ReadWordAt(s: seq<Byte>, pos: nat): (r: Result<Read<nat>>)
    requires pos <= |s|
    ensures r.Ok? <==> pos + 2 <= |s|
    ensures r.Ok? ==> r.value.next == pos + 2 && r.value.value < TWO_16
  {
    if pos + 2 <= |s| then
      Ok(Read(WordValue(s[pos..pos + 2]), pos + 2))
    else Err(ShortRead)
  }

  /** The value _read_long returns is the one whose encoding was read. */
  lemma ReadLongBytes(s: seq<Byte>, pos: nat)
    requires pos + 4 <= |s|
    ensures Long(ReadLongAt(s, pos).value.value) == s[pos..pos + 4]
  {
    LongValueRoundTrip(s[pos..pos + 4]);
  }

  lemma ReadWordBytes(s: seq<Byte>, pos: nat)
    requires pos + 2 <= |s|
    ensures Word(ReadWordAt(s, pos).value.value) == s[pos..pos + 2]
  {
    WordValueRoundTrip(s[pos..pos + 2]);
  }

  lemma ReadLongOfLong(v: nat, s: seq<Byte>, pos: nat)
    requires v < TWO_32 && pos + 4 <= |s| && s[pos..pos + 4] == Long(v)
    ensures ReadLongAt(s, pos) == Ok(Read(v, pos + 4))
  {
    LongRoundTrip(v);
  }

  lemma ReadWordOfWord(v: nat, s: seq<Byte>, pos: nat)
    requires v < TWO_16 && pos + 2 <= |s| && s[pos..pos + 2] == Word(v)
    ensures ReadWordAt(s, pos) == Ok(Read(v, pos + 2))
  {
    WordRoundTrip(v);
  }

  lemma SliceOfSlice<T>(s: seq<T>, a: nat, b: nat, i: nat, j: nat)
    requires a <= b <= |s| && i <= j <= b - a
    ensures s[a..b][i..j] == s[a + i..a + j]
  {
    forall k | 0 <= k < j - i
      ensures s[a..b][i..j][k] == s[a + i..a + j][k]
    {
      assert s[a..b][i..j][k] == s[a..b][i + k] == s[a + i + k];
    }
  }

  /** Zero bytes, as bytearray(n) allocates them. */
  function Zeros(n: nat): (r: seq<Byte>)
    ensures |r| == n && forall i :: 0 <= i < n ==> r[i] == 0
  {
    seq(n, _ => 0)
  }
}
