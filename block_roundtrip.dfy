/** Reading back what Hunk*Block.write emitted gives the block that was
    written: for every block kind, parse(write(b)) == b, with the cursor just
    after the written bytes. Stream positions recorded by the parser
    (a segment's data offset, a library's member offsets) must be the ones the
    block will occupy, which `Decodes` states. */
module BlockRoundTrip {
  import opened Base
  import opened HunkIds
  import opened Names
  import opened Blocks
  import opened BlockParse
  import opened BlockWrite

  /** The bytes e sit in s at pos. Written byte by byte so that the solver
      only looks inside it where a proof asks it to (through AtSlice). */
  predicate At(s: seq<Byte>, pos: nat, e: seq<Byte>)
    decreases e
  {
    if e == [] then pos <= |s|
    else pos < |s| && s[pos] == e[0] && At(s, pos + 1, e[1..])
  }

  lemma {:induction false} AtSlice(s: seq<Byte>, pos: nat, e: seq<Byte>)
    ensures At(s, pos, e) <==> pos + |e| <= |s| && s[pos..pos + |e|] == e
    decreases e
  {
    if e != [] {
      AtSlice(s, pos + 1, e[1..]);
      if pos + |e| <= |s| {
        assert s[pos..pos + |e|] == [s[pos]] + s[pos + 1..pos + |e|];
      }
    }
  }

  lemma AtSplit(s: seq<Byte>, pos: nat, a: seq<Byte>, b: seq<Byte>)
    requires At(s, pos, a + b)
    ensures At(s, pos, a) && At(s, pos + |a|, b)
  {
    AtSlice(s, pos, a + b);
    AtSlice(s, pos, a);
    AtSlice(s, pos + |a|, b);
    assert s[pos..pos + |a|] == (a + b)[..|a|];
    assert s[pos + |a|..pos + |a| + |b|] == (a + b)[|a|..];
  }

  lemma AtLong(s: seq<Byte>, pos: nat, v: nat, rest: seq<Byte>)
    requires v < TWO_32 && At(s, pos, Long(v) + rest)
    ensures ReadLongAt(s, pos) == Ok(Read(v, pos + 4)) && At(s, pos + 4, rest)
  {
    AtSplit(s, pos, Long(v), rest);
    AtSlice(s, pos, Long(v));
    ReadLongOfLong(v, s, pos);
  }

  /** AtLong with the position after the long named by the caller. */
  lemma AtLongTo(s: seq<Byte>, pos: nat, v: nat, rest: seq<Byte>, next: nat)
    requires v < TWO_32 && At(s, pos, Long(v) + rest) && next == pos + 4
    ensures ReadLongAt(s, pos) == Ok(Read(v, next)) && At(s, next, rest)
  {
    AtLong(s, pos, v, rest);
  }

  lemma AtWord(s: seq<Byte>, pos: nat, v: nat, rest: seq<Byte>)
    requires v < TWO_16 && At(s, pos, Word(v) + rest)
    ensures ReadWordAt(s, pos) == Ok(Read(v, pos + 2)) && At(s, pos + 2, rest)
  {
    AtSplit(s, pos, Word(v), rest);
    AtSlice(s, pos, Word(v));
    ReadWordOfWord(v, s, pos);
  }

  // ---------------------------------------------------------------------------
  // Counted loops

  lemma {:induction false} LongsLoopOfEncoded(xs: seq<nat>, s: seq<Byte>, pos: nat, acc: seq<nat>)
    requires Longs32(xs) && At(s, pos, EncodeLongs(xs))
    ensures LongsLoop(s, pos, |xs|, acc) == Ok(Read(acc + xs, pos + 4 * |xs|))
    decreases xs
  {
    if xs == [] {
      assert acc + xs == acc;
    } else {
      AtLong(s, pos, xs[0], EncodeLongs(xs[1..]));
      LongsLoopOfEncoded(xs[1..], s, pos + 4, acc + [xs[0]]);
      assert acc + [xs[0]] + xs[1..] == acc + xs;
    }
  }

  lemma {:induction false} WordsLoopOfEncoded(xs: seq<nat>, s: seq<Byte>, pos: nat, acc: seq<nat>)
    requires Words16(xs) && At(s, pos, EncodeWords(xs))
    ensures WordsLoop(s, pos, |xs|, acc) == Ok(Read(acc + xs, pos + 2 * |xs|))
    decreases xs
  {
    if xs == [] {
      assert acc + xs == acc;
    } else {
      AtWord(s, pos, xs[0], EncodeWords(xs[1..]));
      WordsLoopOfEncoded(xs[1..], s, pos + 2, acc + [xs[0]]);
      assert acc + [xs[0]] + xs[1..] == acc + xs;
    }
  }

  /** Hunk sizes below 2^30 survive the 0x3fffffff mask _parse_header applies. */
  predicate SizesFit(xs: seq<nat>) {
    forall i :: 0 <= i < |xs| ==> xs[i] < 0x4000_0000
  }

  lemma {:induction false} HunkSizesLoopOfEncoded(xs: seq<nat>, s: seq<Byte>, pos: nat, acc: seq<nat>)
    requires SizesFit(xs) && At(s, pos, EncodeLongs(xs))
    ensures HunkSizesLoop(s, pos, |xs|, acc) == Ok(Read(acc + xs, pos + 4 * |xs|))
    decreases xs
  {
    if xs == [] {
      assert acc + xs == acc;
    } else {
      AtLong(s, pos, xs[0], EncodeLongs(xs[1..]));
      HunkSizesLoopOfEncoded(xs[1..], s, pos + 4, acc + [xs[0]]);
      assert acc + [xs[0]] + xs[1..] == acc + xs;
    }
  }

  // ---------------------------------------------------------------------------
  // HUNK_HEADER

  /** A name reads back as written when it has no NUL, is not cut by the
      24-bit unit mask, and (for list members) is not empty. */
  predicate NameDecodes(name: seq<Byte>) {
    NulFree(name) && NameLongs(|name|) < TWO_24
  }

  /** Every resident name reads back, and none is empty (an empty one would
      read as the terminator). */
  predicate NamesDecode(names: seq<seq<Byte>>)
    decreases names
  {
    names == [] || (NameDecodes(names[0]) && names[0] != [] && NamesDecode(names[1..]))
  }

  /** Bytes a written name takes. */
  function NameSize(name: seq<Byte>): nat
  {
    4 + 4 * NameLongs(|name|)
  }

  function NamesSize(names: seq<seq<Byte>>): nat
  {
    if names == [] then 0 else NameSize(names[0]) + NamesSize(names[1..])
  }

  /** _read_name at pos gives the names one after another, then the 0
      terminator. */
  predicate NamesReadable(s: seq<Byte>, pos: nat, names: seq<seq<Byte>>)
    decreases names
  {
    pos <= |s| &&
    if names == [] then ReadLongAt(s, pos) == Ok(Read(0, pos + 4))
    else
      && names[0] != []
      && ReadName(s, pos) == Ok(Read(NameOk(4 * NameLongs(|names[0]|), names[0]), pos + NameSize(names[0])))
      && NamesReadable(s, pos + NameSize(names[0]), names[1..])
  }

  lemma ConsAppend<T>(acc: seq<T>, xs: seq<T>)
    requires xs != []
    ensures acc + [xs[0]] + xs[1..] == acc + xs
  {
    assert [xs[0]] + xs[1..] == xs;
  }

  /** One turn of the header-name loop, stated on the _read_name result only. */
  lemma HeaderNamesStep(s: seq<Byte>, pos: nat, acc: seq<seq<Byte>>, size: nat, text: seq<Byte>, next: nat)
    requires pos <= |s| && ReadName(s, pos) == Ok(Read(NameOk(size, text), next))
    ensures next <= |s|
    ensures size == 0 ==> HeaderNamesLoop(s, pos, acc) == Ok(Read(acc, next))
    ensures size != 0 ==> HeaderNamesLoop(s, pos, acc) == HeaderNamesLoop(s, next, acc + [text])
  {
  }

  lemma {:induction false} HeaderNamesLoopOfReadable(s: seq<Byte>, pos: nat, names: seq<seq<Byte>>, acc: seq<seq<Byte>>)
    requires NamesReadable(s, pos, names)
    ensures HeaderNamesLoop(s, pos, acc) == Ok(Read(acc + names, pos + NamesSize(names) + 4))
    decreases names
  {
    if names == [] {
      assert ReadName(s, pos) == Ok(Read(NameOk(0, []), pos + 4));
      HeaderNamesStep(s, pos, acc, 0, [], pos + 4);
      assert acc + names == acc;
    } else {
      var next := pos + NameSize(names[0]);
      HeaderNamesStep(s, pos, acc, 4 * NameLongs(|names[0]|), names[0], next);
      HeaderNamesLoopOfReadable(s, next, names[1..], acc + [names[0]]);
      ConsAppend(acc, names);
    }
  }

  lemma HeaderNamesOfReadable(names: seq<seq<Byte>>, s: seq<Byte>, pos: nat, end: nat)
    requires NamesReadable(s, pos, names) && end == pos + NamesSize(names) + 4
    ensures HeaderNamesLoop(s, pos, []) == Ok(Read(names, end))
  {
    HeaderNamesLoopOfReadable(s, pos, names, []);
    assert [] + names == names;
  }

  lemma NamesTail(names: seq<seq<Byte>>)
    requires NamesWritable(names) && NamesDecode(names) && names != []
    ensures NamesWritable(names[1..]) && NamesDecode(names[1..])
    ensures CanWriteName(names[0], None) && NameDecodes(names[0]) && names[0] != []
  {
  }

  /** The first written name reads back, and the rest of the bytes follow it. */
  lemma NamesHeadOfEncoded(names: seq<seq<Byte>>, s: seq<Byte>, pos: nat)
    requires NamesWritable(names) && NamesDecode(names) && names != []
    requires At(s, pos, EncodeNames(names) + Long(0))
    ensures NamesWritable(names[1..]) && NamesDecode(names[1..]) && names[0] != []
    ensures pos + NameSize(names[0]) <= |s|
    ensures ReadName(s, pos) == Ok(Read(NameOk(4 * NameLongs(|names[0]|), names[0]), pos + NameSize(names[0])))
    ensures At(s, pos + NameSize(names[0]), EncodeNames(names[1..]) + Long(0))
    ensures |EncodeNames(names)| == NameSize(names[0]) + |EncodeNames(names[1..])|
  {
    var enc0 := EncodeName(names[0], None);
    var rest := EncodeNames(names[1..]) + Long(0);
    assert EncodeNames(names) + Long(0) == enc0 + rest;
    AtSplit(s, pos, enc0, rest);
    NamesTail(names);
    AtSlice(s, pos, enc0);
    ReadNameOfEncoded(names[0], s, pos);
  }

  /** Written names are readable one by one. */
  lemma {:induction false} NamesReadableOfEncoded(names: seq<seq<Byte>>, s: seq<Byte>, pos: nat)
    requires NamesWritable(names) && NamesDecode(names)
    requires At(s, pos, EncodeNames(names) + Long(0))
    ensures NamesReadable(s, pos, names) && |EncodeNames(names)| == NamesSize(names)
    decreases names
  {
    if names == [] {
      assert EncodeNames(names) + Long(0) == Long(0) + [];
      AtLong(s, pos, 0, []);
    } else {
      NamesHeadOfEncoded(names, s, pos);
      NamesReadableOfEncoded(names[1..], s, pos + NameSize(names[0]));
    }
  }

  lemma HeaderNamesFromStart(names: seq<seq<Byte>>, s: seq<Byte>, pos: nat, end: nat)
    requires NamesWritable(names) && NamesDecode(names)
    requires At(s, pos, EncodeNames(names) + Long(0))
    requires end == pos + |EncodeNames(names)| + 4
    ensures HeaderNamesLoop(s, pos, []) == Ok(Read(names, end))
  {
    NamesReadableOfEncoded(names, s, pos);
    HeaderNamesOfReadable(names, s, pos, end);
  }

  /** The header fields write and read back: names that survive the round trip,
      longs that fit, sizes that survive the mask, and as many sizes as
      first_hunk..last_hunk. */
  predicate HeaderCodable(names: seq<seq<Byte>>, ts: nat, fh: nat, lh: nat, table: seq<nat>) {
    && NamesWritable(names) && NamesDecode(names)
    && ts < TWO_32 && fh < TWO_32 && lh < TWO_32
    && Longs32(table) && SizesFit(table) && |table| == HunkCount(fh, lh)
  }

  /** The fixed part after the names: table_size, first, last, the table,
      ending at q. */
  predicate TailReads(s: seq<Byte>, p: nat, ts: nat, fh: nat, lh: nat, table: seq<nat>, q: nat)
    requires p <= |s|
  {
    && ReadLongAt(s, p) == Ok(Read(ts, p + 4))
    && ReadLongAt(s, p + 4) == Ok(Read(fh, p + 8))
    && ReadLongAt(s, p + 8) == Ok(Read(lh, p + 12))
    && HunkSizesLoop(s, p + 12, |table|, []) == Ok(Read(table, q))
  }

  lemma HeaderTailOfEncoded(ts: nat, fh: nat, lh: nat, table: seq<nat>, s: seq<Byte>, p: nat, q: nat)
    requires ts < TWO_32 && fh < TWO_32 && lh < TWO_32 && Longs32(table) && SizesFit(table)
    requires At(s, p, Long(ts) + (Long(fh) + (Long(lh) + EncodeLongs(table))))
    requires q == p + 12 + 4 * |table|
    ensures p <= |s| && TailReads(s, p, ts, fh, lh, table, q)
  {
    AtLong(s, p, ts, Long(fh) + (Long(lh) + EncodeLongs(table)));
    AtLong(s, p + 4, fh, Long(lh) + EncodeLongs(table));
    AtLong(s, p + 8, lh, EncodeLongs(table));
    HunkSizesLoopOfEncoded(table, s, p + 12, []);
    assert [] + table == table;
  }

  /** _parse_header from the results of its reads. */
  lemma ParseHeaderOfParts(s: seq<Byte>, pos: nat, names: seq<seq<Byte>>, p: nat,
                           ts: nat, fh: nat, lh: nat, table: seq<nat>, q: nat)
    requires pos <= |s| && HeaderNamesLoop(s, pos, []) == Ok(Read(names, p))
    requires TailReads(s, p, ts, fh, lh, table, q) && |table| == HunkCount(fh, lh)
    ensures ParseHeader(s, pos) == Ok(Read(HeaderBlock(names, ts, fh, lh, table), q))
  {
  }

  /** HunkHeaderBlock.parse drops the memory flags of a hunk size: a header
      without library names, for hunks 0 to 0, whose one stored size is v
      has v's low 30 bits in its table (0x80000010, a hunk of 16 longwords
      for fast memory, gives 0x10). */
  lemma HeaderSizeMasked(v: nat)
    requires v < TWO_32
    ensures var s := Long(0) + (Long(1) + (Long(0) + (Long(0) + Long(v))));
            ParseHeader(s, 0) == Ok(Read(HeaderBlock([], 1, 0, 0, [v % 0x4000_0000]), 20))
  {
    var s := Long(0) + (Long(1) + (Long(0) + (Long(0) + Long(v))));
    AtSlice(s, 0, s);
    AtLong(s, 0, 0, Long(1) + (Long(0) + (Long(0) + Long(v))));
    assert HeaderNamesLoop(s, 0, []) == Ok(Read([], 4));
    AtLong(s, 4, 1, Long(0) + (Long(0) + Long(v)));
    AtLong(s, 8, 0, Long(0) + Long(v));
    assert Long(v) + [] == Long(v);
    AtLong(s, 12, 0, Long(v) + []);
    AtLong(s, 16, v, []);
    assert MaskedSizes(s, 16, 1) == [v % 0x4000_0000];
  }

  /** A written header is the names with their terminator, then the fixed
      part; p is where the names end, q where the header ends. */
  lemma HeaderSplit(names: seq<seq<Byte>>, ts: nat, fh: nat, lh: nat, table: seq<nat>,
                    s: seq<Byte>, pos: nat, p: nat, q: nat)
    requires HeaderCodable(names, ts, fh, lh, table)
    requires At(s, pos, EncodeHeader(names, ts, fh, lh, table))
    requires p == pos + |EncodeNames(names)| + 4 && q == pos + |EncodeHeader(names, ts, fh, lh, table)|
    ensures At(s, pos, EncodeNames(names) + Long(0))
    ensures At(s, p, Long(ts) + (Long(fh) + (Long(lh) + EncodeLongs(table))))
    ensures q == p + 12 + 4 * |table|
  {
    var n := EncodeNames(names);
    var tail := Long(ts) + (Long(fh) + (Long(lh) + EncodeLongs(table)));
    assert EncodeHeader(names, ts, fh, lh, table) == (n + Long(0)) + tail;
    AtSplit(s, pos, n + Long(0), tail);
    assert pos + |n + Long(0)| == p;
  }

  lemma NamesOfHeader(names: seq<seq<Byte>>, ts: nat, fh: nat, lh: nat, table: seq<nat>,
                      s: seq<Byte>, pos: nat, p: nat, q: nat)
    requires HeaderCodable(names, ts, fh, lh, table)
    requires At(s, pos, EncodeHeader(names, ts, fh, lh, table))
    requires p == pos + |EncodeNames(names)| + 4 && q == pos + |EncodeHeader(names, ts, fh, lh, table)|
    ensures pos <= |s| && HeaderNamesLoop(s, pos, []) == Ok(Read(names, p))
  {
    HeaderSplit(names, ts, fh, lh, table, s, pos, p, q);
    HeaderNamesFromStart(names, s, pos, p);
  }

  lemma TailOfHeader(names: seq<seq<Byte>>, ts: nat, fh: nat, lh: nat, table: seq<nat>,
                     s: seq<Byte>, pos: nat, p: nat, q: nat)
    requires HeaderCodable(names, ts, fh, lh, table)
    requires At(s, pos, EncodeHeader(names, ts, fh, lh, table))
    requires p == pos + |EncodeNames(names)| + 4 && q == pos + |EncodeHeader(names, ts, fh, lh, table)|
    ensures p <= |s| && TailReads(s, p, ts, fh, lh, table, q)
  {
    HeaderSplit(names, ts, fh, lh, table, s, pos, p, q);
    HeaderTailOfEncoded(ts, fh, lh, table, s, p, q);
  }

  /** HunkHeaderBlock.parse(write(b)) == b; the header ends at `end`. */
  lemma HeaderOfEncoded(names: seq<seq<Byte>>, ts: nat, fh: nat, lh: nat, table: seq<nat>,
                        s: seq<Byte>, pos: nat, end: nat)
    requires HeaderCodable(names, ts, fh, lh, table)
    requires At(s, pos, EncodeHeader(names, ts, fh, lh, table))
    requires end == pos + |EncodeHeader(names, ts, fh, lh, table)|
    ensures ParseHeader(s, pos) == Ok(Read(HeaderBlock(names, ts, fh, lh, table), end))
  {
    var p := pos + |EncodeNames(names)| + 4;
    NamesOfHeader(names, ts, fh, lh, table, s, pos, p, end);
    TailOfHeader(names, ts, fh, lh, table, s, pos, p, end);
    ParseHeaderOfParts(s, pos, names, p, ts, fh, lh, table, end);
  }
}
