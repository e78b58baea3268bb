/** Relocation tables read back as written: the long form
    (HunkRelocLongBlock) and the word form with its alignment word
    (HunkRelocWordBlock). */
module RelocRoundTrip {
  import opened Base
  import opened Blocks
  import opened BlockParse
  import opened BlockWrite
  import opened BlockRoundTrip

  /** The readers stop at the first group whose count is 0, so only groups
      with at least one offset survive a round trip. */
  predicate GroupsNonEmpty(groups: seq<RelocGroup>) {
    forall i :: 0 <= i < |groups| ==> groups[i].offsets != []
  }

  // ---------------------------------------------------------------------------
  // Long form

  /** The first group's longs, then the rest of the table. */
  lemma RelocLongLayout(groups: seq<RelocGroup>)
    requires GroupsLongWritable(groups) && groups != []
    ensures GroupsLongWritable(groups[1..])
    ensures |groups[0].offsets| < TWO_32 && groups[0].hunkNum < TWO_32 && Longs32(groups[0].offsets)
    ensures EncodeRelocLong(groups) ==
            Long(|groups[0].offsets|) + (Long(groups[0].hunkNum) +
            (EncodeLongs(groups[0].offsets) + EncodeRelocLong(groups[1..])))
  {
  }

  /** One turn of the long-form loop, from the results of its reads. */
  lemma RelocLongStep(s: seq<Byte>, pos: nat, acc: seq<RelocGroup>, g: RelocGroup, next: nat)
    requires pos <= |s| && g.offsets != []
    requires ReadLongAt(s, pos) == Ok(Read(|g.offsets|, pos + 4))
    requires ReadLongAt(s, pos + 4) == Ok(Read(g.hunkNum, pos + 8))
    requires LongsLoop(s, pos + 8, |g.offsets|, []) == Ok(Read(g.offsets, next))
    ensures next <= |s| && RelocLongLoop(s, pos, acc) == RelocLongLoop(s, next, acc + [g])
  {
  }

  /** One written group is read by one turn of the loop. */
  lemma GroupLongsAt(g: RelocGroup, rest: seq<Byte>, s: seq<Byte>, pos: nat, acc: seq<RelocGroup>, next: nat)
    requires |g.offsets| < TWO_32 && g.hunkNum < TWO_32 && Longs32(g.offsets) && g.offsets != []
    requires At(s, pos, Long(|g.offsets|) + (Long(g.hunkNum) + (EncodeLongs(g.offsets) + rest)))
    requires next == pos + 8 + 4 * |g.offsets|
    ensures next <= |s| && At(s, next, rest)
    ensures RelocLongLoop(s, pos, acc) == RelocLongLoop(s, next, acc + [g])
  {
    AtLong(s, pos, |g.offsets|, Long(g.hunkNum) + (EncodeLongs(g.offsets) + rest));
    AtLong(s, pos + 4, g.hunkNum, EncodeLongs(g.offsets) + rest);
    AtSplit(s, pos + 8, EncodeLongs(g.offsets), rest);
    LongsLoopOfEncoded(g.offsets, s, pos + 8, []);
    assert [] + g.offsets == g.offsets;
    RelocLongStep(s, pos, acc, g, next);
  }

  lemma {:induction false} RelocLongLoopOfEncoded(groups: seq<RelocGroup>, s: seq<Byte>, pos: nat,
                                                  acc: seq<RelocGroup>, end: nat)
    requires GroupsLongWritable(groups) && GroupsNonEmpty(groups)
    requires At(s, pos, EncodeRelocLong(groups)) && end == pos + |EncodeRelocLong(groups)|
    ensures RelocLongLoop(s, pos, acc) == Ok(Read(acc + groups, end))
    decreases groups
  {
    if groups == [] {
      assert EncodeRelocLong(groups) == Long(0) + [];
      AtLong(s, pos, 0, []);
      assert acc + groups == acc;
    } else {
      var next := pos + 8 + 4 * |groups[0].offsets|;
      RelocLongLayout(groups);
      GroupLongsAt(groups[0], EncodeRelocLong(groups[1..]), s, pos, acc, next);
      RelocLongLoopOfEncoded(groups[1..], s, next, acc + [groups[0]], end);
      ConsAppend(acc, groups);
    }
  }

  /** A group without offsets is written as a 0 count, which the reader takes
      for the terminator: the groups after it are lost. */
  lemma RelocLongEmptyGroupEnds(groups: seq<RelocGroup>, s: seq<Byte>, pos: nat, acc: seq<RelocGroup>)
    requires GroupsLongWritable(groups) && groups != [] && groups[0].offsets == []
    requires At(s, pos, EncodeRelocLong(groups))
    ensures RelocLongLoop(s, pos, acc) == Ok(Read(acc, pos + 4))
  {
    var g := groups[0];
    RelocLongLayout(groups);
    AtLong(s, pos, 0, Long(g.hunkNum) + (EncodeLongs(g.offsets) + EncodeRelocLong(groups[1..])));
  }

  // ---------------------------------------------------------------------------
  // Word form

  /** The 0 terminator and, when the words so far (terminator included) are
      odd in number, the alignment word. */
  function WordTail(words: nat): (r: seq<Byte>)
    ensures |r| == if words % 2 == 1 then 4 else 2
  {
    Word(0) + (if words % 2 == 1 then Word(0) else [])
  }

  /** The written word table is a whole number of longwords. */
  lemma RelocWordAligned(groups: seq<RelocGroup>)
    requires GroupsWordWritable(groups)
    ensures |EncodeRelocWord(groups)| % 4 == 0
  {
    var w := GroupWords(groups);
    var q := w / 2;
    if w % 2 == 0 {
      assert w == 2 * q && (w + 1) % 2 == 1;
      assert |EncodeRelocWord(groups)| == 4 * (q + 1);
    } else {
      assert w == 2 * q + 1 && (w + 1) % 2 == 0;
      assert |EncodeRelocWord(groups)| == 4 * (q + 1);
    }
  }

  /** The first group's words, then the rest of the table. */
  lemma RelocWordLayout(groups: seq<RelocGroup>, tail: seq<Byte>)
    requires GroupsWordWritable(groups) && groups != []
    ensures GroupsWordWritable(groups[1..])
    ensures |groups[0].offsets| < TWO_16 && groups[0].hunkNum < TWO_16 && Words16(groups[0].offsets)
    ensures EncodeWordGroups(groups) + tail ==
            Word(|groups[0].offsets|) + (Word(groups[0].hunkNum) +
            (EncodeWords(groups[0].offsets) + (EncodeWordGroups(groups[1..]) + tail)))
  {
  }

  lemma RelocWordStep(s: seq<Byte>, pos: nat, numWords: nat, acc: seq<RelocGroup>, g: RelocGroup, next: nat)
    requires pos <= |s| && g.offsets != []
    requires ReadWordAt(s, pos) == Ok(Read(|g.offsets|, pos + 2))
    requires ReadWordAt(s, pos + 2) == Ok(Read(g.hunkNum, pos + 4))
    requires WordsLoop(s, pos + 4, |g.offsets|, []) == Ok(Read(g.offsets, next))
    ensures next <= |s|
    ensures RelocWordLoop(s, pos, numWords, acc) ==
            RelocWordLoop(s, next, numWords + 2 + |g.offsets|, acc + [g])
  {
  }

  /** One written group is read by one turn of the loop. */
  lemma GroupWordsAt(g: RelocGroup, rest: seq<Byte>, s: seq<Byte>, pos: nat, numWords: nat,
                     acc: seq<RelocGroup>, next: nat)
    requires |g.offsets| < TWO_16 && g.hunkNum < TWO_16 && Words16(g.offsets) && g.offsets != []
    requires At(s, pos, Word(|g.offsets|) + (Word(g.hunkNum) + (EncodeWords(g.offsets) + rest)))
    requires next == pos + 4 + 2 * |g.offsets|
    ensures next <= |s| && At(s, next, rest)
    ensures RelocWordLoop(s, pos, numWords, acc) ==
            RelocWordLoop(s, next, numWords + 2 + |g.offsets|, acc + [g])
  {
    AtWord(s, pos, |g.offsets|, Word(g.hunkNum) + (EncodeWords(g.offsets) + rest));
    AtWord(s, pos + 2, g.hunkNum, EncodeWords(g.offsets) + rest);
    AtSplit(s, pos + 4, EncodeWords(g.offsets), rest);
    WordsLoopOfEncoded(g.offsets, s, pos + 4, []);
    assert [] + g.offsets == g.offsets;
    RelocWordStep(s, pos, numWords, acc, g, next);
  }

  /** The terminator, then the alignment word exactly when the count is odd. */
  lemma RelocWordEnd(s: seq<Byte>, pos: nat, numWords: nat, acc: seq<RelocGroup>, end: nat)
    requires At(s, pos, WordTail(numWords + 1)) && end == pos + |WordTail(numWords + 1)|
    ensures RelocWordLoop(s, pos, numWords, acc) == Ok(Read(acc, end))
  {
    if (numWords + 1) % 2 == 1 {
      assert WordTail(numWords + 1) == Word(0) + (Word(0) + []);
      AtWord(s, pos, 0, Word(0) + []);
      AtWord(s, pos + 2, 0, []);
    } else {
      assert WordTail(numWords + 1) == Word(0) + [];
      AtWord(s, pos, 0, []);
    }
  }

  /** total is the word count the writer reached, terminator included; it
      fixes the tail for every turn of the loop. */
  lemma {:induction false} RelocWordLoopOfEncoded(groups: seq<RelocGroup>, s: seq<Byte>, pos: nat,
                                                  numWords: nat, acc: seq<RelocGroup>, total: nat, end: nat)
    requires GroupsWordWritable(groups) && GroupsNonEmpty(groups)
    requires total == numWords + GroupWords(groups) + 1
    requires At(s, pos, EncodeWordGroups(groups) + WordTail(total))
    requires end == pos + 2 * GroupWords(groups) + |WordTail(total)|
    ensures RelocWordLoop(s, pos, numWords, acc) == Ok(Read(acc + groups, end))
    decreases groups
  {
    if groups == [] {
      assert EncodeWordGroups(groups) + WordTail(total) == WordTail(numWords + 1);
      RelocWordEnd(s, pos, numWords, acc, end);
      assert acc + groups == acc;
    } else {
      var g := groups[0];
      var next := pos + 4 + 2 * |g.offsets|;
      RelocWordLayout(groups, WordTail(total));
      GroupWordsAt(g, EncodeWordGroups(groups[1..]) + WordTail(total), s, pos, numWords, acc, next);
      RelocWordLoopOfEncoded(groups[1..], s, next, numWords + 2 + |g.offsets|, acc + [g], total, end);
      ConsAppend(acc, groups);
    }
  }

  /** HunkRelocWordBlock.parse(write(groups)) == groups, the alignment word
      consumed. */
  lemma RelocWordOfEncoded(groups: seq<RelocGroup>, s: seq<Byte>, pos: nat, end: nat)
    requires GroupsWordWritable(groups) && GroupsNonEmpty(groups)
    requires At(s, pos, EncodeRelocWord(groups)) && end == pos + |EncodeRelocWord(groups)|
    ensures RelocWordLoop(s, pos, 0, []) == Ok(Read(groups, end))
  {
    assert EncodeRelocWord(groups) == EncodeWordGroups(groups) + WordTail(GroupWords(groups) + 1);
    RelocWordLoopOfEncoded(groups, s, pos, 0, [], GroupWords(groups) + 1, end);
    assert [] + groups == groups;
  }
}
