/** The loops of the Hunk*Block.parse methods run with a cursor: each method
    reads from start, keeps the cursor and the values read so far in local
    variables, and returns what the matching function of BlockParse gives.
    The invariant of every loop is that finishing the loop from the current
    state gives the same result as the function from the start. */
module BlockReaders {
  import opened Base
  import opened Names
  import opened Blocks
  import opened BlockParse

  /** `for i in xrange(n): offsets.append(self._read_long(f))`. */
  method ReadLongs(s: seq<Byte>, start: nat, n: nat) returns (r: Result<Read<seq<nat>>>)
    requires start <= |s|
    ensures r == LongsLoop(s, start, n, [])
  {
    var pos: nat := start;
    var values: seq<nat> := [];
    for i := 0 to n
      invariant pos <= |s|
      invariant LongsLoop(s, pos, n - i, values) == LongsLoop(s, start, n, [])
    {
      var v :- ReadLongAt(s, pos);
      values := values + [v.value];
      pos := v.next;
    }
    return Ok(Read(values, pos));
  }

  /** The same loop over 16-bit words. */
  method ReadWords(s: seq<Byte>, start: nat, n: nat) returns (r: Result<Read<seq<nat>>>)
    requires start <= |s|
    ensures r == WordsLoop(s, start, n, [])
  {
    var pos: nat := start;
    var values: seq<nat> := [];
    for i := 0 to n
      invariant pos <= |s|
      invariant WordsLoop(s, pos, n - i, values) == WordsLoop(s, start, n, [])
    {
      var v :- ReadWordAt(s, pos);
      values := values + [v.value];
      pos := v.next;
    }
    return Ok(Read(values, pos));
  }

  // ---------------------------------------------------------------------------
  // HunkHeaderBlock.parse

  /** The resident-library names, up to a name of size 0. */
  method ReadHeaderNames(s: seq<Byte>, start: nat) returns (r: Result<Read<seq<seq<Byte>>>>)
    requires start <= |s|
    ensures r == HeaderNamesLoop(s, start, [])
  {
    var pos: nat := start;
    var names: seq<seq<Byte>> := [];
    while true
      invariant pos <= |s|
      invariant HeaderNamesLoop(s, pos, names) == HeaderNamesLoop(s, start, [])
      decreases |s| - pos
    {
      var nr :- ReadName(s, pos);
      match nr.value
      case NameShort =>
        return Err(BadHeaderNames);
      case NameOk(size, text) =>
        if size == 0 {
          return Ok(Read(names, nr.next));
        }
        names := names + [text];
        pos := nr.next;
    }
  }

  /** The size table: each entry ANDed with 0x3fffffff. */
  method ReadHunkSizes(s: seq<Byte>, start: nat, n: nat) returns (r: Result<Read<seq<nat>>>)
    requires start <= |s|
    ensures r == HunkSizesLoop(s, start, n, [])
  {
    var pos: nat := start;
    var table: seq<nat> := [];
    for i := 0 to n
      invariant pos <= |s|
      invariant HunkSizesLoop(s, pos, n - i, table) == HunkSizesLoop(s, start, n, [])
    {
      var v :- ReadLongAt(s, pos);
      table := table + [v.value % 0x4000_0000];
      pos := v.next;
    }
    return Ok(Read(table, pos));
  }

  method ReadHeader(s: seq<Byte>, start: nat) returns (r: Result<Read<Block>>)
    requires start <= |s|
    ensures r == ParseHeader(s, start)
  {
    var names :- ReadHeaderNames(s, start);
    var tableSize :- ReadLongAt(s, names.next);
    var first :- ReadLongAt(s, tableSize.next);
    var last :- ReadLongAt(s, first.next);
    var table :- ReadHunkSizes(s, last.next, HunkCount(first.value, last.value));
    return Ok(Read(HeaderBlock(names.value, tableSize.value, first.value, last.value, table.value), table.next));
  }

  // ---------------------------------------------------------------------------
  // HunkRelocLongBlock.parse, HunkRelocWordBlock.parse

  /** (num, hunk, offsets...) groups up to num == 0. */
  method ReadRelocLong(s: seq<Byte>, start: nat) returns (r: Result<Read<seq<RelocGroup>>>)
    requires start <= |s|
    ensures r == RelocLongLoop(s, start, [])
  {
    var pos: nat := start;
    var relocs: seq<RelocGroup> := [];
    while true
      invariant pos <= |s|
      invariant RelocLongLoop(s, pos, relocs) == RelocLongLoop(s, start, [])
      decreases |s| - pos
    {
      var num :- ReadLongAt(s, pos);
      if num.value == 0 {
        return Ok(Read(relocs, num.next));
      }
      var hunk :- ReadLongAt(s, num.next);
      var offsets :- ReadLongs(s, hunk.next, num.value);
      relocs := relocs + [RelocGroup(hunk.value, offsets.value)];
      pos := offsets.next;
    }
  }

  /** (num, hunk, offsets...) word groups up to num == 0, counting the words
      read; one pad word follows when that count is odd. */
  method ReadRelocWord(s: seq<Byte>, start: nat) returns (r: Result<Read<seq<RelocGroup>>>)
    requires start <= |s|
    ensures r == RelocWordLoop(s, start, 0, [])
  {
    var pos: nat := start;
    var numWords: nat := 0;
    var relocs: seq<RelocGroup> := [];
    while true
      invariant pos <= |s|
      invariant RelocWordLoop(s, pos, numWords, relocs) == RelocWordLoop(s, start, 0, [])
      decreases |s| - pos
    {
      var num :- ReadWordAt(s, pos);
      if num.value == 0 {
        numWords := numWords + 1;
        pos := num.next;
        break;
      }
      var hunk :- ReadWordAt(s, num.next);
      var offsets :- ReadWords(s, hunk.next, num.value);
      numWords := numWords + 1 + num.value + 1;
      relocs := relocs + [RelocGroup(hunk.value, offsets.value)];
      pos := offsets.next;
    }
    // pad to a longword
    if numWords % 2 == 1 {
      var pad :- ReadWordAt(s, pos);
      pos := pad.next;
    }
    return Ok(Read(relocs, pos));
  }

  // ---------------------------------------------------------------------------
  // HunkSymbolBlock.parse, HunkExtBlock.parse

  /** (name, offset) pairs up to a name of size 0. */
  method ReadSymbols(s: seq<Byte>, start: nat) returns (r: Result<Read<seq<SymbolEntry>>>)
    requires start <= |s|
    ensures r == SymbolLoop(s, start, [])
  {
    var pos: nat := start;
    var symbols: seq<SymbolEntry> := [];
    while true
      invariant pos <= |s|
      invariant SymbolLoop(s, pos, symbols) == SymbolLoop(s, start, [])
      decreases |s| - pos
    {
      var nr :- ReadName(s, pos);
      match nr.value
      case NameShort =>
        return Err(ShortRead);
      case NameOk(size, text) =>
        if size == 0 {
          return Ok(Read(symbols, nr.next));
        }
        var off :- ReadLongAt(s, nr.next);
        symbols := symbols + [SymbolEntry(text, off.value)];
        pos := off.next;
    }
  }

  /** Entries up to a zero tag longword. */
  method ReadExtEntries(s: seq<Byte>, start: nat) returns (r: Result<Read<seq<ExtEntry>>>)
    requires start <= |s|
    ensures r == ExtLoop(s, start, [])
  {
    var pos: nat := start;
    var entries: seq<ExtEntry> := [];
    while true
      invariant pos <= |s|
      invariant ExtLoop(s, pos, entries) == ExtLoop(s, start, [])
      decreases |s| - pos
    {
      var tag :- ReadLongAt(s, pos);
      if tag.value == 0 {
        return Ok(Read(entries, tag.next));
      }
      var extType := tag.value / TWO_24;
      var nr := ReadNameSize(s, tag.next, tag.value % TWO_24);
      match nr.value
      case NameShort =>
        return Err(ShortRead);
      case NameOk(_, text) =>
        var payload :- ParseExtPayload(s, nr.next, extType);
        entries := entries + [ExtEntry(text, extType, payload.value)];
        pos := payload.next;
    }
  }

  // ---------------------------------------------------------------------------
  // HunkIndexBlock.parse

  method ReadIndexDefs(s: seq<Byte>, start: nat, n: nat) returns (r: Result<Read<seq<IndexSymbolDef>>>)
    requires start <= |s|
    ensures r == IndexDefsLoop(s, start, n, [])
  {
    var pos: nat := start;
    var defs: seq<IndexSymbolDef> := [];
    for i := 0 to n
      invariant pos <= |s|
      invariant IndexDefsLoop(s, pos, n - i, defs) == IndexDefsLoop(s, start, n, [])
    {
      var nameOff :- ReadWordAt(s, pos);
      var value :- ReadWordAt(s, nameOff.next);
      var stype :- ReadWordAt(s, value.next);
      defs := defs + [IndexSymbolDef(nameOff.value, value.value, stype.value)];
      pos := stype.next;
    }
    return Ok(Read(defs, pos));
  }

  method ReadIndexHunk(s: seq<Byte>, start: nat) returns (r: Result<Read<IndexHunk>>)
    requires start <= |s|
    ensures r == ParseIndexHunk(s, start)
  {
    var nameOff :- ReadWordAt(s, start);
    var longs :- ReadWordAt(s, nameOff.next);
    var ctype :- ReadWordAt(s, longs.next);
    var numRefs :- ReadWordAt(s, ctype.next);
    var refs :- ReadWords(s, numRefs.next, numRefs.value);
    var numDefs :- ReadWordAt(s, refs.next);
    var defs :- ReadIndexDefs(s, numDefs.next, numDefs.value);
    return Ok(Read(IndexHunk(nameOff.value, longs.value, ctype.value, refs.value, defs.value), defs.next));
  }

  /** The n hunk records of one unit, each taken from the word budget. */
  method ReadIndexHunks(s: seq<Byte>, start: nat, n: nat, budget: int)
    returns (r: Result<Read<(seq<IndexHunk>, int)>>)
    requires start <= |s|
    ensures r == IndexHunksLoop(s, start, n, budget, [])
  {
    var pos: nat := start;
    var numWords: int := budget;
    var hunks: seq<IndexHunk> := [];
    var left: nat := n;
    while left > 0
      invariant pos <= |s|
      invariant IndexHunksLoop(s, pos, left, numWords, hunks) == IndexHunksLoop(s, start, n, budget, [])
    {
      var h :- ReadIndexHunk(s, pos);
      var left', numWords' := left - 1, numWords - IndexHunkWords(h.value);
      IndexHunksStep(s, pos, left, numWords, hunks, h, left', numWords');
      pos, left, numWords, hunks := h.next, left', numWords', hunks + [h.value];
    }
    return Ok(Read((hunks, numWords), pos));
  }

  /** One turn of the hunk loop; the counter and the budget after the turn
      are passed in, so that the loop can name them once. */
  lemma IndexHunksStep(s: seq<Byte>, pos: nat, n: nat, numWords: int, acc: seq<IndexHunk>,
                       h: Read<IndexHunk>, n': nat, numWords': int)
    requires pos <= |s| && 0 < n && ParseIndexHunk(s, pos) == Ok(h)
    requires n' == n - 1 && numWords' == numWords - IndexHunkWords(h.value)
    ensures IndexHunksLoop(s, pos, n, numWords, acc) == IndexHunksLoop(s, h.next, n', numWords', acc + [h.value])
  {
  }

  /** `while num_words > 1`: unit records, then the alignment word when one
      word of the budget is left. */
  method ReadIndexUnits(s: seq<Byte>, start: nat, budget: int) returns (r: Result<Read<seq<IndexUnit>>>)
    requires start <= |s|
    ensures r == IndexUnitsLoop(s, start, budget, [])
  {
    var pos: nat := start;
    var numWords: int := budget;
    var units: seq<IndexUnit> := [];
    while numWords > 1
      invariant pos <= |s|
      invariant IndexUnitsLoop(s, pos, numWords, units) == IndexUnitsLoop(s, start, budget, [])
      decreases numWords
    {
      var nameOff :- ReadWordAt(s, pos);
      var first :- ReadWordAt(s, nameOff.next);
      var numHunks :- ReadWordAt(s, first.next);
      var hunks :- ReadIndexHunks(s, numHunks.next, numHunks.value, numWords - 3);
      units := units + [IndexUnit(nameOff.value, first.value, hunks.value.0)];
      numWords := hunks.value.1;
      pos := hunks.next;
    }
    if numWords == 1 {
      var pad :- ReadWordAt(s, pos);
      pos := pad.next;
    }
    return Ok(Read(units, pos));
  }

  method ReadIndex(s: seq<Byte>, start: nat) returns (r: Result<Read<Block>>)
    requires start <= |s|
    ensures r == ParseIndex(s, start)
  {
    var numLongs :- ReadLongAt(s, start);
    var strSize :- ReadWordAt(s, numLongs.next);
    var strtab := ReadUpTo(s, strSize.next, strSize.value);
    var numWords: int := numLongs.value as int * 2 - strSize.value / 2 - 1;
    var units :- ReadIndexUnits(s, strtab.next, numWords);
    return Ok(Read(IndexBlock(strtab.value, units.value), units.next));
  }
}
