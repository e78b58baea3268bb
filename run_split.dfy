/** The two rounds of HunkLoadSegFile.parse_block_file that cut the blocks
    after the header into one run per segment: the first splits at HUNK_END
    and checks every tag, the second drops runs without a segment block and
    cuts runs that hold several. */
module RunSplit {
  import opened Base
  import opened HunkIds
  import opened Blocks
  import opened LoadSeg

  predicate IsEndId(id: nat) { id == HUNK_END }
  predicate NotEndId(id: nat) { id != HUNK_END }

  /** A tag the first round lets through: HUNK_END, or one of the begin or
      extra tags. */
  predicate RoundValid(b: Block) {
    BlkId(b) == HUNK_END || IsBeginId(BlkId(b)) || IsExtraId(BlkId(b))
  }

  /** The runs laid end to end. */
  function Concat(runs: seq<seq<Block>>): seq<Block>
    decreases |runs|
  {
    if runs == [] then [] else Concat(runs[..|runs| - 1]) + runs[|runs| - 1]
  }

  lemma ConcatPush(runs: seq<seq<Block>>, r: seq<Block>)
    ensures Concat(runs + [r]) == Concat(runs) + r
  {
    assert (runs + [r])[..|runs|] == runs;
  }

  lemma {:induction false} ConcatAppend(a: seq<seq<Block>>, b: seq<seq<Block>>)
    ensures Concat(a + b) == Concat(a) + Concat(b)
    decreases |b|
  {
    if b == [] {
      assert a + b == a;
    } else {
      var last := b[|b| - 1];
      assert a + b == (a + b[..|b| - 1]) + [last];
      assert b == b[..|b| - 1] + [last];
      ConcatPush(a + b[..|b| - 1], last);
      ConcatPush(b[..|b| - 1], last);
      ConcatAppend(a, b[..|b| - 1]);
    }
  }

  /** cur.append(blk): the block added to the open run, the last one. */
  function Extend(runs: seq<seq<Block>>, b: Block): (r: seq<seq<Block>>)
    requires runs != []
    ensures |r| == |runs| && r[..|runs| - 1] == runs[..|runs| - 1]
    ensures r[|runs| - 1] == runs[|runs| - 1] + [b]
  {
    runs[..|runs| - 1] + [runs[|runs| - 1] + [b]]
  }

  lemma ConcatExtend(runs: seq<seq<Block>>, b: Block)
    requires runs != []
    ensures Concat(Extend(runs, b)) == Concat(runs) + [b]
  {
    var n := |runs|;
    assert runs == runs[..n - 1] + [runs[n - 1]];
    ConcatPush(runs[..n - 1], runs[n - 1]);
    ConcatPush(runs[..n - 1], runs[n - 1] + [b]);
  }

  // ---------------------------------------------------------------------------
  // First round: split at HUNK_END

  /** The first loop: open says whether cur is the last run of first (the
      Python list aliases it). */
  function FirstLoop(blks: seq<Block>, first: seq<seq<Block>>, open: bool): Result<seq<seq<Block>>>
    requires open ==> first != []
    decreases |blks|
  {
    if blks == [] then Ok(first)
    else
      var b := blks[0];
      var id := BlkId(b);
      if id == HUNK_END then FirstLoop(blks[1..], first, false)
      else if !IsBeginId(id) && !IsExtraId(id) then Err(InvalidBlock(id))
      else if !open then FirstLoop(blks[1..], first + [[b]], true)
      else FirstLoop(blks[1..], Extend(first, b), true)
  }

  function FirstRound(blks: seq<Block>): Result<seq<seq<Block>>>
  {
    FirstLoop(blks, [], false)
  }

  /** The first round fails exactly when some block has a tag outside the
      begin and extra lists (HUNK_END aside), and it names that tag. */
  lemma {:induction false} FirstLoopSucceeds(blks: seq<Block>, first: seq<seq<Block>>, open: bool)
    requires open ==> first != []
    ensures FirstLoop(blks, first, open).Ok? <==> forall i :: 0 <= i < |blks| ==> RoundValid(blks[i])
    ensures FirstLoop(blks, first, open).Err? ==>
            exists i :: 0 <= i < |blks| && !RoundValid(blks[i]) && FirstLoop(blks, first, open).error == InvalidBlock(BlkId(blks[i]))
    decreases |blks|
  {
    if blks != [] {
      var b := blks[0];
      if !RoundValid(b) {
        assert !RoundValid(blks[0]);
      } else {
        var next := if BlkId(b) == HUNK_END then first else if !open then first + [[b]] else Extend(first, b);
        FirstLoopSucceeds(blks[1..], next, BlkId(b) != HUNK_END);
        assert forall i :: 1 <= i < |blks| ==> blks[i] == blks[1..][i - 1];
        if FirstLoop(blks, first, open).Err? {
          var i :| 0 <= i < |blks[1..]| && !RoundValid(blks[1..][i]) && FirstLoop(blks, first, open).error == InvalidBlock(BlkId(blks[1..][i]));
          assert blks[i + 1] == blks[1..][i];
        }
      }
    }
  }

  /** No run is empty or holds a HUNK_END block. */
  predicate RunsClean(runs: seq<seq<Block>>) {
    forall i :: 0 <= i < |runs| ==> runs[i] != [] && Select(runs[i], IsEndId) == []
  }

  lemma SelectOne(b: Block, pick: nat -> bool)
    ensures Select([b], pick) == if pick(BlkId(b)) then [b] else []
  {
    assert [b][1..] == [];
  }

  /** Starting a run with, or adding to the open run, a block other than
      HUNK_END keeps the runs clean and adds the block at the end. */
  lemma StepClean(first: seq<seq<Block>>, b: Block, open: bool)
    requires open ==> first != []
    requires RunsClean(first) && BlkId(b) != HUNK_END
    ensures var next := if !open then first + [[b]] else Extend(first, b);
            RunsClean(next) && Concat(next) == Concat(first) + [b]
  {
    assert Select([b], IsEndId) == [] by { SelectOne(b, IsEndId); }
    if !open {
      var next := first + [[b]];
      ConcatPush(first, [b]);
      forall i | 0 <= i < |next|
        ensures next[i] != [] && Select(next[i], IsEndId) == []
      {
        if i < |first| {
          assert next[i] == first[i];
        }
      }
    } else {
      var next := Extend(first, b);
      var n := |first|;
      ConcatExtend(first, b);
      assert Select(next[n - 1], IsEndId) == [] by {
        SelectAppend(first[n - 1], [b], IsEndId);
      }
      forall i | 0 <= i < n
        ensures next[i] != [] && Select(next[i], IsEndId) == []
      {
        if i < n - 1 {
          assert next[i] == next[..n - 1][i] == first[..n - 1][i] == first[i];
        }
      }
    }
  }

  lemma {:induction false} FirstLoopClean(blks: seq<Block>, first: seq<seq<Block>>, open: bool)
    requires open ==> first != []
    requires RunsClean(first)
    requires FirstLoop(blks, first, open).Ok?
    ensures RunsClean(FirstLoop(blks, first, open).value)
    decreases |blks|
  {
    if blks != [] {
      var b := blks[0];
      if BlkId(b) == HUNK_END {
        FirstLoopClean(blks[1..], first, false);
      } else {
        StepClean(first, b, open);
        var next := if !open then first + [[b]] else Extend(first, b);
        assert FirstLoop(blks, first, open) == FirstLoop(blks[1..], next, true);
        FirstLoopClean(blks[1..], next, true);
      }
    }
  }

  lemma {:induction false} FirstLoopConcat(blks: seq<Block>, first: seq<seq<Block>>, open: bool)
    requires open ==> first != []
    requires FirstLoop(blks, first, open).Ok?
    ensures Concat(FirstLoop(blks, first, open).value) == Concat(first) + Select(blks, NotEndId)
    decreases |blks|
  {
    if blks == [] {
      assert Concat(first) + [] == Concat(first);
    } else {
      var b := blks[0];
      var x := Concat(first);
      var rest := Select(blks[1..], NotEndId);
      if BlkId(b) == HUNK_END {
        assert Select(blks, NotEndId) == [] + rest;
        FirstLoopConcat(blks[1..], first, false);
      } else {
        assert Select(blks, NotEndId) == [b] + rest;
        var next := if !open then first + [[b]] else Extend(first, b);
        if !open {
          ConcatPush(first, [b]);
        } else {
          ConcatExtend(first, b);
        }
        assert FirstLoop(blks, first, open) == FirstLoop(blks[1..], next, true);
        FirstLoopConcat(blks[1..], next, true);
        assert x + [b] + rest == x + ([b] + rest);
      }
    }
  }

  /** What the first round gives: runs that are neither empty nor hold
      HUNK_END, and that together hold every other block in order. */
  lemma FirstRoundSpec(blks: seq<Block>)
    ensures FirstRound(blks).Ok? <==> forall i :: 0 <= i < |blks| ==> RoundValid(blks[i])
    ensures FirstRound(blks).Ok? ==>
            RunsClean(FirstRound(blks).value) && Concat(FirstRound(blks).value) == Select(blks, NotEndId)
  {
    FirstLoopSucceeds(blks, [], false);
    if FirstRound(blks).Ok? {
      FirstLoopClean(blks, [], false);
      FirstLoopConcat(blks, [], false);
      assert Concat([]) + Select(blks, NotEndId) == Select(blks, NotEndId);
    }
  }

  /** The runs, each followed by HUNK_END, as create_block_file writes them. */
  function Terminated(runs: seq<seq<Block>>): seq<Block>
    decreases |runs|
  {
    if runs == [] then [] else runs[0] + [EndBlock] + Terminated(runs[1..])
  }

  /** A run the first round takes whole: not empty, no HUNK_END, tags from
      the begin and extra lists. */
  predicate RunOk(r: seq<Block>) {
    r != [] && forall i :: 0 <= i < |r| ==> BlkId(r[i]) != HUNK_END && RoundValid(r[i])
  }

  lemma {:induction false} FirstLoopInRun(r: seq<Block>, tail: seq<Block>, first: seq<seq<Block>>)
    requires first != []
    requires forall i :: 0 <= i < |r| ==> BlkId(r[i]) != HUNK_END && RoundValid(r[i])
    ensures FirstLoop(r + tail, first, true) ==
            FirstLoop(tail, first[..|first| - 1] + [first[|first| - 1] + r], true)
    decreases |r|
  {
    var n := |first|;
    if r == [] {
      assert r + tail == tail;
      assert first[n - 1] + r == first[n - 1];
      assert first[..n - 1] + [first[n - 1]] == first;
    } else {
      assert (r + tail)[0] == r[0] && (r + tail)[1..] == r[1..] + tail;
      var next := Extend(first, r[0]);
      FirstLoopInRun(r[1..], tail, next);
      assert next[n - 1] + r[1..] == first[n - 1] + r;
    }
  }

  lemma {:induction false} FirstLoopOfTerminated(runs: seq<seq<Block>>, first: seq<seq<Block>>)
    requires forall i :: 0 <= i < |runs| ==> RunOk(runs[i])
    ensures FirstLoop(Terminated(runs), first, false) == Ok(first + runs)
    decreases |runs|
  {
    if runs == [] {
      assert first + runs == first;
    } else {
      var r := runs[0];
      var tail := [EndBlock] + Terminated(runs[1..]);
      assert Terminated(runs) == [r[0]] + (r[1..] + tail);
      assert RunOk(r);
      FirstLoopInRun(r[1..], tail, first + [[r[0]]]);
      assert (first + [[r[0]]])[..|first|] == first;
      assert [r[0]] + r[1..] == r;
      assert tail[0] == EndBlock && tail[1..] == Terminated(runs[1..]);
      FirstLoopOfTerminated(runs[1..], first + [r]);
      assert first + [r] + runs[1..] == first + runs;
    }
  }

  /** The first round gives back the runs create_block_file separated with
      HUNK_END. */
  lemma FirstRoundOfTerminated(runs: seq<seq<Block>>)
    requires forall i :: 0 <= i < |runs| ==> RunOk(runs[i])
    ensures FirstRound(Terminated(runs)) == Ok(runs)
  {
    FirstLoopOfTerminated(runs, []);
    assert [] + runs == runs;
  }

  // ---------------------------------------------------------------------------
  // Second round: one segment block per run

  /** len(pos_seg): how many blocks of the run begin a segment. */
  function BeginCount(l: seq<Block>): nat {
    |Select(l, IsBeginId)|
  }

  /** The split loop: new_list is the last run of out when open, and the
      runs it starts go straight onto second. */
  function SplitLoop(l: seq<Block>, out: seq<seq<Block>>, open: bool): Result<seq<seq<Block>>>
    requires open ==> out != []
    decreases |l|
  {
    if l == [] then Ok(out)
    else if IsBeginId(BlkId(l[0])) then SplitLoop(l[1..], out + [[l[0]]], true)
    else if open then SplitLoop(l[1..], Extend(out, l[0]), true)
    else Err(CannotSplit)
  }

  function SecondLoop(first: seq<seq<Block>>, second: seq<seq<Block>>): Result<seq<seq<Block>>>
    decreases |first|
  {
    if first == [] then Ok(second)
    else
      var l := first[0];
      var n := BeginCount(l);
      if n == 1 then SecondLoop(first[1..], second + [l])
      else if n > 1 then
        var split :- SplitLoop(l, second, false);
        SecondLoop(first[1..], split)
      else SecondLoop(first[1..], second)
  }

  function SecondRound(first: seq<seq<Block>>): Result<seq<seq<Block>>>
  {
    SecondLoop(first, [])
  }

  /** A run the second round can handle: at most one segment block, or a
      segment block first. */
  predicate Splittable(l: seq<Block>) {
    BeginCount(l) <= 1 || (l != [] && IsBeginId(BlkId(l[0])))
  }

  predicate OneBeginEach(runs: seq<seq<Block>>) {
    forall i :: 0 <= i < |runs| ==> BeginCount(runs[i]) == 1
  }

  /** The runs that hold a segment block, in order. */
  function WithBegin(first: seq<seq<Block>>): (r: seq<seq<Block>>)
    ensures |r| <= |first|
    decreases |first|
  {
    if first == [] then []
    else (if BeginCount(first[0]) >= 1 then [first[0]] else []) + WithBegin(first[1..])
  }

  lemma {:induction false} SplitLoopSucceeds(l: seq<Block>, out: seq<seq<Block>>, open: bool)
    requires open ==> out != []
    ensures SplitLoop(l, out, open).Ok? <==> l == [] || open || IsBeginId(BlkId(l[0]))
    ensures SplitLoop(l, out, open).Err? ==> SplitLoop(l, out, open).error == CannotSplit
    decreases |l|
  {
    if l != [] {
      if IsBeginId(BlkId(l[0])) {
        SplitLoopSucceeds(l[1..], out + [[l[0]]], true);
      } else if open {
        SplitLoopSucceeds(l[1..], Extend(out, l[0]), true);
      }
    }
  }

  /** A block added by the split loop keeps one segment block per run. */
  lemma SplitStepOne(out: seq<seq<Block>>, b: Block, open: bool)
    requires open ==> out != []
    requires OneBeginEach(out)
    requires open || IsBeginId(BlkId(b))
    ensures OneBeginEach(if IsBeginId(BlkId(b)) then out + [[b]] else Extend(out, b))
  {
    var next := if IsBeginId(BlkId(b)) then out + [[b]] else Extend(out, b);
    SelectOne(b, IsBeginId);
    if !IsBeginId(BlkId(b)) {
      SelectAppend(out[|out| - 1], [b], IsBeginId);
      assert BeginCount(next[|out| - 1]) == 1;
    }
    forall i | 0 <= i < |next|
      ensures BeginCount(next[i]) == 1
    {
      if i < |out| - 1 {
        assert next[i] == out[i];
      } else if i == |out| - 1 && IsBeginId(BlkId(b)) {
        assert next[i] == out[i];
      }
    }
  }

  lemma {:induction false} SplitLoopOne(l: seq<Block>, out: seq<seq<Block>>, open: bool)
    requires open ==> out != []
    requires OneBeginEach(out)
    requires SplitLoop(l, out, open).Ok?
    ensures OneBeginEach(SplitLoop(l, out, open).value)
    decreases |l|
  {
    if l != [] {
      var b := l[0];
      var next := if IsBeginId(BlkId(b)) then out + [[b]] else Extend(out, b);
      SplitStepOne(out, b, open);
      assert SplitLoop(l, out, open) == SplitLoop(l[1..], next, true);
      SplitLoopOne(l[1..], next, true);
    }
  }

  lemma {:induction false} SplitLoopConcat(l: seq<Block>, out: seq<seq<Block>>, open: bool)
    requires open ==> out != []
    requires SplitLoop(l, out, open).Ok?
    ensures Concat(SplitLoop(l, out, open).value) == Concat(out) + l
    decreases |l|
  {
    if l == [] {
      assert Concat(out) + l == Concat(out);
    } else {
      var b := l[0];
      var next := if IsBeginId(BlkId(b)) then out + [[b]] else Extend(out, b);
      if IsBeginId(BlkId(b)) {
        ConcatPush(out, [b]);
      } else {
        ConcatExtend(out, b);
      }
      assert SplitLoop(l, out, open) == SplitLoop(l[1..], next, true);
      SplitLoopConcat(l[1..], next, true);
      var x := Concat(out);
      assert l == [b] + l[1..];
      assert x + [b] + l[1..] == x + ([b] + l[1..]);
    }
  }

  /** The second round fails, with "can't split", exactly when a run holds
      several segment blocks and starts with another block. */
  lemma {:induction false} SecondLoopSucceeds(first: seq<seq<Block>>, second: seq<seq<Block>>)
    ensures SecondLoop(first, second).Ok? <==> forall i :: 0 <= i < |first| ==> Splittable(first[i])
    ensures SecondLoop(first, second).Err? ==> SecondLoop(first, second).error == CannotSplit
    decreases |first|
  {
    if first != [] {
      var l := first[0];
      assert forall i :: 1 <= i < |first| ==> first[i] == first[1..][i - 1];
      if BeginCount(l) == 1 {
        SecondLoopSucceeds(first[1..], second + [l]);
      } else if BeginCount(l) > 1 {
        SplitLoopSucceeds(l, second, false);
        if SplitLoop(l, second, false).Ok? {
          SecondLoopSucceeds(first[1..], SplitLoop(l, second, false).value);
        }
      } else {
        SecondLoopSucceeds(first[1..], second);
      }
    }
  }

  lemma ConcatOne(l: seq<Block>)
    ensures Concat([l]) == l
  {
    ConcatPush([], l);
    assert [] + [l] == [l];
  }

  lemma ConcatCons(l: seq<Block>, w: seq<seq<Block>>)
    ensures Concat([l] + w) == l + Concat(w)
  {
    ConcatAppend([l], w);
    ConcatOne(l);
  }

  lemma Assoc(a: seq<Block>, b: seq<Block>, c: seq<Block>)
    ensures a + b + c == a + (b + c)
  {
  }

  lemma {:induction false} SecondLoopOne(first: seq<seq<Block>>, second: seq<seq<Block>>)
    requires OneBeginEach(second)
    requires SecondLoop(first, second).Ok?
    ensures OneBeginEach(SecondLoop(first, second).value)
    decreases |first|
  {
    if first != [] {
      var l := first[0];
      if BeginCount(l) == 1 {
        assert OneBeginEach(second + [l]) by {
          assert forall i :: 0 <= i < |second| ==> (second + [l])[i] == second[i];
        }
        SecondLoopOne(first[1..], second + [l]);
      } else if BeginCount(l) > 1 {
        SplitLoopOne(l, second, false);
        SecondLoopOne(first[1..], SplitLoop(l, second, false).value);
      } else {
        SecondLoopOne(first[1..], second);
      }
    }
  }

  lemma {:induction false} SecondLoopConcat(first: seq<seq<Block>>, second: seq<seq<Block>>)
    requires SecondLoop(first, second).Ok?
    ensures Concat(SecondLoop(first, second).value) == Concat(second) + Concat(WithBegin(first))
    decreases |first|
  {
    if first == [] {
      assert Concat(second) + [] == Concat(second);
    } else {
      var l := first[0];
      var w := WithBegin(first[1..]);
      var x := Concat(second);
      if BeginCount(l) >= 1 {
        var next := if BeginCount(l) == 1 then second + [l] else SplitLoop(l, second, false).value;
        if BeginCount(l) == 1 {
          ConcatPush(second, l);
        } else {
          SplitLoopConcat(l, second, false);
        }
        assert SecondLoop(first, second) == SecondLoop(first[1..], next);
        SecondLoopConcat(first[1..], next);
        assert WithBegin(first) == [l] + w;
        ConcatCons(l, w);
        Assoc(x, l, Concat(w));
      } else {
        assert SecondLoop(first, second) == SecondLoop(first[1..], second);
        SecondLoopConcat(first[1..], second);
        assert WithBegin(first) == w;
      }
    }
  }

  /** What the second round gives: when every run can be split, runs with
      exactly one segment block each, holding the blocks of the runs that had
      one, in order; runs without a segment block are dropped. */
  lemma SecondRoundSpec(first: seq<seq<Block>>)
    ensures SecondRound(first).Ok? <==> forall i :: 0 <= i < |first| ==> Splittable(first[i])
    ensures SecondRound(first).Err? ==> SecondRound(first).error == CannotSplit
    ensures SecondRound(first).Ok? ==>
            OneBeginEach(SecondRound(first).value) && Concat(SecondRound(first).value) == Concat(WithBegin(first))
  {
    SecondLoopSucceeds(first, []);
    if SecondRound(first).Ok? {
      SecondLoopOne(first, []);
      SecondLoopConcat(first, []);
      assert Concat([]) + Concat(WithBegin(first)) == Concat(WithBegin(first));
    }
  }

  lemma {:induction false} SecondLoopOfOne(first: seq<seq<Block>>, second: seq<seq<Block>>)
    requires OneBeginEach(first)
    ensures SecondLoop(first, second) == Ok(second + first)
    decreases |first|
  {
    if first == [] {
      assert second + first == second;
    } else {
      assert BeginCount(first[0]) == 1;
      SecondLoopOfOne(first[1..], second + [first[0]]);
      assert second + [first[0]] + first[1..] == second + first;
    }
  }

  /** Runs that each hold one segment block pass the second round as they
      are. */
  lemma SecondRoundOfOne(first: seq<seq<Block>>)
    requires OneBeginEach(first)
    ensures SecondRound(first) == Ok(first)
  {
    SecondLoopOfOne(first, []);
    assert [] + first == first;
  }

  // ---------------------------------------------------------------------------
  // The two rounds as parse_block_file runs them

  /** The first loop, with cur the open run. */
  method SplitAtEnd(blks: seq<Block>) returns (r: Result<seq<seq<Block>>>)
    ensures r == FirstRound(blks)
  {
    var first: seq<seq<Block>> := [];
    var open := false;
    var i := 0;
    while i < |blks|
      invariant i <= |blks| && (open ==> first != [])
      invariant FirstLoop(blks[i..], first, open) == FirstRound(blks)
    {
      var b := blks[i];
      var id := BlkId(b);
      assert blks[i..][0] == b && blks[i..][1..] == blks[i + 1..];
      if id == HUNK_END {
        open := false;
      } else {
        if !IsBeginId(id) && !IsExtraId(id) {
          return Err(InvalidBlock(id));
        }
        if !open {
          first := first + [[b]];
          open := true;
        } else {
          var cur := first[|first| - 1] + [b];
          first := first[..|first| - 1] + [cur];
        }
      }
      i := i + 1;
    }
    return Ok(first);
  }

  /** len(pos_seg), counted over the run. */
  method CountBegins(l: seq<Block>) returns (n: nat)
    ensures n == BeginCount(l)
  {
    n := 0;
    for j := 0 to |l|
      invariant n == BeginCount(l[..j])
    {
      assert l[..j + 1] == l[..j] + [l[j]];
      SelectAppend(l[..j], [l[j]], IsBeginId);
      SelectOne(l[j], IsBeginId);
      if IsBeginId(BlkId(l[j])) {
        n := n + 1;
      }
    }
    assert l[..|l|] == l;
  }

  /** The second loop: keep, cut or drop each run. */
  method SplitAtBegins(first: seq<seq<Block>>) returns (r: Result<seq<seq<Block>>>)
    ensures r == SecondRound(first)
  {
    var second: seq<seq<Block>> := [];
    for k := 0 to |first|
      invariant SecondLoop(first[k..], second) == SecondRound(first)
    {
      var l := first[k];
      assert first[k..][0] == l && first[k..][1..] == first[k + 1..];
      var n := CountBegins(l);
      if n == 1 {
        second := second + [l];
      } else if n > 1 {
        var open := false;
        var out := second;
        for j := 0 to |l|
          invariant open ==> out != []
          invariant SplitLoop(l[j..], out, open) == SplitLoop(l, second, false)
        {
          var b := l[j];
          assert l[j..][0] == b && l[j..][1..] == l[j + 1..];
          if IsBeginId(BlkId(b)) {
            out := out + [[b]];
            open := true;
          } else if open {
            var cur := out[|out| - 1] + [b];
            out := out[..|out| - 1] + [cur];
          } else {
            return Err(CannotSplit);
          }
        }
        second := out;
      }
    }
    return Ok(second);
  }
}
