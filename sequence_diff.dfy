/** `find_misalignment_intervals` (utils/sequence_diff.py): the places where
    the running offset between two strings changes, read off the matching
    blocks that `difflib.SequenceMatcher.get_matching_blocks` returns. The
    blocks are an input here; `ValidBlocks` states what difflib promises
    about them. */
module SequenceDiff {
  import opened Wrappers

  /** A matching block: `ref[a..a+size) == pred[b..b+size)`. */
  datatype Block = Block(a: nat, b: nat, size: nat)

  /** One entry of the result: the gap between the end of the block before
      the shifted block and the start of the shifted block, in both
      strings, and how much the offset moved. */
  datatype Interval = Interval(
    startRef: nat, startPred: nat, endRef: nat, endPred: nat,
    offset: int, lyricRef: string, lyricPred: string)

  function Abs(x: int): nat {
    if x < 0 then -x else x
  }

  function Offset(m: Block): int {
    m.b - m.a
  }

  /** Python's `s[i:j]` for non-negative bounds: both clamped to the
      length, empty when they cross. */
  function Slice(s: string, i: nat, j: nat): (r: string)
    ensures |r| <= |s|
    ensures i <= j <= |s| ==> r == s[i..j]
    ensures j <= i ==> r == []
  {
    var lo := if i <= |s| then i else |s|;
    var hi := if j <= |s| then j else |s|;
    if lo <= hi then s[lo..hi] else []
  }

  /** A block the loop does not skip (utils/sequence_diff.py:27-34). */
  predicate Accepted(m: Block, minLen: int, tol: int) {
    m.size >= minLen && Abs(Offset(m)) <= tol
  }

  /** The interval utils/sequence_diff.py:38-46 builds for block `i`, with
      `last_match == matches[i - 1]`. */
  function GapInterval(ref: string, pred: string, ms: seq<Block>, i: nat, prev: int): Interval
    requires 1 <= i < |ms|
  {
    var last := ms[i - 1];
    var m := ms[i];
    Interval(
      last.a + last.size, last.b + last.size, m.a, m.b, Offset(m) - prev,
      Slice(ref, last.a + last.size, m.a), Slice(pred, last.b + last.size, m.b))
  }

  /** The `for i, match in enumerate(matches)` loop from block `i` on, with
      `prev_offset == prev` and the intervals `acc` found so far. `None`
      where line 37 reads `.a` from the stand-in dict, which happens when
      the very first block is accepted with a non-zero offset. */
  function Misalign(ref: string, pred: string, ms: seq<Block>, minLen: int, tol: int, i: nat, prev: int, acc: seq<Interval>)
    : Option<seq<Interval>>
    requires i <= |ms|
    decreases |ms| - i
  {
    if i == |ms| then Some(acc)
    else
      var m := ms[i];
      if !Accepted(m, minLen, tol) || Offset(m) == prev then Misalign(ref, pred, ms, minLen, tol, i + 1, prev, acc)
      else if i == 0 then None
      else Misalign(ref, pred, ms, minLen, tol, i + 1, Offset(m), acc + [GapInterval(ref, pred, ms, i, prev)])
  }

  function FindMisalignment(ref: string, pred: string, ms: seq<Block>, minLen: int, tol: int): Option<seq<Interval>> {
    Misalign(ref, pred, ms, minLen, tol, 0, 0, [])
  }

  /** utils/sequence_diff.py:20-50 with the blocks given. */
  method FindMisalignmentIntervals(ref: string, pred: string, matches: seq<Block>, minMatchLen: int, offsetTolerance: int)
    returns (r: Option<seq<Interval>>)
    ensures r == FindMisalignment(ref, pred, matches, minMatchLen, offsetTolerance)
  {
    var intervals: seq<Interval> := [];
    var prevOffset := 0;
    for i := 0 to |matches|
      invariant Misalign(ref, pred, matches, minMatchLen, offsetTolerance, i, prevOffset, intervals)
             == FindMisalignment(ref, pred, matches, minMatchLen, offsetTolerance)
    {
      var match_ := matches[i];
      if match_.size < minMatchLen {
        continue;
      }
      var offset := match_.b - match_.a;
      if Abs(offset) > offsetTolerance {
        continue;
      }
      if offset != prevOffset {
        if i == 0 {
          return None;
        }
        var lastMatch := matches[i - 1];
        var interval := Interval(
          lastMatch.a + lastMatch.size, lastMatch.b + lastMatch.size, match_.a, match_.b, offset - prevOffset,
          Slice(ref, lastMatch.a + lastMatch.size, match_.a), Slice(pred, lastMatch.b + lastMatch.size, match_.b));
        assert interval == GapInterval(ref, pred, matches, i, prevOffset);
        intervals := intervals + [interval];
        prevOffset := offset;
      }
    }
    r := Some(intervals);
  }

  // ---------------------------------------------------------------------
  // What difflib promises, and what the result then is
  // ---------------------------------------------------------------------

  /** `get_matching_blocks`: every block inside both strings and matching,
      blocks increasing and apart in both strings, and the last one the
      empty sentinel `(len(ref), len(pred), 0)`. */
  predicate ValidBlocks(ref: string, pred: string, ms: seq<Block>) {
    && |ms| >= 1
    && ms[|ms| - 1] == Block(|ref|, |pred|, 0)
    && (forall k :: 0 <= k < |ms| ==> ms[k].a + ms[k].size <= |ref| && ms[k].b + ms[k].size <= |pred|)
    && (forall k :: 0 <= k < |ms| ==> ref[ms[k].a..ms[k].a + ms[k].size] == pred[ms[k].b..ms[k].b + ms[k].size])
    && (forall k, l :: 0 <= k < l < |ms| ==> ms[k].a + ms[k].size <= ms[l].a && ms[k].b + ms[k].size <= ms[l].b)
  }

  /** The value of `prev_offset` when the loop ends; either still `prev` or
      the offset of an accepted block. */
  function FinalOffset(ms: seq<Block>, minLen: int, tol: int, i: nat, prev: int): (r: int)
    requires i <= |ms|
    ensures r == prev || Abs(r) <= tol
    decreases |ms| - i
  {
    if i == |ms| then prev
    else if Accepted(ms[i], minLen, tol) && Offset(ms[i]) != prev then FinalOffset(ms, minLen, tol, i + 1, Offset(ms[i]))
    else FinalOffset(ms, minLen, tol, i + 1, prev)
  }

  function OffsetSum(ivs: seq<Interval>): int {
    if ivs == [] then 0 else OffsetSum(ivs[..|ivs| - 1]) + ivs[|ivs| - 1].offset
  }

  /** The value `prev_offset` holds when block `j` is reached: the offset
      of the last accepted block before `j`, or 0 when there is none. */
  function Running(ms: seq<Block>, minLen: int, tol: int, j: nat): int
    requires j <= |ms|
  {
    if j == 0 then 0
    else if Accepted(ms[j - 1], minLen, tol) then Offset(ms[j - 1])
    else Running(ms, minLen, tol, j - 1)
  }

  /** Block `j` is accepted and moves the offset away from `Running`. */
  predicate Shifted(ms: seq<Block>, minLen: int, tol: int, j: nat)
    requires j < |ms|
  {
    Accepted(ms[j], minLen, tol) && Offset(ms[j]) != Running(ms, minLen, tol, j)
  }

  /** The interval the loop appends at block `i`, if any: the gap before
      it when it is shifted (block 0 has no gap before it). */
  function GapAt(ref: string, pred: string, ms: seq<Block>, minLen: int, tol: int, i: nat): seq<Interval>
    requires i < |ms|
  {
    if i >= 1 && Shifted(ms, minLen, tol, i) then [GapInterval(ref, pred, ms, i, Running(ms, minLen, tol, i))] else []
  }

  /** Reference for the result: the gaps before the shifted blocks from
      `i` on, in block order. */
  function Gaps(ref: string, pred: string, ms: seq<Block>, minLen: int, tol: int, i: nat): seq<Interval>
    requires i <= |ms|
    decreases |ms| - i
  {
    if i == |ms| then [] else GapAt(ref, pred, ms, minLen, tol, i) + Gaps(ref, pred, ms, minLen, tol, i + 1)
  }

  /** Interval `iv` is the gap before block `i`: block `i` is accepted and
      moves the offset, `iv` runs from the end of the raw block `i - 1`,
      accepted or not, to the start of block `i`, and records the move. */
  predicate GapBefore(ref: string, pred: string, ms: seq<Block>, minLen: int, tol: int, i: nat, iv: Interval)
    requires 1 <= i < |ms|
  {
    var last := ms[i - 1];
    && Shifted(ms, minLen, tol, i)
    && iv.offset == Offset(ms[i]) - Running(ms, minLen, tol, i)
    && iv.startRef == last.a + last.size && iv.startPred == last.b + last.size
    && iv.endRef == ms[i].a && iv.endPred == ms[i].b
    && iv.lyricRef == Slice(ref, iv.startRef, iv.endRef) && iv.lyricPred == Slice(pred, iv.startPred, iv.endPred)
  }

  /** `iv` is the gap before some shifted block. */
  predicate IsGap(ref: string, pred: string, ms: seq<Block>, minLen: int, tol: int, iv: Interval) {
    exists j :: 1 <= j < |ms| && GapBefore(ref, pred, ms, minLen, tol, j, iv)
  }

  /** `GapBefore` pins the interval down completely. */
  lemma GapBeforeIs(ref: string, pred: string, ms: seq<Block>, minLen: int, tol: int, j: nat, iv: Interval)
    requires 1 <= j < |ms|
    ensures GapBefore(ref, pred, ms, minLen, tol, j, iv)
        <==> Shifted(ms, minLen, tol, j) && iv == GapInterval(ref, pred, ms, j, Running(ms, minLen, tol, j))
  {
  }

  /** One turn of the loop, started with `prev_offset` equal to `Running`,
      appends `GapAt` and leaves `Running` of the next block. */
  lemma MisalignStep(ref: string, pred: string, ms: seq<Block>, minLen: int, tol: int, i: nat, acc: seq<Interval>)
    requires i < |ms| && (i == 0 ==> !Shifted(ms, minLen, tol, 0))
    ensures Misalign(ref, pred, ms, minLen, tol, i, Running(ms, minLen, tol, i), acc)
        == Misalign(ref, pred, ms, minLen, tol, i + 1, Running(ms, minLen, tol, i + 1), acc + GapAt(ref, pred, ms, minLen, tol, i))
  {
    assert Running(ms, minLen, tol, i + 1) == if Accepted(ms[i], minLen, tol) then Offset(ms[i]) else Running(ms, minLen, tol, i);
    if !(i >= 1 && Shifted(ms, minLen, tol, i)) {
      assert acc + [] == acc;
    }
  }

  lemma MisalignEnd(ref: string, pred: string, ms: seq<Block>, minLen: int, tol: int, prev: int, acc: seq<Interval>)
    ensures Misalign(ref, pred, ms, minLen, tol, |ms|, prev, acc) == Some(acc + Gaps(ref, pred, ms, minLen, tol, |ms|))
  {
    assert acc + [] == acc;
  }

  lemma GapsUnfold(ref: string, pred: string, ms: seq<Block>, minLen: int, tol: int, i: nat, acc: seq<Interval>)
    requires i < |ms|
    ensures acc + GapAt(ref, pred, ms, minLen, tol, i) + Gaps(ref, pred, ms, minLen, tol, i + 1) == acc + Gaps(ref, pred, ms, minLen, tol, i)
  {
    var here := GapAt(ref, pred, ms, minLen, tol, i);
    var rest := Gaps(ref, pred, ms, minLen, tol, i + 1);
    assert acc + here + rest == acc + (here + rest);
  }

  /** Started with `prev_offset` equal to `Running`, the loop appends
      exactly `Gaps`. */
  lemma {:induction false} MisalignExact(ref: string, pred: string, ms: seq<Block>, minLen: int, tol: int, i: nat, acc: seq<Interval>)
    requires i <= |ms| && (i == 0 && |ms| > 0 ==> !Shifted(ms, minLen, tol, 0))
    ensures Misalign(ref, pred, ms, minLen, tol, i, Running(ms, minLen, tol, i), acc) == Some(acc + Gaps(ref, pred, ms, minLen, tol, i))
    decreases |ms| - i
  {
    if i == |ms| {
      MisalignEnd(ref, pred, ms, minLen, tol, Running(ms, minLen, tol, i), acc);
    } else {
      var acc' := acc + GapAt(ref, pred, ms, minLen, tol, i);
      MisalignStep(ref, pred, ms, minLen, tol, i, acc);
      MisalignExact(ref, pred, ms, minLen, tol, i + 1, acc');
      GapsUnfold(ref, pred, ms, minLen, tol, i, acc);
      calc {
        Misalign(ref, pred, ms, minLen, tol, i, Running(ms, minLen, tol, i), acc);
        Misalign(ref, pred, ms, minLen, tol, i + 1, Running(ms, minLen, tol, i + 1), acc');
        Some(acc' + Gaps(ref, pred, ms, minLen, tol, i + 1));
        Some(acc + Gaps(ref, pred, ms, minLen, tol, i));
      }
    }
  }

  /** The whole loop: it fails exactly when block 0 is shifted, and
      otherwise returns exactly `Gaps`. */
  lemma FindMisalignmentExact(ref: string, pred: string, ms: seq<Block>, minLen: int, tol: int)
    ensures FindMisalignment(ref, pred, ms, minLen, tol)
        == if ms != [] && Shifted(ms, minLen, tol, 0) then None else Some(Gaps(ref, pred, ms, minLen, tol, 0))
  {
    if !(ms != [] && Shifted(ms, minLen, tol, 0)) {
      MisalignExact(ref, pred, ms, minLen, tol, 0, []);
      assert [] + Gaps(ref, pred, ms, minLen, tol, 0) == Gaps(ref, pred, ms, minLen, tol, 0);
    }
  }

  lemma GapAtMember(ref: string, pred: string, ms: seq<Block>, minLen: int, tol: int, i: nat, iv: Interval)
    requires i < |ms|
    ensures iv in GapAt(ref, pred, ms, minLen, tol, i) <==> 1 <= i && GapBefore(ref, pred, ms, minLen, tol, i, iv)
  {
    if i >= 1 {
      GapBeforeIs(ref, pred, ms, minLen, tol, i, iv);
    }
  }

  /** Every interval in `Gaps` from `i` is the gap before some block at
      or after `i`. */
  lemma {:induction false} GapsSound(ref: string, pred: string, ms: seq<Block>, minLen: int, tol: int, i: nat, iv: Interval)
    requires i <= |ms| && iv in Gaps(ref, pred, ms, minLen, tol, i)
    ensures exists j :: i <= j < |ms| && 1 <= j && GapBefore(ref, pred, ms, minLen, tol, j, iv)
    decreases |ms| - i
  {
    var here := GapAt(ref, pred, ms, minLen, tol, i);
    assert Gaps(ref, pred, ms, minLen, tol, i) == here + Gaps(ref, pred, ms, minLen, tol, i + 1);
    if iv in here {
      GapAtMember(ref, pred, ms, minLen, tol, i, iv);
    } else {
      GapsSound(ref, pred, ms, minLen, tol, i + 1, iv);
    }
  }

  /** The gap before every shifted block at or after `i` is in `Gaps`
      from `i`. */
  lemma {:induction false} GapsComplete(ref: string, pred: string, ms: seq<Block>, minLen: int, tol: int, i: nat, j: nat, iv: Interval)
    requires i <= j < |ms| && 1 <= j && GapBefore(ref, pred, ms, minLen, tol, j, iv)
    ensures iv in Gaps(ref, pred, ms, minLen, tol, i)
    decreases j - i
  {
    var here := GapAt(ref, pred, ms, minLen, tol, i);
    assert Gaps(ref, pred, ms, minLen, tol, i) == here + Gaps(ref, pred, ms, minLen, tol, i + 1);
    if i == j {
      GapAtMember(ref, pred, ms, minLen, tol, i, iv);
    } else {
      GapsComplete(ref, pred, ms, minLen, tol, i + 1, j, iv);
    }
  }

  /** The offset the loop ends with is `Running` after the last block:
      the offset of the last accepted block, or 0. */
  lemma {:induction false} FinalIsRunning(ms: seq<Block>, minLen: int, tol: int, i: nat)
    requires i <= |ms|
    ensures FinalOffset(ms, minLen, tol, i, Running(ms, minLen, tol, i)) == Running(ms, minLen, tol, |ms|)
    decreases |ms| - i
  {
    if i < |ms| {
      assert Running(ms, minLen, tol, i + 1) == if Accepted(ms[i], minLen, tol) then Offset(ms[i]) else Running(ms, minLen, tol, i);
      FinalIsRunning(ms, minLen, tol, i + 1);
    }
  }

  /** The loop fails exactly when its first block is accepted with a
      non-zero offset. */
  lemma FailsExactly(ref: string, pred: string, ms: seq<Block>, minLen: int, tol: int)
    ensures FindMisalignment(ref, pred, ms, minLen, tol).None?
        <==> ms != [] && Accepted(ms[0], minLen, tol) && Offset(ms[0]) != 0
  {
    if ms != [] && !(Accepted(ms[0], minLen, tol) && Offset(ms[0]) != 0) {
      NeverFailsAfterFirst(ref, pred, ms, minLen, tol, 1, 0, []);
    }
  }

  lemma {:induction false} NeverFailsAfterFirst(ref: string, pred: string, ms: seq<Block>, minLen: int, tol: int, i: nat, prev: int, acc: seq<Interval>)
    requires 1 <= i <= |ms|
    ensures Misalign(ref, pred, ms, minLen, tol, i, prev, acc).Some?
    decreases |ms| - i
  {
    if i < |ms| {
      NeverFailsAfterFirst(ref, pred, ms, minLen, tol, i + 1, prev, acc);
      NeverFailsAfterFirst(ref, pred, ms, minLen, tol, i + 1, Offset(ms[i]), acc + [GapInterval(ref, pred, ms, i, prev)]);
    }
  }

  /** The loop only appends. */
  lemma {:induction false} MisalignExtends(ref: string, pred: string, ms: seq<Block>, minLen: int, tol: int, i: nat, prev: int, acc: seq<Interval>)
    requires i <= |ms|
    ensures var r := Misalign(ref, pred, ms, minLen, tol, i, prev, acc);
      r.Some? ==> |r.value| >= |acc| && r.value[..|acc|] == acc
    decreases |ms| - i
  {
    if i < |ms| {
      MisalignExtends(ref, pred, ms, minLen, tol, i + 1, prev, acc);
      if i >= 1 {
        var acc' := acc + [GapInterval(ref, pred, ms, i, prev)];
        MisalignExtends(ref, pred, ms, minLen, tol, i + 1, Offset(ms[i]), acc');
        var r := Misalign(ref, pred, ms, minLen, tol, i + 1, Offset(ms[i]), acc');
        if r.Some? && |r.value| >= |acc'| {
          assert r.value[..|acc|] == r.value[..|acc'|][..|acc|];
        }
      }
    }
  }

  /** The moves recorded add up to the offset the loop ends with. */
  lemma {:induction false} MisalignSum(ref: string, pred: string, ms: seq<Block>, minLen: int, tol: int, i: nat, prev: int, acc: seq<Interval>)
    requires i <= |ms| && OffsetSum(acc) == prev
    ensures var r := Misalign(ref, pred, ms, minLen, tol, i, prev, acc);
      r.Some? ==> OffsetSum(r.value) == FinalOffset(ms, minLen, tol, i, prev)
    decreases |ms| - i
  {
    if i < |ms| {
      MisalignSum(ref, pred, ms, minLen, tol, i + 1, prev, acc);
      if i >= 1 {
        var acc' := acc + [GapInterval(ref, pred, ms, i, prev)];
        assert acc'[..|acc|] == acc;
        MisalignSum(ref, pred, ms, minLen, tol, i + 1, Offset(ms[i]), acc');
      }
    }
  }

  /** The whole loop: no interval records a zero move, the moves add up to
      the final `prev_offset`, which is the offset of the last accepted
      block (or 0) and so 0 or within the tolerance, and the intervals are
      exactly the gaps before the shifted blocks. */
  lemma FindMisalignmentSpec(ref: string, pred: string, ms: seq<Block>, minLen: int, tol: int)
    ensures var r := FindMisalignment(ref, pred, ms, minLen, tol);
      r.Some? ==>
        && (forall k :: 0 <= k < |r.value| ==> r.value[k].offset != 0)
        && OffsetSum(r.value) == FinalOffset(ms, minLen, tol, 0, 0) == Running(ms, minLen, tol, |ms|)
        && (OffsetSum(r.value) == 0 || Abs(OffsetSum(r.value)) <= tol)
        && forall iv :: iv in r.value <==> IsGap(ref, pred, ms, minLen, tol, iv)
  {
    MisalignSum(ref, pred, ms, minLen, tol, 0, 0, []);
    FinalIsRunning(ms, minLen, tol, 0);
    FindMisalignmentExact(ref, pred, ms, minLen, tol);
    var r := FindMisalignment(ref, pred, ms, minLen, tol);
    if r.Some? {
      forall iv
        ensures iv in r.value <==> IsGap(ref, pred, ms, minLen, tol, iv)
      {
        if iv in r.value {
          GapsSound(ref, pred, ms, minLen, tol, 0, iv);
        }
        if IsGap(ref, pred, ms, minLen, tol, iv) {
          var j :| 1 <= j < |ms| && GapBefore(ref, pred, ms, minLen, tol, j, iv);
          GapsComplete(ref, pred, ms, minLen, tol, 0, j, iv);
        }
      }
      forall k | 0 <= k < |r.value|
        ensures r.value[k].offset != 0
      {
        assert r.value[k] in r.value;
      }
    }
  }

  /** With difflib's blocks the gaps are exact slices, never reversed. */
  lemma GapIsSlice(ref: string, pred: string, ms: seq<Block>, minLen: int, tol: int, j: nat, iv: Interval)
    requires ValidBlocks(ref, pred, ms) && 1 <= j < |ms| && GapBefore(ref, pred, ms, minLen, tol, j, iv)
    ensures iv.startRef <= iv.endRef <= |ref| && iv.lyricRef == ref[iv.startRef..iv.endRef]
    ensures iv.startPred <= iv.endPred <= |pred| && iv.lyricPred == pred[iv.startPred..iv.endPred]
  {
    assert ms[j - 1].a + ms[j - 1].size <= ms[j].a;
  }

  /** Blocks that never shift (`a == b` throughout) give no interval; in
      particular `ref == pred`, whose blocks are the whole string and the
      sentinel. */
  lemma {:induction false} NoShiftNoInterval(ref: string, pred: string, ms: seq<Block>, minLen: int, tol: int, i: nat)
    requires i <= |ms|
    requires forall k :: 0 <= k < |ms| ==> ms[k].a == ms[k].b
    ensures Misalign(ref, pred, ms, minLen, tol, i, 0, []) == Some([])
    decreases |ms| - i
  {
    if i < |ms| {
      NoShiftNoInterval(ref, pred, ms, minLen, tol, i + 1);
    }
  }

  lemma Identical(s: string, minLen: int, tol: int)
    ensures FindMisalignment(s, s, [Block(0, 0, |s|), Block(|s|, |s|, 0)], minLen, tol) == Some([])
    ensures ValidBlocks(s, s, [Block(0, 0, |s|), Block(|s|, |s|, 0)])
  {
    NoShiftNoInterval(s, s, [Block(0, 0, |s|), Block(|s|, |s|, 0)], minLen, tol, 0);
  }

  /** The blocks difflib finds for `abcdef` against `abXdef`: `ab`, `def`
      and the sentinel. */
  lemma SubstitutionBlocks()
    ensures ValidBlocks("abcdef", "abXdef", [Block(0, 0, 2), Block(3, 3, 3), Block(6, 6, 0)])
  {
    assert "abcdef"[0..2] == "abXdef"[0..2];
    assert "abcdef"[3..6] == "abXdef"[3..6];
  }

  /** A single substituted character moves no block, so no interval is
      reported for it. */
  lemma SubstitutionNoInterval(minLen: int, tol: int)
    ensures FindMisalignment("abcdef", "abXdef", [Block(0, 0, 2), Block(3, 3, 3), Block(6, 6, 0)], minLen, tol) == Some([])
  {
    NoShiftNoInterval("abcdef", "abXdef", [Block(0, 0, 2), Block(3, 3, 3), Block(6, 6, 0)], minLen, tol, 0);
  }

  /** A block the filters reject leaves the rest of the loop as it was: it
      adds no interval and does not move `prev_offset`. */
  lemma SkippedBlock(ref: string, pred: string, ms: seq<Block>, minLen: int, tol: int, i: nat, prev: int, acc: seq<Interval>)
    requires i < |ms| && !Accepted(ms[i], minLen, tol)
    ensures Misalign(ref, pred, ms, minLen, tol, i, prev, acc) == Misalign(ref, pred, ms, minLen, tol, i + 1, prev, acc)
    ensures FinalOffset(ms, minLen, tol, i, prev) == FinalOffset(ms, minLen, tol, i + 1, prev)
  {
  }

  /** Each interval ends no later than the next one starts, in both
      strings. */
  predicate Ordered(g: seq<Interval>) {
    forall k :: 0 <= k < |g| - 1 ==> g[k].endRef <= g[k + 1].startRef && g[k].endPred <= g[k + 1].startPred
  }

  /** Every interval starts at or after `a` in `ref` and `b` in `pred`. */
  predicate StartsAfter(g: seq<Interval>, a: int, b: int) {
    forall k :: 0 <= k < |g| ==> a <= g[k].startRef && b <= g[k].startPred
  }

  lemma OrderedCons(here: seq<Interval>, rest: seq<Interval>, a: int, b: int)
    requires |here| <= 1 && Ordered(rest) && StartsAfter(rest, a, b) && EndsBefore(here, a, b)
    ensures Ordered(here + rest)
  {
    var g := here + rest;
    forall k | 0 <= k < |g| - 1
      ensures g[k].endRef <= g[k + 1].startRef && g[k].endPred <= g[k + 1].startPred
    {
      if k < |here| {
        assert g[k] == here[k] && g[k + 1] == rest[0];
      } else {
        assert g[k] == rest[k - |here|] && g[k + 1] == rest[k - |here| + 1];
      }
    }
  }

  lemma StartsAfterCons(here: seq<Interval>, rest: seq<Interval>, a: int, b: int)
    requires StartsAfter(here, a, b) && StartsAfter(rest, a, b)
    ensures StartsAfter(here + rest, a, b)
  {
    var g := here + rest;
    forall k | 0 <= k < |g|
      ensures a <= g[k].startRef && b <= g[k].startPred
    {
      if k < |here| {
        assert g[k] == here[k];
      } else {
        assert g[k] == rest[k - |here|];
      }
    }
  }

  /** Each block ends before every later block starts, in both strings. */
  predicate Chained(ms: seq<Block>) {
    forall k, l :: 0 <= k < l < |ms| ==> ms[k].a + ms[k].size <= ms[l].a && ms[k].b + ms[k].size <= ms[l].b
  }

  /** Every interval ends at or before `a` in `ref` and `b` in `pred`. */
  predicate EndsBefore(g: seq<Interval>, a: int, b: int) {
    forall k :: 0 <= k < |g| ==> g[k].endRef <= a && g[k].endPred <= b
  }

  lemma GapAtBounds(ref: string, pred: string, ms: seq<Block>, minLen: int, tol: int, i: nat)
    requires 1 <= i < |ms|
    ensures |GapAt(ref, pred, ms, minLen, tol, i)| <= 1
    ensures StartsAfter(GapAt(ref, pred, ms, minLen, tol, i), ms[i - 1].a + ms[i - 1].size, ms[i - 1].b + ms[i - 1].size)
    ensures EndsBefore(GapAt(ref, pred, ms, minLen, tol, i), ms[i].a, ms[i].b)
  {
  }

  lemma EndsBeforeWeaker(g: seq<Interval>, a: int, b: int, a1: int, b1: int)
    requires EndsBefore(g, a, b) && a <= a1 && b <= b1
    ensures EndsBefore(g, a1, b1)
  {
  }

  lemma StartsAfterWeaker(g: seq<Interval>, a: int, b: int, a0: int, b0: int)
    requires StartsAfter(g, a, b) && a0 <= a && b0 <= b
    ensures StartsAfter(g, a0, b0)
  {
  }

  /** With chained blocks the gaps from block `i` on start after block
      `i - 1` ends, come in order and never overlap, in both strings. */
  lemma {:induction false} GapsInOrder(ref: string, pred: string, ms: seq<Block>, minLen: int, tol: int, i: nat)
    requires Chained(ms) && 1 <= i <= |ms|
    ensures Ordered(Gaps(ref, pred, ms, minLen, tol, i))
    ensures StartsAfter(Gaps(ref, pred, ms, minLen, tol, i), ms[i - 1].a + ms[i - 1].size, ms[i - 1].b + ms[i - 1].size)
    decreases |ms| - i
  {
    if i < |ms| {
      ChainedStep(ms, i);
      GapsInOrder(ref, pred, ms, minLen, tol, i + 1);
      GapsCons(ref, pred, ms, minLen, tol, i);
    }
  }

  lemma ChainedStep(ms: seq<Block>, i: nat)
    requires Chained(ms) && 1 <= i < |ms|
    ensures ms[i - 1].a + ms[i - 1].size <= ms[i].a && ms[i - 1].b + ms[i - 1].size <= ms[i].b
  {
  }

  /** The gap at block `i`, if any, followed by the ordered gaps after it. */
  lemma GapsCons(ref: string, pred: string, ms: seq<Block>, minLen: int, tol: int, i: nat)
    requires 1 <= i < |ms|
    requires ms[i - 1].a + ms[i - 1].size <= ms[i].a && ms[i - 1].b + ms[i - 1].size <= ms[i].b
    requires Ordered(Gaps(ref, pred, ms, minLen, tol, i + 1))
    requires StartsAfter(Gaps(ref, pred, ms, minLen, tol, i + 1), ms[i].a + ms[i].size, ms[i].b + ms[i].size)
    ensures Ordered(Gaps(ref, pred, ms, minLen, tol, i))
    ensures StartsAfter(Gaps(ref, pred, ms, minLen, tol, i), ms[i - 1].a + ms[i - 1].size, ms[i - 1].b + ms[i - 1].size)
  {
    var a, b := ms[i - 1].a + ms[i - 1].size, ms[i - 1].b + ms[i - 1].size;
    var a', b' := ms[i].a + ms[i].size, ms[i].b + ms[i].size;
    var here := GapAt(ref, pred, ms, minLen, tol, i);
    var rest := Gaps(ref, pred, ms, minLen, tol, i + 1);
    GapAtBounds(ref, pred, ms, minLen, tol, i);
    EndsBeforeWeaker(here, ms[i].a, ms[i].b, a', b');
    assert Gaps(ref, pred, ms, minLen, tol, i) == here + rest;
    OrderedCons(here, rest, a', b');
    StartsAfterWeaker(rest, a', b', a, b);
    StartsAfterCons(here, rest, a, b);
  }

  /** difflib's blocks are chained. */
  lemma ValidChained(ref: string, pred: string, ms: seq<Block>)
    requires ValidBlocks(ref, pred, ms)
    ensures Chained(ms)
  {
    forall k, l | 0 <= k < l < |ms|
      ensures ms[k].a + ms[k].size <= ms[l].a && ms[k].b + ms[k].size <= ms[l].b
    {
      Apart(ref, pred, ms, k, l);
    }
  }

  /** The intervals reported come in block order and never overlap. */
  lemma FindMisalignmentInOrder(ref: string, pred: string, ms: seq<Block>, minLen: int, tol: int)
    requires ValidBlocks(ref, pred, ms)
    ensures var r := FindMisalignment(ref, pred, ms, minLen, tol);
      r.Some? ==> Ordered(r.value)
  {
    FindMisalignmentExact(ref, pred, ms, minLen, tol);
    if !Shifted(ms, minLen, tol, 0) {
      ValidChained(ref, pred, ms);
      GapsInOrder(ref, pred, ms, minLen, tol, 1);
      var here := GapAt(ref, pred, ms, minLen, tol, 0);
      assert here == [];
      assert Gaps(ref, pred, ms, minLen, tol, 0) == here + Gaps(ref, pred, ms, minLen, tol, 1);
    }
  }

  lemma Apart(ref: string, pred: string, ms: seq<Block>, k: nat, l: nat)
    requires ValidBlocks(ref, pred, ms) && k < l < |ms|
    ensures ms[k].a + ms[k].size <= ms[l].a && ms[k].b + ms[k].size <= ms[l].b
  {
  }

}
