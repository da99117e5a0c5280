/**
 Blocks of memory as values: sorted runs of free blocks with gaps between them, joining a
 block into such a run, and taking one out.
 */
module MemBlocks {

  datatype Block = Block(start: nat, len: nat) {
    function End(): (e: nat) {
      start + len
    }
  }

  /** Sorted, not empty, and no two touch. */
  ghost predicate Gapped(bs: seq<Block>) {
    && (forall i | 0 <= i < |bs| :: bs[i].len > 0)
    && (forall i, j | 0 <= i < j < |bs| :: bs[i].End() < bs[j].start)
  }

  /** Where the blocks start. */
  ghost function Starts(bs: seq<Block>): (s: set<nat>) {
    set i | 0 <= i < |bs| :: bs[i].start
  }

  predicate Contains(b: Block, x: nat) {
    b.start <= x < b.End()
  }

  ghost predicate Covered(bs: seq<Block>, x: nat) {
    exists i | 0 <= i < |bs| :: Contains(bs[i], x)
  }

  function Total(bs: seq<Block>): (n: nat) {
    if bs == [] then 0 else Total(bs[..|bs| - 1]) + bs[|bs| - 1].len
  }

  predicate Apart(b: Block, c: Block) {
    b.End() <= c.start || c.End() <= b.start
  }

  /** All of before lies before b, and all of after after it. */
  ghost predicate Fits(before: seq<Block>, b: Block, after: seq<Block>) {
    && (forall i | 0 <= i < |before| :: before[i].End() <= b.start)
    && (forall i | 0 <= i < |after| :: b.End() <= after[i].start)
  }

  predicate TouchesLeft(before: seq<Block>, b: Block) {
    before != [] && before[|before| - 1].End() == b.start
  }

  predicate TouchesRight(b: Block, after: seq<Block>) {
    after != [] && b.End() == after[0].start
  }

  /** The free run after b came back: b merged with the neighbours it touches. */
  function Joined(before: seq<Block>, b: Block, after: seq<Block>): (bs: seq<Block>) {
    var l, r := TouchesLeft(before, b), TouchesRight(b, after);
    var lo := if l then before[|before| - 1].start else b.start;
    var hi := if r then after[0].End() else b.End();
    (if l then before[..|before| - 1] else before)
    + [Block(lo, if hi >= lo then hi - lo else 0)]
    + (if r then after[1..] else after)
  }

  lemma JoinedIs(before: seq<Block>, b: Block, after: seq<Block>, left: seq<Block>, m: Block, right: seq<Block>)
    requires left == if TouchesLeft(before, b) then before[..|before| - 1] else before
    requires right == if TouchesRight(b, after) then after[1..] else after
    requires m.start == if TouchesLeft(before, b) then before[|before| - 1].start else b.start
    requires m.End() == if TouchesRight(b, after) then after[0].End() else b.End()
    ensures Joined(before, b, after) == left + [m] + right
  {
  }

  lemma {:induction false} TotalConcat(bs: seq<Block>, cs: seq<Block>)
    ensures Total(bs + cs) == Total(bs) + Total(cs)
  {
    if cs == [] {
      assert bs + cs == bs;
    } else {
      var n := |cs| - 1;
      assert (bs + cs)[..|bs + cs| - 1] == bs + cs[..n];
      TotalConcat(bs, cs[..n]);
    }
  }

  lemma TotalOne(b: Block)
    ensures Total([b]) == b.len
  {
    assert [b][..0] == [];
  }

  lemma GappedParts(bs: seq<Block>, cs: seq<Block>)
    requires Gapped(bs + cs)
    ensures Gapped(bs) && Gapped(cs)
    ensures forall i, j | 0 <= i < |bs| && 0 <= j < |cs| :: bs[i].End() < cs[j].start
  {
    assert forall i | 0 <= i < |bs| :: bs[i] == (bs + cs)[i];
    assert forall i | 0 <= i < |cs| :: cs[i] == (bs + cs)[|bs| + i];
  }

  /** The run a merge leaves: what is kept on the left, the merged block, what is kept on the right. */
  lemma JoinedParts(before: seq<Block>, b: Block, after: seq<Block>)
      returns (left: seq<Block>, m: Block, right: seq<Block>)
    requires Gapped(before + after) && b.len > 0 && Fits(before, b, after)
    ensures Joined(before, b, after) == left + [m] + right
    ensures left <= before && |before| - 1 <= |left| && |right| <= |after| && after[|after| - |right|..] == right
    ensures |after| - 1 <= |right|
    ensures |left| < |before| <==> TouchesLeft(before, b)
    ensures |right| < |after| <==> TouchesRight(b, after)
    ensures m.start == if |left| < |before| then before[|left|].start else b.start
    ensures m.End() == if |right| < |after| then after[0].End() else b.End()
    ensures m.start <= b.start && b.End() <= m.End()
  {
    var l, r := TouchesLeft(before, b), TouchesRight(b, after);
    left := if l then before[..|before| - 1] else before;
    right := if r then after[1..] else after;
    m := Joined(before, b, after)[|left|];
    GappedParts(before, after);
  }

  /** Joining keeps the run sorted and gapped: all merging that can happen has happened. */
  lemma JoinedGapped(before: seq<Block>, b: Block, after: seq<Block>)
    requires Gapped(before + after) && b.len > 0 && Fits(before, b, after)
    ensures Gapped(Joined(before, b, after))
  {
    var left, m, right := JoinedParts(before, b, after);
    GappedParts(before, after);
    assert forall i | 0 <= i < |left| :: left[i] == before[i];
    assert forall i | 0 <= i < |right| :: right[i] == after[|after| - |right| + i];
    forall i | 0 <= i < |left|
      ensures left[i].End() < m.start
    {
      if |left| < |before| { assert before[i].End() < before[|left|].start; }
    }
    forall i | 0 <= i < |right|
      ensures m.End() < right[i].start
    {
    }
    GappedTriple(left, m, right);
  }

  lemma GappedTriple(left: seq<Block>, m: Block, right: seq<Block>)
    requires Gapped(left) && Gapped(right) && m.len > 0
    requires forall i | 0 <= i < |left| :: left[i].End() < m.start
    requires forall i | 0 <= i < |right| :: m.End() < right[i].start
    ensures Gapped(left + [m] + right)
  {
    var bs := left + [m] + right;
    forall i, j | 0 <= i < j < |bs|
      ensures bs[i].End() < bs[j].start
    {
      if j < |left| {
      } else if i > |left| {
        assert bs[i] == right[i - |left| - 1] && bs[j] == right[j - |left| - 1];
      }
    }
  }

  /** Joining covers what was covered and the block. */
  lemma JoinedCovers(before: seq<Block>, b: Block, after: seq<Block>, x: nat)
    requires Gapped(before + after) && b.len > 0 && Fits(before, b, after)
    ensures Covered(Joined(before, b, after), x) <==> Covered(before + after, x) || Contains(b, x)
  {
    var left, m, right := JoinedParts(before, b, after);
    CoveredConcat(before, after, x);
    CoveredConcat(left, [m], x);
    CoveredConcat(left + [m], right, x);
    CoveredOne(m, x);
    if |left| < |before| {
      assert before == left + [before[|left|]];
      CoveredConcat(left, [before[|left|]], x);
      CoveredOne(before[|left|], x);
    } else {
      assert left == before;
    }
    if |right| < |after| {
      assert after == [after[0]] + right;
      CoveredConcat([after[0]], right, x);
      CoveredOne(after[0], x);
    } else {
      assert right == after;
    }
  }

  lemma CoveredConcat(bs: seq<Block>, cs: seq<Block>, x: nat)
    ensures Covered(bs + cs, x) <==> Covered(bs, x) || Covered(cs, x)
  {
    if Covered(bs, x) {
      var i :| 0 <= i < |bs| && Contains(bs[i], x);
      assert Contains((bs + cs)[i], x);
    }
    if Covered(cs, x) {
      var i :| 0 <= i < |cs| && Contains(cs[i], x);
      assert Contains((bs + cs)[|bs| + i], x);
    }
    if Covered(bs + cs, x) {
      var i :| 0 <= i < |bs + cs| && Contains((bs + cs)[i], x);
      if i < |bs| { assert Contains(bs[i], x); } else { assert Contains(cs[i - |bs|], x); }
    }
  }

  lemma CoveredOne(b: Block, x: nat)
    ensures Covered([b], x) <==> Contains(b, x)
  {
    if Contains(b, x) { assert Contains([b][0], x); }
  }

  /** Joining conserves size. */
  lemma JoinedTotal(before: seq<Block>, b: Block, after: seq<Block>)
    requires Gapped(before + after) && b.len > 0 && Fits(before, b, after)
    ensures Total(Joined(before, b, after)) == Total(before + after) + b.len
  {
    hide Joined, Gapped, Fits, Total;
    var left, m, right := JoinedParts(before, b, after);
    TotalConcat(before, after);
    TotalConcat(left, [m]);
    TotalConcat(left + [m], right);
    TotalOne(m);
    if |left| < |before| {
      assert before == left + [before[|left|]];
      TotalConcat(left, [before[|left|]]);
      TotalOne(before[|left|]);
    } else {
      assert left == before;
    }
    if |right| < |after| {
      assert after == [after[0]] + right;
      TotalConcat([after[0]], right);
      TotalOne(after[0]);
    } else {
      assert right == after;
    }
  }

  lemma TotalTriple(bs: seq<Block>, b: Block, cs: seq<Block>)
    ensures Total(bs + [b] + cs) == Total(bs) + b.len + Total(cs)
  {
    hide Total;
    TotalConcat(bs + [b], cs);
    TotalConcat(bs, [b]);
    TotalOne(b);
  }

  lemma CoveredTriple(bs: seq<Block>, b: Block, cs: seq<Block>, x: nat)
    ensures Covered(bs + [b] + cs, x) <==> Covered(bs, x) || Contains(b, x) || Covered(cs, x)
  {
    hide Covered;
    CoveredConcat(bs + [b], cs, x);
    CoveredConcat(bs, [b], x);
    CoveredOne(b, x);
  }

  /** What lies before and behind one block of a run. */
  lemma GappedAround(bs: seq<Block>, b: Block, cs: seq<Block>, x: nat)
    requires Gapped(bs + [b] + cs)
    ensures Covered(bs, x) ==> x < b.start
    ensures Covered(cs, x) ==> b.End() < x
  {
    var ds := bs + [b] + cs;
    if Covered(bs, x) {
      var i :| 0 <= i < |bs| && Contains(bs[i], x);
      assert ds[i] == bs[i] && ds[|bs|] == b && ds[i].End() < ds[|bs|].start;
    }
    if Covered(cs, x) {
      var i :| 0 <= i < |cs| && Contains(cs[i], x);
      var j := |bs| + 1 + i;
      assert ds[j] == cs[i] && ds[|bs|] == b && ds[|bs|].End() < ds[j].start;
    }
  }

  /** The blocks before and behind one block of a run, one by one. */
  lemma GappedSides(bs: seq<Block>, b: Block, cs: seq<Block>)
    requires Gapped(bs + [b] + cs)
    ensures Gapped(bs) && Gapped(cs) && b.len > 0
    ensures forall i | 0 <= i < |bs| :: bs[i].End() < b.start
    ensures forall i | 0 <= i < |cs| :: b.End() < cs[i].start
  {
    GappedParts(bs + [b], cs);
    GappedParts(bs, [b]);
    hide Gapped;
    assert (bs + [b])[|bs|] == b && [b][0] == b;
  }
}
