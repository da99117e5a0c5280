/**
 The records after a block came back, for each way it can meet its neighbours.
 */
module MemMerge {
  import opened MemBlocks
  import opened MemAreas

  /** A block can come back between before and after. */
  ghost predicate Returns(areas: Areas, before: seq<nat>, b: Block, after: seq<nat>, lo: nat, hi: nat) {
    && Sound(areas, before + after, lo, hi)
    && Fits(BlocksOf(areas, before), b, BlocksOf(areas, after))
    && b.len >= SMALLEST && 0 < b.start && lo <= b.start && b.End() <= hi
  }

  /** The records areas' with the areas order' are the free areas after the block came back. */
  ghost predicate Returned(areas: Areas, before: seq<nat>, b: Block, after: seq<nat>, lo: nat, hi: nat,
                           areas': Areas, order': seq<nat>) {
    && Sound(areas', order', lo, hi)
    && BlocksOf(areas', order') == Joined(BlocksOf(areas, before), b, BlocksOf(areas, after))
  }

  lemma Merge(areas: Areas, areas': Areas, before: seq<nat>, b: Block, after: seq<nat>, lo: nat, hi: nat,
              before': seq<nat>, x: nat, after': seq<nat>)
    requires Returns(areas, before, b, after, lo, hi)
    requires Rejoins(areas, areas', before, b, after, before', x, after')
    requires lo <= x && IndexFits(areas'[x].length, areas'[x].index)
    ensures Returned(areas, before, b, after, lo, hi, areas', before' + [x] + after')
  {
    Rejoined(areas, areas', before, b, after, before', x, after');
    if TouchesRight(b, BlocksOf(areas, after)) { assert after[0] in before + after; }
    hide Ordered, BlocksOf, Joined, Fits, IndexFits;
    assert forall a | a in before' || a in after' :: a in before + after;
    SoundAround(areas, areas', before', x, after', before + after, lo, hi);
  }

  /** Where the block starts, no area starts. */
  lemma StartsApart(areas: Areas, before: seq<nat>, b: Block, after: seq<nat>, lo: nat, hi: nat)
    requires Returns(areas, before, b, after, lo, hi)
    ensures b.start !in before + after
    ensures forall a | a in before :: a < b.start && a in areas && areas[a].end == a + areas[a].length && areas[a].end <= b.start
    ensures forall a | a in after :: b.start + b.len <= a && a in areas && areas[a].end == a + areas[a].length
  {
    forall a | a in before
      ensures a < b.start && a in areas && areas[a].end == a + areas[a].length && areas[a].end <= b.start
    {
      var i :| 0 <= i < |before| && before[i] == a;
      assert a in before + after;
      assert BlocksOf(areas, before)[i].End() <= b.start;
    }
    forall a | a in after
      ensures b.start + b.len <= a && a in areas && areas[a].end == a + areas[a].length
    {
      var i :| 0 <= i < |after| && after[i] == a;
      assert a in before + after;
      assert b.End() <= BlocksOf(areas, after)[i].start;
    }
  }

  ghost predicate Kept(areas: Areas, areas': Areas, s: seq<nat>) {
    forall a | a in s :: a in areas && a in areas' && areas'[a] == areas[a]
  }

  /** Only the records at ids differ, and no area of s is among them. */
  lemma KeptOutside(areas: Areas, areas': Areas, s: seq<nat>, ids: set<nat>)
    requires forall a | a in s :: a in areas && a !in ids
    requires forall a | a in areas && a !in ids :: a in areas' && areas'[a] == areas[a]
    ensures Kept(areas, areas', s)
  {
  }

  lemma AboveLow(areas: Areas, order: seq<nat>, p: nat, lo: nat, hi: nat)
    requires Sound(areas, order, lo, hi) && p in order
    ensures lo <= p && Recorded(areas, p)
  {
  }

  /** The block meets areas on both sides: the left one grows over the block and the right one. */
  lemma MergedBoth(areas: Areas, areas': Areas, before: seq<nat>, p: nat, b: Block, m: nat, after: seq<nat>, lo: nat, hi: nat)
    requires Returns(areas, before + [p], b, [m] + after, lo, hi)
    requires p in areas && areas[p].end == b.start && b.End() == m && m in areas
    requires Kept(areas, areas', before) && Kept(areas, areas', after)
    requires p in areas' && areas'[p] == MemoryArea(p, areas[m].end, areas[p].length + b.len + areas[m].length, areas'[p].index)
    requires IndexFits(areas'[p].length, areas'[p].index)
    ensures Returned(areas, before + [p], b, [m] + after, lo, hi, areas', before + [p] + after)
  {
    hide Gapped, Fits, IndexFits, Joined, Sound;
    StartsApart(areas, before + [p], b, [m] + after, lo, hi);
    assert p in before + [p] && m in [m] + after && p in before + [p] + ([m] + after);
    AboveLow(areas, before + [p] + ([m] + after), p, lo, hi);
    var bs, cs := BlocksOf(areas, before + [p]), BlocksOf(areas, [m] + after);
    assert bs[|before|] == BlockAt(areas, p) && cs[0] == BlockAt(areas, m);
    assert (before + [p])[..|before|] == before && ([m] + after)[1..] == after;
    Merge(areas, areas', before + [p], b, [m] + after, lo, hi, before, p, after);
  }

  /** The block meets the area behind it only: it takes that area over. */
  lemma MergedRight(areas: Areas, areas': Areas, before: seq<nat>, b: Block, m: nat, after: seq<nat>, lo: nat, hi: nat)
    requires Returns(areas, before, b, [m] + after, lo, hi)
    requires !TouchesLeft(BlocksOf(areas, before), b) && b.End() == m && m in areas
    requires Kept(areas, areas', before) && Kept(areas, areas', after)
    requires b.start in areas'
    requires areas'[b.start] == MemoryArea(b.start, areas[m].end, b.len + areas[m].length, areas'[b.start].index)
    requires IndexFits(areas'[b.start].length, areas'[b.start].index)
    ensures Returned(areas, before, b, [m] + after, lo, hi, areas', before + [b.start] + after)
  {
    hide Gapped, Fits, Sound, IndexFits, Joined;
    StartsApart(areas, before, b, [m] + after, lo, hi);
    assert m in [m] + after;
    assert BlocksOf(areas, [m] + after)[0] == BlockAt(areas, m) && ([m] + after)[1..] == after;
    Merge(areas, areas', before, b, [m] + after, lo, hi, before, b.start, after);
  }

  /** The block meets the area before it only: that area grows over the block. */
  lemma MergedLeft(areas: Areas, areas': Areas, before: seq<nat>, p: nat, b: Block, after: seq<nat>, lo: nat, hi: nat)
    requires Returns(areas, before + [p], b, after, lo, hi)
    requires p in areas && areas[p].end == b.start && !TouchesRight(b, BlocksOf(areas, after))
    requires Kept(areas, areas', before) && Kept(areas, areas', after)
    requires p in areas' && areas'[p] == MemoryArea(p, b.End(), areas[p].length + b.len, areas'[p].index)
    requires IndexFits(areas'[p].length, areas'[p].index)
    ensures Returned(areas, before + [p], b, after, lo, hi, areas', before + [p] + after)
  {
    hide Gapped, Fits, IndexFits, Joined, Sound;
    StartsApart(areas, before + [p], b, after, lo, hi);
    assert p in before + [p] && p in before + [p] + after;
    AboveLow(areas, before + [p] + after, p, lo, hi);
    assert BlocksOf(areas, before + [p])[|before|] == BlockAt(areas, p) && (before + [p])[..|before|] == before;
    Merge(areas, areas', before + [p], b, after, lo, hi, before, p, after);
  }

  /** The block meets no area. */
  lemma MergedNone(areas: Areas, areas': Areas, before: seq<nat>, b: Block, after: seq<nat>, lo: nat, hi: nat)
    requires Returns(areas, before, b, after, lo, hi)
    requires !TouchesLeft(BlocksOf(areas, before), b) && !TouchesRight(b, BlocksOf(areas, after))
    requires Kept(areas, areas', before) && Kept(areas, areas', after)
    requires b.start in areas' && areas'[b.start] == MemoryArea(b.start, b.End(), b.len, areas'[b.start].index)
    requires IndexFits(areas'[b.start].length, areas'[b.start].index)
    ensures Returned(areas, before, b, after, lo, hi, areas', before + [b.start] + after)
  {
    Merge(areas, areas', before, b, after, lo, hi, before, b.start, after);
  }

  // ----- the areas as a set

  lemma Increasing(areas: Areas, order: seq<nat>)
    requires Ordered(areas, order)
    ensures forall i, j | 0 <= i < j < |order| :: order[i] < order[j]
  {
    assert forall i, j | 0 <= i < j < |order| :: BlocksOf(areas, order)[i].End() < BlocksOf(areas, order)[j].start;
  }

  /** Taking one area out of the sequence takes it out of the set. */
  lemma MembersDrop(areas: Areas, before: seq<nat>, m: nat, after: seq<nat>)
    requires Ordered(areas, before + [m] + after)
    ensures m in Members(before + [m] + after) && m !in before && m !in after
    ensures Members(before + [m] + after) - {m} == Members(before + after)
    ensures Recorded(areas, m)
  {
    var order := before + [m] + after;
    Increasing(areas, order);
    assert order[|before|] == m;
    assert forall a :: a in order <==> a in before || a == m || a in after;
    assert forall i | 0 <= i < |before| :: before[i] == order[i];
    assert forall i | 0 <= i < |after| :: after[i] == order[|before| + 1 + i];
  }

  lemma MembersAdd(before: seq<nat>, m: nat, after: seq<nat>)
    ensures Members(before + after) + {m} == Members(before + [m] + after)
  {
    assert forall a :: a in before + [m] + after <==> a in before || a == m || a in after;
  }

  /** An area of the region has a list. */
  lemma GrownFits(lo: nat, hi: nat, start: nat, length: nat)
    requires lo <= hi < lo + SPAN && lo <= start && start + length <= hi && length >= SMALLEST
    ensures Units(length) > 0 && IndexFits(length, InsertIndex(length)) && InsertIndex(length) == StartIndex(length)
  {
  }

  /** What the code that joins a block to the area behind it may rely on. */
  lemma BeforeJoinRight(areas: Areas, before: seq<nat>, b: Block, m: nat, after: seq<nat>, lo: nat, hi: nat)
    requires Returns(areas, before, b, [m] + after, lo, hi) && b.End() == m
    ensures b.start !in before + [m] + after && 0 < b.start < m && lo <= b.start && b.len >= SMALLEST
    ensures Recorded(areas, m) && lo <= hi < lo + SPAN && m + areas[m].length <= hi
    ensures m in Members(before + [m] + after) && m !in before && m !in after
    ensures Members(before + [m] + after) - {m} == Members(before + after)
    ensures b.start !in Members(before + after)
    ensures forall a | a in before || a in after :: a in areas && a != b.start
  {
    hide Gapped, Fits, Fitting, Within;
    assert before + ([m] + after) == before + [m] + after;
    StartsApart(areas, before, b, [m] + after, lo, hi);
    MembersDrop(areas, before, m, after);
    assert forall a | a in before || a in after :: a in before + [m] + after && Recorded(areas, a);
    WithinOne(areas, before + [m] + after, m, lo, hi);
  }

  lemma WithinOne(areas: Areas, order: seq<nat>, m: nat, lo: nat, hi: nat)
    requires Within(areas, order, lo, hi) && m in order && m in areas
    ensures lo <= hi < lo + SPAN && lo <= m && m + areas[m].length <= hi
  {
  }

  /** The area in front of the block. */
  lemma LeftNeighbour(areas: Areas, before: seq<nat>, p: nat, b: Block, m: nat, after: seq<nat>, lo: nat, hi: nat)
    requires Returns(areas, before + [p], b, [m] + after, lo, hi)
    ensures Recorded(areas, p) && lo <= p < b.start && p !in before && p !in after && p != m
    ensures p in Members(before + [p] + after) && p in Members(before + [p] + [m] + after)
    ensures areas[p].end == b.start <==> TouchesLeft(BlocksOf(areas, before + [p]), b)
  {
    hide Gapped, Fits, Fitting, Within;
    var order := before + [p] + ([m] + after);
    assert order == before + [p] + [m] + after;
    StartsApart(areas, before + [p], b, [m] + after, lo, hi);
    assert p in before + [p] && m in [m] + after;
    MembersDrop(areas, before, p, [m] + after);
    WithinOne(areas, order, p, lo, hi);
  }

  /** The blocks in front end before the block starts, so the last one does not touch it. */
  lemma EndBefore(areas: Areas, before: seq<nat>, b: Block)
    requires forall a | a in before :: a in areas && a + areas[a].length < b.start
    ensures !TouchesLeft(BlocksOf(areas, before), b)
  {
    if before != [] { assert before[|before| - 1] in before; }
  }

  lemma StartBehind(areas: Areas, b: Block, after: seq<nat>)
    requires forall a | a in after :: b.End() < a
    ensures !TouchesRight(b, BlocksOf(areas, after))
  {
    if after != [] { assert after[0] in after; }
  }

  /** What the code that joins a block to the area before it may rely on. */
  lemma BeforeJoinLeft(areas: Areas, before: seq<nat>, p: nat, b: Block, after: seq<nat>, lo: nat, hi: nat)
    requires Returns(areas, before + [p], b, after, lo, hi) && p in areas && areas[p].end == b.start
    ensures b.start !in before + [p] + after && p < b.start && b.len >= SMALLEST
    ensures Recorded(areas, p) && lo <= hi < lo + SPAN && lo <= p && b.End() <= hi
    ensures p in Members(before + [p] + after) && p !in before && p !in after
    ensures Members(before + [p] + after) - {p} == Members(before + after)
    ensures forall a | a in before || a in after :: a in areas && a != b.start
  {
    hide Gapped, Fits, Fitting, Within;
    StartsApart(areas, before + [p], b, after, lo, hi);
    MembersDrop(areas, before, p, after);
    assert forall a | a in before || a in after :: a in before + [p] + after && Recorded(areas, a);
    WithinOne(areas, before + [p] + after, p, lo, hi);
  }

  /** The area behind the block. */
  lemma RightNeighbour(areas: Areas, before: seq<nat>, p: nat, b: Block, m: nat, after: seq<nat>, lo: nat, hi: nat)
    requires Returns(areas, before + [p], b, [m] + after, lo, hi)
    ensures Recorded(areas, m) && b.End() <= m && m + areas[m].length <= hi
    ensures m !in before && m !in after && p != m
    ensures m in Members(before + [p] + [m] + after)
    ensures Members(before + [p] + [m] + after) - {m} == Members(before + [p] + after)
    ensures p in Members(before + [p] + after)
    ensures m == b.End() <==> TouchesRight(b, BlocksOf(areas, [m] + after))
  {
    hide Gapped, Fits, Fitting, Within;
    var order := before + [p] + ([m] + after);
    assert order == before + [p] + [m] + after;
    StartsApart(areas, before + [p], b, [m] + after, lo, hi);
    assert p in before + [p] && m in [m] + after;
    MembersDrop(areas, before + [p], m, after);
    WithinOne(areas, order, m, lo, hi);
  }

  /** The block overlaps no free area. */
  ghost predicate AllApart(bs: seq<Block>, b: Block) {
    forall i | 0 <= i < |bs| :: Apart(bs[i], b)
  }

  /** Areas that start before the block's end lie before it, areas that end after its start behind it. */
  lemma FitsBetween(areas: Areas, before: seq<nat>, b: Block, after: seq<nat>, lo: nat, hi: nat)
    requires Sound(areas, before + after, lo, hi) && AllApart(BlocksOf(areas, before + after), b)
    requires b.len >= SMALLEST && 0 < b.start && lo <= b.start && b.End() <= hi
    requires forall a | a in before :: a < b.End()
    requires forall a | a in after :: b.start < a
    ensures Returns(areas, before, b, after, lo, hi)
  {
    hide Gapped, Within, Fitting;
    var order := before + after;
    forall i | 0 <= i < |before|
      ensures BlocksOf(areas, before)[i].End() <= b.start
    {
      assert before[i] in before && order[i] == before[i] && Apart(BlocksOf(areas, order)[i], b);
    }
    forall i | 0 <= i < |after|
      ensures b.End() <= BlocksOf(areas, after)[i].start
    {
      var j := |before| + i;
      assert after[i] in after && order[j] == after[i] && order[j] in order && Apart(BlocksOf(areas, order)[j], b);
    }
  }

  /** Records of other addresses do not matter. */
  lemma SoundKept(areas: Areas, areas': Areas, order: seq<nat>, lo: nat, hi: nat)
    requires Sound(areas, order, lo, hi) && Kept(areas, areas', order)
    ensures Sound(areas', order, lo, hi) && BlocksOf(areas', order) == BlocksOf(areas, order)
  {
    BlocksSame(areas, areas', order);
  }

  /** A block apart from every area starts where none does. */
  lemma NoAreaThere(areas: Areas, order: seq<nat>, b: Block, lo: nat, hi: nat)
    requires Sound(areas, order, lo, hi) && AllApart(BlocksOf(areas, order), b) && b.len > 0
    ensures b.start !in order
    ensures forall a | a in order :: Recorded(areas, a) && (b.End() <= a || a + areas[a].length <= b.start)
  {
    forall a | a in order
      ensures Recorded(areas, a) && (b.End() <= a || a + areas[a].length <= b.start)
    {
      var i :| 0 <= i < |order| && order[i] == a;
      assert Apart(BlocksOf(areas, order)[i], b);
    }
  }

  /** What the code that adds a block by itself may rely on. */
  lemma BeforeAlone(areas: Areas, before: seq<nat>, b: Block, after: seq<nat>, lo: nat, hi: nat)
    requires Returns(areas, before, b, after, lo, hi)
    ensures b.start !in before + after && b.start !in Members(before + after)
    ensures 0 < b.start && lo <= b.start && b.End() <= hi < lo + SPAN && b.len >= SMALLEST
    ensures forall a | a in before || a in after :: a in areas && a != b.start
  {
    StartsApart(areas, before, b, after, lo, hi);
  }

  /** What the code that cuts an area may rely on. */
  lemma BeforeCut(areas: Areas, before: seq<nat>, m: nat, after: seq<nat>, request: nat, lo: nat, hi: nat)
    requires Sound(areas, before + [m] + after, lo, hi) && m in areas && 0 < request < areas[m].length
    ensures Recorded(areas, m) && m in Members(before + [m] + after)
    ensures Members(before + [m] + after) - {m} == Members(before + after)
    ensures m + request !in before + [m] + after && m + request !in Members(before + after)
    ensures forall a | a in before || a in after :: a in areas && a != m + request
  {
    hide Gapped, Within, Fitting;
    MembersDrop(areas, before, m, after);
    var order := before + [m] + after;
    assert forall a | a in before || a in after :: a in order && Recorded(areas, a);
    assert order == before + ([m] + after);
    OrderedSplit(areas, before, [m] + after);
    assert m in [m] + after;
    OrderedSplit(areas, before + [m], after);
    assert m in before + [m];
  }
}
