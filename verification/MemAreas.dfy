/**
 The free areas' own records: their extents, the list index computed from their length, and
 what ties records, tree order and free lists together.
 */
module MemAreas {
  import opened MemBlocks
  import FreeLists

  datatype MemoryArea = MemoryArea(start: nat, end: nat, length: nat, index: nat)

  type Areas = map<nat, MemoryArea>

  /** The smallest block size the allocator accepts. */
  const SMALLEST: nat := 4096

  /** Every area holds its own node. */
  const NODE_SIZE: nat := 72

  /** Spans from here on would not fit the 32-bit list index. */
  const SPAN: nat := 0x1000_0000_0000

  /** Length in units of 4096, kept in 32 bits. */
  function Units(length: nat): (u: nat) {
    (length / 4096) % 0x1_0000_0000
  }

  lemma UnitsExact(length: nat)
    ensures Units(length) == length / 4096 <==> length < SPAN
  {
  }

  /** List of an area that comes back or grows; without a full unit the 32-bit index wraps around. */
  function InsertIndex(length: nat): (i: nat)
    ensures i < 1024 <==> Units(length) > 0
  {
    if Units(length) >= 1024 then 1023 else if Units(length) > 0 then Units(length) - 1 else 0xFFFF_FFFF
  }

  /** List of the rest of an area after a request has been cut off. */
  function SplitIndex(length: nat): (i: nat)
    ensures i < 1024
  {
    if Units(length) >= 1024 then 1023 else Units(length)
  }

  /** First list searched for a request, and the list of an area that grew at its end. */
  function StartIndex(length: nat): (i: nat)
    ensures i < 1024
  {
    if Units(length) >= 1024 then 1023 else if Units(length) > 0 then Units(length) - 1 else 0
  }

  /** The list of an area is one the insertion or the split formula gives. */
  predicate IndexFits(length: nat, i: nat) {
    NODE_SIZE <= length < SPAN && i < 1024 && (i == InsertIndex(length) || i == SplitIndex(length))
  }

  /** Whichever formula placed an area, a search for no more than its length reaches its list. */
  lemma SearchReaches(length: nat, i: nat, request: nat)
    requires IndexFits(length, i) && request <= length
    ensures StartIndex(request) <= i < 1024
  {
  }

  /**
   An area is reached by the search for every request it could serve exactly if it is shorter than
   2^44 bytes or in the last list.
   */
  lemma ReachedExactly(length: nat, i: nat)
    requires NODE_SIZE <= length && (i == InsertIndex(length) || i == SplitIndex(length)) && i < 1024
    ensures (forall request: nat | request <= length :: StartIndex(request) <= i) <==> length < SPAN || i == 1023
  {
    if length < SPAN {
      forall request: nat | request <= length
        ensures StartIndex(request) <= i
      {
        SearchReaches(length, i, request);
      }
    } else {
      assert StartIndex(0x40_0000) == 1023;
    }
  }

  /** An area of 2^44 + 4096 bytes goes to list 1, and a request for 12288 bytes starts behind it. */
  lemma MissedBeyondSpan()
    ensures SplitIndex(SPAN + SMALLEST) == 1 && StartIndex(12288) == 2
  {
  }

  /** Inserting an area stays inside the array of lists exactly if its length modulo 2^44 is a full unit. */
  lemma InsideExactly(length: nat)
    ensures InsertIndex(length) < 1024 <==> length % SPAN >= SMALLEST
  {
    UnitsOf(length);
  }

  lemma UnitsOf(length: nat)
    ensures Units(length) == length % SPAN / 4096
  {
    var q, r := length / SPAN, length % SPAN;
    assert length == q * SPAN + r;
    assert length / 4096 == q * 0x1_0000_0000 + r / 4096;
    assert r / 4096 < 0x1_0000_0000;
  }

  /** A range of exactly 2^44 bytes is inserted outside the array of lists. */
  lemma OutsideAtSpan()
    ensures InsertIndex(SPAN) == 0xFFFF_FFFF
  {
  }

  /** The record at a describes an area that starts there. */
  predicate Recorded(areas: Areas, a: nat) {
    && a in areas && a > 0
    && areas[a].start == a && areas[a].end == a + areas[a].length && areas[a].length >= NODE_SIZE
  }

  function BlockAt(areas: Areas, a: nat): (b: Block) {
    if a in areas then Block(a, areas[a].length) else Block(a, 0)
  }

  function BlocksOf(areas: Areas, order: seq<nat>): (bs: seq<Block>)
    ensures |bs| == |order| && forall i | 0 <= i < |order| :: bs[i] == BlockAt(areas, order[i])
  {
    seq(|order|, i requires 0 <= i < |order| => BlockAt(areas, order[i]))
  }

  lemma BlocksConcat(areas: Areas, s: seq<nat>, t: seq<nat>)
    ensures BlocksOf(areas, s + t) == BlocksOf(areas, s) + BlocksOf(areas, t)
  {
  }

  lemma BlocksAround(areas: Areas, s: seq<nat>, x: nat, t: seq<nat>)
    ensures BlocksOf(areas, s + [x] + t) == BlocksOf(areas, s) + [BlockAt(areas, x)] + BlocksOf(areas, t)
  {
    BlocksConcat(areas, s, [x]);
    BlocksConcat(areas, s + [x], t);
  }

  lemma BlocksInit(areas: Areas, s: seq<nat>)
    ensures s != [] ==> BlocksOf(areas, s[..|s| - 1]) == BlocksOf(areas, s)[..|s| - 1]
  {
  }

  lemma BlocksTail(areas: Areas, s: seq<nat>)
    ensures s != [] ==> BlocksOf(areas, s[1..]) == BlocksOf(areas, s)[1..]
  {
  }

  lemma BlocksSame(areas: Areas, areas': Areas, s: seq<nat>)
    requires forall a | a in s :: BlockAt(areas, a) == BlockAt(areas', a)
    ensures BlocksOf(areas, s) == BlocksOf(areas', s)
  {
    assert forall i | 0 <= i < |s| :: s[i] in s;
  }

  ghost predicate Ordered(areas: Areas, order: seq<nat>) {
    (forall a | a in order :: Recorded(areas, a)) && Gapped(BlocksOf(areas, order))
  }

  ghost predicate Within(areas: Areas, order: seq<nat>, lo: nat, hi: nat) {
    lo <= hi < lo + SPAN && forall a | a in order && a in areas :: lo <= a && a + areas[a].length <= hi
  }

  /** Every area of ids is in the list its record names, and the lists hold nothing else. */
  ghost predicate Indexed(lists: seq<seq<nat>>, areas: Areas, ids: set<nat>) {
    && |lists| == 1024
    && (forall i, a | 0 <= i < 1024 && a in lists[i] :: a in ids && a in areas && areas[a].index == i)
    && (forall a | a in ids :: a in areas && areas[a].index < 1024 && a in lists[areas[a].index])
  }

  ghost predicate Fitting(areas: Areas, ids: set<nat>) {
    forall a | a in ids && a in areas :: IndexFits(areas[a].length, areas[a].index)
  }

  ghost predicate Counted(freeCnt: seq<int>, lists: seq<seq<nat>>) {
    |freeCnt| == |lists| == 1024 && forall i | 0 <= i < 1024 :: freeCnt[i] == |lists[i]|
  }

  lemma IndexedRemove(lists: seq<seq<nat>>, areas: Areas, ids: set<nat>, a: nat, j: nat)
    requires Indexed(lists, areas, ids) && FreeLists.Separate(lists) && a in ids
    requires var i := areas[a].index; j < |lists[i]| && lists[i][j] == a
    ensures var i := areas[a].index;
            Indexed(lists[i := FreeLists.Without(lists[i], j)], areas, ids - {a})
  {
    var i := areas[a].index;
    FreeLists.WithoutMembers(lists[i], j);
  }

  lemma IndexedAdd(lists: seq<seq<nat>>, areas: Areas, ids: set<nat>, a: nat, i: nat)
    requires Indexed(lists, areas, ids) && a !in ids && a in areas && i < 1024
    ensures Indexed(lists[i := lists[i] + [a]], areas[a := areas[a].(index := i)], ids + {a})
    ensures forall k | 0 <= k < 1024 :: a !in lists[k]
  {
  }

  /** Only the lists and the index fields matter. */
  lemma IndexedFrame(lists: seq<seq<nat>>, areas: Areas, areas': Areas, ids: set<nat>)
    requires Indexed(lists, areas, ids) && forall a | a in ids && a in areas :: a in areas' && areas'[a].index == areas[a].index
    ensures Indexed(lists, areas', ids)
  {
  }

  ghost function Members(s: seq<nat>): (r: set<nat>) {
    set a | a in s
  }

  /** Everything the records of the free areas promise. */
  ghost predicate Sound(areas: Areas, order: seq<nat>, lo: nat, hi: nat) {
    Ordered(areas, order) && Within(areas, order, lo, hi) && Fitting(areas, Members(order))
  }

  // ----- what a change to the records does to the blocks

  lemma OrderedSplit(areas: Areas, s: seq<nat>, t: seq<nat>)
    requires Ordered(areas, s + t)
    ensures Ordered(areas, s) && Ordered(areas, t)
    ensures BlocksOf(areas, s + t) == BlocksOf(areas, s) + BlocksOf(areas, t)
    ensures forall a, b | a in s && b in t :: a + areas[a].length < b
  {
    BlocksConcat(areas, s, t);
    GappedParts(BlocksOf(areas, s), BlocksOf(areas, t));
    forall a, b | a in s && b in t
      ensures a + areas[a].length < b
    {
      var i :| 0 <= i < |s| && s[i] == a;
      var j :| 0 <= j < |t| && t[j] == b;
      assert BlocksOf(areas, s)[i].End() < BlocksOf(areas, t)[j].start;
    }
  }

  /** before', x and after' are the areas left around and by the join of b between before and after. */
  ghost predicate Rejoins(areas: Areas, areas': Areas, before: seq<nat>, b: Block, after: seq<nat>,
                          before': seq<nat>, x: nat, after': seq<nat>) {
    var m, l, r := BlockAt(areas', x), TouchesLeft(BlocksOf(areas, before), b), TouchesRight(b, BlocksOf(areas, after));
    && Recorded(areas', x)
    && (forall a | a in before' || a in after' :: a in areas && a in areas' && areas'[a] == areas[a])
    && before' == (if l then before[..|before| - 1] else before)
    && after' == (if r then after[1..] else after)
    && x == (if l then before[|before| - 1] else b.start)
    && m.End() == if r then BlocksOf(areas, after)[0].End() else b.End()
  }

  lemma RejoinedBlocks(areas: Areas, areas': Areas, before: seq<nat>, b: Block, after: seq<nat>,
                       before': seq<nat>, x: nat, after': seq<nat>)
    requires Rejoins(areas, areas', before, b, after, before', x, after')
    ensures BlocksOf(areas', before' + [x] + after') == Joined(BlocksOf(areas, before), b, BlocksOf(areas, after))
  {
    hide Recorded, Joined;
    var bs, cs := BlocksOf(areas, before), BlocksOf(areas, after);
    BlocksSame(areas, areas', before');
    BlocksSame(areas, areas', after');
    BlocksAround(areas', before', x, after');
    BlocksInit(areas, before);
    BlocksTail(areas, after);
    assert TouchesLeft(bs, b) ==> bs[|bs| - 1] == BlockAt(areas, before[|before| - 1]);
    JoinedIs(bs, b, cs, BlocksOf(areas, before'), BlockAt(areas', x), BlocksOf(areas, after'));
  }

  /** Replacing the run around the join by the merged area gives the joined blocks. */
  lemma Rejoined(areas: Areas, areas': Areas, before: seq<nat>, b: Block, after: seq<nat>,
                 before': seq<nat>, x: nat, after': seq<nat>)
    requires Ordered(areas, before + after) && b.len > 0
    requires Fits(BlocksOf(areas, before), b, BlocksOf(areas, after))
    requires Rejoins(areas, areas', before, b, after, before', x, after')
    ensures BlocksOf(areas', before' + [x] + after') == Joined(BlocksOf(areas, before), b, BlocksOf(areas, after))
    ensures Ordered(areas', before' + [x] + after')
  {
    hide Gapped, Joined, Fits, TouchesLeft, TouchesRight;
    RejoinedBlocks(areas, areas', before, b, after, before', x, after');
    BlocksConcat(areas, before, after);
    JoinedGapped(BlocksOf(areas, before), b, BlocksOf(areas, after));
    forall a | a in before' + [x] + after'
      ensures Recorded(areas', a)
    {
      if a != x { assert a in before + after; }
    }
  }

  /** Only the merged area's record is new. */
  lemma SoundAround(areas: Areas, areas': Areas, before: seq<nat>, x: nat, after: seq<nat>, order: seq<nat>, lo: nat, hi: nat)
    requires Sound(areas, order, lo, hi) && Ordered(areas', before + [x] + after)
    requires forall a | a in before || a in after :: a in order && a in areas' && areas'[a] == areas[a]
    requires x in areas' && lo <= x && x + areas'[x].length <= hi && IndexFits(areas'[x].length, areas'[x].index)
    ensures Sound(areas', before + [x] + after, lo, hi)
  {
  }
}
