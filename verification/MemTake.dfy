/**
 Taking memory out of the free areas: which areas can serve a request, what the search has seen,
 and the records after an area is taken whole or in part.
 */
module MemTake {
  import opened MemBlocks
  import opened MemAreas
  import opened MemMerge

  /** The area goes to the request as a whole: it fits exactly, or too little would remain for a record and a block. */
  predicate Whole(len: nat, request: nat, minBlockSize: nat, metaStored: bool) {
    if metaStored then request <= len < request + NODE_SIZE + minBlockSize else len == request
  }

  /** What remains of an area that can serve the request in part is itself an area. */
  ghost predicate Divisible(bs: seq<Block>, request: nat, minBlockSize: nat, metaStored: bool) {
    forall i | 0 <= i < |bs| ::
      bs[i].len > request && !Whole(bs[i].len, request, minBlockSize, metaStored) ==> bs[i].len - request >= NODE_SIZE
  }

  /** The free blocks after block k served the request. */
  function Taken(bs: seq<Block>, k: nat, request: nat, whole: bool): (r: seq<Block>)
    requires k < |bs| && request <= bs[k].len
  {
    bs[..k] + (if whole then [] else [Block(bs[k].start + request, bs[k].len - request)]) + bs[k + 1..]
  }

  ghost predicate Serves(bs: seq<Block>, request: nat) {
    exists i | 0 <= i < |bs| :: bs[i].len >= request
  }

  /** Taking hands out exactly the block's length, or the request. */
  lemma TakenTotal(bs: seq<Block>, k: nat, request: nat, whole: bool)
    requires k < |bs| && request <= bs[k].len
    ensures Total(Taken(bs, k, request, whole)) + (if whole then bs[k].len else request) == Total(bs)
  {
    hide Total;
    var l, r := bs[..k], bs[k + 1..];
    assert bs == l + [bs[k]] + r;
    TotalTriple(l, bs[k], r);
    if whole {
      assert l + [] + r == l + r;
      TotalConcat(l, r);
    } else {
      TotalTriple(l, Block(bs[k].start + request, bs[k].len - request), r);
    }
  }

  /** Taking covers what was covered, but for the block handed out. */
  lemma TakenCovers(bs: seq<Block>, k: nat, request: nat, whole: bool, x: nat)
    requires Gapped(bs) && k < |bs| && request <= bs[k].len
    ensures Covered(Taken(bs, k, request, whole), x) <==>
            Covered(bs, x) && !Contains(Block(bs[k].start, if whole then bs[k].len else request), x)
  {
    hide Covered, Gapped;
    var l, r := bs[..k], bs[k + 1..];
    assert bs == l + [bs[k]] + r;
    CoveredTriple(l, bs[k], r, x);
    GappedAround(l, bs[k], r, x);
    if whole {
      assert l + [] + r == l + r;
      CoveredConcat(l, r, x);
    } else {
      CoveredTriple(l, Block(bs[k].start + request, bs[k].len - request), r, x);
    }
  }

  /**
   Block k gave the request its first bytes and left the free areas as rest: what lies behind the
   request stays free, every address of it, exactly if the block is longer by spare bytes or more,
   and is lost, every address of it, otherwise.
   */
  ghost predicate RestKept(bs: seq<Block>, k: nat, request: nat, spare: nat, rest: seq<Block>) {
    && k < |bs| && request <= bs[k].len
    && (forall x: nat | bs[k].start + request <= x < bs[k].End() :: Covered(rest, x) <==> bs[k].len >= request + spare)
    && Total(bs) - Total(rest) == (if bs[k].len >= request + spare then request else bs[k].len)
  }

  /** With records inside the areas the rest needs room for a record and a block; without it is always kept. */
  lemma KeepsRest(areas: Areas, order: seq<nat>, lo: nat, hi: nat, k: nat, request: nat, minBlockSize: nat, metaStored: bool)
    requires Sound(areas, order, lo, hi) && k < |BlocksOf(areas, order)| && request <= BlocksOf(areas, order)[k].len
    ensures var bs := BlocksOf(areas, order);
            RestKept(bs, k, request, if metaStored then 72 + minBlockSize else 0,
                     Taken(bs, k, request, Whole(bs[k].len, request, minBlockSize, metaStored)))
  {
    hide Taken, Covered, Total;
    var bs := BlocksOf(areas, order);
    var whole, spare := Whole(bs[k].len, request, minBlockSize, metaStored), if metaStored then 72 + minBlockSize else 0;
    TakenTotal(bs, k, request, whole);
    forall x: nat | bs[k].start + request <= x < bs[k].End()
      ensures Covered(Taken(bs, k, request, whole), x) <==> bs[k].len >= request + spare
    {
      TakenCovers(bs, k, request, whole, x);
      CoveredAt(bs, k, x);
    }
  }

  lemma CoveredAt(bs: seq<Block>, k: nat, x: nat)
    requires k < |bs| && Contains(bs[k], x)
    ensures Covered(bs, x)
  {
  }

  /** Less than a record and a block is lost. */
  lemma LittleLost(bs: seq<Block>, k: nat, request: nat, spare: nat, rest: seq<Block>)
    requires RestKept(bs, k, request, spare, rest) && spare > 0
    ensures request <= Total(bs) - Total(rest) < request + spare
  {
  }

  // ----- the search

  /** The lists from..to hold no area long enough. */
  ghost predicate Seen(lists: seq<seq<nat>>, areas: Areas, from: nat, to: nat, request: nat) {
    |lists| == 1024 && to <= 1024 && forall i, a | from <= i < to && a in lists[i] && a in areas :: areas[a].length < request
  }

  /** A search of all the lists from the start index on misses no area. */
  lemma SeenAll(lists: seq<seq<nat>>, areas: Areas, order: seq<nat>, lo: nat, hi: nat, request: nat)
    requires Indexed(lists, areas, Members(order)) && Sound(areas, order, lo, hi)
    requires Seen(lists, areas, StartIndex(request), 1024, request)
    ensures !Serves(BlocksOf(areas, order), request)
  {
    forall i | 0 <= i < |order|
      ensures BlocksOf(areas, order)[i].len < request
    {
      var a := order[i];
      assert a in Members(order) && IndexFits(areas[a].length, areas[a].index);
      if areas[a].length >= request {
        SearchReaches(areas[a].length, areas[a].index, request);
      }
    }
  }

  lemma SeenList(lists: seq<seq<nat>>, areas: Areas, from: nat, to: nat, request: nat)
    requires Seen(lists, areas, from, to, request) && from <= to < 1024
    requires forall j | 0 <= j < |lists[to]| && lists[to][j] in areas :: areas[lists[to][j]].length < request
    ensures Seen(lists, areas, from, to + 1, request)
  {
  }

  /** Where a listed area stands in the order. */
  lemma Listed(lists: seq<seq<nat>>, areas: Areas, order: seq<nat>, lo: nat, hi: nat, i: nat, j: nat)
      returns (before: seq<nat>, after: seq<nat>)
    requires Indexed(lists, areas, Members(order)) && Sound(areas, order, lo, hi)
    requires i < 1024 && j < |lists[i]|
    ensures order == before + [lists[i][j]] + after && Recorded(areas, lists[i][j])
    ensures lists[i][j] in Members(order)
    ensures |before| < |BlocksOf(areas, order)| && BlocksOf(areas, order)[|before|] == BlockAt(areas, lists[i][j])
  {
    var a := lists[i][j];
    hide Sound;
    IndexedMember(lists, areas, Members(order), i, j);
    before, after := SplitAt(areas, order, a);
    SoundRecorded(areas, order, lo, hi, a);
  }

  lemma IndexedMember(lists: seq<seq<nat>>, areas: Areas, ids: set<nat>, i: nat, j: nat)
    requires Indexed(lists, areas, ids) && i < 1024 && j < |lists[i]|
    ensures lists[i][j] in ids
  {
    assert lists[i][j] in lists[i];
  }

  lemma SoundRecorded(areas: Areas, order: seq<nat>, lo: nat, hi: nat, a: nat)
    requires Sound(areas, order, lo, hi) && a in order
    ensures Recorded(areas, a)
  {
  }

  lemma SplitAt(areas: Areas, order: seq<nat>, a: nat) returns (before: seq<nat>, after: seq<nat>)
    requires a in order
    ensures order == before + [a] + after
    ensures |before| < |BlocksOf(areas, order)| && BlocksOf(areas, order)[|before|] == BlockAt(areas, a)
  {
    var k :| 0 <= k < |order| && order[k] == a;
    before, after := order[..k], order[k + 1..];
  }

  // ----- the records after

  lemma CutWhole(areas: Areas, before: seq<nat>, a: nat, after: seq<nat>, lo: nat, hi: nat, request: nat)
    requires Sound(areas, before + [a] + after, lo, hi) && a in areas && request <= areas[a].length
    ensures Sound(areas, before + after, lo, hi)
    ensures var bs := BlocksOf(areas, before + [a] + after);
            bs[|before|] == BlockAt(areas, a) && BlocksOf(areas, before + after) == Taken(bs, |before|, request, true)
  {
    hide Fitting, Within, Gapped, BlocksOf, Recorded;
    var bs := BlocksOf(areas, before + [a] + after);
    BlocksAround(areas, before, a, after);
    BlocksConcat(areas, before, after);
    assert bs[..|before|] == BlocksOf(areas, before) && bs[|before| + 1..] == BlocksOf(areas, after);
    GappedWithout(BlocksOf(areas, before), BlockAt(areas, a), BlocksOf(areas, after));
    SoundPart(areas, before + [a] + after, before + after, lo, hi);
  }

  lemma SoundPart(areas: Areas, order: seq<nat>, part: seq<nat>, lo: nat, hi: nat)
    requires Sound(areas, order, lo, hi) && (forall x | x in part :: x in order) && Gapped(BlocksOf(areas, part))
    ensures Sound(areas, part, lo, hi)
  {
    hide Gapped, BlocksOf, IndexFits, Recorded;
  }

  lemma GappedWithout(bs: seq<Block>, b: Block, cs: seq<Block>)
    requires Gapped(bs + [b] + cs)
    ensures Gapped(bs + cs)
  {
    var ds := bs + [b] + cs;
    assert forall i | 0 <= i < |bs + cs| :: (bs + cs)[i] == ds[if i < |bs| then i else i + 1];
  }

  lemma GappedShorter(bs: seq<Block>, b: Block, c: Block, cs: seq<Block>)
    requires Gapped(bs + [b] + cs) && b.start <= c.start && c.End() == b.End() && c.len > 0
    ensures Gapped(bs + [c] + cs)
  {
    hide Gapped;
    GappedSides(bs, b, cs);
    GappedTriple(bs, c, cs);
  }

  /** Blocks of a run in which one record was replaced. */
  lemma CutBlocks(areas: Areas, areas': Areas, before: seq<nat>, a: nat, x: nat, after: seq<nat>)
    requires Kept(areas, areas', before) && Kept(areas, areas', after)
    ensures var bs := BlocksOf(areas, before + [a] + after);
            && bs == BlocksOf(areas, before) + [BlockAt(areas, a)] + BlocksOf(areas, after)
            && bs[..|before|] == BlocksOf(areas, before) && bs[|before|] == BlockAt(areas, a) && bs[|before| + 1..] == BlocksOf(areas, after)
            && BlocksOf(areas', before + [x] + after) == BlocksOf(areas, before) + [BlockAt(areas', x)] + BlocksOf(areas, after)
  {
    var bs := BlocksOf(areas, before + [a] + after);
    BlocksAround(areas, before, a, after);
    BlocksAround(areas', before, x, after);
    BlocksSame(areas, areas', before);
    BlocksSame(areas, areas', after);
    assert bs[..|before|] == BlocksOf(areas, before) && bs[|before| + 1..] == BlocksOf(areas, after);
  }

  lemma CutOrdered(areas: Areas, areas': Areas, before: seq<nat>, a: nat, after: seq<nat>, request: nat)
    requires Ordered(areas, before + [a] + after) && a in areas && request + NODE_SIZE <= areas[a].length
    requires Kept(areas, areas', before) && Kept(areas, areas', after) && a + request in areas'
    requires areas'[a + request].start == a + request && areas'[a + request].end == areas[a].end
    requires areas'[a + request].length == areas[a].length - request
    ensures Ordered(areas', before + [a + request] + after)
  {
    hide Gapped, BlocksOf;
    var x := a + request;
    var order := before + [a] + after;
    assert order[|before|] == a && Recorded(areas, a);
    CutBlocks(areas, areas', before, a, x, after);
    GappedShorter(BlocksOf(areas, before), BlockAt(areas, a), BlockAt(areas', x), BlocksOf(areas, after));
    CutRecorded(areas, areas', before, order);
    CutRecorded(areas, areas', after, order);
  }

  lemma CutRecorded(areas: Areas, areas': Areas, part: seq<nat>, order: seq<nat>)
    requires Ordered(areas, order) && Kept(areas, areas', part) && forall y | y in part :: y in order
    ensures forall y | y in part :: Recorded(areas', y)
  {
    hide Gapped, BlocksOf;
  }

  lemma CutPart(areas: Areas, areas': Areas, before: seq<nat>, a: nat, after: seq<nat>, lo: nat, hi: nat, request: nat)
    requires Sound(areas, before + [a] + after, lo, hi) && a in areas && request + NODE_SIZE <= areas[a].length
    requires Kept(areas, areas', before) && Kept(areas, areas', after)
    requires var x := a + request;
             x in areas' && areas'[x] == MemoryArea(x, areas[a].end, areas[a].length - request, SplitIndex(areas[a].length - request))
    ensures Sound(areas', before + [a + request] + after, lo, hi)
    ensures var bs := BlocksOf(areas, before + [a] + after);
            bs[|before|] == BlockAt(areas, a) && BlocksOf(areas', before + [a + request] + after) == Taken(bs, |before|, request, false)
  {
    hide SplitIndex, Fitting, Within, Ordered, BlocksOf;
    var x := a + request;
    var order := before + [a] + after;
    CutBlocks(areas, areas', before, a, x, after);
    CutOrdered(areas, areas', before, a, after, request);
    assert order[|before|] == a;
    CutFits(areas, order, a, request, lo, hi);
    SoundAround(areas, areas', before, x, after, order, lo, hi);
  }

  /** The records after nothing was cut off an area. */
  lemma CutNothing(areas: Areas, before: seq<nat>, a: nat, after: seq<nat>, lo: nat, hi: nat)
    requires Sound(areas, before + [a] + after, lo, hi)
    ensures a in Members(before + [a] + after) && Recorded(areas, a)
    ensures var order, areas' := before + [a] + after, areas[a := areas[a].(index := SplitIndex(areas[a].length))];
            && |before| < |BlocksOf(areas, order)| && Sound(areas', order, lo, hi)
            && BlocksOf(areas', order) == Taken(BlocksOf(areas, order), |before|, 0, false)
  {
    hide SplitIndex, Within, Gapped;
    var order := before + [a] + after;
    assert order[|before|] == a && Recorded(areas, a);
    var areas' := areas[a := areas[a].(index := SplitIndex(areas[a].length))];
    CutFits(areas, order, a, 0, lo, hi);
    BlocksSame(areas, areas', order);
    assert forall x | x in order :: Recorded(areas, x) && Recorded(areas', x);
    SameExtents(areas, areas', order, lo, hi);
    TakenNothing(BlocksOf(areas, order), |before|);
  }

  lemma SameExtents(areas: Areas, areas': Areas, order: seq<nat>, lo: nat, hi: nat)
    requires Within(areas, order, lo, hi) && areas'.Keys == areas.Keys
    requires forall x | x in order && x in areas :: areas'[x].length == areas[x].length
    ensures Within(areas', order, lo, hi)
  {
  }

  /** A request for nothing takes nothing. */
  lemma TakenNothing(bs: seq<Block>, k: nat)
    requires k < |bs|
    ensures Taken(bs, k, 0, false) == bs
  {
    assert bs == bs[..k] + [bs[k]] + bs[k + 1..];
  }

  /** The address handed out is free no longer exactly if the request is for something. */
  lemma FreeNoLonger(bs: seq<Block>, k: nat, request: nat)
    requires Gapped(bs) && k < |bs| && request <= bs[k].len
    ensures Covered(Taken(bs, k, request, bs[k].len == request), bs[k].start) <==> request == 0
  {
    hide Gapped, Taken;
    assert bs[k].len > 0 by { NotEmpty(bs, k); }
    TakenCovers(bs, k, request, bs[k].len == request, bs[k].start);
    assert Contains(bs[k], bs[k].start);
  }

  lemma NotEmpty(bs: seq<Block>, k: nat)
    requires Gapped(bs) && k < |bs|
    ensures bs[k].len > 0
  {
  }

  lemma CutFits(areas: Areas, order: seq<nat>, a: nat, request: nat, lo: nat, hi: nat)
    requires Sound(areas, order, lo, hi) && a in order && a in areas && request + NODE_SIZE <= areas[a].length
    ensures lo <= a && a + areas[a].length <= hi
    ensures IndexFits(areas[a].length - request, SplitIndex(areas[a].length - request))
  {
  }

  lemma NoMoreThanTotal(bs: seq<Block>, k: nat)
    requires k < |bs|
    ensures bs[k].len <= Total(bs)
  {
    hide Total;
    assert bs == bs[..k] + [bs[k]] + bs[k + 1..];
    TotalTriple(bs[..k], bs[k], bs[k + 1..]);
  }

  lemma SeenNone(lists: seq<seq<nat>>, areas: Areas, ids: set<nat>, from: nat, request: nat)
    requires Indexed(lists, areas, ids) && from <= 1024
    ensures Seen(lists, areas, from, from, request)
  {
  }

  lemma InList(lists: seq<seq<nat>>, areas: Areas, ids: set<nat>, i: nat)
    requires Indexed(lists, areas, ids) && i < 1024
    ensures |lists| == 1024 && forall j | 0 <= j < |lists[i]| :: lists[i][j] in areas
  {
  }

  lemma TakenGapped(bs: seq<Block>, k: nat, n: nat, whole: bool)
    requires Gapped(bs) && k < |bs| && n <= bs[k].len && (!whole ==> n < bs[k].len)
    ensures Gapped(Taken(bs, k, n, whole))
  {
    hide Gapped;
    var l, r := bs[..k], bs[k + 1..];
    assert bs == l + [bs[k]] + r;
    if whole {
      assert l + [] + r == l + r;
      GappedWithout(l, bs[k], r);
    } else {
      GappedShorter(l, bs[k], Block(bs[k].start + n, bs[k].len - n), r);
    }
  }

  /** The blocks around one block of a run keep clear of it and of its front. */
  lemma FrontFits(l: seq<Block>, c: Block, r: seq<Block>, n: nat)
    requires Gapped(l + [c] + r) && 0 < n <= c.len
    ensures forall i | 0 <= i < |l| :: l[i].End() < c.start
    ensures forall i | 0 <= i < |r| :: c.End() < r[i].start
    ensures !TouchesLeft(l, Block(c.start, n)) && !TouchesRight(Block(c.start, n), r)
    ensures Fits(l, Block(c.start, n), r)
  {
    hide Gapped;
    GappedSides(l, c, r);
    assert Fits(l, Block(c.start, n), r);
  }

  /** A front cut off and given back grows together with the rest. */
  lemma ReturnFront(l: seq<Block>, c: Block, r: seq<Block>, n: nat)
    requires Gapped(l + [c] + r) && 0 < n < c.len
    ensures var b, after := Block(c.start, n), [Block(c.start + n, c.len - n)] + r;
            Fits(l, b, after) && Joined(l, b, after) == l + [c] + r
  {
    var b, after := Block(c.start, n), [Block(c.start + n, c.len - n)] + r;
    hide Gapped, Joined;
    FrontFits(l, c, r, n);
    assert after[1..] == r;
    JoinedIs(l, b, after, l, c, r);
  }

  /** A block taken whole and given back in part is shorter, unless the part is all of it. */
  lemma ReturnWhole(l: seq<Block>, c: Block, r: seq<Block>, n: nat)
    requires Gapped(l + [c] + r) && 0 < n <= c.len
    ensures var b := Block(c.start, n); Fits(l, b, r) && Joined(l, b, r) == l + [b] + r
  {
    hide Gapped, Joined;
    FrontFits(l, c, r, n);
    JoinedIs(l, Block(c.start, n), r, l, Block(c.start, n), r);
  }

  /**
   Giving a block straight back restores the free blocks exactly if nothing behind it was given
   away with it: an area taken whole although it was longer stays shorter.
   */
  lemma TakeThenReturn(bs: seq<Block>, k: nat, n: nat, whole: bool)
    requires Gapped(bs) && k < |bs| && 0 < n <= bs[k].len && (!whole ==> n < bs[k].len)
    ensures var t, b := Taken(bs, k, n, whole), Block(bs[k].start, n);
            && Fits(t[..k], b, t[k..])
            && (Joined(t[..k], b, t[k..]) == bs <==> (whole ==> bs[k].len == n))
  {
    hide Gapped, Joined, Fits;
    var l, c, r := bs[..k], bs[k], bs[k + 1..];
    assert bs == l + [c] + r;
    var t := Taken(bs, k, n, whole);
    if whole {
      assert t[..k] == l && t[k..] == r;
      ReturnWhole(l, c, r, n);
      assert (l + [Block(c.start, n)] + r)[k] == Block(c.start, n);
    } else {
      assert t[..k] == l && t[k..] == [Block(c.start + n, c.len - n)] + r;
      ReturnFront(l, c, r, n);
    }
  }
}
