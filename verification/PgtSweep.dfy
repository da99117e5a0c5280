/**
 The search that Cleanup makes over the whole table: it reports every stored region once, in
 ascending order.
 */
module PgtSweep {
  import opened Bits
  import opened PgtTree
  import opened PgtOrder
  import opened PgtGeometry
  import opened PgtRegions

  /** The region reported last, and all regions reported so far. */
  datatype Sweep = Sweep(last: Option<PgtRegion>, found: seq<PgtRegion>)

  /** Meeting a page of r: a region is reported when its first page is met. */
  function Meet(s: Sweep, r: PgtRegion): (s': Sweep) {
    if s.last == Some(r) then s
    else if s.last.Some? && r.start < s.last.value.end then s
    else Sweep(Some(r), s.found + [r])
  }

  /** The walk over all entries of a tree. */
  function Visit(t: Tree, s: Sweep): (s': Sweep) {
    match t
    case Empty => s
    case Leaf(r) => Meet(s, r)
    case Dir(_, kids) => VisitAll(kids, s)
  }

  function VisitAll(kids: seq<Tree>, s: Sweep): (s': Sweep) {
    if kids == [] then s else VisitAll(kids[1..], Visit(kids[0], s))
  }

  ghost predicate Ascending(rs: seq<PgtRegion>) {
    forall i, j | 0 <= i < j < |rs| :: rs[i].end <= rs[j].start
  }

  /** Below x everything has been reported: the regions that start below x, in order. */
  ghost predicate SweptTo(s: Sweep, regions: set<PgtRegion>, x: nat) {
    && Ascending(s.found)
    && (forall r :: r in s.found <==> r in regions && r.start < x)
    && s.last == if s.found == [] then None else Some(s.found[|s.found| - 1])
  }

  /** t answers for block n at level k as a table that stores the regions does. */
  ghost predicate BlockStores(t: Tree, k: nat, n: nat, regions: set<PgtRegion>) {
    && WellSeparated(regions)
    && forall a: nat | Block(k, a) == n ::
         && (forall r | r in regions && Covers(r, a) :: Find(t, k, a).Some? && Find(t, k, a).value.region == r)
         && (Find(t, k, a).Some? ==> Find(t, k, a).value.region in regions && Covers(Find(t, k, a).value.region, a))
  }

  lemma BlockEnds(k: nat, n: nat)
    ensures BlockBase(k, n + 1) == BlockBase(k, n) + Span(k)
    ensures forall a: nat :: Block(k, a) == n <==> BlockBase(k, n) <= a < BlockBase(k, n + 1)
  {
    UpNext(n, Shift(k));
    forall a: nat
      ensures Block(k, a) == n <==> BlockBase(k, n) <= a < BlockBase(k, n + 1)
    {
      ShrRange(a, n, Shift(k));
    }
  }

  lemma KidStores(t: Tree, k: nat, n: nat, regions: set<PgtRegion>, i: nat)
    requires BlockStores(t, k, n, regions) && Shape(t, k) && t.Dir? && i < 16
    ensures BlockStores(t.kids[i], k - 1, 16 * n + i, regions)
  {
    var m, c := k - 1, 16 * n + i;
    forall a: nat | Block(m, a) == c
      ensures Block(k, a) == n && Find(t.kids[i], m, a) == Find(t, k, a)
    {
      ChildBlock(m, n, i, a);
    }
  }

  /** An empty block starts no region. */
  lemma SweepEmpty(k: nat, n: nat, regions: set<PgtRegion>, s: Sweep)
    requires BlockStores(Empty, k, n, regions) && SweptTo(s, regions, BlockBase(k, n))
    ensures SweptTo(s, regions, BlockBase(k, n + 1))
  {
    BlockEnds(k, n);
    forall r | r in regions
      ensures Block(k, r.start) != n
    {
    }
  }

  lemma LeafInside(r: PgtRegion, k: nat, n: nat, regions: set<PgtRegion>)
    requires BlockStores(Leaf(r), k, n, regions)
    ensures Covers(r, BlockBase(k, n))
  {
    BaseBlock(k, n);
    assert Find(Leaf(r), k, BlockBase(k, n)) == Some(Page(k, r));
  }

  /** A page of r: the block lies inside r, so r is the last region to start before its end. */
  lemma SweepLeaf(r: PgtRegion, k: nat, n: nat, regions: set<PgtRegion>, s: Sweep)
    requires BlockStores(Leaf(r), k, n, regions) && SweptTo(s, regions, BlockBase(k, n))
    ensures SweptTo(Meet(s, r), regions, BlockBase(k, n + 1))
  {
    BlockEnds(k, n);
    var lo, hi := BlockBase(k, n), BlockBase(k, n + 1);
    assert Block(k, lo) == n && Block(k, hi - 1) == n;
    assert r in regions && r.start <= lo && hi <= r.end;
    forall q | q in regions && q.start < hi && q != r
      ensures q.end <= r.start
    {
      assert Apart(q, r);
    }
    var z := |s.found| - 1;
    if r in s.found {
      var i :| 0 <= i < |s.found| && s.found[i] == r;
      assert s.found[z] in s.found;
      assert i == z;
    } else if z >= 0 {
      assert s.found[z] in s.found;
    }
    SweepMeet(r, regions, s, lo, hi);
  }

  lemma SweepMeet(r: PgtRegion, regions: set<PgtRegion>, s: Sweep, lo: nat, hi: nat)
    requires SweptTo(s, regions, lo) && r in regions && r.start <= lo < hi
    requires forall q | q in regions && q.start < hi && q != r :: q.end <= r.start && q.start < r.start
    requires r in s.found ==> s.last == Some(r)
    requires r !in s.found ==> r.start == lo
    ensures SweptTo(Meet(s, r), regions, hi)
  {
    var s' := Meet(s, r);
    if r in s.found {
      assert s' == s;
    } else {
      if s.found != [] { assert s.found[|s.found| - 1] in s.found; }
      assert s' == Sweep(Some(r), s.found + [r]);
      assert forall i | 0 <= i < |s.found| :: s.found[i] in s.found;
    }
  }

  /** Visiting a tree carries the sweep over its block. */
  lemma {:induction false} SweepTree(t: Tree, k: nat, n: nat, regions: set<PgtRegion>, s: Sweep)
    requires Shape(t, k) && BlockStores(t, k, n, regions) && SweptTo(s, regions, BlockBase(k, n))
    ensures SweptTo(Visit(t, s), regions, BlockBase(k, n + 1))
    decreases k, 17
  {
    match t {
      case Empty => SweepEmpty(k, n, regions, s);
      case Leaf(r) => SweepLeaf(r, k, n, regions, s);
      case Dir(_, kids) =>
        BaseSplit(k - 1, n);
        BaseSplit(k - 1, n + 1);
        SweepKids(t, k, n, regions, s, 0);
        assert kids[0..] == kids;
    }
  }

  lemma {:induction false} SweepKids(t: Tree, k: nat, n: nat, regions: set<PgtRegion>, s: Sweep, i: nat)
    requires Shape(t, k) && t.Dir? && BlockStores(t, k, n, regions) && i <= 16
    requires SweptTo(s, regions, BlockBase(k - 1, 16 * n + i))
    ensures SweptTo(VisitAll(t.kids[i..], s), regions, BlockBase(k - 1, 16 * n + 16))
    decreases k, 16 - i
  {
    if i < 16 {
      KidStores(t, k, n, regions, i);
      SweepTree(t.kids[i], k - 1, 16 * n + i, regions, s);
      SweepKids(t, k, n, regions, Visit(t.kids[i], s), i + 1);
      assert t.kids[i..][1..] == t.kids[i + 1..];
    }
  }

  /** Ascending regions that are not empty are all different. */
  lemma AscendingDistinct(rs: seq<PgtRegion>, regions: set<PgtRegion>)
    requires Ascending(rs) && WellSeparated(regions) && forall r :: r in rs <==> r in regions
    ensures |rs| == |regions|
    ensures forall i, j | 0 <= i < j < |rs| :: rs[i] != rs[j]
  {
    assert forall i | 0 <= i < |rs| :: rs[i] in rs;
    assert forall i, j | 0 <= i < j < |rs| :: rs[i] != rs[j];
    CountDistinct(rs, regions);
  }

  lemma {:induction false} CountDistinct(rs: seq<PgtRegion>, regions: set<PgtRegion>)
    requires forall i, j | 0 <= i < j < |rs| :: rs[i] != rs[j]
    requires forall r :: r in rs <==> r in regions
    ensures |rs| == |regions|
  {
    if rs == [] {
      assert regions == {};
    } else {
      var n := |rs| - 1;
      assert rs == rs[..n] + [rs[n]];
      CountDistinct(rs[..n], regions - {rs[n]});
    }
  }

  /** Before and after the sweep of a whole table. */
  lemma RootSweep(v: View, regions: set<PgtRegion>)
    requires Stores(v, regions)
    ensures BlockStores(v.tree, v.level, v.block, regions)
    ensures SweptTo(Sweep(None, []), regions, BlockBase(v.level, v.block))
    ensures forall r | r in regions :: r.start < BlockBase(v.level, v.block + 1)
  {
    hide LevelAt;
    BlockEnds(v.level, v.block);
    forall r | r in regions
      ensures BlockBase(v.level, v.block) <= r.start < BlockBase(v.level, v.block + 1)
    {
      assert AnswersAt(v, regions, r.start) && Covers(r, r.start);
    }
    forall a: nat | Block(v.level, a) == v.block
      ensures AnswersAt(v, regions, a) && Find(v.tree, v.level, a) == FindIn(v, a)
    {
    }
  }

  lemma KidInside(k: nat, n: nat, i: nat, lo: nat, size: nat)
    requires k > 0 && i < 16 && lo <= BlockBase(k, n) && BlockBase(k, n) + Span(k) <= lo + size
    ensures lo <= BlockBase(k - 1, 16 * n + i) && BlockBase(k - 1, 16 * n + i) + Span(k - 1) <= lo + size
  {
    hide Pow2, Up;
    BaseSplit(k - 1, n);
    BaseSplit(k - 1, n + 1);
    UpNext(n, Shift(k));
    UpMonotone(16 * n + i, 16 * n + 16, Shift(k - 1));
    if i > 0 { UpMonotone(16 * n, 16 * n + i, Shift(k - 1)); }
  }

  /** The bounds Cleanup hands to the search, rounded to pages: the table's own block. */
  lemma RangeBounds(k: nat, n: nat, to: nat)
    requires k <= TOP_LEVEL && BlockBase(k, n) < WORD && to == BlockBase(k, n) + Span(k) - 1
    ensures And(BlockBase(k, n), WORD - 16) == BlockBase(k, n)
    ensures And((to + 15) % WORD, WORD - 16) == (BlockBase(k, n) + Span(k)) % WORD
    ensures BlockBase(k, n) + Span(k) <= WORD
  {
    BlockInWord(k, n);
    BaseBlock(k, n);
    AlignedDown(0, k, BlockBase(k, n));
    var top := BlockBase(k, n) + Span(k);
    UpNext(n, Shift(k));
    BaseBlock(k, n + 1);
    AlignedDown(0, k, top);
    assert Span(0) == 16 by { Pow2Word(); }
    Pow2Monotone(4, Shift(k));
    AndMask(BlockBase(k, n), 0);
    SpanRounded(top, to);
  }

  lemma SpanRounded(top: nat, to: nat)
    requires 16 <= top <= WORD && to == top - 1 && AlignedTo(0, top) && Span(0) == 16
    ensures And((to + 15) % WORD, WORD - 16) == top % WORD
  {
    hide Pow2, Up;
    if top == WORD {
      assert (to + 15) % WORD == 14;
      AndMask(14, 0);
      UpZero(4);
      ShrRange(14, 0, 4);
    } else {
      ShrRange(top + 14, Block(0, top), 4);
      TopAligned(top);
      AndMask(top + 14, 0);
    }
  }

  lemma TopAligned(top: nat)
    requires top < WORD && AlignedTo(0, top) && Span(0) == 16
    ensures top + 14 < WORD && (top + 14) % WORD == top + 14
  {
    BlockInWord(0, Block(0, top));
  }

  lemma PowerBit(s: nat)
    ensures HighestBit(Pow2(s)) == s
  {
    HighestBitBounds(Pow2(s), s);
    HighestBitBounds(Pow2(s), s + 1);
  }

  lemma BlockAligned(k: nat, n: nat)
    ensures Aligned(BlockBase(k, n)) && AlignedTo(k, BlockBase(k, n))
  {
    BaseBlock(k, n);
    AlignedDown(0, k, BlockBase(k, n));
    AlignedIsLevel0(BlockBase(k, n));
  }

  lemma BlockMaxOrder(k: nat, b: nat, e: nat)
    requires k < TOP_LEVEL && AlignedTo(k, b) && b < WORD && b + Span(k) <= WORD && e == (b + Span(k)) % WORD
    ensures Span(k) < WORD && MaxOrder(b, e) == Shift(k)
  {
    hide HighestBit, LowestBit, Up, Pow2, Shr;
    Pow2Word();
    SpanUp(k);
    Pow2Monotone(Shift(k + 1), 64);
    PowerBit(Shift(k));
    if b > 0 { LowestBitDivides(b, Shift(k)); }
    if b + Span(k) == WORD { assert e == 0; } else { assert e == b + Span(k); }
  }

  /** The search takes the whole block in one step. */
  lemma RangeOrder(k: nat, n: nat)
    requires k <= TOP_LEVEL && BlockBase(k, n) < WORD
    ensures NextPageOrder(BlockBase(k, n), (BlockBase(k, n) + Span(k)) % WORD) == Shift(k)
    ensures k == TOP_LEVEL ==> BlockBase(k, n) == 0
    ensures NextPageOrder(0, 0) == ADDR_BITS
  {
    hide MaxOrder, Up, Shr, Aligned;
    var b, e := BlockBase(k, n), (BlockBase(k, n) + Span(k)) % WORD;
    assert Aligned(0) && MaxOrder(0, 0) == ADDR_BITS by { ZeroOrder(); }
    BlockInWord(k, n);
    if k == TOP_LEVEL {
      Pow2Word();
      assert b == 0 && Span(k) == WORD && e == 0;
    } else {
      BelowTop(k, n, b, e);
    }
  }

  lemma BelowTop(k: nat, n: nat, b: nat, e: nat)
    requires k < TOP_LEVEL && b == BlockBase(k, n) < WORD && b + Span(k) <= WORD && e == (b + Span(k)) % WORD
    ensures Aligned(b) && Aligned(e) && MaxOrder(b, e) == Shift(k)
  {
    hide MaxOrder, Up, Shr, Aligned, Pow2;
    BlockAligned(k, n);
    BlockAligned(k, n + 1);
    UpNext(n, Shift(k));
    BlockMaxOrder(k, b, e);
    ZeroOrder();
  }

  lemma ZeroOrder()
    ensures Aligned(0) && MaxOrder(0, 0) == ADDR_BITS
  {
  }
}
