/**
 What a table that stores a set of regions answers, and how that changes while the pages of
 one region are put in or taken out one after another.
 */
module PgtRegions {
  import opened Bits
  import opened PgtTree
  import opened PgtOrder

  predicate Covers(r: PgtRegion, a: nat) {
    r.start <= a < r.end
  }

  predicate Apart(r: PgtRegion, s: PgtRegion) {
    r.end <= s.start || s.end <= r.start
  }

  ghost predicate WellSeparated(regions: set<PgtRegion>) {
    && (forall r | r in regions :: Cuttable(r.start, r.end))
    && (forall r, s | r in regions && s in regions && r != s :: Apart(r, s))
  }

  /** The answer at a is right: the one region that covers a, on its own page, or nothing. */
  ghost predicate AnswersAt(v: View, regions: set<PgtRegion>, a: nat)
    requires WellSeparated(regions)
  {
    && (forall r | r in regions && Covers(r, a) :: FindIn(v, a) == Some(Page(LevelAt(r, a), r)))
    && (FindIn(v, a).Some? ==> FindIn(v, a).value.region in regions && Covers(FindIn(v, a).value.region, a))
  }

  /** The table stores exactly these regions. */
  ghost predicate Stores(v: View, regions: set<PgtRegion>) {
    WellSeparated(regions) && forall a :: AnswersAt(v, regions, a)
  }

  /** v answers like base, except on [lo, hi), which holds pages of r. */
  ghost predicate Between(v: View, base: View, r: PgtRegion, lo: nat, hi: nat)
    requires r.end < WORD
  {
    forall a: nat :: FindIn(v, a) == if lo <= a < hi then Some(Page(LevelAt(r, a), r)) else FindIn(base, a)
  }

  /** v answers like base, except on [lo, hi), where it finds nothing. */
  ghost predicate Gone(v: View, base: View, lo: nat, hi: nat) {
    forall a: nat :: FindIn(v, a) == if lo <= a < hi then None else FindIn(base, a)
  }

  ghost predicate FreeRange(v: View, lo: nat, hi: nat) {
    forall a | lo <= a < hi :: FindIn(v, a) == None
  }

  lemma PageRange(k: nat, a: nat)
    requires AlignedTo(k, a)
    ensures forall b: nat :: Block(k, b) == Block(k, a) <==> a <= b < a + Span(k)
  {
    forall b: nat
      ensures Block(k, b) == Block(k, a) <==> a <= b < a + Span(k)
    {
      ShrRange(b, Block(k, a), Shift(k));
    }
  }

  // ----- the pages of one region, in order

  /** f is where a page ends when [x, end) is cut from x on. */
  ghost predicate CutPoint(x: nat, end: nat, f: nat)
    requires end < WORD
    decreases end - x
  {
    x == f || (x < end && CutPoint(x + Span(NextLevel(x, end)), end, f))
  }

  lemma {:induction false} CutPointAfter(x: nat, end: nat, f: nat)
    requires end < WORD && CutPoint(x, end, f)
    ensures x <= f
    ensures x < f ==> x + Span(NextLevel(x, end)) <= f
    decreases end - x
  {
    if x != f { CutPointAfter(x + Span(NextLevel(x, end)), end, f); }
  }

  lemma {:induction false} CutPointNext(x: nat, end: nat, f: nat)
    requires end < WORD && CutPoint(x, end, f) && f < end
    ensures CutPoint(x, end, f + Span(NextLevel(f, end)))
    decreases end - x
  {
    if x != f { CutPointNext(x + Span(NextLevel(x, end)), end, f); }
  }

  /** From f on, the pages of r are those cut from f on. */
  ghost predicate PagesFrom(r: PgtRegion, f: nat)
    requires r.end < WORD
  {
    forall a | f <= a < r.end :: PageStart(r.start, r.end, a) == PageStart(f, r.end, a)
  }

  lemma PagesNext(r: PgtRegion, f: nat)
    requires r.end < WORD && f < r.end && PagesFrom(r, f)
    ensures PagesFrom(r, f + Span(NextLevel(f, r.end)))
    ensures forall a | f <= a < f + Span(NextLevel(f, r.end)) && a < r.end :: LevelAt(r, a) == NextLevel(f, r.end)
  {
    hide NextLevel, Span;
    var next := f + Span(NextLevel(f, r.end));
    forall a: nat | f <= a < r.end
      ensures a >= next ==> PageStart(r.start, r.end, a) == PageStart(next, r.end, a)
      ensures a < next ==> LevelAt(r, a) == NextLevel(f, r.end)
    {
      assert PageStart(r.start, r.end, a) == PageStart(f, r.end, a);
    }
  }

  lemma PagesStart(r: PgtRegion)
    requires r.end < WORD
    ensures PagesFrom(r, r.start)
  {
  }

  lemma CutPointStep(x: nat, end: nat, f: nat)
    requires end < WORD && CutPoint(x, end, f) && x < f
    ensures CutPoint(x + Span(NextLevel(x, end)), end, f)
  {
  }

  lemma BetweenNothing(v: View, base: View, r: PgtRegion, f: nat)
    requires r.end < WORD && Between(v, base, r, f, f)
    ensures FindSame(v, base)
  {
  }

  lemma BetweenStart(v: View, r: PgtRegion)
    requires r.end < WORD
    ensures Between(v, v, r, r.start, r.start) && FreeRange(v, r.start, r.start) && CutPoint(r.start, r.end, r.start)
    ensures PagesFrom(r, r.start)
  {
  }

  /** Putting in the next page. */
  lemma BetweenAdds(v: View, w: View, base: View, r: PgtRegion, f: nat)
    requires Cuttable(r.start, r.end) && Cuttable(f, r.end) && r.start <= f && PagesFrom(r, f)
    requires Between(v, base, r, r.start, f) && FreeRange(base, r.start, f)
    requires Adds(v, w, NextLevel(f, r.end), f, r) && Uncovered(v, NextLevel(f, r.end), f)
    ensures Between(w, base, r, r.start, f + Span(NextLevel(f, r.end)))
    ensures FreeRange(base, r.start, f + Span(NextLevel(f, r.end)))
  {
    hide LevelAt, NextLevel, AlignedTo, FindIn, PagesFrom;
    var k := NextLevel(f, r.end);
    NextPageLargestFit(f, r.end);
    FitsAligned(k, f, r.end);
    PageRange(k, f);
    PagesNext(r, f);
    forall a: nat
      ensures r.start <= a < f + Span(k) ==> FindIn(base, a) == None
      ensures FindIn(w, a) == if r.start <= a < f + Span(k) then Some(Page(LevelAt(r, a), r)) else FindIn(base, a)
    {
      assert Block(k, a) == Block(k, f) <==> f <= a < f + Span(k);
      assert FindIn(v, a) == if r.start <= a < f then Some(Page(LevelAt(r, a), r)) else FindIn(base, a);
    }
  }

  lemma FitsAligned(k: nat, start: nat, end: nat)
    requires Fits(k, start, end)
    ensures AlignedTo(k, start) && start + Span(k) <= end
  {
  }

  /** One page further: what the insertion loop keeps. */
  lemma InsertedPage(v: View, w: View, base: View, r: PgtRegion, f: nat, order: nat)
    requires Cuttable(r.start, r.end) && Cuttable(f, r.end) && r.start <= f
    requires PagesFrom(r, f) && CutPoint(r.start, r.end, f)
    requires Between(v, base, r, r.start, f) && FreeRange(base, r.start, f)
    requires Adds(v, w, NextLevel(f, r.end), f, r) && Uncovered(v, NextLevel(f, r.end), f)
    requires order == Shift(NextLevel(f, r.end))
    ensures var next := f + Pow2(order);
            && f < next <= r.end && (next < r.end ==> Cuttable(next, r.end))
            && PagesFrom(r, next) && CutPoint(r.start, r.end, next)
            && Between(w, base, r, r.start, next) && FreeRange(base, r.start, next)
  {
    hide PagesFrom, CutPoint, Between, FreeRange, NextLevel, Adds, Uncovered;
    BetweenAdds(v, w, base, r, f);
    PagesNext(r, f);
    CutPointNext(r.start, r.end, f);
    AfterPage(f, r.end);
  }

  /** Taking out the first page of what is left of r. */
  lemma BetweenDrops(v: View, w: View, base: View, r: PgtRegion, f: nat, hi: nat)
    requires Cuttable(r.start, r.end) && Cuttable(f, r.end) && r.start <= f < hi && PagesFrom(r, f)
    requires f + Span(NextLevel(f, r.end)) <= hi <= r.end
    requires Between(v, base, r, f, hi) && FreeRange(base, r.start, hi)
    ensures FindIn(v, f) == Some(Page(NextLevel(f, r.end), r))
    ensures Drops(v, w, NextLevel(f, r.end), f) ==> Between(w, base, r, f + Span(NextLevel(f, r.end)), hi)
  {
    hide LevelAt, NextLevel, AlignedTo, FindIn, PagesFrom;
    var k := NextLevel(f, r.end);
    NextPageLargestFit(f, r.end);
    FitsAligned(k, f, r.end);
    PageRange(k, f);
    PagesNext(r, f);
    if Drops(v, w, k, f) {
      forall a: nat
        ensures FindIn(w, a) == if f + Span(k) <= a < hi then Some(Page(LevelAt(r, a), r)) else FindIn(base, a)
      {
        assert Block(k, a) == Block(k, f) <==> f <= a < f + Span(k);
        assert FindIn(v, a) == if f <= a < hi then Some(Page(LevelAt(r, a), r)) else FindIn(base, a);
      }
    }
  }

  /**
   The rollback recomputes the order against the refused address hi instead of the region's
   end, and gets the order the page was put in with.
   */
  lemma RollBackPage(v: View, base: View, r: PgtRegion, f: nat, hi: nat)
    requires Cuttable(r.start, r.end) && Cuttable(hi, r.end) && Cuttable(f, r.end) && r.start <= f < hi
    requires PagesFrom(r, f) && CutPoint(f, r.end, hi) && Between(v, base, r, f, hi) && FreeRange(base, r.start, hi)
    ensures NextPageOrder(f, hi) == Shift(NextLevel(f, r.end)) < ADDR_BITS && AlignedTo(NextLevel(f, r.end), f)
    ensures FindIn(v, f) == Some(Page(NextLevel(f, r.end), r))
  {
    hide PagesFrom, CutPoint, Between, FreeRange, NextLevel, NextPageOrder, AlignedTo, FindIn;
    CutPointAfter(f, r.end, hi);
    NextPageLargestFit(f, r.end);
    NextPageStable(f, hi, r.end);
    BetweenDrops(v, v, base, r, f, hi);
  }

  /** One page less: what the rollback loop keeps. */
  lemma RemovedPage(v: View, w: View, base: View, r: PgtRegion, f: nat, hi: nat, order: nat)
    requires Cuttable(r.start, r.end) && Cuttable(hi, r.end) && Cuttable(f, r.end) && r.start <= f < hi
    requires PagesFrom(r, f) && CutPoint(f, r.end, hi) && Between(v, base, r, f, hi) && FreeRange(base, r.start, hi)
    requires Drops(v, w, NextLevel(f, r.end), f) && order == Shift(NextLevel(f, r.end))
    ensures var next := f + Pow2(order);
            && f < next <= hi && Cuttable(next, r.end)
            && PagesFrom(r, next) && CutPoint(next, r.end, hi) && Between(w, base, r, next, hi)
  {
    hide PagesFrom, CutPoint, Between, FreeRange, NextLevel, Drops;
    CutPointAfter(f, r.end, hi);
    BetweenDrops(v, w, base, r, f, hi);
    PagesNext(r, f);
    CutPointStep(f, r.end, hi);
    AfterPage(f, r.end);
  }

  /** Taking out the next page of a stored region. */
  lemma GoneDrops(v: View, w: View, base: View, regions: set<PgtRegion>, r: PgtRegion, f: nat)
    requires Stores(base, regions) && r in regions && r.start <= f && Cuttable(f, r.end) && PagesFrom(r, f)
    requires Gone(v, base, r.start, f)
    ensures FindIn(v, f) == Some(Page(NextLevel(f, r.end), r))
    ensures Drops(v, w, NextLevel(f, r.end), f) ==> Gone(w, base, r.start, f + Span(NextLevel(f, r.end)))
  {
    hide LevelAt, NextLevel, AlignedTo, FindIn, PagesFrom;
    var k := NextLevel(f, r.end);
    NextPageLargestFit(f, r.end);
    FitsAligned(k, f, r.end);
    PageRange(k, f);
    PagesNext(r, f);
    assert AnswersAt(base, regions, f);
    assert FindIn(v, f) == FindIn(base, f);
    if Drops(v, w, k, f) {
      forall a: nat
        ensures FindIn(w, a) == if r.start <= a < f + Span(k) then None else FindIn(base, a)
      {
        assert Block(k, a) == Block(k, f) <==> f <= a < f + Span(k);
        assert FindIn(v, a) == if r.start <= a < f then None else FindIn(base, a);
      }
    }
  }

  lemma GoneStart(v: View, r: PgtRegion)
    requires r.end < WORD
    ensures Gone(v, v, r.start, r.start) && PagesFrom(r, r.start)
  {
  }

  /** The page at f is r's page exactly when r is stored. */
  lemma StoredPage(v: View, base: View, regions: set<PgtRegion>, r: PgtRegion, f: nat)
    requires Stores(base, regions) && Cuttable(r.start, r.end) && r.start <= f && Cuttable(f, r.end) && PagesFrom(r, f)
    requires Gone(v, base, r.start, f)
    ensures FindIn(v, f) == Some(Page(NextLevel(f, r.end), r)) <==> r in regions
    ensures AlignedTo(NextLevel(f, r.end), f)
  {
    hide PagesFrom, Gone, FindIn, NextLevel, AlignedTo, LevelAt;
    NextPageLargestFit(f, r.end);
    FitsAligned(NextLevel(f, r.end), f, r.end);
    if r in regions {
      GoneDrops(v, v, base, regions, r, f);
    } else {
      GoneBelow(v, base, r.start, f);
      assert AnswersAt(base, regions, f);
    }
  }

  lemma GoneBelow(v: View, base: View, lo: nat, f: nat)
    requires Gone(v, base, lo, f)
    ensures FindIn(v, f) == FindIn(base, f)
  {
  }

  /** One page less: what the removal loop keeps. */
  lemma RemovedStored(v: View, w: View, base: View, regions: set<PgtRegion>, r: PgtRegion, f: nat, order: nat)
    requires Stores(base, regions) && r in regions && r.start <= f && Cuttable(f, r.end) && PagesFrom(r, f)
    requires Gone(v, base, r.start, f)
    requires Drops(v, w, NextLevel(f, r.end), f) && order == Shift(NextLevel(f, r.end))
    ensures var next := f + Pow2(order);
            && f < next <= r.end && (next < r.end ==> Cuttable(next, r.end))
            && PagesFrom(r, next) && Gone(w, base, r.start, next)
  {
    hide PagesFrom, Gone, FindIn, NextLevel, LevelAt, Drops;
    GoneDrops(v, w, base, regions, r, f);
    PagesNext(r, f);
    AfterPage(f, r.end);
  }

  lemma StoredAnswer(v: View, regions: set<PgtRegion>, a: nat)
    requires Stores(v, regions)
    ensures FindIn(v, a).Some? ==> FindIn(v, a).value.region in regions && Covers(FindIn(v, a).value.region, a)
    ensures FindIn(v, a) == None ==> forall s | s in regions :: !Covers(s, a)
  {
    hide LevelAt, FindIn;
    assert AnswersAt(v, regions, a);
  }

  // ----- the whole region

  /** A covered address belongs to a stored region. */
  lemma Overlapping(v: View, regions: set<PgtRegion>, r: PgtRegion, a: nat)
    requires Stores(v, regions) && Covers(r, a) && FindIn(v, a) != None
    ensures exists s :: s in regions && !Apart(s, r)
  {
    assert AnswersAt(v, regions, a);
    var s := FindIn(v, a).value.region;
    assert s in regions && !Apart(s, r);
  }

  /** When the next page is blocked, a stored region is in the way. */
  lemma BlockedOverlaps(v: View, base: View, regions: set<PgtRegion>, r: PgtRegion, f: nat)
    requires Stores(base, regions) && Cuttable(r.start, r.end) && Cuttable(f, r.end) && r.start <= f
    requires Between(v, base, r, r.start, f) && !Uncovered(v, NextLevel(f, r.end), f)
    ensures exists s :: s in regions && !Apart(s, r)
  {
    hide LevelAt, NextLevel, AlignedTo, FindIn;
    var k := NextLevel(f, r.end);
    NextPageLargestFit(f, r.end);
    FitsAligned(k, f, r.end);
    PageRange(k, f);
    var b: nat :| Block(k, b) == Block(k, f) && FindIn(v, b) != None;
    Overlapping(base, regions, r, b);
  }

  /** A free range meets no stored region. */
  lemma FreeIsApart(v: View, regions: set<PgtRegion>, r: PgtRegion)
    requires Stores(v, regions) && r.start < r.end && FreeRange(v, r.start, r.end)
    ensures forall s | s in regions :: Apart(s, r)
  {
    forall s | s in regions
      ensures Apart(s, r)
    {
      if !Apart(s, r) {
        var a := if s.start < r.start then r.start else s.start;
        assert AnswersAt(v, regions, a) && Covers(s, a);
      }
    }
  }

  lemma StoresInsert(base: View, v: View, regions: set<PgtRegion>, r: PgtRegion)
    requires Stores(base, regions) && Cuttable(r.start, r.end) && forall s | s in regions :: Apart(s, r)
    requires Between(v, base, r, r.start, r.end)
    ensures Stores(v, regions + {r})
  {
    hide LevelAt, FindIn;
    forall a: nat
      ensures AnswersAt(v, regions + {r}, a)
    {
      assert AnswersAt(base, regions, a);
    }
  }

  lemma StoresRemove(base: View, v: View, regions: set<PgtRegion>, r: PgtRegion)
    requires Stores(base, regions) && r in regions && Gone(v, base, r.start, r.end)
    ensures Stores(v, regions - {r})
  {
    hide LevelAt, FindIn;
    forall a: nat
      ensures AnswersAt(v, regions - {r}, a)
    {
      assert AnswersAt(base, regions, a);
    }
  }

  /** Tables that store the same regions give the same answers. */
  lemma StoresSame(v: View, w: View, regions: set<PgtRegion>)
    requires Stores(v, regions) && Stores(w, regions)
    ensures FindSame(v, w)
  {
    hide LevelAt, FindIn;
    forall a
      ensures FindIn(v, a) == FindIn(w, a)
    {
      assert AnswersAt(v, regions, a) && AnswersAt(w, regions, a);
    }
  }

  lemma StoresLike(v: View, w: View, regions: set<PgtRegion>)
    requires Stores(v, regions) && FindSame(w, v)
    ensures Stores(w, regions)
  {
    hide LevelAt, FindIn;
    forall a: nat
      ensures AnswersAt(w, regions, a)
    {
      assert AnswersAt(v, regions, a);
    }
  }

  /**
   History independence: the tree, level and block of a canonical table depend only on the
   regions it stores.
   */
  lemma HistoryIndependent(v: View, w: View, regions: set<PgtRegion>)
    requires Canonical(v) && Canonical(w) && Stores(v, regions) && Stores(w, regions)
    ensures SameView(v, w)
  {
    StoresSame(v, w, regions);
    CanonicalUnique(v, w);
  }
}
