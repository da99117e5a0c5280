/**
 How a region is cut into naturally aligned pages: the order the page table picks for the
 next page, why that order is the largest one that fits, and why computing it again
 against a nearer end gives the same pages.
 */
module PgtOrder {
  import opened Bits
  import opened PgtTree

  const PAGE_SHIFT_MIN: nat := 4
  const ADDR_BITS: nat := 64

  /** The 32-bit value -1 becomes when returned as an unsigned order. */
  const BAD_ORDER: nat := 0xFFFF_FFFF

  predicate Aligned(a: nat) {
    And(a, 15) == 0
  }

  function MaxOrder(start: nat, end: nat): (o: nat)
    requires start < WORD && end < WORD
  {
    if end == 0 && start == 0 then ADDR_BITS
    else if end == start then PAGE_SHIFT_MIN
    else
      var high := HighestBit(if end >= start then end - start else end + WORD - start);
      if start == 0 then high else if LowestBit(start) < high then LowestBit(start) else high
  }

  /** Order of the page that starts at start when the pages must stop at end. */
  function NextPageOrder(start: nat, end: nat): (o: nat)
    requires start < WORD && end < WORD
  {
    if !Aligned(start) || !Aligned(end) then BAD_ORDER
    else
      var max := MaxOrder(start, end);
      if max < PAGE_SHIFT_MIN || max > ADDR_BITS then BAD_ORDER
      else (max - PAGE_SHIFT_MIN) / 4 * 4 + PAGE_SHIFT_MIN
  }

  /** a is the first address of a level-k block. */
  predicate AlignedTo(k: nat, a: nat) {
    BlockBase(k, Block(k, a)) == a
  }

  /** A page of level k can start at start and end by end. */
  predicate Fits(k: nat, start: nat, end: nat) {
    AlignedTo(k, start) && start + Span(k) <= end
  }

  predicate Cuttable(start: nat, end: nat) {
    start < end < WORD && Aligned(start) && Aligned(end)
  }

  lemma AlignedIsLevel0(a: nat)
    ensures Aligned(a) <==> AlignedTo(0, a)
  {
    Pow2Word();
    AndLowMask(a, 4);
  }

  /** Exactly the levels up to the maximum order fit. */
  lemma FitsBelowMax(k: nat, start: nat, end: nat)
    requires start < end < WORD
    ensures Fits(k, start, end) <==> Shift(k) <= MaxOrder(start, end)
  {
    HighestBitBounds(end - start, Shift(k));
    UpZero(Shift(k));
    if start > 0 { LowestBitDivides(start, Shift(k)); }
  }

  lemma AlignedDistance(start: nat, end: nat)
    requires start < end && Aligned(start) && Aligned(end)
    ensures start + Span(0) <= end
  {
    AlignedIsLevel0(start);
    AlignedIsLevel0(end);
    if Block(0, end) <= Block(0, start) {
      if Block(0, end) < Block(0, start) { UpMonotone(Block(0, end), Block(0, start), Shift(0)); }
      assert false;
    }
    UpMonotone(Block(0, start), Block(0, end), Shift(0));
  }

  /** Level of the next page. */
  function NextLevel(start: nat, end: nat): (k: nat)
    requires start < WORD && end < WORD
  {
    var o := NextPageOrder(start, end);
    if o < PAGE_SHIFT_MIN then 0 else (o - PAGE_SHIFT_MIN) / 4
  }

  lemma MaxOrderRange(start: nat, end: nat)
    requires Cuttable(start, end)
    ensures PAGE_SHIFT_MIN <= MaxOrder(start, end) < ADDR_BITS
  {
    AlignedDistance(start, end);
    AlignedIsLevel0(start);
    FitsBelowMax(0, start, end);
    Pow2Word();
    HighestBitBounds(end - start, ADDR_BITS);
  }

  lemma NextLevelOf(start: nat, end: nat)
    requires Cuttable(start, end)
    ensures NextPageOrder(start, end) == Shift(NextLevel(start, end)) < ADDR_BITS
    ensures forall j: nat :: Shift(j) <= MaxOrder(start, end) <==> j <= NextLevel(start, end)
  {
    MaxOrderRange(start, end);
  }

  /** The next page is the largest naturally aligned page that starts here and fits. */
  lemma NextPageLargestFit(start: nat, end: nat)
    requires Cuttable(start, end)
    ensures NextPageOrder(start, end) == Shift(NextLevel(start, end)) < ADDR_BITS
    ensures Fits(NextLevel(start, end), start, end)
    ensures forall j: nat :: Fits(j, start, end) ==> j <= NextLevel(start, end)
  {
    NextLevelOf(start, end);
    FitsBelowMax(NextLevel(start, end), start, end);
    forall j: nat | Fits(j, start, end)
      ensures j <= NextLevel(start, end)
    {
      FitsBelowMax(j, start, end);
    }
  }

  /** Moving the end nearer, but not before the page's own end, leaves the page unchanged. */
  lemma NextPageStable(start: nat, mid: nat, end: nat)
    requires Cuttable(start, end) && Cuttable(start, mid)
    requires start + Span(NextLevel(start, end)) <= mid <= end
    ensures NextPageOrder(start, mid) == NextPageOrder(start, end)
  {
    NextPageLargestFit(start, end);
    NextPageLargestFit(start, mid);
    assert Fits(NextLevel(start, end), start, mid);
    assert Fits(NextLevel(start, mid), start, end);
  }

  lemma {:induction false} AlignedDown(j: nat, k: nat, a: nat)
    requires j <= k && AlignedTo(k, a)
    ensures AlignedTo(j, a)
  {
    if j < k {
      var n := Block(k, a);
      var s := Shift(k - 1);
      ByHexDigit(n, s);
      UpTimes16(n, s);
      ShrRange(a, 16 * n, s);
      AlignedDown(j, k - 1, a);
    }
  }

  lemma UpTimes16(n: nat, s: nat)
    ensures Up(16 * n, s) == 16 * Up(n, s)
  {
    UpSplit(n, 0, s);
    UpSplit(2 * n, 0, s);
    UpSplit(4 * n, 0, s);
    UpSplit(8 * n, 0, s);
  }

  /** The address after a page is aligned again. */
  lemma AfterPage(start: nat, end: nat)
    requires Cuttable(start, end)
    ensures var next := start + Span(NextLevel(start, end));
            next <= end && Aligned(next) && (next < end ==> Cuttable(next, end))
  {
    hide Pow2, Up, Shr, And, NextPageOrder, NextLevel;
    NextPageLargestFit(start, end);
    var k := NextLevel(start, end);
    var next := start + Span(k);
    UpNext(Block(k, start), Shift(k));
    ShrRange(next, Block(k, start) + 1, Shift(k));
    AlignedDown(0, k, next);
    AlignedIsLevel0(next);
  }

  /** First address of the page that covers a when [start, end) is cut from start on. */
  function PageStart(start: nat, end: nat, a: nat): (s: nat)
    requires end < WORD
    decreases end - start
  {
    if start >= end then start
    else
      var next := start + Span(NextLevel(start, end));
      if a < next then start else PageStart(next, end, a)
  }

  /** Level of the page of region r that covers a. */
  function LevelAt(r: PgtRegion, a: nat): (k: nat)
    requires r.end < WORD
  {
    var s := PageStart(r.start, r.end, a);
    if s < WORD then NextLevel(s, r.end) else 0
  }

}
