/**
 What an allocator's books say, in either mode, and that they stay right.
 */
module MemAccounts {
  import opened MemBlocks
  import opened MemAreas
  import opened MemMerge
  import opened MemTake
  import opened MemPartition
  import opened MemUnits
  import opened Multiples
  import opened MemHeader
  import opened MemGuard

  /** Aligned addresses: free and held blocks partition the range on its grid of whole blocks, and the sums agree. */
  ghost predicate AlignedOk(bs: seq<Block>, held: Held, freeSize: nat, lo: nat, hi: nat, unit: nat) {
    && unit >= SMALLEST && lo <= hi && Gapped(bs) && Parted(bs, held, lo, hi) && RestFits(hi - lo, unit) && Gridded(bs, lo, hi, unit)
    && (forall a | a in held :: held[a] >= SMALLEST && Multiple(held[a], unit) && lo <= a && Multiple(a - lo, unit))
    && freeSize == Total(bs) && freeSize + HeldTotal(held, hi) == hi - lo
  }

  /** Headers: every header is intact, and the sums agree up to slack behind blocks that were taken whole. */
  ghost predicate UnalignedOk(mem: Bytes, bs: seq<Block>, held: Held, asked: Asked, first: nat, firstReq: nat,
                              freeSize: nat, lo: nat, hi: nat, unit: nat) {
    && Guarded(mem, bs, held, asked, lo, hi, unit)
    && Total(bs) <= freeSize && freeSize + HeldTotal(held, hi) == hi - lo
    && (if lo in held then first == held[lo] && firstReq == asked[lo] else first == 0 && firstReq == 0)
  }

  /** The books in the mode the allocator works in. */
  ghost predicate BooksOk(aligned: bool, addrLenMap: Held, mem: Bytes, bs: seq<Block>, held: Held, asked: Asked,
                          first: nat, firstReq: nat, freeSize: nat, lo: nat, hi: nat, unit: nat) {
    if aligned then held == addrLenMap && AlignedOk(bs, held, freeSize, lo, hi, unit)
    else UnalignedOk(mem, bs, held, asked, first, firstReq, freeSize, lo, hi, unit)
  }

  lemma AlignedServes(bs: seq<Block>, held: Held, freeSize: nat, lo: nat, hi: nat, unit: nat, n: nat)
    requires AlignedOk(bs, held, freeSize, lo, hi, unit) && Multiple(n, unit)
    ensures Total(bs) <= freeSize && Divisible(bs, n, unit, false)
  {
    GridDivisible(bs, n, lo, hi, unit);
  }

  lemma MultipleLong(n: nat, unit: nat)
    requires unit >= SMALLEST && n > 0 && Multiple(n, unit)
    ensures n >= SMALLEST
  {
    if n < unit { SmallMultiple(n, unit); }
  }

  lemma GridStart(bs: seq<Block>, k: nat, lo: nat, hi: nat, unit: nat)
    requires unit > 0 && Gridded(bs, lo, hi, unit) && k < |bs|
    ensures lo <= bs[k].start && Multiple(bs[k].start - lo, unit)
  {
    assert OnGrid(bs[k], lo, hi, unit);
  }

  lemma AlignedTaken(bs: seq<Block>, held: Held, freeSize: nat, lo: nat, hi: nat, unit: nat, k: nat, n: nat)
    requires AlignedOk(bs, held, freeSize, lo, hi, unit) && k < |bs| && 0 < n <= bs[k].len && Multiple(n, unit)
    ensures n <= freeSize && bs[k].start !in held
    ensures AlignedOk(Taken(bs, k, n, bs[k].len == n), held[bs[k].start := n], freeSize - n, lo, hi, unit)
  {
    hide Taken, Gapped, Gridded, Total, Parted, Multiple;
    var whole := bs[k].len == n;
    TakenGapped(bs, k, n, whole);
    PartedTaken(bs, held, lo, hi, k, n, whole);
    GridTaken(bs, k, n, whole, lo, hi, unit);
    GridStart(bs, k, lo, hi, unit);
    TakenTotal(bs, k, n, whole);
    HeldTotalAdd(held, bs[k].start, n, hi);
    MultipleLong(n, unit);
  }

  /** A held block can come back. */
  lemma AlignedReturns(bs: seq<Block>, held: Held, freeSize: nat, lo: nat, hi: nat, unit: nat, a: nat)
    requires AlignedOk(bs, held, freeSize, lo, hi, unit) && a in held
    ensures AllApart(bs, Block(a, held[a])) && lo <= a && a + held[a] <= hi && held[a] >= SMALLEST
  {
    HeldApart(bs, held, lo, hi, a);
  }

  lemma AlignedJoined(bs: seq<Block>, held: Held, freeSize: nat, lo: nat, hi: nat, unit: nat, a: nat, k: nat)
    requires AlignedOk(bs, held, freeSize, lo, hi, unit) && a in held && k <= |bs|
    requires Fits(bs[..k], Block(a, held[a]), bs[k..])
    ensures AlignedOk(Joined(bs[..k], Block(a, held[a]), bs[k..]), held - {a}, freeSize + held[a], lo, hi, unit)
  {
    hide Joined, Gapped, Gridded, Total, Parted, Multiple, Fits;
    assert bs[..k] + bs[k..] == bs;
    var b := Block(a, held[a]);
    AlignedReturns(bs, held, freeSize, lo, hi, unit, a);
    JoinedGapped(bs[..k], b, bs[k..]);
    PartedJoined(bs[..k], bs[k..], held, lo, hi, a);
    HeldGrid(a, held[a], lo, hi, unit);
    GridJoined(bs[..k], b, bs[k..], lo, hi, unit);
    JoinedTotal(bs[..k], b, bs[k..]);
    HeldTotalDrop(held, a, hi);
  }

  /** Nothing is handed out: the free blocks are one, all of the range. */
  lemma AllFreed(bs: seq<Block>, held: Held, freeSize: nat, lo: nat, hi: nat, unit: nat)
    requires AlignedOk(bs, held, freeSize, lo, hi, unit) && held == map[] && lo < hi
    ensures bs == [Block(lo, hi - lo)] && freeSize == hi - lo
  {
    NothingHeldOneBlock(bs, lo, hi);
    NothingHeld(hi);
  }

  // ----- with headers

  lemma UnalignedServes(mem: Bytes, bs: seq<Block>, held: Held, asked: Asked, first: nat, firstReq: nat,
                        freeSize: nat, lo: nat, hi: nat, unit: nat, n: nat)
    requires UnalignedOk(mem, bs, held, asked, first, firstReq, freeSize, lo, hi, unit)
    ensures Total(bs) <= freeSize && Divisible(bs, n, unit, true)
  {
  }

  lemma UnalignedTaken(mem: Bytes, bs: seq<Block>, held: Held, asked: Asked, first: nat, firstReq: nat,
                       freeSize: nat, lo: nat, hi: nat, unit: nat, k: nat, n: nat, size: nat)
    requires UnalignedOk(mem, bs, held, asked, first, firstReq, freeSize, lo, hi, unit)
    requires k < |bs| && n <= bs[k].len && Suits(n, size, hi - lo, unit)
    ensures var s, whole := bs[k].start, Whole(bs[k].len, n, unit, true);
            && n <= freeSize && s !in held && lo <= s && s + n <= hi && (s != lo ==> s >= META)
            && UnalignedOk(Marked(mem, s, lo, size, unit), Taken(bs, k, n, whole), held[s := n], asked[s := size],
                           if s == lo then n else first, if s == lo then size else firstReq, freeSize - n, lo, hi, unit)
  {
    hide Guarded, Taken, Total, Marked, Suits;
    var s, whole := bs[k].start, Whole(bs[k].len, n, unit, true);
    LeftOver(mem, bs, held, asked, lo, hi, unit, k, n);
    GuardedTaken(mem, bs, held, asked, lo, hi, unit, k, n, whole, size);
    TakenTotal(bs, k, n, whole);
    NoMoreThanTotal(bs, k);
    HeldTotalAdd(held, s, n, hi);
    SuitsRoomy(n, size, hi - lo, unit);
  }

  lemma LeftOver(mem: Bytes, bs: seq<Block>, held: Held, asked: Asked, lo: nat, hi: nat, unit: nat, k: nat, n: nat)
    requires Guarded(mem, bs, held, asked, lo, hi, unit) && k < |bs| && n <= bs[k].len
    ensures unit >= SMALLEST && (!Whole(bs[k].len, n, unit, true) ==> bs[k].len - n >= SMALLEST)
  {
  }

  /** A held block can come back, and its header, if it has one, says how long it is. */
  lemma UnalignedReturns(mem: Bytes, bs: seq<Block>, held: Held, asked: Asked, first: nat, firstReq: nat,
                         freeSize: nat, lo: nat, hi: nat, unit: nat, a: nat)
    requires UnalignedOk(mem, bs, held, asked, first, firstReq, freeSize, lo, hi, unit) && a in held
    ensures AllApart(bs, Block(a, held[a])) && lo <= a && a + held[a] <= hi && held[a] >= SMALLEST
    ensures a in asked && (a == lo ==> first == held[a] && firstReq == asked[a] && first > 0 && firstReq > 0)
    ensures a != lo ==>
              && a >= META && Intact(mem, a, asked[a], unit) && asked[a] + unit <= WORD64
              && held[a] == Reserve(asked[a], unit)
  {
    HeldApart(bs, held, lo, hi, a);
    assert Roomy(held[a], asked[a], hi - lo, unit);
  }

  lemma UnalignedJoined(mem: Bytes, bs: seq<Block>, held: Held, asked: Asked, first: nat, firstReq: nat,
                        freeSize: nat, lo: nat, hi: nat, unit: nat, a: nat, k: nat)
    requires UnalignedOk(mem, bs, held, asked, first, firstReq, freeSize, lo, hi, unit) && a in held && k <= |bs|
    requires Fits(bs[..k], Block(a, held[a]), bs[k..])
    ensures UnalignedOk(mem, Joined(bs[..k], Block(a, held[a]), bs[k..]), held - {a}, asked - {a},
                        if a == lo then 0 else first, if a == lo then 0 else firstReq, freeSize + held[a], lo, hi, unit)
  {
    hide Joined, Fits, Total, Gapped, Spread, Intact, Roomy, Reserve, Mapped;
    UnalignedReturns(mem, bs, held, asked, first, firstReq, freeSize, lo, hi, unit, a);
    assert bs[..k] + bs[k..] == bs;
    GuardedJoined(mem, bs[..k], bs[k..], held, asked, lo, hi, unit, a);
    JoinedTotal(bs[..k], Block(a, held[a]), bs[k..]);
    HeldTotalDrop(held, a, hi);
  }

  /** Nothing joined yet, or the joined range is empty. */
  lemma EmptyOk(aligned: bool, mem: Bytes, lo: nat, unit: nat)
    requires unit >= SMALLEST && Multiple(unit, 4)
    ensures BooksOk(aligned, map[], mem, [], map[], map[], 0, 0, 0, lo, lo, unit)
  {
    NothingHeld(lo);
    ZeroMultiple(unit);
    assert forall x: nat :: !HeldAt(map[], x) && !Covered([], x);
  }

  /** Right after the range was joined. */
  lemma JoinedOk(aligned: bool, mem: Bytes, lo: nat, hi: nat, unit: nat)
    requires unit >= SMALLEST && (!aligned ==> Multiple(unit, 4)) && lo < hi && hi - lo >= SMALLEST
    requires if aligned then RestFits(hi - lo, unit) else Mapped(mem, lo, hi - lo)
    ensures BooksOk(aligned, map[], mem, [Block(lo, hi - lo)], map[], map[], 0, 0, hi - lo, lo, hi, unit)
  {
    PartedInitially(lo, hi);
    NothingHeld(hi);
    TotalOne(Block(lo, hi - lo));
    if aligned { ZeroMultiple(unit); }
  }
}
