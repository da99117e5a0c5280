/**
 The tiers of the allocator cache: the block size of each tier and the tier chosen for a size.
 */
module CacheTiers {
  import opened Multiples
  import B = Bits

  datatype Policy = Times | Power

  /** Block size of tier i, in base blocks. */
  function TimesOf(policy: Policy, i: nat): (n: nat)
    ensures n > 0
  {
    match policy
    case Times => i + 1
    case Power => B.Pow2(i)
  }

  /** Block size of tier i in bytes. */
  function TierSize(policy: Policy, base: nat, i: nat): (n: nat) {
    base * TimesOf(policy, i)
  }

  /** Number of base blocks that hold a size. */
  function BlocksFor(size: nat, base: nat): (n: nat)
    requires base > 0
  {
    (size + base - 1) / base
  }

  /** Bits of a 32-bit word without its leading zeros. */
  function BitLength(x: nat): (n: nat) {
    if x % 0x1_0000_0000 == 0 then 0 else B.HighestBit(x % 0x1_0000_0000) + 1
  }

  /** The tier for a number of base blocks; none at all wraps around to the last 16-bit number. */
  function TierForBlocks(policy: Policy, n: nat): (i: nat) {
    match policy
    case Times => if n == 0 then 65535 else (n - 1) % 65536
    case Power => if n < 2 then 0 else BitLength(n - 1)
  }

  /** The tier chosen for a size. */
  function TierFor(policy: Policy, size: nat, base: nat): (i: nat)
    requires base > 0
  {
    TierForBlocks(policy, BlocksFor(size, base))
  }

  /** The tier chosen for a number of base blocks. */
  function TierForTimes(policy: Policy, times: nat, base: nat): (i: nat)
    requires base > 0
  {
    TierFor(policy, times * base, base)
  }

  /** Tier counts the cache accepts. */
  predicate TierCountOk(policy: Policy, count: nat) {
    0 < count <= (if policy == Times then 8192 else 31)
  }

  function MaxSize(policy: Policy, base: nat, count: nat): (n: nat)
    requires count > 0
  {
    TierSize(policy, base, count - 1)
  }

  lemma BlocksForBounds(size: nat, base: nat)
    requires base > 0 && size > 0
    ensures BlocksFor(size, base) > 0
    ensures BlocksFor(size, base) * base >= size && (BlocksFor(size, base) - 1) * base < size
  {
    var n := BlocksFor(size, base);
    var x := size + base - 1;
    assert x == n * base + x % base;
    assert x % base < base <= x;
    assert n * base > 0;
    assert (n - 1) * base == n * base - base;
  }

  /** A size that times blocks hold needs no more than those. */
  lemma BlocksForAtMost(size: nat, base: nat, times: nat)
    requires base > 0 && size > 0 && size <= base * times
    ensures 0 < BlocksFor(size, base) <= times
  {
    BlocksForBounds(size, base);
    var n := BlocksFor(size, base);
    if n > times {
      MulMonotone(times, n - 1, base);
    }
  }

  lemma BlocksForExact(base: nat, times: nat)
    requires base > 0 && times > 0
    ensures base * times > 0 && BlocksFor(base * times, base) == times
  {
    QuotientUnique(base * times + base - 1, base, times, base - 1);
    MulAtLeast(times, base);
  }

  lemma HoldsBlocks(size: nat, base: nat, times: nat)
    requires base > 0 && size > 0 && BlocksFor(size, base) <= times
    ensures size <= base * times
  {
    BlocksForBounds(size, base);
    MulMonotone(BlocksFor(size, base), times, base);
  }

  lemma {:induction false} Pow2Below32(i: nat)
    requires i <= 31
    ensures B.Pow2(i) <= 0x8000_0000
  {
    B.Pow2Monotone(i, 31);
    assert B.Pow2(8) == 256;
    assert B.Pow2(16) == 65536;
    assert B.Pow2(24) == 0x100_0000;
    assert B.Pow2(31) == 0x8000_0000;
  }

  /** The chosen power tier is the lowest that holds n blocks. */
  lemma PowerTier(n: nat, i: nat)
    requires 0 < n <= B.Pow2(i) && i <= 30
    ensures var t := if n < 2 then 0 else BitLength(n - 1);
            t <= i && n <= B.Pow2(t) && (n == B.Pow2(i) ==> t == i)
  {
    Pow2Below32(i);
    if n >= 2 {
      var x := n - 1;
      assert x % 0x1_0000_0000 == x;
      var h := B.HighestBit(x);
      B.HighestBitBounds(x, i);
      if n == B.Pow2(i) {
        assert i > 0;
        B.HighestBitBounds(x, i - 1);
      }
    } else if i > 0 {
      B.Pow2Monotone(1, i);
      assert B.Pow2(1) == 2;
    }
  }

  /** The tier chosen for a size that is not too large exists and its blocks are large enough. */
  lemma TierFits(policy: Policy, size: nat, base: nat, count: nat)
    requires base > 0 && TierCountOk(policy, count) && 0 < size <= MaxSize(policy, base, count)
    ensures var i := TierFor(policy, size, base);
            i < count && size <= TierSize(policy, base, i)
  {
    hide TimesOf, BlocksFor;
    var n, last := BlocksFor(size, base), TimesOf(policy, count - 1);
    BlocksForAtMost(size, base, last);
    var i := TierFor(policy, size, base);
    TierOfBlocks(policy, n, count);
    HoldsBlocks(size, base, TimesOf(policy, i));
  }

  lemma TierOfBlocks(policy: Policy, n: nat, count: nat)
    requires TierCountOk(policy, count) && 0 < n <= TimesOf(policy, count - 1)
    ensures TierForBlocks(policy, n) < count && n <= TimesOf(policy, TierForBlocks(policy, n))
    ensures forall i | 0 <= i < count && n == TimesOf(policy, i) :: TierForBlocks(policy, n) == i
  {
    if policy == Power {
      PowerTier(n, count - 1);
      forall i | 0 <= i < count && n == TimesOf(policy, i)
        ensures TierForBlocks(policy, n) == i
      {
        PowerTier(n, i);
      }
    }
  }

  lemma {:induction false} TimesMonotone(policy: Policy, i: nat, j: nat)
    requires i <= j
    ensures TimesOf(policy, i) <= TimesOf(policy, j)
  {
    if policy == Power { B.Pow2Monotone(i, j); }
  }

  /** A block of a tier goes back to the tier it came from. */
  lemma TierReturns(policy: Policy, base: nat, count: nat, i: nat)
    requires base > 0 && TierCountOk(policy, count) && i < count
    ensures TierFor(policy, TierSize(policy, base, i), base) == i
  {
    hide TimesOf, BlocksFor;
    var n := TimesOf(policy, i);
    BlocksForExact(base, n);
    TimesMonotone(policy, i, count - 1);
    TierOfBlocks(policy, n, count);
  }

  /** A request for nothing is refused. */
  lemma NothingRefused(base: nat, count: nat)
    requires base > 0 && TierCountOk(Times, count)
    ensures TierFor(Times, 0, base) >= count
  {
    assert (0 + base - 1) / base == 0 by { QuotientUnique(base - 1, base, 0, base - 1); }
  }
}
