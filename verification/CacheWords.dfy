/**
 The allocator cache's sizes as the code computes them, in 32-bit products and in the 16 bits of
 an entry of the address-to-size map, and exactly when nothing is lost in them.
 */
module CacheWords {
  import opened Multiples
  import opened CacheTiers
  import opened AddrEntry
  import opened LittleEndian
  import B = Bits

  const WORD16: nat := 0x1_0000
  const ADDRESSES: nat := 0x1_0000_0000_0000

  /** Base block sizes: the powers of two from 1 KiB to 1 GiB. */
  ghost predicate IsBase(base: nat) {
    0 < base <= 0x4000_0000 && base % 1024 == 0 && B.IsPow2(base)
  }

  /** Block size of tier i in KiB, in a 32-bit word. */
  function BlockKB(policy: Policy, base: nat, i: nat): (n: nat) {
    (base / 1024 * TimesOf(policy, i)) % 0x1_0000_0000
  }

  /** The bytes asked for, for a block of tier i: a 32-bit product. */
  function Request(policy: Policy, base: nat, i: nat): (n: nat)
    ensures n < WORD32
  {
    (BlockKB(policy, base, i) * 1024) % 0x1_0000_0000
  }

  /** The base blocks in what is asked for. */
  function TimesAsked(policy: Policy, base: nat, i: nat): (n: nat)
    requires base > 0
  {
    Request(policy, base, i) / base
  }

  /** The base blocks remembered for a block of tier i, read back from its entry in the map. */
  function TimesKept(policy: Policy, base: nat, i: nat, address: nat): (n: nat)
    requires base > 0
  {
    GetSize(MakeEntry(address, TimesAsked(policy, base, i)))
  }

  /** The tier that a block of tier i goes back to. */
  function TierBack(policy: Policy, base: nat, i: nat, address: nat): (j: nat)
    requires base > 0
  {
    TierForTimes(policy, TimesKept(policy, base, i, address), base)
  }

  /** The KiB subtracted when half of a full list goes back: a 32-bit product. */
  function HalfKB(policy: Policy, base: nat, i: nat, perTier: nat): (n: nat) {
    (BlockKB(policy, base, i) * perTier) % 0x1_0000_0000
  }

  /** The largest tier is below 4 GiB and 2^16 base blocks. */
  predicate Narrow(policy: Policy, base: nat, count: nat)
    requires count > 0
  {
    MaxSize(policy, base, count) < WORD32 && TimesOf(policy, count - 1) < WORD16
  }

  /** Half a full list of the largest tier is below 4 TiB. */
  predicate Light(policy: Policy, base: nat, count: nat, perTier: nat)
    requires count > 0
  {
    base / 1024 * TimesOf(policy, count - 1) * perTier < WORD32
  }

  // ----- sizes

  lemma ModPlus(a: nat, q: nat)
    ensures (a + q * WORD32) % WORD32 == a % WORD32
  {
  }

  lemma SizeInKB(policy: Policy, base: nat, i: nat)
    requires base % 1024 == 0
    ensures base / 1024 * TimesOf(policy, i) * 1024 == TierSize(policy, base, i)
  {
    var b, t := base / 1024, TimesOf(policy, i);
    assert base == 1024 * b;
    assert b * t * 1024 == (1024 * b) * t;
  }

  /** What is asked for is the tier's block size modulo 4 GiB. */
  lemma RequestIs(policy: Policy, base: nat, i: nat)
    requires base % 1024 == 0
    ensures Request(policy, base, i) == TierSize(policy, base, i) % WORD32
  {
    var x := base / 1024 * TimesOf(policy, i);
    SizeInKB(policy, base, i);
    hide TimesOf;
    var q, r := x / WORD32, x % WORD32;
    assert x * 1024 == r * 1024 + (q * 1024) * WORD32;
    ModPlus(r * 1024, q * 1024);
  }

  lemma SizeMonotone(policy: Policy, base: nat, i: nat, j: nat)
    requires i <= j
    ensures TierSize(policy, base, i) <= TierSize(policy, base, j)
    ensures base / 1024 * TimesOf(policy, i) <= base / 1024 * TimesOf(policy, j)
  {
    hide TimesOf;
    TimesMonotone(policy, i, j);
    MulMonotone(TimesOf(policy, i), TimesOf(policy, j), base);
    MulMonotone(TimesOf(policy, i), TimesOf(policy, j), base / 1024);
  }

  /** A tier below 4 GiB asks for its block size. */
  lemma SmallTier(policy: Policy, base: nat, i: nat)
    requires base > 0 && base % 1024 == 0 && TierSize(policy, base, i) < WORD32
    ensures Request(policy, base, i) == TierSize(policy, base, i) && TimesAsked(policy, base, i) == TimesOf(policy, i)
  {
    RequestIs(policy, base, i);
    hide TimesOf, Request;
    TimesMultiple(TimesOf(policy, i), base);
    assert base * TimesOf(policy, i) == TimesOf(policy, i) * base;
  }

  /** A tier of 4 GiB or more asks for fewer base blocks than it has. */
  lemma LargeTier(policy: Policy, base: nat, i: nat)
    requires base > 0 && base % 1024 == 0 && TierSize(policy, base, i) >= WORD32
    ensures Request(policy, base, i) < TierSize(policy, base, i) && TimesAsked(policy, base, i) < TimesOf(policy, i)
  {
    RequestIs(policy, base, i);
    hide TimesOf, Request;
    QuotientBelow(Request(policy, base, i), base, TimesOf(policy, i));
  }

  lemma QuotientBelow(r: nat, base: nat, t: nat)
    requires base > 0 && r < base * t
    ensures r / base < t
  {
    var q := r / base;
    assert r == q * base + r % base;
    if q >= t { MulMonotone(t, q, base); }
  }

  /** For every size up to the largest tier's, what is asked for is at least the size. */
  ghost predicate Suffice(policy: Policy, base: nat, count: nat)
    requires base > 0 && count > 0
  {
    forall size: nat | 0 < size <= MaxSize(policy, base, count) :: size <= Request(policy, base, TierFor(policy, size, base))
  }

  /** For every tier, what is added for a block and subtracted for half a full list is what they measure. */
  ghost predicate Counted(policy: Policy, base: nat, count: nat, perTier: nat) {
    forall i | 0 <= i < count ::
      && BlockKB(policy, base, i) * 1024 == TierSize(policy, base, i)
      && HalfKB(policy, base, i, perTier) * 1024 == TierSize(policy, base, i) * perTier
  }

  /**
   What is asked for is long enough for every size that chooses the tier exactly if the largest
   tier is below 4 GiB.
   */
  lemma RequestsSuffice(policy: Policy, base: nat, count: nat)
    requires base > 0 && base % 1024 == 0 && TierCountOk(policy, count)
    ensures Suffice(policy, base, count) <==> MaxSize(policy, base, count) < WORD32
  {
    hide TimesOf, TierFor, Request;
    var max := MaxSize(policy, base, count);
    if max < WORD32 {
      forall size: nat | 0 < size <= max
        ensures size <= Request(policy, base, TierFor(policy, size, base))
      {
        var i := TierFor(policy, size, base);
        TierFits(policy, size, base, count);
        SizeMonotone(policy, base, i, count - 1);
        SmallTier(policy, base, i);
      }
    } else {
      TierReturns(policy, base, count, count - 1);
      LargeTier(policy, base, count - 1);
      assert max > Request(policy, base, TierFor(policy, max, base));
    }
  }

  /** The cached size is counted right for every tier exactly if half a full list of the largest tier is below 4 TiB. */
  lemma CountsExact(policy: Policy, base: nat, count: nat, perTier: nat)
    requires base > 0 && base % 1024 == 0 && count > 0 && perTier > 0
    ensures Counted(policy, base, count, perTier) <==> Light(policy, base, count, perTier)
  {
    hide TimesOf, BlockKB, HalfKB, TierSize;
    if Light(policy, base, count, perTier) {
      forall i | 0 <= i < count
        ensures BlockKB(policy, base, i) * 1024 == TierSize(policy, base, i)
        ensures HalfKB(policy, base, i, perTier) * 1024 == TierSize(policy, base, i) * perTier
      {
        LightTier(policy, base, count, perTier, i);
      }
    } else {
      HeavyTier(policy, base, count - 1, perTier);
    }
  }

  lemma LightTier(policy: Policy, base: nat, count: nat, perTier: nat, i: nat)
    requires base % 1024 == 0 && i < count && perTier > 0 && Light(policy, base, count, perTier)
    ensures BlockKB(policy, base, i) * 1024 == TierSize(policy, base, i)
    ensures HalfKB(policy, base, i, perTier) == BlockKB(policy, base, i) * perTier
    ensures HalfKB(policy, base, i, perTier) * 1024 == TierSize(policy, base, i) * perTier
  {
    hide TimesOf, TierSize;
    SizeInKB(policy, base, i);
    SizeMonotone(policy, base, i, count - 1);
    LightNumbers(base / 1024 * TimesOf(policy, count - 1), base / 1024 * TimesOf(policy, i), perTier, TierSize(policy, base, i));
  }

  lemma LightNumbers(x: nat, y: nat, n: nat, size: nat)
    requires y <= x && x * n < WORD32 && n > 0 && y * 1024 == size
    ensures y % WORD32 == y && (y * n) % WORD32 == y * n && y * n * 1024 == size * n
  {
    MulMonotone(y, x, n);
    MulAtLeast(n, y);
    TimesKilo(y, n);
  }

  lemma TimesKilo(y: nat, n: nat)
    ensures y * n * 1024 == y * 1024 * n
  {
  }

  lemma HeavyTier(policy: Policy, base: nat, i: nat, perTier: nat)
    requires base % 1024 == 0 && base / 1024 * TimesOf(policy, i) * perTier >= WORD32
    ensures HalfKB(policy, base, i, perTier) * 1024 != TierSize(policy, base, i) * perTier
  {
    SizeInKB(policy, base, i);
    hide TimesOf, TierSize, BlockKB;
    TimesKilo(base / 1024 * TimesOf(policy, i), perTier);
  }

  // ----- tiers

  lemma {:induction false} Pow2Sum(a: nat, b: nat)
    ensures B.Pow2(a + b) == B.Pow2(a) * B.Pow2(b)
  {
    if a > 0 {
      Pow2Sum(a - 1, b);
      TwiceProduct(B.Pow2(a - 1), B.Pow2(b));
    }
  }

  lemma TwiceProduct(x: nat, y: nat)
    ensures 2 * (x * y) == (2 * x) * y
  {
  }

  lemma {:induction false} Pow2Strict(k: nat, n: nat)
    requires k < n
    ensures B.Pow2(k) < B.Pow2(n)
  {
    if k + 1 < n { Pow2Strict(k, n - 1); }
  }

  /** A power of two that is not below another is a multiple of it. */
  lemma Pow2Divides(x: nat, n: nat, p: nat)
    requires B.IsPow2(x) && p == B.Pow2(n) && x >= p
    ensures x % p == 0
  {
    var k: nat :| x == B.Pow2(k);
    if k < n { Pow2Strict(k, n); }
    Pow2Sum(k - n, n);
    TimesMultiple(B.Pow2(k - n), p);
  }

  lemma Words()
    ensures B.Pow2(32) == WORD32 && B.Pow2(16) == WORD16
  {
    assert B.Pow2(8) == 256;
    assert B.Pow2(16) == 0x1_0000;
    assert B.Pow2(24) == 0x100_0000;
  }

  /** The tier a number of base blocks goes back to. */
  lemma TierOfTimes(policy: Policy, base: nat, n: nat)
    requires base > 0
    ensures TierFor(policy, n * base, base) == TierForBlocks(policy, n)
  {
    if n > 0 {
      BlocksForExact(base, n);
      assert base * n == n * base;
    } else {
      QuotientUnique(base - 1, base, 0, base - 1);
    }
  }

  /** Of the base blocks asked for, the low 16 bits are remembered. */
  lemma KeptIs(policy: Policy, base: nat, i: nat, address: nat)
    requires base > 0 && address < ADDRESSES
    ensures TimesKept(policy, base, i, address) == TimesAsked(policy, base, i) % WORD16
    ensures GetAddress(MakeEntry(address, TimesAsked(policy, base, i))) == address
  {
    hide TimesAsked, GetSize, MakeEntry, GetAddress;
    EntryKeepsLow(address, TimesAsked(policy, base, i));
  }

  lemma PowerSize(base: nat, i: nat)
    requires B.IsPow2(base)
    ensures B.IsPow2(TierSize(Power, base, i)) && B.IsPow2(TimesOf(Power, i))
  {
    var k: nat :| base == B.Pow2(k);
    Pow2Sum(k, i);
    assert TierSize(Power, base, i) == B.Pow2(k + i) && TimesOf(Power, i) == B.Pow2(i);
  }

  /** Under the second policy a tier that 32 or 16 bits do not hold remembers no base block at all. */
  lemma PowerForgets(base: nat, i: nat, address: nat)
    requires IsBase(base) && address < ADDRESSES
    requires TierSize(Power, base, i) >= WORD32 || TimesOf(Power, i) >= WORD16
    ensures TimesKept(Power, base, i, address) == 0
  {
    hide TimesOf, TierSize, TimesKept, Request, B.IsPow2;
    Words();
    KeptIs(Power, base, i, address);
    PowerSize(base, i);
    if TierSize(Power, base, i) >= WORD32 {
      RequestIs(Power, base, i);
      Pow2Divides(TierSize(Power, base, i), 32, WORD32);
      QuotientUnique(0, base, 0, 0);
    } else {
      SmallTier(Power, base, i);
      Pow2Divides(TimesOf(Power, i), 16, WORD16);
    }
  }

  lemma TimesNarrow(count: nat)
    requires TierCountOk(Times, count)
    ensures TimesOf(Times, count - 1) == count < WORD16
  {
  }

  /** The largest tier's blocks do not come back to it once 32 or 16 bits do not hold it. */
  lemma LargestLost(policy: Policy, base: nat, count: nat, address: nat)
    requires IsBase(base) && TierCountOk(policy, count) && address < ADDRESSES && !Narrow(policy, base, count)
    ensures TierBack(policy, base, count - 1, address) != count - 1
  {
    hide TimesKept, TimesAsked, Request, TierFor, TierSize, TimesOf, IsBase, TierForBlocks, BitLength;
    BaseFacts(base);
    var n := TimesKept(policy, base, count - 1, address);
    TierOfTimes(policy, base, n);
    KeptIs(policy, base, count - 1, address);
    if policy == Times {
      TimesNarrow(count);
      LargeTier(policy, base, count - 1);
      OtherTier(TimesAsked(policy, base, count - 1), count);
    } else {
      PowerForgets(base, count - 1, address);
      MoreThanOne(base, count);
      FirstTier();
    }
  }

  lemma OtherTier(n: nat, count: nat)
    requires n < count < WORD16
    ensures n % WORD16 == n && TierForBlocks(Times, n) != count - 1
  {
  }

  lemma FirstTier()
    ensures TierForBlocks(Power, 0) == 0
  {
  }

  lemma BaseFacts(base: nat)
    requires IsBase(base)
    ensures 0 < base <= 0x4000_0000 && base % 1024 == 0
  {
  }

  lemma MoreThanOne(base: nat, count: nat)
    requires IsBase(base) && count > 0 && !Narrow(Power, base, count)
    ensures count > 1
  {
    assert B.Pow2(0) == 1;
  }

  /** A tier that 32 and 16 bits hold remembers its base blocks, and its blocks come back to it. */
  lemma NarrowTier(policy: Policy, base: nat, count: nat, i: nat, address: nat)
    requires base > 0 && base % 1024 == 0 && TierCountOk(policy, count) && i < count && address < ADDRESSES && Narrow(policy, base, count)
    ensures Request(policy, base, i) == TierSize(policy, base, i) && TimesKept(policy, base, i, address) == TimesOf(policy, i)
    ensures TierBack(policy, base, i, address) == i
  {
    hide TimesKept, TimesAsked, Request, TierFor, TimesOf;
    KeptIs(policy, base, i, address);
    SizeMonotone(policy, base, i, count - 1);
    TimesMonotone(policy, i, count - 1);
    SmallTier(policy, base, i);
    TierReturns(policy, base, count, i);
    assert TimesOf(policy, i) * base == TierSize(policy, base, i);
  }

  /** For every tier and every address below hi the entry gives both back, the tier as the one the block came from. */
  ghost predicate AllComeBack(policy: Policy, base: nat, count: nat, hi: nat)
    requires base > 0
  {
    forall i, a | 0 <= i < count && 0 <= a < hi :: ComesBack(policy, base, i, a)
  }

  ghost predicate ComesBack(policy: Policy, base: nat, i: nat, a: nat)
    requires base > 0
  {
    GetAddress(MakeEntry(a, TimesAsked(policy, base, i))) == a && TierBack(policy, base, i, a) == i
  }

  /**
   Blocks are found in the map and come back to their tiers exactly if the largest tier is below
   4 GiB and 2^16 base blocks, and addresses have 48 bits.
   */
  lemma TiersComeBack(policy: Policy, base: nat, count: nat, hi: nat)
    requires IsBase(base) && TierCountOk(policy, count) && hi > 0
    ensures AllComeBack(policy, base, count, hi) <==> Narrow(policy, base, count) && hi <= ADDRESSES
  {
    hide TimesKept, TimesAsked, TierBack, GetAddress, MakeEntry, Narrow, IsBase;
    BaseFacts(base);
    if hi > ADDRESSES {
      Mask48(MakeEntry(hi - 1, TimesAsked(policy, base, 0)));
      assert !ComesBack(policy, base, 0, hi - 1);
    } else if !Narrow(policy, base, count) {
      LargestLost(policy, base, count, 0);
      assert !ComesBack(policy, base, count - 1, 0);
    } else {
      forall i, a | 0 <= i < count && 0 <= a < hi
        ensures ComesBack(policy, base, i, a)
      {
        KeptIs(policy, base, i, a);
        NarrowTier(policy, base, count, i, a);
      }
    }
  }

  /**
   Nothing is lost, that is, requests suffice, the cached size is counted right and blocks come
   back to their tiers, exactly if the largest tier is below 4 GiB and 2^16 base blocks, half a
   full list of it below 4 TiB, and all addresses below 2^48.
   */
  lemma NothingLost(policy: Policy, base: nat, count: nat, perTier: nat, hi: nat)
    requires IsBase(base) && TierCountOk(policy, count) && perTier > 0 && hi > 0
    ensures Suffice(policy, base, count) && Counted(policy, base, count, perTier) && AllComeBack(policy, base, count, hi)
       <==> Narrow(policy, base, count) && Light(policy, base, count, perTier) && hi <= ADDRESSES
  {
    hide Suffice, Counted, AllComeBack, Light, IsBase, MaxSize, TimesOf;
    BaseFacts(base);
    RequestsSuffice(policy, base, count);
    CountsExact(policy, base, count, perTier);
    TiersComeBack(policy, base, count, hi);
  }

  /** 1 GiB blocks and eight tiers: for 5 GiB the code asks for 1 GiB and remembers one block, for 4 GiB it asks for nothing. */
  lemma FiveForOne(address: nat)
    requires address < ADDRESSES
    ensures var base := 0x4000_0000;
            && TierCountOk(Times, 8) && 5 * base <= MaxSize(Times, base, 8) && TierFor(Times, 5 * base, base) == 4
            && Request(Times, base, 4) == base && TimesKept(Times, base, 4, address) == 1 && Request(Times, base, 3) == 0
  {
    KeptIs(Times, 0x4000_0000, 4, address);
  }

  /** One tier of 1 GiB blocks, 4096 to a list: when half of a full list goes back nothing is subtracted for it. */
  lemma HalfUncounted()
    ensures Narrow(Times, 0x4000_0000, 1) && HalfKB(Times, 0x4000_0000, 0, 4096) == 0
  {
  }

  /** What is asked for is a whole number of base blocks. */
  lemma RequestWhole(policy: Policy, base: nat, i: nat)
    requires IsBase(base)
    ensures Multiple(Request(policy, base, i), base)
  {
    hide TimesOf, Request, B.IsPow2, Multiple;
    Words();
    BaseDivides(base);
    RequestIs(policy, base, i);
    var size := TierSize(policy, base, i);
    TimesMultiple(TimesOf(policy, i), base);
    assert base * TimesOf(policy, i) == TimesOf(policy, i) * base;
    RestWhole(size, base);
  }

  lemma BaseDivides(base: nat)
    requires IsBase(base)
    ensures Multiple(WORD32, base)
  {
    Words();
    var k: nat :| base == B.Pow2(k);
    assert WORD32 == B.Pow2(32);
    assert B.IsPow2(WORD32);
    Pow2Divides(WORD32, k, base);
  }

  lemma RestWhole(size: nat, base: nat)
    requires base > 0 && Multiple(size, base) && Multiple(WORD32, base)
    ensures Multiple(size % WORD32, base)
  {
    hide Multiple;
    var q := size / WORD32;
    assert size == q * WORD32 + size % WORD32;
    MultipleTimes(WORD32, base);
    var m := WORD32 / base;
    assert q * WORD32 == (q * m) * base;
    TimesMultiple(q * m, base);
    if size % WORD32 > 0 {
      if q * WORD32 > 0 {
        MultipleDifference(size, q * WORD32, base);
      } else {
        assert size % WORD32 == size;
      }
    } else {
      ZeroMultiple(base);
    }
  }
}
