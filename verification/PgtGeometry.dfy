/**
 The page table's base address and space mask as machine words: what the shifts, ands and
 ors on them mean for the level of the root and the block it covers.
 */
module PgtGeometry {
  import opened Bits
  import opened PgtTree

  const TOP_LEVEL: nat := 15

  /** The space mask at level k: ones above the bits the table resolves. */
  function Mask(k: nat): (m: int) {
    WORD - Span(k)
  }

  lemma {:induction false} UpPow2(m: nat, n: nat)
    ensures Up(Pow2(m), n) == Pow2(m + n)
  {
    if n > 0 { UpPow2(m, n - 1); }
  }

  lemma MaskIsUp(s: nat)
    requires s <= 64
    ensures WORD - Pow2(s) == Up(Pow2(64 - s) - 1, s)
  {
    Pow2Word();
    UpPow2(64 - s, s);
    UpNext(Pow2(64 - s) - 1, s);
  }

  /** Masking an address yields the base of its block. */
  lemma AndMask(a: nat, k: nat)
    requires a < WORD && k <= TOP_LEVEL
    ensures 0 <= Mask(k) && And(a, Mask(k)) == BlockBase(k, Block(k, a))
  {
    Pow2Word();
    AndHighMask(a, 64, Shift(k));
  }

  lemma BaseInjective(k: nat, m: nat, n: nat)
    ensures BlockBase(k, m) == BlockBase(k, n) <==> m == n
  {
    if m < n { UpMonotone(m, n, Shift(k)); }
    if n < m { UpMonotone(n, m, Shift(k)); }
  }

  lemma BaseBlock(k: nat, n: nat)
    ensures Block(k, BlockBase(k, n)) == n
  {
    ShrRange(BlockBase(k, n), n, Shift(k));
  }

  /** The range test of the page table: an address is in range when its block is the root's. */
  lemma InRange(a: nat, k: nat, n: nat)
    requires a < WORD && k <= TOP_LEVEL
    ensures 0 <= Mask(k) && (And(a, Mask(k)) == BlockBase(k, n) <==> Block(k, a) == n)
  {
    AndMask(a, k);
    BaseInjective(k, Block(k, a), n);
  }

  /** At the top level there is one block, and no higher block number occurs. */
  lemma TopBlock(a: nat)
    requires a < WORD
    ensures Block(TOP_LEVEL, a) == 0
  {
    Pow2Word();
    ShrRange(a, 0, 64);
    UpZero(64);
  }

  lemma IndexBits(x: nat)
    ensures And(x, 15) == x % 16
  {
    AndLowMask(x, 4);
    ByHexDigit(x, 0);
    ByHexDigit(x / 16, 0);
  }

  lemma ShiftedOut(m: nat, x: nat)
    requires 16 * m == 15 * WORD + x && x < WORD
    ensures Shl(m, 4) == x
  {
    ByHexDigit(m, 0);
    assert (15 * WORD + x) % WORD == x;
  }

  /** Growing: the mask moves up four bits and the base drops the digit that becomes an index. */
  lemma MaskUp(k: nat)
    requires k < TOP_LEVEL
    ensures 0 <= Mask(k) && 0 <= Mask(k + 1) == Shl(Mask(k), 4)
  {
    Pow2Word();
    SpanUp(k);
    Pow2Monotone(Shift(k + 1), 64);
    ShiftedOut(Mask(k), Mask(k + 1));
  }

  lemma BaseUp(k: nat, n: nat)
    requires k < TOP_LEVEL && BlockBase(k, n) < WORD
    ensures 0 <= Mask(k + 1) && And(BlockBase(k, n), Mask(k + 1)) == BlockBase(k + 1, n / 16)
    ensures And(Shr(BlockBase(k, n), Shift(k)), 15) == n % 16
  {
    AndMask(BlockBase(k, n), k + 1);
    BaseBlock(k, n);
    BlockUp(k, BlockBase(k, n));
    IndexBits(n);
  }

  lemma {:induction false} OrUp(x: nat, y: nat, s: nat)
    ensures Or(Up(x, s), Up(y, s)) == Up(Or(x, y), s)
  {
    if s > 0 { OrUp(x, y, s - 1); }
  }

  lemma BaseSplit(k: nat, n: nat)
    ensures BlockBase(k + 1, n) == BlockBase(k, 16 * n)
  {
    var s := Shift(k);
    ByHexDigit(n, s);
    UpSplit(n, 0, s);
    UpSplit(2 * n, 0, s);
    UpSplit(4 * n, 0, s);
    UpSplit(8 * n, 0, s);
  }

  lemma Or16(n: nat, i: nat)
    requires i < 16
    ensures Or(16 * n, i) == 16 * n + i
  {
    ByHexDigit(n, 0);
    OrDisjoint(n, i, 4);
  }

  lemma DigitBound(k: nat, i: nat)
    requires k < TOP_LEVEL && i < 16
    ensures Up(i, Shift(k)) < WORD
  {
    assert Pow2(0) == 1;
    hide Pow2, Up;
    Pow2Word();
    UpMonotone(i, 16, Shift(k));
    BaseSplit(k, 1);
    UpPow2(0, Shift(k + 1));
    Pow2Monotone(Shift(k + 1), 64);
  }

  lemma DigitFits(k: nat, i: nat)
    requires k < TOP_LEVEL && i < 16
    ensures Shl(i, Shift(k)) == Up(i, Shift(k))
  {
    hide Up;
    DigitBound(k, i);
  }

  /** Shrinking: the entry's index returns to the base, and the mask gets its ones back. */
  lemma BaseDown(k: nat, n: nat, i: nat)
    requires k < TOP_LEVEL && i < 16
    ensures Or(BlockBase(k + 1, n), Shl(i, Shift(k))) == BlockBase(k, 16 * n + i)
  {
    hide Pow2, Up, Or, Shl;
    DigitFits(k, i);
    BaseSplit(k, n);
    OrUp(16 * n, i, Shift(k));
    Or16(n, i);
  }

  lemma MaskDown(k: nat)
    requires k < TOP_LEVEL
    ensures 0 <= Mask(k + 1) && Or(Mask(k + 1), Shl(15, Shift(k))) == Mask(k)
  {
    hide Pow2, Up, Or, Shl;
    DigitFits(k, 15);
    MaskIsUp(Shift(k));
    MaskIsUp(Shift(k + 1));
    var e := 64 - Shift(k + 1);
    var x := Pow2(e) - 1;
    ByHexDigit(0, e);
    assert Pow2(64 - Shift(k)) - 1 == 16 * x + 15;
    BaseSplit(k, x);
    OrUp(16 * x, 15, Shift(k));
    Or16(x, 15);
  }

  /** Base, mask and shift agree with the level and block of the root. */
  ghost predicate GeometryOf(base: nat, mask: int, shift: nat, level: nat, block: nat) {
    && level <= TOP_LEVEL
    && shift == Shift(level)
    && base == BlockBase(level, block) && base < WORD
    && mask == Mask(level)
  }

  /** A block that starts inside the word range ends inside it. */
  lemma BlockInWord(k: nat, n: nat)
    requires k <= TOP_LEVEL && BlockBase(k, n) < WORD
    ensures BlockBase(k, n) + Span(k) <= WORD
  {
    hide Pow2, Up;
    Pow2Word();
    var e := 64 - Shift(k);
    UpPow2(e, Shift(k));
    if n >= Pow2(e) {
      if n > Pow2(e) { UpMonotone(Pow2(e), n, Shift(k)); }
      assert false;
    }
    UpMonotone(n, Pow2(e), Shift(k));
  }

  lemma ShrinkBound(k: nat, n: nat, i: nat)
    requires k < TOP_LEVEL && BlockBase(k + 1, n) < WORD && i < 16
    ensures BlockBase(k, 16 * n + i) < WORD
  {
    hide Pow2, Up;
    BlockInWord(k + 1, n);
    BaseSplit(k, n);
    BaseSplit(k, n + 1);
    UpMonotone(16 * n + i, 16 * (n + 1), Shift(k));
    UpNext(n, Shift(k + 1));
  }

  lemma GeometryDown(base: nat, mask: nat, shift: nat, level: nat, block: nat, idx: nat)
    requires GeometryOf(base, mask, shift, level, block) && level > 0 && idx < 16
    ensures shift >= 4
    ensures GeometryOf(Or(base, Shl(idx, shift - 4)), Or(mask, Shl(15, shift - 4)), shift - 4,
                       level - 1, 16 * block + idx)
  {
    hide Pow2, Up, Or, Shl;
    BaseDown(level - 1, block, idx);
    MaskDown(level - 1);
    ShrinkBound(level - 1, block, idx);
  }

  lemma GeometryUp(base: nat, mask: nat, shift: nat, level: nat, block: nat)
    requires GeometryOf(base, mask, shift, level, block) && level < TOP_LEVEL
    ensures GeometryOf(And(base, Shl(mask, 4)), Shl(mask, 4), shift + 4, level + 1, block / 16)
    ensures And(Shr(base, shift), 15) == block % 16
  {
    hide Pow2, Up, Or, Shl, And;
    MaskUp(level);
    BaseUp(level, block);
    BaseBlock(level, block);
    BlockUp(level, base);
    UpShrBounds(base, Shift(level + 1));
  }

  lemma ShiftOfLevel(base: nat, mask: nat, shift: nat, level: nat, block: nat)
    requires GeometryOf(base, mask, shift, level, block)
    ensures level <= TOP_LEVEL && (shift > 60 <==> level == TOP_LEVEL)
  {
  }
}
