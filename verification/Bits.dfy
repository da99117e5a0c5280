/**
 Bitwise operations on unsigned 64-bit words, written on natural numbers, and the
 arithmetic they amount to for the masks and shifts the page table uses. Everything is
 defined by repeated halving and doubling.
 */
module Bits {

  /** One past the largest 64-bit word. */
  const WORD: nat := 0x1_0000_0000_0000_0000

  function Pow2(n: nat): (r: nat)
    ensures r > 0
  {
    if n == 0 then 1 else 2 * Pow2(n - 1)
  }

  function And(a: nat, b: nat): (r: nat) {
    if a == 0 || b == 0 then 0 else (if a % 2 == 1 && b % 2 == 1 then 1 else 0) + 2 * And(a / 2, b / 2)
  }

  function Or(a: nat, b: nat): (r: nat) {
    if a == 0 then b else if b == 0 then a
    else (if a % 2 == 1 || b % 2 == 1 then 1 else 0) + 2 * Or(a / 2, b / 2)
  }

  function Shr(a: nat, n: nat): (r: nat) {
    if n == 0 then a else Shr(a, n - 1) / 2
  }

  /** a doubled n times: the left shift before it is cut to 64 bits. */
  function Up(a: nat, n: nat): (r: nat) {
    if n == 0 then a else 2 * Up(a, n - 1)
  }

  /** Left shift of a 64-bit word: bits pushed out at the top are lost. */
  function Shl(a: nat, n: nat): (r: nat) {
    Up(a, n) % WORD
  }

  /** Index of the highest set bit of a non-zero word. */
  function HighestBit(n: nat): (r: nat)
    requires n > 0
    ensures Pow2(r) <= n < Pow2(r + 1)
  {
    if n == 1 then 0 else 1 + HighestBit(n / 2)
  }

  /** Index of the lowest set bit of a non-zero word. */
  function LowestBit(n: nat): (r: nat)
    requires n > 0
  {
    if n % 2 == 1 then 0 else 1 + LowestBit(n / 2)
  }

  lemma {:induction false} Pow2Monotone(m: nat, n: nat)
    requires m <= n
    ensures Pow2(m) <= Pow2(n)
  {
    if m < n { Pow2Monotone(m, n - 1); }
  }

  ghost predicate IsPow2(x: nat) {
    exists k: nat :: x == Pow2(k)
  }

  lemma Pow2Halves(x: nat)
    requires x > 1
    ensures IsPow2(x) <==> x % 2 == 0 && IsPow2(x / 2)
  {
    if IsPow2(x) {
      var k: nat :| x == Pow2(k);
      assert k > 0 && x == 2 * Pow2(k - 1);
      assert x / 2 == Pow2(k - 1);
    }
    if x % 2 == 0 && IsPow2(x / 2) {
      var k: nat :| x / 2 == Pow2(k);
      assert x == Pow2(k + 1);
    }
  }

  /** A number above 0 shares no bit with the one before it exactly if it is a power of two. */
  lemma {:induction false} SingleBit(x: nat)
    requires x > 0
    ensures And(x - 1, x) == 0 <==> IsPow2(x)
  {
    var y := x / 2;
    if x == 1 {
      assert 1 == Pow2(0);
    } else {
      Pow2Halves(x);
      hide IsPow2;
      if x % 2 == 0 {
        assert And(x - 1, x) == 2 * And(y - 1, y);
        SingleBit(y);
      } else {
        AndSelf(y);
        assert And(x - 1, x) == 2 * And(y, y);
      }
    }
  }

  lemma {:induction false} AndSelf(x: nat)
    ensures And(x, x) == x
  {
    if x > 0 { AndSelf(x / 2); }
  }

  lemma Pow2Word()
    ensures Pow2(64) == WORD && Pow2(4) == 16
  {
    assert Pow2(8) == 256;
    assert Pow2(16) == 0x1_0000;
    assert Pow2(24) == 0x100_0000;
    assert Pow2(32) == 0x1_0000_0000;
    assert Pow2(40) == 0x100_0000_0000;
    assert Pow2(48) == 0x1_0000_0000_0000;
    assert Pow2(56) == 0x100_0000_0000_0000;
  }

  lemma {:induction false} UpZero(n: nat)
    ensures Up(0, n) == 0 && Shr(0, n) == 0
  {
    if n > 0 { UpZero(n - 1); }
  }

  /** Four bits at a time. */
  lemma ByHexDigit(a: nat, n: nat)
    ensures Up(a, n + 4) == 16 * Up(a, n) && Shr(a, n + 4) == Shr(a, n) / 16 && Pow2(n + 4) == 16 * Pow2(n)
  {
    assert Up(a, n + 4) == 2 * Up(a, n + 3) == 4 * Up(a, n + 2) == 8 * Up(a, n + 1);
    assert Shr(a, n + 4) == Shr(a, n + 3) / 2 == Shr(a, n + 2) / 2 / 2 == Shr(a, n + 1) / 2 / 2 / 2;
    assert Pow2(n + 4) == 2 * Pow2(n + 3) == 4 * Pow2(n + 2) == 8 * Pow2(n + 1);
  }

  lemma {:induction false} UpSplit(x: nat, b: nat, n: nat)
    requires b < 2
    ensures Up(2 * x + b, n) == 2 * Up(x, n) + (if b == 1 then Pow2(n) else 0)
  {
    if n > 0 { UpSplit(x, b, n - 1); }
  }

  lemma {:induction false} UpNext(x: nat, n: nat)
    ensures Up(x + 1, n) == Up(x, n) + Pow2(n)
  {
    if n > 0 { UpNext(x, n - 1); }
  }

  lemma {:induction false} UpMonotone(x: nat, y: nat, n: nat)
    requires x < y
    ensures Up(x, n) + Pow2(n) <= Up(y, n)
  {
    UpNext(y - 1, n);
    if x < y - 1 { UpMonotone(x, y - 1, n); }
  }

  lemma {:induction false} UpShrBounds(a: nat, n: nat)
    ensures Up(Shr(a, n), n) <= a < Up(Shr(a, n), n) + Pow2(n)
  {
    if n > 0 {
      UpShrBounds(a, n - 1);
      UpSplit(Shr(a, n), Shr(a, n - 1) % 2, n - 1);
    }
  }

  /** The words whose bits from n upward spell x are a block of 2^n consecutive words. */
  lemma ShrRange(a: nat, x: nat, n: nat)
    ensures Shr(a, n) == x <==> Up(x, n) <= a < Up(x, n) + Pow2(n)
  {
    UpShrBounds(a, n);
    if x < Shr(a, n) { UpMonotone(x, Shr(a, n), n); }
    if Shr(a, n) < x { UpMonotone(Shr(a, n), x, n); }
  }

  lemma {:induction false} ShrHalf(a: nat, n: nat)
    ensures Shr(a / 2, n) == Shr(a, n + 1)
  {
    if n > 0 { ShrHalf(a, n - 1); }
  }

  lemma HighestBitBounds(n: nat, m: nat)
    requires n > 0
    ensures m <= HighestBit(n) <==> Pow2(m) <= n
  {
    if m <= HighestBit(n) { Pow2Monotone(m, HighestBit(n)); } else { Pow2Monotone(HighestBit(n) + 1, m); }
  }

  /** n is a multiple of 2^m exactly when m does not exceed its lowest set bit. */
  lemma {:induction false} LowestBitDivides(n: nat, m: nat)
    requires n > 0
    ensures m <= LowestBit(n) <==> Up(Shr(n, m), m) == n
  {
    if m > 0 {
      ShrHalf(n, m - 1);
      if n % 2 == 0 { LowestBitDivides(n / 2, m - 1); }
    }
  }

  /** A mask of ones above bit s clears the low s bits. */
  lemma {:induction false} AndHighMask(a: nat, w: nat, s: nat)
    requires a < Pow2(w) && s <= w
    ensures Pow2(s) <= Pow2(w)
    ensures And(a, Pow2(w) - Pow2(s)) == Up(Shr(a, s), s)
  {
    Pow2Monotone(s, w);
    if w == 0 {
    } else if s == 0 {
      Pow2Monotone(0, w - 1);
      AndHighMask(a / 2, w - 1, 0);
      assert (Pow2(w) - 1) / 2 == Pow2(w - 1) - 1;
    } else {
      AndHighMask(a / 2, w - 1, s - 1);
      ShrHalf(a, s - 1);
      assert Pow2(w) - Pow2(s) == 2 * (Pow2(w - 1) - Pow2(s - 1));
      if a == 0 { UpShrBounds(0, s); }
    }
  }

  /** A mask of s low ones keeps the low s bits. */
  lemma {:induction false} AndLowMask(a: nat, s: nat)
    ensures And(a, Pow2(s) - 1) == a - Up(Shr(a, s), s)
  {
    if s > 0 {
      AndLowMask(a / 2, s - 1);
      ShrHalf(a, s - 1);
      assert (Pow2(s) - 1) / 2 == Pow2(s - 1) - 1;
      assert (Pow2(s) - 1) % 2 == 1;
      if a == 0 { UpShrBounds(0, s); }
    }
  }

  /** Or of a word with s clear low bits and a word below 2^s is their sum. */
  lemma {:induction false} OrDisjoint(x: nat, b: nat, s: nat)
    requires b < Pow2(s)
    ensures Or(Up(x, s), b) == Up(x, s) + b
  {
    if s > 0 { OrDisjoint(x, b / 2, s - 1); }
  }
}
