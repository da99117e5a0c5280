/**
 Whole multiples of a unit, and rounding up to one in 64-bit arithmetic.
 */
module Multiples {

  const WORD64: nat := 0x1_0000_0000_0000_0000

  /** A request rounded up to whole blocks, in 64-bit arithmetic. */
  function RoundUp(x: nat, unit: nat): (r: nat)
    requires unit > 0
  {
    var blocks: nat := (x + unit - 1) % 0x1_0000_0000_0000_0000 / unit;
    blocks * unit
  }

  predicate Multiple(n: nat, unit: nat)
    requires unit > 0
  {
    n % unit == 0
  }

  lemma {:induction false} TimesMultiple(q: nat, unit: nat)
    requires unit > 0
    ensures q * unit >= 0 && Multiple(q * unit, unit) && (q * unit) / unit == q
  {
    if q > 0 {
      TimesMultiple(q - 1, unit);
      assert q * unit == (q - 1) * unit + unit;
      StepMod((q - 1) * unit, unit);
    }
  }

  lemma StepMod(n: nat, unit: nat)
    requires unit > 0
    ensures (n + unit) % unit == n % unit && (n + unit) / unit == n / unit + 1
  {
    var q, r := n / unit, n % unit;
    assert n + unit == (q + 1) * unit + r by { assert (q + 1) * unit == q * unit + unit; }
    QuotientUnique(n + unit, unit, q + 1, r);
  }

  lemma QuotientUnique(n: nat, unit: nat, q: nat, r: nat)
    requires unit > 0 && n == q * unit + r && r < unit
    ensures n / unit == q && n % unit == r
  {
    var q', r' := n / unit, n % unit;
    assert n == q' * unit + r';
    if q < q' { QuotientLess(q, r, q', r', unit); }
    if q' < q { QuotientLess(q', r', q, r, unit); }
  }

  lemma QuotientLess(q: nat, r: nat, q': nat, r': nat, unit: nat)
    requires q < q' && r < unit
    ensures q * unit + r < q' * unit + r'
  {
    MulAtLeast(q' - q, unit);
    assert (q' - q) * unit == q' * unit - q * unit;
  }

  lemma MulAtLeast(q: nat, unit: nat)
    requires q > 0
    ensures q * unit >= unit
  {
  }

  lemma MultipleTimes(n: nat, unit: nat)
    requires unit > 0 && Multiple(n, unit)
    ensures n == n / unit * unit
  {
  }

  lemma MultipleSum(n: nat, k: nat, unit: nat)
    requires unit > 0 && Multiple(n, unit) && Multiple(k, unit)
    ensures Multiple(n + k, unit)
  {
    MultipleTimes(n, unit);
    MultipleTimes(k, unit);
    var a, b := n / unit, k / unit;
    assert n + k == (a + b) * unit by { assert (a + b) * unit == a * unit + b * unit; }
    TimesMultiple(a + b, unit);
  }

  /** Different multiples are at least one unit apart. */
  lemma MultipleDifference(n: nat, k: nat, unit: nat)
    requires unit > 0 && Multiple(n, unit) && Multiple(k, unit) && k < n
    ensures Multiple(n - k, unit) && n - k >= unit
  {
    MultipleTimes(n, unit);
    MultipleTimes(k, unit);
    var a, b := n / unit, k / unit;
    if a <= b { MulMonotone(a, b, unit); }
    assert n - k == (a - b) * unit by { assert (a - b) * unit == a * unit - b * unit; }
    TimesMultiple(a - b, unit);
    MulAtLeast(a - b, unit);
  }

  lemma MulMonotone(a: nat, b: nat, unit: nat)
    requires a <= b
    ensures a * unit <= b * unit
  {
  }

  /** Rounding up reaches the next multiple. */
  lemma RoundedUp(x: nat, unit: nat)
    requires 0 < unit && x + unit <= WORD64
    ensures x <= RoundUp(x, unit) < x + unit && Multiple(RoundUp(x, unit), unit)
  {
    var n := x + unit - 1;
    assert n % 0x1_0000_0000_0000_0000 == n;
    assert n == n / unit * unit + n % unit;
    TimesMultiple(n / unit, unit);
  }

  lemma ZeroMultiple(unit: nat)
    requires unit > 0
    ensures Multiple(0, unit)
  {
  }

  /** Rounding a whole multiple up changes nothing. */
  lemma RoundUpExact(x: nat, unit: nat)
    requires 0 < unit && x + unit <= WORD64 && Multiple(x, unit)
    ensures RoundUp(x, unit) == x
  {
    hide RoundUp, Multiple;
    RoundedUp(x, unit);
    if RoundUp(x, unit) > x { MultipleDifference(RoundUp(x, unit), x, unit); }
  }
}
