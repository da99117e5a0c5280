/**
 Runs of blocks on the grid of whole block sizes from the start of the range: only the last one may
 be no whole number of them, and it ends where the range ends.
 */
module MemUnits {
  import opened Multiples
  import opened MemBlocks
  import opened MemAreas
  import opened MemTake

  /** A range leaves a last area that holds a node, or none. */
  predicate RestFits(span: nat, unit: nat)
    requires unit > 0
  {
    span % unit == 0 || span % unit >= NODE_SIZE
  }

  predicate OnGrid(b: Block, lo: nat, hi: nat, unit: nat)
    requires unit > 0
  {
    && lo <= b.start && b.End() <= hi && Multiple(b.start - lo, unit)
    && (b.End() == hi || Multiple(b.End() - lo, unit))
  }

  ghost predicate Gridded(bs: seq<Block>, lo: nat, hi: nat, unit: nat)
    requires unit > 0
  {
    forall i | 0 <= i < |bs| :: OnGrid(bs[i], lo, hi, unit)
  }

  lemma GridTaken(bs: seq<Block>, k: nat, n: nat, whole: bool, lo: nat, hi: nat, unit: nat)
    requires unit > 0 && Gridded(bs, lo, hi, unit) && k < |bs| && n <= bs[k].len && Multiple(n, unit)
    ensures Gridded(Taken(bs, k, n, whole), lo, hi, unit)
    ensures OnGrid(Block(bs[k].start + n, bs[k].len - n), lo, hi, unit)
  {
    assert OnGrid(bs[k], lo, hi, unit);
    MultipleSum(bs[k].start - lo, n, unit);
    var r := Taken(bs, k, n, whole);
    var rest := Block(bs[k].start + n, bs[k].len - n);
    assert rest.End() == bs[k].End() && rest.start - lo == bs[k].start - lo + n;
    hide Multiple;
    forall i | 0 <= i < |r|
      ensures OnGrid(r[i], lo, hi, unit)
    {
      if whole {
        assert r[i] == bs[if i < k then i else i + 1];
      } else {
        assert r[i] == if i == k then rest else bs[i];
      }
    }
  }

  lemma GridJoined(before: seq<Block>, b: Block, after: seq<Block>, lo: nat, hi: nat, unit: nat)
    requires unit > 0 && Gridded(before + after, lo, hi, unit) && OnGrid(b, lo, hi, unit)
    requires Gapped(before + after) && b.len > 0 && Fits(before, b, after)
    ensures Gridded(Joined(before, b, after), lo, hi, unit)
  {
    hide Joined, Gapped, Fits, Multiple;
    var left, m, right := JoinedParts(before, b, after);
    assert forall i | 0 <= i < |before| :: before[i] == (before + after)[i];
    assert forall i | 0 <= i < |after| :: after[i] == (before + after)[|before| + i];
    assert OnGrid(m, lo, hi, unit);
    forall i | 0 <= i < |left + [m] + right|
      ensures OnGrid((left + [m] + right)[i], lo, hi, unit)
    {
      if i < |left| {
        assert (left + [m] + right)[i] == before[i];
      } else if i > |left| {
        assert (left + [m] + right)[i] == after[|after| - |right| + (i - |left| - 1)];
      }
    }
  }

  /** What is left of a range behind whole units holds a node, if anything is left. */
  lemma DistanceLong(total: nat, s: nat, unit: nat)
    requires unit >= NODE_SIZE && s < total && Multiple(s, unit) && RestFits(total, unit)
    ensures total - s >= NODE_SIZE
  {
    DivMod(total, unit);
    MultipleTimes(s, unit);
    UnitsBetween(total, s, unit, s / unit, total / unit, total % unit);
  }

  lemma DivMod(n: nat, unit: nat)
    requires unit > 0
    ensures n == n / unit * unit + n % unit
  {
  }

  lemma UnitsBetween(total: nat, s: nat, unit: nat, p: nat, q: nat, r: nat)
    requires total == q * unit + r && s == p * unit && s < total && unit >= NODE_SIZE && r < unit && (r == 0 || r >= NODE_SIZE)
    ensures total - s >= NODE_SIZE
  {
    if p < q {
      MulMonotone(p + 1, q, unit);
      assert (p + 1) * unit == p * unit + unit;
    } else if p > q {
      MulMonotone(q + 1, p, unit);
    }
  }

  lemma GridLong(b: Block, lo: nat, hi: nat, unit: nat)
    requires unit >= NODE_SIZE && lo <= hi && OnGrid(b, lo, hi, unit) && b.len > 0 && RestFits(hi - lo, unit)
    ensures b.len >= NODE_SIZE
  {
    DistanceLong(b.End() - lo, b.start - lo, unit);
  }

  /** On the grid a request of whole units leaves nothing, or what holds a node. */
  lemma GridDivisible(bs: seq<Block>, n: nat, lo: nat, hi: nat, unit: nat)
    requires unit >= NODE_SIZE && lo <= hi && Gridded(bs, lo, hi, unit) && Multiple(n, unit) && RestFits(hi - lo, unit)
    ensures Divisible(bs, n, unit, false)
  {
    hide Multiple;
    forall i | 0 <= i < |bs| && bs[i].len > n
      ensures bs[i].len - n >= NODE_SIZE
    {
      GridTaken(bs, i, n, false, lo, hi, unit);
      GridLong(Block(bs[i].start + n, bs[i].len - n), lo, hi, unit);
    }
  }

  /** A block handed out at a grid point with whole units is on the grid. */
  lemma HeldGrid(a: nat, n: nat, lo: nat, hi: nat, unit: nat)
    requires unit > 0 && lo <= a && a + n <= hi && Multiple(a - lo, unit) && Multiple(n, unit)
    ensures OnGrid(Block(a, n), lo, hi, unit)
  {
    MultipleSum(a - lo, n, unit);
  }
}
