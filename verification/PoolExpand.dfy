/**
 A super block cut into min blocks: their addresses, and the batches they are linked into.
 */
module PoolExpand {
  import opened Sequences
  import opened PoolLists
  import opened Multiples
  import opened PoolState

  /** Address of min block j of a super block at base. */
  function BlockAt(base: nat, unit: nat, j: nat): (a: nat) {
    if j == 0 then base else BlockAt(base, unit, j - 1) + unit
  }

  /** The first k min blocks of a super block. */
  function Blocks(base: nat, unit: nat, k: nat): (s: seq<nat>)
    ensures |s| == k
  {
    seq(k, j requires 0 <= j < k => BlockAt(base, unit, j))
  }

  lemma {:induction false} BlockAtLess(base: nat, unit: nat, i: nat, j: nat)
    requires i < j && unit > 0
    ensures BlockAt(base, unit, i) + unit <= BlockAt(base, unit, j)
  {
    if i < j - 1 { BlockAtLess(base, unit, i, j - 1); }
  }

  lemma {:induction false} BlockAtValue(base: nat, unit: nat, j: nat)
    ensures BlockAt(base, unit, j) == base + j * unit
  {
    if j > 0 {
      BlockAtValue(base, unit, j - 1);
      assert (j - 1) * unit + unit == j * unit;
    }
  }

  lemma BlocksNoRepeats(base: nat, unit: nat, k: nat)
    requires unit > 0
    ensures NoRepeats(Blocks(base, unit, k))
  {
    forall i, j | 0 <= i < j < k
      ensures BlockAt(base, unit, i) != BlockAt(base, unit, j)
    {
      BlockAtLess(base, unit, i, j);
    }
  }

  lemma BlocksNext(base: nat, unit: nat, k: nat)
    ensures Blocks(base, unit, k + 1) == Blocks(base, unit, k) + [BlockAt(base, unit, k)]
  {
  }

  lemma BlockInside(base: nat, unit: nat, k: nat, x: nat)
    requires x in Blocks(base, unit, k) && unit > 0
    ensures base <= x && x + unit <= BlockAt(base, unit, k)
  {
    var s := Blocks(base, unit, k);
    var j :| 0 <= j < |s| && s[j] == x;
    BlockAtLess(base, unit, j, k);
    if j > 0 { BlockAtLess(base, unit, 0, j); }
  }

  /** Number of min blocks in a super block. */
  function BlockCount(size: nat, unit: nat): (n: nat)
    requires unit > 0
  {
    size / unit
  }

  /** The same as the code counts them, in a 32-bit word. */
  function CountOf(size: nat, unit: nat): (n: nat)
    ensures n < 0x1_0000_0000
  {
    if unit == 0 then 0 else BlockCount(size, unit) % 0x1_0000_0000
  }

  /** A super block shorter than 2^32 min blocks. */
  predicate Countable(size: nat, unit: nat) {
    size < 0x1_0000_0000 * unit
  }

  /** All blocks are counted exactly if the super block is shorter than 2^32 of them. */
  lemma CountExactly(size: nat, unit: nat)
    requires unit > 0
    ensures CountOf(size, unit) == BlockCount(size, unit) <==> Countable(size, unit)
  {
    var n := BlockCount(size, unit);
    QuotientExactly(size, unit, 0x1_0000_0000);
    assert n % 0x1_0000_0000 == n <==> n < 0x1_0000_0000;
  }

  lemma QuotientExactly(size: nat, unit: nat, n: nat)
    requires unit > 0
    ensures size / unit < n <==> size < n * unit
  {
    var q := size / unit;
    assert size == q * unit + size % unit;
    if q < n { MulMonotone(q + 1, n, unit); } else { MulMonotone(n, q, unit); }
  }

  function Mod(i: nat, steps: nat): (r: nat)
    requires steps > 0
    ensures r < steps
  {
    i % steps
  }

  /** Sizes that hold whole batches hold a whole number of blocks. */
  lemma WholeBatches(size: nat, unit: nat, steps: nat)
    requires size > 0 && unit > 0 && steps > 0 && unit * steps > 0 && Multiple(size, unit * steps)
    ensures Mod(BlockCount(size, unit), steps) == 0 && BlockCount(size, unit) * unit == size && BlockCount(size, unit) > 0
  {
    var u := unit * steps;
    MultipleTimes(size, u);
    var q := size / u;
    assert size == q * (unit * steps) == (q * steps) * unit;
    TimesMultiple(q * steps, unit);
    TimesMultiple(q, steps);
  }

  lemma ModNext(i: nat, steps: nat)
    requires steps > 1
    ensures Mod(0, steps) == 0
    ensures Mod(i + 1, steps) == if Mod(i, steps) + 1 == steps then 0 else Mod(i, steps) + 1
  {
    var q, r := i / steps, i % steps;
    if r + 1 == steps {
      assert i + 1 == (q + 1) * steps + 0 by { assert (q + 1) * steps == q * steps + steps; }
      QuotientUnique(i + 1, steps, q + 1, 0);
    } else {
      QuotientUnique(i + 1, steps, q, r + 1);
    }
  }

  /** next runs through the first k blocks of the super block. */
  ghost predicate Strung(cells: Cells, base: nat, unit: nat, k: nat) {
    forall j: nat | j < k :: BlockAt(base, unit, j) in cells && cells[BlockAt(base, unit, j)].next == BlockAt(base, unit, j + 1)
  }

  /** The first k blocks are strung and cut into finished batches and one begun at header. */
  ghost predicate Cutting(cells: Cells, base: nat, unit: nat, k: nat, done: seq<seq<nat>>, cur: seq<nat>, header: nat, steps: nat) {
    && Strung(cells, base, unit, k) && Flat(done) + cur == Blocks(base, unit, k)
    && AllBatches(cells, done) && (forall i | 0 <= i < |done| :: |done[i]| == steps)
    && Unfinished(cells, cur, steps) && (cur != [] ==> header == cur[0])
  }

  /** The blocks from number k on are as the system gave them. */
  ghost predicate Clear(cells: Cells, base: nat, unit: nat, k: nat, count: nat) {
    forall j: nat | k <= j < count :: BlockAt(base, unit, j) in cells && cells[BlockAt(base, unit, j)] == MinBlock(0, 0, 0)
  }

  /** Writing to earlier blocks leaves the later ones clear. */
  lemma ClearStill(cells: Cells, cells': Cells, base: nat, unit: nat, k: nat, count: nat)
    requires Clear(cells, base, unit, k, count) && unit > 0
    requires forall x | x in cells && x !in Blocks(base, unit, k + 1) :: x in cells' && cells'[x] == cells[x]
    ensures Clear(cells', base, unit, k + 1, count)
  {
    forall j: nat | k + 1 <= j < count
      ensures BlockAt(base, unit, j) !in Blocks(base, unit, k + 1)
    {
      forall i | 0 <= i < k + 1
        ensures BlockAt(base, unit, i) != BlockAt(base, unit, j)
      {
        BlockAtLess(base, unit, i, j);
      }
    }
  }

  function Mark(cells: Cells, header: nat, last: nat, steps: nat): (cells': Cells)
    requires header in cells
  {
    cells[header := cells[header].(nextN := last, count := steps)]
  }

  function SetNext(cells: Cells, x: nat, next: nat): (cells': Cells)
    requires x in cells
  {
    cells[x := cells[x].(next := next)]
  }

  lemma {:induction false} BlockAtPositive(base: nat, unit: nat, k: nat)
    requires base > 0
    ensures BlockAt(base, unit, k) > 0
  {
    if k > 0 { BlockAtPositive(base, unit, k - 1); }
  }

  /** The next block is not among the blocks before it. */
  lemma BlockNew(base: nat, unit: nat, k: nat)
    requires unit > 0
    ensures BlockAt(base, unit, k) !in Blocks(base, unit, k)
  {
    forall j | 0 <= j < k
      ensures BlockAt(base, unit, j) != BlockAt(base, unit, k)
    {
      BlockAtLess(base, unit, j, k);
    }
  }

  /** One more block joins the batch that was begun, or begins one. */
  lemma CutInto(cells: Cells, base: nat, unit: nat, k: nat, done: seq<seq<nat>>, cur: seq<nat>, header: nat, steps: nat)
    requires Cutting(cells, base, unit, k, done, cur, header, steps) && unit > 0 && |cur| + 1 < steps
    requires BlockAt(base, unit, k) in cells && cells[BlockAt(base, unit, k)] == MinBlock(0, 0, 0)
    ensures var x := BlockAt(base, unit, k);
            Cutting(SetNext(cells, x, x + unit), base, unit, k + 1, done, cur + [x], if cur == [] then x else header, steps)
  {
    var x := BlockAt(base, unit, k);
    BlockNew(base, unit, k);
    BlocksNext(base, unit, k);
    assert Flat(done) + (cur + [x]) == Flat(done) + cur + [x];
    StrungOn(cells, base, unit, k);
    assert forall y | y in Flat(done) || y in cur :: y in Flat(done) + cur;
    BatchesFrame(cells, SetNext(cells, x, x + unit), done);
    if cur != [] { assert cur[0] in cur && (cur + [x])[0] == cur[0]; }
  }

  lemma BlockAtStep(base: nat, unit: nat, k: nat)
    ensures BlockAt(base, unit, k + 1) == BlockAt(base, unit, k) + unit
  {
  }

  lemma StrungOn(cells: Cells, base: nat, unit: nat, k: nat)
    requires Strung(cells, base, unit, k) && unit > 0 && BlockAt(base, unit, k) in cells
    ensures var x := BlockAt(base, unit, k); Strung(SetNext(cells, x, x + unit), base, unit, k + 1)
  {
    hide BlockAt;
    var x := BlockAt(base, unit, k);
    BlockAtStep(base, unit, k);
    forall j: nat | j < k + 1
      ensures BlockAt(base, unit, j) in cells
      ensures SetNext(cells, x, x + unit)[BlockAt(base, unit, j)].next == BlockAt(base, unit, j + 1)
    {
      if j < k { BlockAtLess(base, unit, j, k); }
    }
  }

  lemma StrungMarked(cells: Cells, base: nat, unit: nat, k: nat, header: nat, last: nat, steps: nat)
    requires Strung(cells, base, unit, k) && header in cells
    ensures Strung(Mark(cells, header, last, steps), base, unit, k)
  {
  }

  lemma CutOffFlat(base: nat, unit: nat, k: nat, done: seq<seq<nat>>, cur: seq<nat>)
    requires Flat(done) + cur == Blocks(base, unit, k)
    ensures Flat(done + [cur + [BlockAt(base, unit, k)]]) + [] == Blocks(base, unit, k + 1)
  {
    hide Flat, Blocks;
    var x := BlockAt(base, unit, k);
    BlocksNext(base, unit, k);
    FlatConcat(done, [cur + [x]]);
    FlatOne(cur + [x]);
  }

  lemma CutOffBatches(cells: Cells, cells': Cells, base: nat, unit: nat, k: nat, done: seq<seq<nat>>, cur: seq<nat>, header: nat, steps: nat)
    requires AllBatches(cells, done) && Flat(done) + cur == Blocks(base, unit, k) && unit > 0
    requires cur != [] && header == cur[0] && header in cells && |cur| + 1 == steps
    requires var x := BlockAt(base, unit, k);
             x in cells && cells' == SetNext(Mark(cells, header, x, steps), x, x + unit)
    ensures AllBatches(cells', done + [cur + [BlockAt(base, unit, k)]])
  {
    hide Flat, Blocks, BlockAt;
    var x := BlockAt(base, unit, k);
    var done' := done + [cur + [x]];
    BlockNew(base, unit, k);
    BlocksNoRepeats(base, unit, k);
    NoRepeatsParts(Flat(done), cur);
    assert header in cur && x !in Flat(done) + cur;
    BatchesFrame(cells, cells', done);
    assert Batch(cells', cur + [x]);
    assert forall i | 0 <= i < |done'| :: done'[i] == if i < |done| then done[i] else cur + [x];
  }

  /** One more block finishes the batch. */
  lemma CutOff(cells: Cells, base: nat, unit: nat, k: nat, done: seq<seq<nat>>, cur: seq<nat>, header: nat, steps: nat)
    requires Cutting(cells, base, unit, k, done, cur, header, steps) && unit > 0 && BlockAt(base, unit, k) in cells
    requires |cur| + 1 == steps && cur != [] && header in cells
    ensures var x := BlockAt(base, unit, k);
            Cutting(SetNext(Mark(cells, header, x, steps), x, x + unit), base, unit, k + 1, done + [cur + [x]], [], header, steps)
  {
    hide Flat, Blocks, BlockAt, AllBatches, Strung;
    var x := BlockAt(base, unit, k);
    var cells1 := Mark(cells, header, x, steps);
    CutOffFlat(base, unit, k, done, cur);
    CutOffBatches(cells, SetNext(cells1, x, x + unit), base, unit, k, done, cur, header, steps);
    StrungMarked(cells, base, unit, k, header, x, steps);
    StrungOn(cells1, base, unit, k);
    var done' := done + [cur + [x]];
    assert forall i | 0 <= i < |done'| :: done'[i] == if i < |done| then done[i] else cur + [x];
  }

  /** After the last block's next is cleared, the blocks are a chain. */
  lemma StrungChain(cells: Cells, cells': Cells, base: nat, unit: nat, k: nat)
    requires unit > 0 && k > 0 && base > 0 && Strung(cells, base, unit, k)
    requires var tail := BlockAt(base, unit, k - 1);
             cells' == cells[tail := MinBlock(0, 0, 0)]
    ensures Chain(cells', base, Blocks(base, unit, k))
  {
    var s := Blocks(base, unit, k);
    forall j | 0 <= j < |s|
      ensures s[j] != 0 && s[j] in cells' && cells'[s[j]].next == Behind(s, j)
    {
      BlockAtLess(base, unit, j, j + 1);
      if j > 0 { BlockAtLess(base, unit, 0, j); }
      if j < k - 1 { BlockAtLess(base, unit, j, k - 1); }
    }
  }

  /** Clearing the last block leaves the batches, of which it is not a first block. */
  lemma TailUnmarked(cells: Cells, done: seq<seq<nat>>, cur: seq<nat>, steps: nat, tail: nat)
    requires AllBatches(cells, done) && (forall i | 0 <= i < |done| :: |done[i]| == steps) && steps > 1 && Unfinished(cells, cur, steps)
    requires NoRepeats(Flat(done) + cur) && Flat(done) + cur != [] && (Flat(done) + cur)[|Flat(done) + cur| - 1] == tail
    ensures AllBatches(cells[tail := MinBlock(0, 0, 0)], done) && Unfinished(cells[tail := MinBlock(0, 0, 0)], cur, steps)
  {
    NoRepeatsParts(Flat(done), cur);
    forall i | 0 <= i < |done|
      ensures Batch(cells[tail := MinBlock(0, 0, 0)], done[i])
    {
      assert Batch(cells, done[i]);
      if cur == [] {
        assert Flat(done) + cur == Flat(done);
        HeaderNotLast(done, i, steps);
      } else {
        BatchInFlat(done, i, done[i][0]);
        assert cur[|cur| - 1] == tail && tail in cur;
      }
    }
  }

  lemma {:induction false} HeaderNotLast(done: seq<seq<nat>>, i: nat, steps: nat)
    requires (forall k | 0 <= k < |done| :: |done[k]| == steps) && steps > 1 && i < |done| && NoRepeats(Flat(done))
    ensures |Flat(done)| >= steps && done[i][0] != Flat(done)[|Flat(done)| - 1]
  {
    var rest := Flat(done[1..]);
    var f := Flat(done);
    assert f == done[0] + rest;
    if i == 0 {
      assert done[0][0] == f[0];
    } else {
      assert forall a | 0 <= a < |rest| :: rest[a] == f[steps + a];
      assert done[1..][i - 1] == done[i];
      HeaderNotLast(done[1..], i - 1, steps);
    }
  }
}
