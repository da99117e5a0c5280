/**
 Batches that move between the shared list and a cache: the links before and after.
 */
module PoolMoves {
  import opened Sequences
  import opened PoolLists
  import opened PoolState

  /** The links after the first n blocks of a cache's list were made a batch of their own. */
  function Detached(cells: Cells, head: nat, last: nat, n: nat): (cells': Cells)
    requires head in cells && last in cells
  {
    var cells1 := cells[head := cells[head].(nextN := last)];
    var cells2 := cells1[last := cells1[last].(next := 0)];
    cells2[head := cells2[head].(count := n)]
  }

  lemma DetachOk(cells: Cells, head: nat, s: seq<nat>, t: seq<nat>)
    requires Chain(cells, head, s + t) && s != [] && NoRepeats(s + t)
    ensures var last := s[|s| - 1];
            && head in cells && last in cells
            && Chain(Detached(cells, head, last, |s|), head, s) && Batch(Detached(cells, head, last, |s|), s)
            && Chain(Detached(cells, head, last, |s|), cells[last].next, t)
            && WritesOnly(cells, Detached(cells, head, last, |s|), s)
  {
    var last := s[|s| - 1];
    assert (s + t)[0] == head && (s + t)[|s| - 1] == last;
    assert head in cells && last in cells;
    var cells' := Detached(cells, head, last, |s|);
    ChainCut(cells, cells', head, s, t);
    assert head in s && last in s;
  }

  /** The links after the first batch was cut off the shared list. */
  function CutOffFirst(cells: Cells, last: nat): (cells': Cells)
    requires last in cells
  {
    cells[last := cells[last].(next := 0)]
  }

  /** The first block of the shared list knows the last of its batch, unless only an unfinished batch is left. */
  lemma FirstBatch(cells: Cells, freeHead: nat, freeCount: nat, batches: seq<seq<nat>>, rest: seq<nat>, steps: nat)
    requires SharedOk(cells, freeHead, freeCount, batches, rest, steps) && freeCount > 0
    ensures freeHead != 0 && freeHead in cells && (cells[freeHead].nextN == 0 <==> batches == [])
    ensures batches != [] ==> var b := batches[0];
            && b != [] && |b| < 2 * steps && freeHead == b[0]
            && cells[freeHead].nextN == b[|b| - 1] && cells[freeHead].count == |b| <= freeCount
            && Queue(batches, rest) == b + Queue(batches[1..], rest) && b[|b| - 1] in cells
  {
    var q := Queue(batches, rest);
    assert freeHead == q[0] && q[0] in cells && q[0] != 0;
    if batches == [] {
      assert q == rest;
    } else {
      var b := batches[0];
      assert Batch(cells, b);
      assert q == b + Queue(batches[1..], rest);
      assert q[0] == b[0] && q[|b| - 1] == b[|b| - 1];
      assert q[|b| - 1] in cells && q[|b| - 1] != 0;
    }
  }

  lemma FirstTaken(cells: Cells, freeHead: nat, freeCount: nat, batches: seq<seq<nat>>, rest: seq<nat>, steps: nat)
    requires SharedOk(cells, freeHead, freeCount, batches, rest, steps) && batches != [] && NoRepeats(Queue(batches, rest))
    ensures freeCount > 0 && var b := batches[0];
            && b != [] && b[|b| - 1] in cells
            && var last := b[|b| - 1];
               && SharedOk(CutOffFirst(cells, last), cells[last].next, freeCount - |b|, batches[1..], rest, steps)
               && Chain(CutOffFirst(cells, last), freeHead, b)
               && WritesOnly(cells, CutOffFirst(cells, last), b)
               && CutOffFirst(cells, last)[freeHead].count == |b|
  {
    hide Flat, Queue, NoRepeats, Chain, Unfinished, AllBatches;
    SomeFree(cells, batches, rest);
    FirstBatch(cells, freeHead, freeCount, batches, rest, steps);
    var b, more := batches[0], batches[1..];
    var cells' := CutOffFirst(cells, b[|b| - 1]);
    ChainCut(cells, cells', freeHead, b, Queue(more, rest));
    assert forall i | 0 <= i < |more| :: more[i] == batches[i + 1];
    MoreBatches(cells, batches);
    QueueFrame(cells, cells', more, rest, steps);
  }

  lemma MoreBatches(cells: Cells, batches: seq<seq<nat>>)
    requires AllBatches(cells, batches) && batches != []
    ensures AllBatches(cells, batches[1..])
  {
    assert forall i | 0 <= i < |batches[1..]| :: batches[1..][i] == batches[i + 1];
  }

  lemma SomeFree(cells: Cells, batches: seq<seq<nat>>, rest: seq<nat>)
    requires AllBatches(cells, batches) && batches != []
    ensures |Queue(batches, rest)| > 0
  {
    assert Batch(cells, batches[0]);
  }

  /** A block in no list may be written without disturbing any. */
  lemma OneWritten(cells: Cells, v: nat, k: MinBlock)
    requires v in cells
    ensures WritesOnly(cells, cells[v := k], [v])
  {
  }
}
