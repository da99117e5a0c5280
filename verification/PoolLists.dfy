/**
 Lists of min blocks threaded through the blocks themselves: plain lists, and lists of batches
 whose first block knows its last block and its length.
 */
module PoolLists {
  import opened Sequences

  /** The start of a free min block. */
  datatype MinBlock = MinBlock(next: nat, nextN: nat, count: nat)

  type Cells = map<nat, MinBlock>

  function HeadOf(s: seq<nat>): (p: nat) {
    if s == [] then 0 else s[0]
  }

  function Behind(s: seq<nat>, i: nat): (p: nat) {
    if i + 1 < |s| then s[i + 1] else 0
  }

  /** From head, next runs through s and ends in null. */
  ghost predicate Chain(cells: Cells, head: nat, s: seq<nat>) {
    head == HeadOf(s) && forall i | 0 <= i < |s| :: s[i] != 0 && s[i] in cells && cells[s[i]].next == Behind(s, i)
  }

  ghost predicate SameNext(cells: Cells, cells': Cells, s: seq<nat>) {
    forall x | x in s && x in cells :: x in cells' && cells'[x].next == cells[x].next
  }

  lemma ChainFrame(cells: Cells, cells': Cells, head: nat, s: seq<nat>)
    requires Chain(cells, head, s) && SameNext(cells, cells', s)
    ensures Chain(cells', head, s)
  {
    assert forall i | 0 <= i < |s| :: s[i] in s;
  }

  /** The first block comes off. */
  lemma ChainPop(cells: Cells, head: nat, s: seq<nat>)
    requires Chain(cells, head, s) && s != []
    ensures head != 0 && head in cells && Chain(cells, cells[head].next, s[1..])
  {
    assert s[0] in cells && cells[s[0]].next == Behind(s, 0);
    forall i | 0 <= i < |s[1..]|
      ensures s[1..][i] != 0 && s[1..][i] in cells && cells[s[1..][i]].next == Behind(s[1..], i)
    {
      assert s[1..][i] == s[i + 1] && cells[s[i + 1]].next == Behind(s, i + 1);
    }
  }

  /** A block goes in front. */
  lemma ChainPush(cells: Cells, cells': Cells, head: nat, s: seq<nat>, v: nat)
    requires Chain(cells, head, s) && v != 0 && v !in s && v in cells' && cells'[v].next == head && SameNext(cells, cells', s)
    ensures Chain(cells', v, [v] + s)
  {
    var t := [v] + s;
    forall i | 0 <= i < |t|
      ensures t[i] != 0 && t[i] in cells' && cells'[t[i]].next == Behind(t, i)
    {
      if i > 0 { assert t[i] == s[i - 1] && s[i - 1] in s && cells[s[i - 1]].next == Behind(s, i - 1); }
    }
  }

  /** A chain cut behind its first n blocks. */
  lemma ChainCut(cells: Cells, cells': Cells, head: nat, s: seq<nat>, t: seq<nat>)
    requires Chain(cells, head, s + t) && s != [] && NoRepeats(s + t)
    requires s[|s| - 1] in cells' && cells'[s[|s| - 1]].next == 0
    requires forall x | x in s + t && x != s[|s| - 1] && x in cells :: x in cells' && cells'[x].next == cells[x].next
    ensures s[|s| - 1] in cells && Chain(cells', head, s) && Chain(cells', cells[s[|s| - 1]].next, t)
  {
    var u, l := s + t, |s| - 1;
    assert u[l] == s[l] && cells[u[l]].next == Behind(u, l);
    forall i | 0 <= i < |s|
      ensures s[i] != 0 && s[i] in cells' && cells'[s[i]].next == Behind(s, i)
    {
      assert u[i] == s[i] && u[i] in u && cells[u[i]].next == Behind(u, i);
    }
    forall i | 0 <= i < |t|
      ensures t[i] != 0 && t[i] in cells' && cells'[t[i]].next == Behind(t, i)
    {
      assert u[|s| + i] == t[i] && u[|s| + i] in u && cells[u[|s| + i]].next == Behind(u, |s| + i);
    }
  }

  /** A chain hung in front of another. */
  lemma ChainJoin(cells: Cells, cells': Cells, head: nat, s: seq<nat>, head': nat, t: seq<nat>)
    requires Chain(cells, head, s) && Chain(cells, head', t) && s != [] && NoRepeats(s + t)
    requires s[|s| - 1] in cells' && cells'[s[|s| - 1]].next == head'
    requires forall x | x in s + t && x != s[|s| - 1] && x in cells :: x in cells' && cells'[x].next == cells[x].next
    ensures Chain(cells', head, s + t)
  {
    var u, l := s + t, |s| - 1;
    forall i | 0 <= i < |u|
      ensures u[i] != 0 && u[i] in cells' && cells'[u[i]].next == Behind(u, i)
    {
      assert u[i] in u;
      if i < |s| {
        assert u[i] == s[i] && cells[s[i]].next == Behind(s, i);
      } else {
        assert u[i] == t[i - |s|] && cells[t[i - |s|]].next == Behind(t, i - |s|);
        assert u[l] != u[i];
      }
    }
  }

  /** A block goes to the end. */
  lemma ChainAppend(cells: Cells, cells': Cells, head: nat, s: seq<nat>, v: nat)
    requires Chain(cells, head, s) && v != 0 && v !in s && s != [] && NoRepeats(s)
    requires v in cells' && cells'[v].next == 0 && s[|s| - 1] in cells' && cells'[s[|s| - 1]].next == v
    requires forall x | x in s && x != s[|s| - 1] && x in cells :: x in cells' && cells'[x].next == cells[x].next
    ensures Chain(cells', head, s + [v])
  {
    var t := s + [v];
    forall i | 0 <= i < |t|
      ensures t[i] != 0 && t[i] in cells' && cells'[t[i]].next == Behind(t, i)
    {
      if i < |s| - 1 {
        assert t[i] == s[i] && s[i] in s && s[i] != s[|s| - 1] && cells[s[i]].next == Behind(s, i);
      } else if i == |s| - 1 {
        assert t[i] == s[i];
      }
    }
  }

  // ----- batches

  function Flat(batches: seq<seq<nat>>): (s: seq<nat>) {
    if batches == [] then [] else batches[0] + Flat(batches[1..])
  }

  lemma {:induction false} FlatConcat(bs: seq<seq<nat>>, cs: seq<seq<nat>>)
    ensures Flat(bs + cs) == Flat(bs) + Flat(cs)
  {
    if bs == [] {
      assert bs + cs == cs;
    } else {
      assert (bs + cs)[0] == bs[0] && (bs + cs)[1..] == bs[1..] + cs;
      FlatConcat(bs[1..], cs);
    }
  }

  lemma FlatOne(b: seq<nat>)
    ensures Flat([b]) == b
  {
    assert [b][1..] == [];
  }

  /** The first block of a batch knows its last block and its length. */
  ghost predicate Batch(cells: Cells, b: seq<nat>) {
    b != [] && b[0] in cells && cells[b[0]].nextN == b[|b| - 1] && cells[b[0]].count == |b|
  }

  ghost predicate AllBatches(cells: Cells, batches: seq<seq<nat>>) {
    forall i | 0 <= i < |batches| :: Batch(cells, batches[i])
  }

  /** The shared list: whole batches, and behind them one that was begun and not finished. */
  ghost function Queue(batches: seq<seq<nat>>, rest: seq<nat>): (s: seq<nat>) {
    Flat(batches) + rest
  }

  /** A batch that was begun and not finished: its first block does not know its last. */
  ghost predicate Unfinished(cells: Cells, rest: seq<nat>, steps: nat) {
    |rest| < steps && (rest != [] ==> rest[0] in cells && cells[rest[0]].nextN == 0 && cells[rest[0]].count == 0)
  }

  ghost predicate SameMarks(cells: Cells, cells': Cells, s: seq<nat>) {
    forall x | x in s && x in cells :: x in cells' && cells'[x].nextN == cells[x].nextN && cells'[x].count == cells[x].count
  }

  lemma {:induction false} BatchInFlat(batches: seq<seq<nat>>, i: nat, x: nat)
    requires i < |batches| && x in batches[i]
    ensures x in Flat(batches)
  {
    if i > 0 {
      assert batches[1..][i - 1] == batches[i];
      BatchInFlat(batches[1..], i - 1, x);
    }
  }

  lemma BatchesFrame(cells: Cells, cells': Cells, batches: seq<seq<nat>>)
    requires AllBatches(cells, batches) && SameMarks(cells, cells', Flat(batches))
    ensures AllBatches(cells', batches)
  {
    forall i | 0 <= i < |batches|
      ensures Batch(cells', batches[i])
    {
      assert Batch(cells, batches[i]);
      BatchInFlat(batches, i, batches[i][0]);
    }
  }

  /** Batches, finished or not, stay when the marks of their blocks do. */
  lemma QueueFrame(cells: Cells, cells': Cells, batches: seq<seq<nat>>, rest: seq<nat>, steps: nat)
    requires AllBatches(cells, batches) && Unfinished(cells, rest, steps) && SameMarks(cells, cells', Queue(batches, rest))
    ensures AllBatches(cells', batches) && Unfinished(cells', rest, steps)
  {
    assert forall x | x in Flat(batches) || x in rest :: x in Queue(batches, rest);
    BatchesFrame(cells, cells', batches);
    if rest != [] { assert rest[0] in rest; }
  }

  /** The block n steps behind the first one. */
  method Walk(cells: Cells, head: nat, n: nat, ghost s: seq<nat>) returns (p: nat)
    requires Chain(cells, head, s) && n < |s|
    ensures p == s[n]
  {
    p := head;
    for i := 0 to n
      invariant p == s[i]
    {
      assert cells[s[i]].next == Behind(s, i);
      p := cells[p].next;
    }
  }
}
