/**
 How free blocks and handed-out blocks share the managed range.
 */
module MemPartition {
  import opened MemBlocks
  import opened MemMerge
  import opened MemTake

  /** Start address to length of the blocks handed out. */
  type Held = map<nat, nat>

  ghost predicate HeldAt(m: Held, x: nat) {
    exists a | a in m :: Contains(Block(a, m[a]), x)
  }

  /** Free blocks and held blocks lie inside lo..hi, and no two of them share an address. */
  ghost predicate Spread(bs: seq<Block>, m: Held, lo: nat, hi: nat) {
    && (forall x: nat :: Covered(bs, x) || HeldAt(m, x) ==> lo <= x < hi)
    && (forall x: nat :: !(Covered(bs, x) && HeldAt(m, x)))
    && (forall a, b | a in m && b in m && a != b :: Apart(Block(a, m[a]), Block(b, m[b])))
    && (forall a | a in m :: m[a] > 0)
  }

  /** And every address of lo..hi is in one of them. */
  ghost predicate Parted(bs: seq<Block>, m: Held, lo: nat, hi: nat) {
    Spread(bs, m, lo, hi) && forall x: nat | lo <= x < hi :: Covered(bs, x) || HeldAt(m, x)
  }

  /** Sum of the lengths of the blocks held below n. */
  function HeldTotal(m: Held, n: nat): (r: nat) {
    if n == 0 then 0 else HeldTotal(m, n - 1) + (if n - 1 in m then m[n - 1] else 0)
  }

  lemma {:induction false} HeldTotalAdd(m: Held, a: nat, len: nat, n: nat)
    requires a !in m
    ensures HeldTotal(m[a := len], n) == HeldTotal(m, n) + if a < n then len else 0
  {
    if n > 0 { HeldTotalAdd(m, a, len, n - 1); }
  }

  lemma HeldTotalDrop(m: Held, a: nat, n: nat)
    requires a in m
    ensures HeldTotal(m - {a}, n) == HeldTotal(m, n) - if a < n then m[a] else 0
  {
    assert m == (m - {a})[a := m[a]];
    HeldTotalAdd(m - {a}, a, m[a], n);
  }

  lemma {:induction false} NothingHeld(n: nat)
    ensures HeldTotal(map[], n) == 0
  {
    if n > 0 { NothingHeld(n - 1); }
  }

  lemma HeldAdd(m: Held, a: nat, len: nat, x: nat)
    requires a !in m
    ensures HeldAt(m[a := len], x) <==> HeldAt(m, x) || Contains(Block(a, len), x)
  {
    var m' := m[a := len];
    if HeldAt(m, x) {
      var b :| b in m && Contains(Block(b, m[b]), x);
      assert b in m' && m'[b] == m[b];
    }
    if Contains(Block(a, len), x) { assert a in m' && m'[a] == len; }
  }

  lemma HeldDrop(m: Held, a: nat, x: nat)
    requires a in m && forall b | b in m && b != a :: Apart(Block(a, m[a]), Block(b, m[b]))
    ensures HeldAt(m - {a}, x) <==> HeldAt(m, x) && !Contains(Block(a, m[a]), x)
  {
    var m' := m - {a};
    if HeldAt(m, x) && !Contains(Block(a, m[a]), x) {
      var b :| b in m && Contains(Block(b, m[b]), x);
      assert b in m' && m'[b] == m[b];
    }
  }

  lemma HeldHere(m: Held, a: nat, x: nat)
    requires a in m && Contains(Block(a, m[a]), x)
    ensures HeldAt(m, x)
  {
  }

  lemma CoveredHere(bs: seq<Block>, k: nat, x: nat)
    requires k < |bs| && Contains(bs[k], x)
    ensures Covered(bs, x)
  {
  }

  /** Handing out the front of a free block keeps the blocks apart; what is left behind it may be lost. */
  lemma SpreadTaken(bs: seq<Block>, m: Held, lo: nat, hi: nat, k: nat, n: nat, whole: bool)
    requires Gapped(bs) && Spread(bs, m, lo, hi) && k < |bs| && 0 < n <= bs[k].len
    ensures bs[k].start !in m && lo <= bs[k].start && bs[k].start + n <= hi
    ensures Spread(Taken(bs, k, n, whole), m[bs[k].start := n], lo, hi)
  {
    var s, bs' := bs[k].start, Taken(bs, k, n, whole);
    CoveredHere(bs, k, s);
    CoveredHere(bs, k, s + n - 1);
    if s in m { HeldHere(m, s, s); }
    var m' := m[s := n];
    forall x: nat
      ensures Covered(bs', x) || HeldAt(m', x) ==> lo <= x < hi
      ensures !(Covered(bs', x) && HeldAt(m', x))
    {
      TakenCovers(bs, k, n, whole, x);
      HeldAdd(m, s, n, x);
      if Contains(Block(s, n), x) { CoveredHere(bs, k, x); }
    }
    forall a | a in m
      ensures Apart(Block(a, m[a]), Block(s, n)) && Apart(Block(s, n), Block(a, m[a]))
    {
      var x := if a < s then s else a;
      if Contains(Block(a, m[a]), x) && Contains(Block(s, n), x) {
        HeldHere(m, a, x);
        CoveredHere(bs, k, x);
      }
    }
  }

  /** Handing out the front of a free block, or exactly all of it, keeps the partition. */
  lemma PartedTaken(bs: seq<Block>, m: Held, lo: nat, hi: nat, k: nat, n: nat, whole: bool)
    requires Gapped(bs) && Parted(bs, m, lo, hi) && k < |bs| && 0 < n <= bs[k].len && (whole ==> bs[k].len == n)
    ensures bs[k].start !in m && lo <= bs[k].start && bs[k].start + n <= hi
    ensures Parted(Taken(bs, k, n, whole), m[bs[k].start := n], lo, hi)
  {
    hide Spread;
    SpreadTaken(bs, m, lo, hi, k, n, whole);
    var bs', m' := Taken(bs, k, n, whole), m[bs[k].start := n];
    forall x: nat | lo <= x < hi
      ensures Covered(bs', x) || HeldAt(m', x)
    {
      TakenCovers(bs, k, n, whole, x);
      HeldAdd(m, bs[k].start, n, x);
    }
  }

  /** A held block overlaps no free block. */
  lemma HeldApart(bs: seq<Block>, m: Held, lo: nat, hi: nat, a: nat)
    requires Gapped(bs) && Spread(bs, m, lo, hi) && a in m
    ensures AllApart(bs, Block(a, m[a])) && lo <= a && a + m[a] <= hi
  {
    HeldHere(m, a, a);
    HeldHere(m, a, a + m[a] - 1);
    forall i | 0 <= i < |bs|
      ensures Apart(bs[i], Block(a, m[a]))
    {
      var x := if a < bs[i].start then bs[i].start else a;
      if Contains(Block(a, m[a]), x) && Contains(bs[i], x) {
        HeldHere(m, a, x);
        CoveredHere(bs, i, x);
      }
    }
  }

  /** Taking a block back keeps the blocks apart. */
  lemma SpreadJoined(before: seq<Block>, after: seq<Block>, m: Held, lo: nat, hi: nat, a: nat)
    requires Gapped(before + after) && Spread(before + after, m, lo, hi) && a in m && Fits(before, Block(a, m[a]), after)
    ensures Spread(Joined(before, Block(a, m[a]), after), m - {a}, lo, hi)
  {
    var b := Block(a, m[a]);
    forall x: nat
      ensures Covered(Joined(before, b, after), x) || HeldAt(m - {a}, x) ==> lo <= x < hi
      ensures !(Covered(Joined(before, b, after), x) && HeldAt(m - {a}, x))
    {
      JoinedCovers(before, b, after, x);
      HeldDrop(m, a, x);
      if Contains(b, x) { HeldHere(m, a, x); }
    }
  }

  /** Taking a block back keeps the partition. */
  lemma PartedJoined(before: seq<Block>, after: seq<Block>, m: Held, lo: nat, hi: nat, a: nat)
    requires Gapped(before + after) && Parted(before + after, m, lo, hi) && a in m && Fits(before, Block(a, m[a]), after)
    ensures Parted(Joined(before, Block(a, m[a]), after), m - {a}, lo, hi)
  {
    var b := Block(a, m[a]);
    SpreadJoined(before, after, m, lo, hi, a);
    forall x: nat | lo <= x < hi
      ensures Covered(Joined(before, b, after), x) || HeldAt(m - {a}, x)
    {
      JoinedCovers(before, b, after, x);
      HeldDrop(m, a, x);
    }
  }

  /** When nothing is handed out, the free blocks are one block: the whole range. */
  lemma NothingHeldOneBlock(bs: seq<Block>, lo: nat, hi: nat)
    requires Gapped(bs) && Parted(bs, map[], lo, hi) && lo < hi
    ensures bs == [Block(lo, hi - lo)]
  {
    assert forall x: nat :: !HeldAt(map[], x);
    assert Covered(bs, lo);
    CoveredHere(bs, 0, bs[0].start);
    var last := |bs| - 1;
    CoveredHere(bs, last, bs[last].End() - 1);
    FirstCovers(bs, lo);
    var e := bs[0].End();
    LaterStart(bs);
    assert !Covered(bs, e);
    CoveredHere(bs, 0, e - 1);
    assert e == hi;
    assert bs[last].start < bs[last].End() <= hi;
  }

  lemma LaterStart(bs: seq<Block>)
    requires Gapped(bs) && bs != []
    ensures forall j | 0 < j < |bs| :: bs[0].End() < bs[j].start
  {
  }

  /** Nothing free lies before the first block. */
  lemma FirstCovers(bs: seq<Block>, x: nat)
    requires Gapped(bs) && Covered(bs, x) && x <= bs[0].start
    ensures x == bs[0].start
  {
    LaterStart(bs);
  }

  lemma PartedInitially(lo: nat, hi: nat)
    requires lo < hi
    ensures Parted([Block(lo, hi - lo)], map[], lo, hi)
  {
    var bs := [Block(lo, hi - lo)];
    forall x: nat
      ensures Covered(bs, x) <==> lo <= x < hi
    {
      CoveredOne(Block(lo, hi - lo), x);
    }
  }
}
