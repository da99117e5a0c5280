/**
 The bytes of tree and list nodes inside the managed memory: where a call writes them, and why it
 writes over no header and no caller's data.
 */
module MemNodes {
  import opened MemBlocks
  import opened MemAreas
  import opened MemTake
  import opened MemPartition
  import opened MemUnits
  import opened Multiples
  import opened MemHeader
  import opened MemGuard
  import opened MemAccounts

  /** Byte x belongs to a node at one of these addresses. */
  predicate InNode(nodes: set<nat>, x: nat) {
    exists a | a in nodes :: a <= x < a + NODE_SIZE
  }

  /** The memory after all the nodes at these addresses were filled with some bytes. */
  function Scribbled(mem: Bytes, nodes: set<nat>, bytes: nat -> nat): (mem': Bytes)
    ensures Rewritten(mem, mem', nodes)
  {
    map x | x in mem :: ByteAfter(mem, nodes, bytes, x)
  }

  function ByteAfter(mem: Bytes, nodes: set<nat>, bytes: nat -> nat, x: nat): (v: nat)
    requires x in mem
  {
    if InNode(nodes, x) then bytes(x) else mem[x]
  }

  /** Only bytes of these nodes may differ. */
  ghost predicate Rewritten(mem: Bytes, mem': Bytes, nodes: set<nat>) {
    mem'.Keys == mem.Keys && forall x | x in mem && !InNode(nodes, x) :: mem'[x] == mem[x]
  }

  /** A node at a lies in one of the blocks, and not in its last bytes, where a header may be. */
  ghost predicate Houses(bs: seq<Block>, a: nat, header: nat) {
    exists i | 0 <= i < |bs| :: bs[i].start <= a && a + NODE_SIZE + header <= bs[i].End()
  }

  ghost predicate Housed(nodes: set<nat>, bs: seq<Block>, header: nat) {
    forall a | a in nodes :: Houses(bs, a, header)
  }

  /** Every block holds a node and a header. */
  ghost predicate Long(bs: seq<Block>, header: nat) {
    forall i | 0 <= i < |bs| :: bs[i].len >= NODE_SIZE + header
  }

  // ----- where nodes are written

  /** Taking memory writes nodes in areas that were free. */
  lemma TakenHoused(bs: seq<Block>, k: nat, n: nat, whole: bool, header: nat)
    requires Long(bs, header) && k < |bs| && n <= bs[k].len && (!whole ==> bs[k].len - n >= NODE_SIZE + header)
    ensures Housed(Starts(bs) + Starts(Taken(bs, k, n, whole)), bs, header)
  {
    var r := Taken(bs, k, n, whole);
    forall a | a in Starts(bs) + Starts(r)
      ensures Houses(bs, a, header)
    {
      if a in Starts(bs) {
        var i :| 0 <= i < |bs| && bs[i].start == a;
        assert a + NODE_SIZE + header <= bs[i].End();
      } else {
        var i :| 0 <= i < |r| && r[i].start == a;
        var j := if i < k then i else if whole then i + 1 else i;
        assert bs[j].start <= a && a + NODE_SIZE + header <= bs[j].End();
      }
    }
  }

  /** Giving memory back writes nodes in areas that are free afterwards. */
  lemma JoinedHoused(before: seq<Block>, b: Block, after: seq<Block>, header: nat)
    requires Gapped(before + after) && Long(before + after, header) && b.len >= NODE_SIZE + header && Fits(before, b, after)
    ensures Housed(Starts(before + after) + Starts(Joined(before, b, after)) + {b.start}, Joined(before, b, after), header)
  {
    var r := Joined(before, b, after);
    forall a | a in Starts(before + after) + Starts(r) + {b.start}
      ensures Houses(r, a, header)
    {
      JoinedHouses(before, b, after, a, header);
    }
  }

  lemma HousedIn(bs: seq<Block>, i: nat, a: nat, header: nat)
    requires i < |bs| && bs[i].start <= a && a + NODE_SIZE + header <= bs[i].End()
    ensures Houses(bs, a, header)
  {
  }

  /** Each old area lies in one of the areas after the join. */
  lemma JoinedInto(before: seq<Block>, b: Block, after: seq<Block>, i: nat) returns (j: nat)
    requires Gapped(before + after) && b.len > 0 && Fits(before, b, after) && i < |before + after|
    ensures j < |Joined(before, b, after)|
    ensures var c, d := (before + after)[i], Joined(before, b, after)[j]; d.start <= c.start && c.End() <= d.End()
  {
    hide Joined, Gapped;
    var left, m, right := JoinedParts(before, b, after);
    var r, bs := left + [m] + right, before + after;
    if i < |left| {
      j := i;
      assert r[j] == left[i] == before[i] == bs[i];
    } else if i < |before| {
      j := |left|;
      assert r[j] == m && bs[i] == before[|left|];
    } else if i < |bs| - |right| {
      j := |left|;
      assert r[j] == m && bs[i] == after[0];
    } else {
      j := |left| + 1 + (i - (|bs| - |right|));
      assert r[j] == right[i - (|bs| - |right|)] == after[i - |before|] == bs[i];
    }
  }

  lemma JoinedHouses(before: seq<Block>, b: Block, after: seq<Block>, a: nat, header: nat)
    requires Gapped(before + after) && Long(before + after, header) && b.len >= NODE_SIZE + header && Fits(before, b, after)
    requires a in Starts(before + after) + Starts(Joined(before, b, after)) + {b.start}
    ensures Houses(Joined(before, b, after), a, header)
  {
    hide Joined, Gapped, Fits, Houses;
    var bs, r := before + after, Joined(before, b, after);
    if a in Starts(bs) {
      var i :| 0 <= i < |bs| && bs[i].start == a;
      var j := JoinedInto(before, b, after, i);
      assert bs[i].len >= NODE_SIZE + header;
      HousedIn(r, j, a, header);
    } else if a in Starts(r) {
      var i :| 0 <= i < |r| && r[i].start == a;
      JoinedLong(before, b, after, header);
      assert r[i].len >= NODE_SIZE + header;
      HousedIn(r, i, a, header);
    } else {
      var left, m, right := JoinedParts(before, b, after);
      assert r[|left|] == m;
      HousedIn(r, |left|, a, header);
    }
  }

  lemma JoinedLong(before: seq<Block>, b: Block, after: seq<Block>, header: nat)
    requires Gapped(before + after) && Long(before + after, header) && b.len >= NODE_SIZE + header && Fits(before, b, after)
    ensures Long(Joined(before, b, after), header)
  {
    hide Joined, Gapped, Fits;
    var left, m, right := JoinedParts(before, b, after);
    var r, bs := left + [m] + right, before + after;
    forall i | 0 <= i < |r|
      ensures r[i].len >= NODE_SIZE + header
    {
      if i < |left| {
        assert r[i] == bs[i];
      } else if i > |left| {
        assert r[i] == right[i - |left| - 1] == after[|after| - |right| + (i - |left| - 1)] == bs[|bs| - |right| + (i - |left| - 1)];
      }
    }
  }

  // ----- what they leave alone

  /** Node bytes are in free blocks, and not where a header may be. */
  lemma NodeByte(nodes: set<nat>, bs: seq<Block>, header: nat, x: nat)
    requires Housed(nodes, bs, header) && InNode(nodes, x)
    ensures (exists i | 0 <= i < |bs| :: bs[i].start <= x < bs[i].End() - header) && Covered(bs, x)
  {
    var a :| a in nodes && a <= x < a + NODE_SIZE;
    assert Houses(bs, a, header);
    var i :| 0 <= i < |bs| && bs[i].start <= a && a + NODE_SIZE + header <= bs[i].End();
    assert bs[i].start <= x < bs[i].End() - header;
    CoveredHere(bs, i, x);
  }

  /** Every caller's data stays. */
  lemma DataStays(mem: Bytes, mem': Bytes, bs: seq<Block>, held: Held, sizes: Held, lo: nat, hi: nat, nodes: set<nat>, header: nat)
    requires Spread(bs, held, lo, hi) && Housed(nodes, bs, header) && Rewritten(mem, mem', nodes)
    requires forall a | a in held && a in sizes :: sizes[a] <= held[a]
    ensures DataKept(mem, mem', held, sizes)
  {
    forall a, x | a in held && a in sizes && a <= x < a + sizes[a] && x in mem
      ensures x in mem' && mem'[x] == mem[x]
    {
      HeldHere(held, a, x);
      if InNode(nodes, x) { NodeByte(nodes, bs, header, x); }
    }
  }

  /** Every header stays. */
  lemma HeadersStay(mem: Bytes, mem': Bytes, bs: seq<Block>, held: Held, asked: Asked, lo: nat, hi: nat, unit: nat, nodes: set<nat>)
    requires Guarded(mem, bs, held, asked, lo, hi, unit) && Housed(nodes, bs, META) && Rewritten(mem, mem', nodes)
    ensures Guarded(mem', bs, held, asked, lo, hi, unit)
  {
    hide MayWrite, Reserve, HeaderBytes, Spread, Gapped, Housed, InNode;
    forall s | s in held && s != lo
      ensures Intact(mem', s, asked[s], unit)
    {
      forall x | s - META <= x < s
        ensures x in mem' && mem'[x] == mem[x]
      {
        HeaderClear(mem, bs, held, asked, lo, hi, unit, s, x);
        if InNode(nodes, x) { NodeMayBeWritten(nodes, bs, held, asked, x); }
      }
      assert Load(mem', s - META, META) == Load(mem, s - META, META);
    }
  }

  lemma NodeMayBeWritten(nodes: set<nat>, bs: seq<Block>, held: Held, asked: Asked, x: nat)
    requires Housed(nodes, bs, META) && InNode(nodes, x)
    ensures MayWrite(bs, held, asked, x)
  {
    NodeByte(nodes, bs, META, x);
  }

  /** The header in front of s. */
  predicate InHeader(s: nat, x: nat) {
    s - META <= x < s
  }

  /** Handing out block k: no node it writes reaches a header that is live before or after, the new one included. */
  lemma TakenMissesHeaders(mem: Bytes, bs: seq<Block>, held: Held, asked: Asked, lo: nat, hi: nat, unit: nat,
                           k: nat, n: nat, whole: bool, s: nat, x: nat)
    requires Guarded(mem, bs, held, asked, lo, hi, unit) && k < |bs| && n <= bs[k].len && (!whole ==> bs[k].len - n >= SMALLEST)
    requires (s in held || s == bs[k].start) && s != lo && InHeader(s, x)
    ensures !InNode(Starts(bs) + Starts(Taken(bs, k, n, whole)), x)
  {
    hide Intact, Reserve, Mapped, Spread, Roomy, Taken, Starts, InNode, Housed, MayWrite;
    var nodes := Starts(bs) + Starts(Taken(bs, k, n, whole));
    TakenHoused(bs, k, n, whole, META);
    if s in held {
      HeaderClear(mem, bs, held, asked, lo, hi, unit, s, x);
      if InNode(nodes, x) { NodeMayBeWritten(nodes, bs, held, asked, x); }
    } else {
      NotBefore(bs, k, x);
      if InNode(nodes, x) { NodeByte(nodes, bs, META, x); }
    }
  }

  lemma NotBefore(bs: seq<Block>, k: nat, x: nat)
    requires Gapped(bs) && k < |bs| && InHeader(bs[k].start, x)
    ensures !exists i | 0 <= i < |bs| :: bs[i].start <= x < bs[i].End() - META
  {
    forall i | 0 <= i < |bs|
      ensures !(bs[i].start <= x < bs[i].End() - META)
    {
      if i < k { assert bs[i].End() < bs[k].start; }
      if k < i { assert bs[k].End() < bs[i].start; }
    }
  }

  /** Taking block a back: no node it writes reaches a header that is live before or after, its own included. */
  lemma JoinedMissesHeaders(mem: Bytes, bs: seq<Block>, held: Held, asked: Asked, lo: nat, hi: nat, unit: nat, a: nat, k: nat, s: nat, x: nat)
    requires Guarded(mem, bs, held, asked, lo, hi, unit) && a in held && k <= |bs| && Fits(bs[..k], Block(a, held[a]), bs[k..])
    requires s in held && s != lo && InHeader(s, x)
    ensures !InNode(Starts(bs) + Starts(Joined(bs[..k], Block(a, held[a]), bs[k..])) + {a}, x)
  {
    hide Intact, Reserve, Mapped, Spread, Joined, Fits, Gapped, Starts, InNode, Housed, MayWrite, Roomy;
    var b := Block(a, held[a]);
    var bs' := Joined(bs[..k], b, bs[k..]);
    var nodes := Starts(bs) + Starts(bs') + {a};
    assert bs[..k] + bs[k..] == bs;
    RoomyLong(held[a], asked[a], hi - lo, unit);
    if s != a {
      GuardedJoined(mem, bs[..k], bs[k..], held, asked, lo, hi, unit, a);
      JoinedHoused(bs[..k], b, bs[k..], META);
      HeaderClear(mem, bs', held - {a}, asked - {a}, lo, hi, unit, s, x);
      if InNode(nodes, x) { NodeMayBeWritten(nodes, bs', held - {a}, asked - {a}, x); }
    } else {
      HeaderClear(mem, bs, held, asked, lo, hi, unit, a, x);
      JoinedStarts(bs[..k], b, bs[k..]);
      StartsHoused(bs);
      if InNode(nodes, x) {
        OldOrSelf(nodes, bs, a, x);
        NodeMayBeWritten(Starts(bs), bs, held, asked, x);
      }
    }
  }

  lemma OldOrSelf(nodes: set<nat>, bs: seq<Block>, a: nat, x: nat)
    requires nodes <= Starts(bs) + {a} && InNode(nodes, x) && x < a
    ensures InNode(Starts(bs), x)
  {
  }

  lemma StartsHoused(bs: seq<Block>)
    requires Long(bs, META)
    ensures Housed(Starts(bs), bs, META)
  {
    forall a | a in Starts(bs)
      ensures Houses(bs, a, META)
    {
      var i :| 0 <= i < |bs| && bs[i].start == a;
      assert bs[i].start <= a && a + NODE_SIZE + META <= bs[i].End();
    }
  }

  /** The areas after a join start where one did before, or at the block. */
  lemma JoinedStarts(before: seq<Block>, b: Block, after: seq<Block>)
    requires Gapped(before + after) && b.len > 0 && Fits(before, b, after)
    ensures Starts(Joined(before, b, after)) <= Starts(before + after) + {b.start}
  {
    hide Joined, Gapped, Fits;
    var left, m, right := JoinedParts(before, b, after);
    var r, bs := left + [m] + right, before + after;
    forall i | 0 <= i < |r|
      ensures r[i].start in Starts(bs) + {b.start}
    {
      if i < |left| {
        assert r[i] == bs[i];
      } else if i == |left| {
        if |left| < |before| { assert r[i].start == bs[|left|].start; }
      } else {
        assert r[i] == right[i - |left| - 1] == after[|after| - |right| + (i - |left| - 1)] == bs[|bs| - |right| + (i - |left| - 1)];
      }
    }
  }

  // ----- with the books

  /** Handing out a block: node writes first, then the header; no other header and no caller's byte changes. */
  lemma UnalignedTakenOver(mem: Bytes, mem1: Bytes, bs: seq<Block>, held: Held, asked: Asked, first: nat, firstReq: nat,
                           freeSize: nat, lo: nat, hi: nat, unit: nat, k: nat, n: nat, size: nat)
    requires UnalignedOk(mem, bs, held, asked, first, firstReq, freeSize, lo, hi, unit)
    requires k < |bs| && n <= bs[k].len && Suits(n, size, hi - lo, unit)
    requires Rewritten(mem, mem1, Starts(bs) + Starts(Taken(bs, k, n, Whole(bs[k].len, n, unit, true))))
    ensures UnalignedOk(mem1, bs, held, asked, first, firstReq, freeSize, lo, hi, unit) && DataKept(mem, mem1, held, asked)
  {
    hide Spread, Gapped, Intact, Reserve, Mapped, Rewritten, Housed, Starts, Taken, Suits, Total;
    var whole := Whole(bs[k].len, n, unit, true);
    LeftOver(mem, bs, held, asked, lo, hi, unit, k, n);
    TakenHoused(bs, k, n, whole, META);
    var nodes := Starts(bs) + Starts(Taken(bs, k, n, whole));
    HeadersStay(mem, mem1, bs, held, asked, lo, hi, unit, nodes);
    AskedFits(held, asked, lo, hi, unit);
    DataStays(mem, mem1, bs, held, asked, lo, hi, nodes, META);
  }

  lemma HeaderOutside(mem: Bytes, mem': Bytes, bs: seq<Block>, held: Held, asked: Asked, first: nat, firstReq: nat,
                      freeSize: nat, lo: nat, hi: nat, unit: nat, s: nat, n: nat, size: nat)
    requires UnalignedOk(mem', bs, held[s := n], asked[s := size], first, firstReq, freeSize, lo, hi, unit)
    requires s !in held && unit > 0 && mem' == Marked(mem, s, lo, size, unit)
    ensures DataKept(mem, mem', held, asked)
  {
    hide Guarded, DataKept, Marked;
    MarkedKeepsData(mem, mem', bs, held[s := n], asked[s := size], lo, hi, unit, s, size);
    DataKeptFewer(mem, mem', held, asked, held[s := n], asked[s := size]);
  }

  lemma KeptThrough(mem: Bytes, mem1: Bytes, mem2: Bytes, held: Held, asked: Asked)
    requires DataKept(mem, mem1, held, asked) && DataKept(mem1, mem2, held, asked)
    ensures DataKept(mem, mem2, held, asked)
  {
  }

  /** All of handing out a block, in the order of the code. */
  lemma UnalignedHanded(mem: Bytes, mem1: Bytes, bs: seq<Block>, held: Held, asked: Asked, first: nat, firstReq: nat,
                        freeSize: nat, lo: nat, hi: nat, unit: nat, k: nat, n: nat, size: nat)
    requires UnalignedOk(mem, bs, held, asked, first, firstReq, freeSize, lo, hi, unit)
    requires k < |bs| && n <= bs[k].len && Suits(n, size, hi - lo, unit)
    requires Rewritten(mem, mem1, Starts(bs) + Starts(Taken(bs, k, n, Whole(bs[k].len, n, unit, true))))
    ensures var s, whole := bs[k].start, Whole(bs[k].len, n, unit, true);
            && n <= freeSize && s !in held && lo <= s && s + n <= hi && (s != lo ==> s >= META)
            && UnalignedOk(Marked(mem1, s, lo, size, unit), Taken(bs, k, n, whole), held[s := n], asked[s := size],
                           if s == lo then n else first, if s == lo then size else firstReq, freeSize - n, lo, hi, unit)
            && DataKept(mem, Marked(mem1, s, lo, size, unit), held, asked)
  {
    UnitPositive(mem, bs, held, asked, first, firstReq, freeSize, lo, hi, unit);
    hide UnalignedOk, Marked, Taken, Suits, Rewritten, Starts, DataKept;
    var s, mem2 := bs[k].start, Marked(mem1, bs[k].start, lo, size, unit);
    UnalignedTakenOver(mem, mem1, bs, held, asked, first, firstReq, freeSize, lo, hi, unit, k, n, size);
    UnalignedTaken(mem1, bs, held, asked, first, firstReq, freeSize, lo, hi, unit, k, n, size);
    HeaderOutside(mem1, mem2, Taken(bs, k, n, Whole(bs[k].len, n, unit, true)), held, asked,
                  if s == lo then n else first, if s == lo then size else firstReq, freeSize - n, lo, hi, unit, s, n, size);
    KeptThrough(mem, mem1, mem2, held, asked);
  }

  lemma UnitPositive(mem: Bytes, bs: seq<Block>, held: Held, asked: Asked, first: nat, firstReq: nat,
                     freeSize: nat, lo: nat, hi: nat, unit: nat)
    requires UnalignedOk(mem, bs, held, asked, first, firstReq, freeSize, lo, hi, unit)
    ensures unit > 0
  {
  }

  lemma AskedFits(held: Held, asked: Asked, lo: nat, hi: nat, unit: nat)
    requires lo <= hi && held.Keys == asked.Keys && forall a | a in held :: Roomy(held[a], asked[a], hi - lo, unit)
    ensures forall a | a in held && a in asked :: asked[a] <= held[a]
  {
  }

  /** Taking a block back: the node writes reach no header and no other caller's byte. */
  lemma UnalignedJoinedOver(mem: Bytes, mem1: Bytes, bs: seq<Block>, held: Held, asked: Asked, first: nat, firstReq: nat,
                            freeSize: nat, lo: nat, hi: nat, unit: nat, a: nat, k: nat)
    requires UnalignedOk(mem, bs, held, asked, first, firstReq, freeSize, lo, hi, unit) && a in held && k <= |bs|
    requires Fits(bs[..k], Block(a, held[a]), bs[k..])
    requires Rewritten(mem, mem1, Starts(bs) + Starts(Joined(bs[..k], Block(a, held[a]), bs[k..])) + {a})
    ensures UnalignedOk(mem1, Joined(bs[..k], Block(a, held[a]), bs[k..]), held - {a}, asked - {a},
                        if a == lo then 0 else first, if a == lo then 0 else firstReq, freeSize + held[a], lo, hi, unit)
    ensures DataKept(mem, mem1, held - {a}, asked - {a})
  {
    hide Spread, Gapped, Intact, Reserve, Mapped, Rewritten, Housed, Starts, Joined, Fits, Total, Roomy;
    var b := Block(a, held[a]);
    assert bs[..k] + bs[k..] == bs;
    UnalignedReturns(mem, bs, held, asked, first, firstReq, freeSize, lo, hi, unit, a);
    UnalignedJoined(mem, bs, held, asked, first, firstReq, freeSize, lo, hi, unit, a, k);
    JoinedHoused(bs[..k], b, bs[k..], META);
    var bs', nodes := Joined(bs[..k], b, bs[k..]), Starts(bs) + Starts(Joined(bs[..k], b, bs[k..])) + {a};
    HeadersStay(mem, mem1, bs', held - {a}, asked - {a}, lo, hi, unit, nodes);
    AskedFits(held - {a}, asked - {a}, lo, hi, unit);
    DataStays(mem, mem1, bs', held - {a}, asked - {a}, lo, hi, nodes, META);
  }

  lemma GridAllLong(bs: seq<Block>, lo: nat, hi: nat, unit: nat)
    requires unit >= NODE_SIZE && lo <= hi && Gapped(bs) && Gridded(bs, lo, hi, unit) && RestFits(hi - lo, unit)
    ensures Long(bs, 0)
  {
    forall i | 0 <= i < |bs|
      ensures bs[i].len >= NODE_SIZE
    {
      GridLong(bs[i], lo, hi, unit);
    }
  }

  /** With aligned addresses too, taking a block writes over no caller's byte. */
  lemma AlignedTakenOver(mem: Bytes, mem1: Bytes, bs: seq<Block>, held: Held, freeSize: nat, lo: nat, hi: nat, unit: nat, k: nat, n: nat)
    requires AlignedOk(bs, held, freeSize, lo, hi, unit) && k < |bs| && n <= bs[k].len && Multiple(n, unit)
    requires Rewritten(mem, mem1, Starts(bs) + Starts(Taken(bs, k, n, bs[k].len == n)))
    ensures DataKept(mem, mem1, held, held)
  {
    hide Rewritten, Housed, Starts, Taken, Total, Multiple, Spread, Gapped, Gridded;
    GridAllLong(bs, lo, hi, unit);
    if bs[k].len != n { RestLong(bs, k, n, lo, hi, unit); }
    TakenHoused(bs, k, n, bs[k].len == n, 0);
    DataStays(mem, mem1, bs, held, held, lo, hi, Starts(bs) + Starts(Taken(bs, k, n, bs[k].len == n)), 0);
  }

  lemma RestLong(bs: seq<Block>, k: nat, n: nat, lo: nat, hi: nat, unit: nat)
    requires unit >= NODE_SIZE && lo <= hi && Gridded(bs, lo, hi, unit) && RestFits(hi - lo, unit)
    requires k < |bs| && n < bs[k].len && Multiple(n, unit)
    ensures bs[k].len - n >= NODE_SIZE
  {
    hide Multiple;
    GridTaken(bs, k, n, false, lo, hi, unit);
    GridLong(Block(bs[k].start + n, bs[k].len - n), lo, hi, unit);
  }

  lemma AlignedJoinedOver(mem: Bytes, mem1: Bytes, bs: seq<Block>, held: Held, freeSize: nat, lo: nat, hi: nat, unit: nat, a: nat, k: nat)
    requires AlignedOk(bs, held, freeSize, lo, hi, unit) && a in held && k <= |bs|
    requires Fits(bs[..k], Block(a, held[a]), bs[k..])
    requires Rewritten(mem, mem1, Starts(bs) + Starts(Joined(bs[..k], Block(a, held[a]), bs[k..])) + {a})
    ensures DataKept(mem, mem1, held - {a}, held - {a})
  {
    hide Rewritten, Housed, Starts, Joined, Fits, Total, Multiple, Spread, Gapped, Gridded;
    var b := Block(a, held[a]);
    assert bs[..k] + bs[k..] == bs;
    AlignedJoined(bs, held, freeSize, lo, hi, unit, a, k);
    GridAllLong(bs, lo, hi, unit);
    JoinedHoused(bs[..k], b, bs[k..], 0);
    DataStays(mem, mem1, Joined(bs[..k], b, bs[k..]), held - {a}, held - {a}, lo, hi,
              Starts(bs) + Starts(Joined(bs[..k], b, bs[k..])) + {a}, 0);
  }
}
