/**
 The managed region: the same free areas in an address-ordered red-black tree and in lists by
 size, merged with their neighbours when they come back and split when part of them is taken.
 */
module MemRegion {
  import opened MemBlocks
  import opened MemAreas
  import opened MemMerge
  import opened MemDescent
  import opened MemTake
  import opened RbShape
  import RbMemory
  import opened RbTree
  import opened RbOrder
  import opened FreeLists

  class MemoryRegion {
    const rb: NetRbTree
    const fl: FreeListArray
    var areas: Areas
    var freeCnt: seq<int>
    var totalSize: nat
    var freeSize: nat
    ghost var shape: Tree
    ghost var order: seq<nat>
    ghost var lo: nat
    ghost var hi: nat

    ghost predicate InLists(ids: set<nat>)
      reads this, fl
    {
      fl.Valid() && Indexed(fl.lists, areas, ids) && Counted(freeCnt, fl.lists)
    }

    /** Tree, lists and records agree on the free areas. */
    ghost predicate Formed()
      reads this, rb, fl
    {
      && Holds(rb.cells, rb.ref, shape, order)
      && InLists(Members(order))
      && Sound(areas, order, lo, hi)
    }

    /** And there are records of free areas only. */
    ghost predicate Valid()
      reads this, rb, fl
    {
      Formed() && areas.Keys == Members(order)
    }

    /** The free areas in address order. */
    ghost function Free(): (bs: seq<Block>)
      reads this
    {
      BlocksOf(areas, order)
    }

    /** Records, tree cells and list links lie at the starts of the free areas and nowhere else. */
    lemma Footprint()
      requires Valid()
      ensures areas.Keys == rb.cells.Keys == Starts(Free())
      ensures forall a | At(a) in fl.next || At(a) in fl.prev :: a in Starts(Free())
    {
      hide Holds, Indexed, Counted, Sound, Separate, Threaded, LinksOnly, BlocksOf, Members;
      NodesAreAreas(rb.cells, rb.ref, shape, order);
      StartsOfAreas(areas, order);
      LinksAreAreas(fl.next, fl.lists, areas, Members(order));
      LinksAreAreas(fl.prev, fl.lists, areas, Members(order));
    }

    constructor (ghost lo: nat, ghost hi: nat)
      requires lo <= hi < lo + SPAN
      ensures Valid() && Free() == [] && freeSize == totalSize == 0
      ensures this.lo == lo && this.hi == hi && fresh(rb) && fresh(fl)
    {
      rb := new NetRbTree();
      fl := new FreeListArray(1024);
      areas, totalSize, freeSize := map[], 0, 0;
      freeCnt := seq(1024, _ => 0);
      shape, order := Leaf, [];
      this.lo, this.hi := lo, hi;
      new;
      assert Bal(Leaf, 0);
    }

    /** More memory belongs to the region. */
    method AddTotal(n: nat)
      requires Valid()
      modifies this`totalSize
      ensures Valid() && totalSize == old(totalSize) + n && Free() == old(Free())
    {
      hide Holds, Indexed, Counted, Sound, Separate, Threaded;
      totalSize := totalSize + n;
    }

    /** Take an area out of its list. */
    method Unlist(a: nat, ghost ids: set<nat>)
      requires InLists(ids) && a in ids
      modifies this`freeCnt, fl
      ensures InLists(ids - {a})
    {
      var i := areas[a].index;
      ghost var j :| 0 <= j < |fl.lists[i]| && fl.lists[i][j] == a;
      IndexedRemove(fl.lists, areas, ids, a, j);
      fl.RemoveSelf(a, i, j);
      freeCnt := freeCnt[i := freeCnt[i] - 1];
    }

    /** Put an area at the end of list i. */
    method Enlist(a: nat, i: nat, ghost ids: set<nat>)
      requires InLists(ids) && a !in ids && a in areas && i < 1024
      modifies this`freeCnt, this`areas, fl
      ensures InLists(ids + {a}) && areas == old(areas)[a := old(areas)[a].(index := i)]
    {
      IndexedAdd(fl.lists, areas, ids, a, i);
      areas := areas[a := areas[a].(index := i)];
      fl.Append(i, a);
      freeCnt := freeCnt[i := freeCnt[i] + 1];
    }

    /**
     An area p that grew over the area m behind it: both leave their lists, p enters the list of
     its new length and m leaves the tree.
     */
    method Absorb(p: nat, m: nat, pFirst: bool, index: nat, ghost before: seq<nat>, ghost after: seq<nat>)
      requires Holds(rb.cells, rb.ref, shape, order) && order == before + [m] + after && InLists(Members(order))
      requires m in Members(order) && Members(order) - {m} == Members(before + after)
      requires p in Members(before + after) && p != m && p in Members(order)
      requires p in areas && index < 1024
      modifies this`areas, this`freeCnt, this`shape, this`order, rb, fl
      ensures order == before + after && Holds(rb.cells, rb.ref, shape, order) && InLists(Members(order))
      ensures areas == old(areas)[p := old(areas)[p].(index := index)]
    {
      hide Holds, Indexed, Counted, Separate, Threaded, Members;
      ghost var ids := Members(order);
      if pFirst {
        Unlist(p, ids);
        Unlist(m, ids - {p});
        assert ids - {p} - {m} == ids - {m} - {p};
      } else {
        Unlist(m, ids);
        Unlist(p, ids - {m});
      }
      Enlist(p, index, ids - {m} - {p});
      assert ids - {m} - {p} + {p} == ids - {m};
      shape := EraseAt(rb, m, shape, before, after);
      order := before + after;
    }

    /**
     A block ends where a free area starts: the block takes that area over, or, when the area
     before ends where the block starts, that area takes both over.
     */
    method MemoryAreaInsertPre(newMa: nat, ma: nat, ghost b: Block, ghost before: seq<nat>, ghost after: seq<nat>,
                               ghost z: Context, ghost t: Tree)
      requires Formed() && order == before + [ma] + after && Returns(areas, before, b, [ma] + after, lo, hi)
      requires RbMemory.Linked(rb.cells, rb.ref, z, t) && t != Leaf && t.id == ma
      requires before == Before(z) + InOrder(t.left)
      requires t.left == Leaf ==> !TouchesLeft(BlocksOf(areas, before), b)
      requires newMa == b.start && b.End() == ma
      requires newMa in areas && areas[newMa] == MemoryArea(b.start, b.End(), b.len, areas[newMa].index)
      modifies this`areas, this`freeCnt, this`shape, this`order, rb, fl
      ensures Formed() && areas.Keys <= old(areas).Keys
      ensures Free() == Joined(BlocksOf(old(areas), before), b, BlocksOf(old(areas), [ma] + after))
    {
      hide Sound, Holds, Indexed, Counted, Joined, BlocksOf, Returns, IndexFits, Separate, Threaded, InOrder, Before, Members,
           InsertIndex, Units, TouchesLeft, RbMemory.Linked;
      BeforeJoinRight(areas, before, b, ma, after, lo, hi);
      LastOf(Before(z), t.left, before);
      ghost var areas0 := areas;
      areas := areas[newMa := areas[newMa].(end := areas[ma].end, length := areas[newMa].length + areas[ma].length)];
      IndexedFrame(fl.lists, areas0, areas, Members(order));
      var neighb := rb.Prev(ma, z, t);
      PrevMeets(areas0, before, t.left, b, ma, after, lo, hi, neighb);
      if neighb != 0 {
        if areas[neighb].end == areas[newMa].start {
          TakeBothPre(newMa, ma, neighb, b, before[..|before| - 1], after, areas0);
          return;
        }
      }
      TakeOver(newMa, ma, b, before, after, areas0);
    }

    /** The block takes over the area behind it. */
    method TakeOver(newMa: nat, ma: nat, ghost b: Block, ghost before: seq<nat>, ghost after: seq<nat>, ghost areas0: Areas)
      requires Holds(rb.cells, rb.ref, shape, order) && InLists(Members(order)) && order == before + [ma] + after
      requires Returns(areas0, before, b, [ma] + after, lo, hi) && newMa == b.start && b.End() == ma
      requires !TouchesLeft(BlocksOf(areas0, before), b) && ma in areas0
      requires newMa in areas && areas == areas0[newMa := MemoryArea(newMa, areas0[ma].end, b.len + areas0[ma].length, areas[newMa].index)]
      modifies this`areas, this`freeCnt, this`shape, this`order, rb, fl
      ensures Formed() && areas.Keys <= old(areas).Keys
      ensures Free() == Joined(BlocksOf(areas0, before), b, BlocksOf(areas0, [ma] + after))
    {
      hide Sound, Holds, Indexed, Counted, Joined, BlocksOf, Returns, IndexFits, Separate, Threaded, Members,
           InsertIndex, Units, TouchesLeft;
      BeforeJoinRight(areas0, before, b, ma, after, lo, hi);
      Unlist(ma, Members(order));
      GrownFits(lo, hi, newMa, areas[newMa].length);
      var index := InsertIndex(areas[newMa].length);
      Enlist(newMa, index, Members(order) - {ma});
      shape := ReplaceAt(rb, ma, newMa, shape, before, after);
      order := before + [newMa] + after;
      MembersAdd(before, newMa, after);
      KeptOutside(areas0, areas, before, {newMa});
      KeptOutside(areas0, areas, after, {newMa});
      MergedRight(areas0, areas, before, b, ma, after, lo, hi);
    }

    /** The area before the block takes over the block and the area behind it. */
    method TakeBothPre(newMa: nat, ma: nat, neighb: nat, ghost b: Block, ghost before: seq<nat>, ghost after: seq<nat>,
                       ghost areas0: Areas)
      requires Holds(rb.cells, rb.ref, shape, order) && InLists(Members(order)) && order == before + [neighb] + [ma] + after
      requires Returns(areas0, before + [neighb], b, [ma] + after, lo, hi) && newMa == b.start && b.End() == ma
      requires neighb in areas0 && areas0[neighb].end == b.start && ma in areas0
      requires newMa in areas && areas == areas0[newMa := MemoryArea(newMa, areas0[ma].end, b.len + areas0[ma].length, areas[newMa].index)]
      modifies this`areas, this`freeCnt, this`shape, this`order, rb, fl
      ensures Formed() && areas.Keys <= old(areas).Keys
      ensures Free() == Joined(BlocksOf(areas0, before + [neighb]), b, BlocksOf(areas0, [ma] + after))
    {
      hide Sound, Holds, Indexed, Counted, Joined, BlocksOf, Returns, IndexFits, Separate, Threaded, Members,
           InsertIndex, Units, TouchesLeft;
      BeforeJoinRight(areas0, before + [neighb], b, ma, after, lo, hi);
      LeftNeighbour(areas0, before, neighb, b, ma, after, lo, hi);
      ghost var areas1 := areas;
      areas := areas[neighb := areas[neighb].(end := areas[newMa].end, length := areas[neighb].length + areas[newMa].length)];
      IndexedFrame(fl.lists, areas1, areas, Members(order));
      GrownFits(lo, hi, neighb, areas[neighb].length);
      var index := InsertIndex(areas[neighb].length);
      Absorb(neighb, ma, false, index, before + [neighb], after);
      KeptOutside(areas0, areas, before, {newMa, neighb});
      KeptOutside(areas0, areas, after, {newMa, neighb});
      MergedBoth(areas0, areas, before, neighb, b, ma, after, lo, hi);
    }

    /**
     A block starts where a free area ends: that area takes the block over, and the area behind
     the block too when the block ends where that one starts.
     */
    method MemoryAreaInsertNext(newMa: nat, ma: nat, ghost b: Block, ghost before: seq<nat>, ghost after: seq<nat>,
                                ghost z: Context, ghost t: Tree)
      requires Formed() && order == before + [ma] + after && Returns(areas, before + [ma], b, after, lo, hi)
      requires RbMemory.Linked(rb.cells, rb.ref, z, t) && t != Leaf && t.id == ma && after == InOrder(t.right) + After(z)
      requires newMa == b.start && ma in areas && areas[ma].end == b.start
      requires newMa in areas && areas[newMa] == MemoryArea(b.start, b.End(), b.len, areas[newMa].index)
      modifies this`areas, this`freeCnt, this`shape, this`order, rb, fl
      ensures Formed() && areas.Keys <= old(areas).Keys
      ensures Free() == Joined(BlocksOf(old(areas), before + [ma]), b, BlocksOf(old(areas), after))
    {
      hide Sound, Holds, Indexed, Counted, Joined, BlocksOf, Returns, IndexFits, Separate, Threaded, InOrder, After, Members,
           StartIndex, InsertIndex, Units, TouchesRight, RbMemory.Linked;
      BeforeJoinLeft(areas, before, ma, b, after, lo, hi);
      ghost var areas0 := areas;
      areas := areas[ma := areas[ma].(end := areas[newMa].end, length := areas[ma].length + areas[newMa].length)];
      IndexedFrame(fl.lists, areas0, areas, Members(order));
      var neighb := rb.Next(ma, z, t);
      NextMeets(areas0, before, ma, b, after, lo, hi, neighb);
      if neighb != 0 {
        if areas[neighb].start == areas[ma].end {
          TakeBothNext(ma, neighb, b, before, after[1..], areas0);
          return;
        }
      }
      Unlist(ma, Members(order));
      GrownFits(lo, hi, ma, areas[ma].length);
      var index := StartIndex(areas[ma].length);
      Enlist(ma, index, Members(order) - {ma});
      assert Members(order) - {ma} + {ma} == Members(order);
      KeptOutside(areas0, areas, before, {ma});
      KeptOutside(areas0, areas, after, {ma});
      MergedLeft(areas0, areas, before, ma, b, after, lo, hi);
    }

    /** The area before the block, grown over the block, takes over the area behind it. */
    method TakeBothNext(ma: nat, neighb: nat, ghost b: Block, ghost before: seq<nat>, ghost after: seq<nat>, ghost areas0: Areas)
      requires Holds(rb.cells, rb.ref, shape, order) && InLists(Members(order)) && order == before + [ma] + [neighb] + after
      requires Returns(areas0, before + [ma], b, [neighb] + after, lo, hi) && b.End() == neighb
      requires ma in areas0 && areas0[ma].end == b.start && neighb in areas0
      requires ma in areas && areas == areas0[ma := MemoryArea(ma, b.End(), areas0[ma].length + b.len, areas[ma].index)]
      modifies this`areas, this`freeCnt, this`shape, this`order, rb, fl
      ensures Formed() && areas.Keys <= old(areas).Keys
      ensures Free() == Joined(BlocksOf(areas0, before + [ma]), b, BlocksOf(areas0, [neighb] + after))
    {
      hide Sound, Holds, Indexed, Counted, Joined, BlocksOf, Returns, IndexFits, Separate, Threaded, Members,
           StartIndex, InsertIndex, Units, TouchesRight;
      BeforeJoinLeft(areas0, before, ma, b, [neighb] + after, lo, hi);
      RightNeighbour(areas0, before, ma, b, neighb, after, lo, hi);
      ghost var areas1 := areas;
      areas := areas[ma := areas[ma].(end := areas[neighb].end, length := areas[ma].length + areas[neighb].length)];
      IndexedFrame(fl.lists, areas1, areas, Members(order));
      GrownFits(lo, hi, ma, areas[ma].length);
      var index := StartIndex(areas[ma].length);
      assert before + [ma] + ([neighb] + after) == order;
      Absorb(ma, neighb, true, index, before + [ma], after);
      KeptOutside(areas0, areas, before, {ma});
      KeptOutside(areas0, areas, after, {ma});
      MergedBoth(areas0, areas, before, ma, b, neighb, after, lo, hi);
    }

    /** A block that touches no free area becomes one itself. */
    method InsertAlone(start: nat, parent: nat, asLeft: bool, ghost b: Block, ghost z: Context)
      requires InLists(Members(order)) && order == Before(z) + After(z)
      requires RbMemory.Linked(rb.cells, rb.ref, z, Leaf) && RedBlack(Plug(z, Leaf)) && NodesOnly(rb.cells, order)
      requires parent == RbMemory.Above(z) && (z != Top ==> (asLeft <==> z.InLeft?))
      requires Returns(areas, Before(z), b, After(z), lo, hi) && start == b.start
      requires !TouchesLeft(BlocksOf(areas, Before(z)), b) && !TouchesRight(b, BlocksOf(areas, After(z)))
      requires start in areas && areas[start] == MemoryArea(b.start, b.End(), b.len, areas[start].index)
      modifies this`areas, this`freeCnt, this`shape, this`order, rb, fl
      ensures Formed() && areas.Keys <= old(areas).Keys
      ensures Free() == Joined(BlocksOf(old(areas), Before(z)), b, BlocksOf(old(areas), After(z)))
    {
      hide Sound, Holds, Indexed, Counted, Joined, BlocksOf, Returns, IndexFits, Separate, Threaded, Before, After, Members,
           InsertIndex, Units, TouchesLeft, TouchesRight, RbMemory.Linked, RedBlack;
      BeforeAlone(areas, Before(z), b, After(z), lo, hi);
      ghost var areas0 := areas;
      GrownFits(lo, hi, start, areas[start].length);
      var index := InsertIndex(areas[start].length);
      Enlist(start, index, Members(order));
      shape := InsertAt(rb, start, parent, asLeft, z);
      order := Before(z) + [start] + After(z);
      MembersAdd(Before(z), start, After(z));
      KeptOutside(areas0, areas, Before(z), {start});
      KeptOutside(areas0, areas, After(z), {start});
      MergedNone(areas0, areas, Before(z), b, After(z), lo, hi);
    }

    /** Records at addresses that are no longer free areas are no records. */
    method Settle()
      requires Formed()
      modifies this`areas
      ensures Valid() && Free() == old(Free())
    {
      hide Holds, Indexed, Counted, Sound, Separate, Threaded, LinksOnly, BlocksOf, Members;
      Settled(rb.cells, rb.ref, shape, order, fl.lists, areas, lo, hi);
      areas := map a | a in areas && a in rb.cells :: areas[a];
    }

    /**
     Put a block back: it is merged with the free areas it touches, on either side, and every
     other area stays. Nodes are written at the areas free before and after and at the block.
     */
    method MemoryAreaInsert(start: nat, length: nat) returns (ok: bool, ghost k: nat)
      requires Valid() && SMALLEST <= length && 0 < start && lo <= start && start + length <= hi
      requires AllApart(Free(), Block(start, length))
      modifies this`areas, this`freeCnt, this`freeSize, this`shape, this`order, rb, fl
      ensures Valid() && ok && freeSize == old(freeSize) + length
      ensures k <= |old(Free())| && Fits(old(Free())[..k], Block(start, length), old(Free())[k..])
      ensures Free() == Joined(old(Free())[..k], Block(start, length), old(Free())[k..])
    {
      hide Holds, Indexed, Counted, Sound, Separate, Threaded, LinksOnly, BlocksOf, AllApart, Fits, Joined, Members;
      ok, k := JoinBlock(start, length);
      Settle();
      freeSize := freeSize + length;
    }

    /** Write the block's record and join it to the free areas. */
    method JoinBlock(start: nat, length: nat) returns (ok: bool, ghost k: nat)
      requires Formed() && SMALLEST <= length && 0 < start && lo <= start && start + length <= hi
      requires AllApart(Free(), Block(start, length))
      modifies this`areas, this`freeCnt, this`shape, this`order, rb, fl
      ensures Formed() && ok && areas.Keys <= old(areas).Keys + {start}
      ensures k <= |old(Free())| && Fits(old(Free())[..k], Block(start, length), old(Free())[k..])
      ensures Free() == Joined(old(Free())[..k], Block(start, length), old(Free())[k..])
    {
      hide Sound, Holds, Descending, Comes, AllApart, Fits, Indexed, Counted, Joined, BlocksOf, Members;
      ghost var areas0 := areas;
      areas := areas[start := MemoryArea(start, start + length, length, if start in areas then areas[start].index else 0)];
      Coming(areas0, areas, order, Block(start, length), lo, hi);
      IndexedFrame(fl.lists, areas0, areas, Members(order));
      ok, k := Descend(start, areas0);
    }

    /** Walk down to the place of the block whose record is at start, and join it there. */
    method Descend(start: nat, ghost areas0: Areas) returns (ok: bool, ghost k: nat)
      requires Formed() && start in areas && areas[start].start == start && areas[start].end == start + areas[start].length
      requires Comes(areas, order, Block(start, areas[start].length), lo, hi) && Kept(areas0, areas, order)
      modifies this`areas, this`freeCnt, this`shape, this`order, rb, fl
      ensures Formed() && areas.Keys <= old(areas).Keys && ok
      ensures var free, b := BlocksOf(areas0, old(order)), Block(start, old(areas)[start].length);
              k <= |free| && Fits(free[..k], b, free[k..]) && Free() == Joined(free[..k], b, free[k..])
    {
      hide Sound, Holds, Descending, Comes, AllApart, Fits, Indexed, Counted, Joined, BlocksOf, Returns, Before, After,
           InOrder, Members, TouchesLeft, TouchesRight, RbMemory.Linked, RedBlack, Kept, RbMemory.Rep, Plug;
      ghost var b := Block(start, areas[start].length);
      var link, parent, asLeft := rb.ref, 0, false;
      ghost var z, t := Top, shape;
      AtRoot(rb.cells, rb.ref, shape, areas, order, b);
      while link != 0
        invariant Formed() && areas == old(areas) && order == old(order)
        invariant Comes(areas, order, b, lo, hi) && Descending(rb.cells, rb.ref, shape, areas, order, b, z, t)
        invariant link == RbMemory.Ptr(t) && parent == RbMemory.Above(z) && (z != Top ==> (asLeft <==> z.InLeft?))
        decreases t
      {
        parent := link;
        AtArea(rb.cells, rb.ref, shape, areas, order, b, z, t, lo, hi);
        ghost var before, after := Before(z) + InOrder(t.left), InOrder(t.right) + After(z);
        if areas[start].end == areas[link].start {
          MeetsRight(rb.cells, rb.ref, shape, areas, order, b, z, t, lo, hi);
          FreeSplit(areas0, areas, order, before, b, [link] + after, lo, hi);
          MemoryAreaInsertPre(start, link, b, before, after, z, t);
          return true, |before|;
        } else if areas[start].end < areas[link].start {
          GoLeft(rb.cells, rb.ref, shape, areas, order, b, z, t, lo, hi);
          link, asLeft := rb.cells[link].left, true;
          z, t := InLeft(z, t.id, t.color, t.right), t.left;
        } else if areas[start].start == areas[link].end {
          MeetsLeft(rb.cells, rb.ref, shape, areas, order, b, z, t, lo, hi);
          FreeSplit(areas0, areas, order, before + [link], b, after, lo, hi);
          MemoryAreaInsertNext(start, link, b, before, after, z, t);
          return true, |before| + 1;
        } else if areas[start].start > areas[link].end {
          GoRight(rb.cells, rb.ref, shape, areas, order, b, z, t, lo, hi);
          link, asLeft := rb.cells[link].right, false;
          z, t := InRight(z, t.left, t.id, t.color), t.right;
        } else {
          assert false;
        }
      }
      MeetsNone(rb.cells, rb.ref, shape, areas, order, b, z, t, lo, hi);
      FreeSplit(areas0, areas, order, Before(z), b, After(z), lo, hi);
      InsertAlone(start, parent, asLeft, b, z);
      return true, |Before(z)|;
    }

    /** Hand out a whole area. */
    method TakeWhole(ma: nat, length: nat, ghost before: seq<nat>, ghost after: seq<nat>) returns (start: nat)
      requires Formed() && order == before + [ma] + after && ma in areas && length <= areas[ma].length
      modifies this`freeCnt, this`shape, this`order, rb, fl
      ensures Formed() && start == ma && |before| < |old(Free())|
      ensures Free() == Taken(old(Free()), |before|, length, true)
    {
      hide Holds, Indexed, Counted, Separate, Threaded, Members, Taken, BlocksOf;
      MembersDrop(areas, before, ma, after);
      start := areas[ma].start;
      CutWhole(areas, before, ma, after, lo, hi, length);
      Unlist(ma, Members(order));
      shape := EraseAt(rb, ma, shape, before, after);
      order := before + after;
    }

    /** Hand out the front of an area; the rest stays an area. */
    method TakePart(ma: nat, length: nat, ghost before: seq<nat>, ghost after: seq<nat>) returns (start: nat)
      requires Formed() && order == before + [ma] + after && ma in areas && length + NODE_SIZE <= areas[ma].length
      modifies this`areas, this`freeCnt, this`shape, this`order, rb, fl
      ensures Formed() && start == ma && |before| < |old(Free())|
      ensures Free() == Taken(old(Free()), |before|, length, false) && areas.Keys == old(areas).Keys + {ma + length}
    {
      hide Holds, Indexed, Counted, Separate, Threaded, Members, Taken, BlocksOf, SplitIndex, Sound;
      if length == 0 {
        start := TakeNothing(ma, before, after);
        return;
      }
      BeforeCut(areas, before, ma, after, length, lo, hi);
      ghost var areas0 := areas;
      var newMa := areas[ma].start + length;
      areas := areas[newMa := MemoryArea(newMa, areas[ma].end, areas[ma].length - length, if newMa in areas then areas[newMa].index else 0)];
      IndexedFrame(fl.lists, areas0, areas, Members(order));
      start := areas[ma].start;
      Unlist(ma, Members(order));
      var nIndex := SplitIndex(areas[newMa].length);
      Enlist(newMa, nIndex, Members(order) - {ma});
      shape := ReplaceAt(rb, ma, newMa, shape, before, after);
      order := before + [newMa] + after;
      MembersAdd(before, newMa, after);
      KeptOutside(areas0, areas, before, {newMa});
      KeptOutside(areas0, areas, after, {newMa});
      CutPart(areas0, areas, before, ma, after, lo, hi, length);
    }

    /** Cut nothing off an area: its record is written over itself and it goes to the list of a rest of its length. */
    method TakeNothing(ma: nat, ghost before: seq<nat>, ghost after: seq<nat>) returns (start: nat)
      requires Formed() && order == before + [ma] + after && ma in areas
      modifies this`areas, this`freeCnt, this`shape, this`order, rb, fl
      ensures Formed() && start == ma && |before| < |old(Free())| && areas.Keys == old(areas).Keys
      ensures Free() == Taken(old(Free()), |before|, 0, false)
    {
      hide Holds, Indexed, Counted, Separate, Threaded, Members, Taken, BlocksOf, SplitIndex, Sound;
      CutNothing(areas, before, ma, after, lo, hi);
      start := areas[ma].start;
      Unlist(ma, Members(order));
      var nIndex := SplitIndex(areas[ma].length);
      Enlist(ma, nIndex, Members(order) - {ma});
      assert Members(order) - {ma} + {ma} == Members(order);
      shape := ReplaceSelf(rb, ma, shape, before, after);
    }

    /**
     Take a block: the lists are searched upwards from the one of the request's own length, and
     the first area that is long enough serves, whole or in part. The search fails exactly if no
     free area is long enough.
     */
    method MemoryAreaRemove(length: nat, minBlockSize: nat, metaStored: bool) returns (ok: bool, start: nat, ghost k: nat)
      requires Valid() && Total(Free()) <= freeSize && Divisible(Free(), length, minBlockSize, metaStored)
      modifies this`areas, this`freeCnt, this`freeSize, this`shape, this`order, rb, fl
      ensures Valid() && (ok <==> Serves(old(Free()), length))
      ensures !ok ==> Free() == old(Free()) && freeSize == old(freeSize)
      ensures ok ==>
                && k < |old(Free())| && old(Free())[k].len >= length && start == old(Free())[k].start
                && Free() == Taken(old(Free()), k, length, Whole(old(Free())[k].len, length, minBlockSize, metaStored))
                && RestKept(old(Free()), k, length, if metaStored then 72 + minBlockSize else 0, Free())
                && freeSize == old(freeSize) - length
    {
      hide Holds, Indexed, Counted, Separate, Threaded, Members, Taken, BlocksOf, Sound, Seen, StartIndex, Total, RestKept;
      start, k := 0, 0;
      var areaIndex := StartIndex(length);
      SeenNone(fl.lists, areas, Members(order), areaIndex, length);
      while areaIndex < 1024
        invariant Valid() && areas == old(areas) && order == old(order) && freeSize == old(freeSize)
        invariant StartIndex(length) <= areaIndex <= 1024 && Seen(fl.lists, areas, StartIndex(length), areaIndex, length)
      {
        var found, ma, j := SearchList(areaIndex, length, minBlockSize, metaStored);
        if found {
          ghost var before, after := Listed(fl.lists, areas, order, lo, hi, areaIndex, j);
          NoMoreThanTotal(Free(), |before|);
          KeepsRest(areas, order, lo, hi, |before|, length, minBlockSize, metaStored);
          if Whole(areas[ma].length, length, minBlockSize, metaStored) {
            start := TakeWhole(ma, length, before, after);
          } else {
            start := TakePart(ma, length, before, after);
          }
          Settle();
          if freeSize < length {
            assert false;
          }
          freeSize := freeSize - length;
          return true, start, |before|;
        }
        SeenList(fl.lists, areas, StartIndex(length), areaIndex, length);
        areaIndex := areaIndex + 1;
      }
      SeenAll(fl.lists, areas, order, lo, hi, length);
      ok := false;
    }

    /** The first area of list i that can serve the request, whole or in part. */
    method SearchList(i: nat, length: nat, minBlockSize: nat, metaStored: bool) returns (found: bool, ma: nat, ghost j: nat)
      requires Valid() && i < 1024
      ensures found ==> j < |fl.lists[i]| && ma == fl.lists[i][j] && ma in areas && areas[ma].length >= length
      ensures found <==> exists k | 0 <= k < |fl.lists[i]| :: fl.lists[i][k] in areas && areas[fl.lists[i][k]].length >= length
      ensures !found ==> j == |fl.lists[i]|
      ensures forall k | 0 <= k < j :: fl.lists[i][k] in areas && areas[fl.lists[i][k]].length < length
    {
      hide Holds, Indexed, Counted, Separate, Threaded, Members, Sound, Whole;
      InList(fl.lists, areas, Members(order), i);
      found, ma, j := false, 0, 0;
      var areaNode := fl.Step(Head(i), i, 0);
      while areaNode != Head(i)
        invariant j <= |fl.lists[i]| && areaNode == if j == |fl.lists[i]| then Head(i) else At(fl.lists[i][j])
        invariant forall k | 0 <= k < j :: fl.lists[i][k] in areas && areas[fl.lists[i][k]].length < length
        decreases |fl.lists[i]| - j
      {
        ma := areaNode.a;
        CanServe(areas[ma].length, length, minBlockSize, metaStored);
        if Whole(areas[ma].length, length, minBlockSize, metaStored) || areas[ma].length > length {
          return true, ma, j;
        }
        areaNode := fl.Step(areaNode, i, j + 1);
        j := j + 1;
      }
    }
  }

  lemma CanServe(len: nat, length: nat, minBlockSize: nat, metaStored: bool)
    ensures (Whole(len, length, minBlockSize, metaStored) || len > length) <==> len >= length
  {
  }

  /** The next area in order starts where the block ends exactly if they touch. */
  lemma NextMeets(areas: Areas, before: seq<nat>, p: nat, b: Block, after: seq<nat>, lo: nat, hi: nat, next: nat)
    requires Returns(areas, before + [p], b, after, lo, hi) && p in areas && areas[p].end == b.start
    requires next == if after == [] then 0 else after[0]
    ensures next == 0 <==> after == []
    ensures next != 0 ==> next in areas && next != p && areas[next].start == next && after == [next] + after[1..]
    ensures (next != 0 && next == b.End()) <==> TouchesRight(b, BlocksOf(areas, after))
  {
    hide Returns;
    if after != [] {
      assert after == [next] + after[1..];
      RightNeighbour(areas, before, p, b, next, after[1..], lo, hi);
    }
  }

  /** The left subtree's last area, or the area itself, ends at the block exactly if the area before does. */
  lemma PrevMeets(areas: Areas, before: seq<nat>, left: Tree, b: Block, ma: nat, after: seq<nat>, lo: nat, hi: nat, prev: nat)
    requires Returns(areas, before, b, [ma] + after, lo, hi) && b.End() == ma
    requires left == Leaf ==> !TouchesLeft(BlocksOf(areas, before), b) && prev == ma
    requires left != Leaf ==> before != [] && prev == before[|before| - 1]
    ensures prev in areas && prev != b.start && prev != 0
    ensures areas[prev].end == b.start <==> TouchesLeft(BlocksOf(areas, before), b)
    ensures areas[prev].end == b.start ==> before != [] && before == before[..|before| - 1] + [prev]
  {
    BeforeJoinRight(areas, before, b, ma, after, lo, hi);
    if left != Leaf {
      assert before == before[..|before| - 1] + [prev];
      LeftNeighbour(areas, before[..|before| - 1], prev, b, ma, after, lo, hi);
    }
  }

  lemma LastOf(s: seq<nat>, t: Tree, before: seq<nat>)
    requires before == s + InOrder(t)
    ensures t != Leaf ==> InOrder(t) != [] && before != [] && before[|before| - 1] == InOrder(t)[|InOrder(t)| - 1]
  {
  }

  lemma StartsOfAreas(areas: Areas, order: seq<nat>)
    ensures Starts(BlocksOf(areas, order)) == Members(order)
  {
    var bs := BlocksOf(areas, order);
    forall a | a in order
      ensures a in Starts(bs)
    {
      var i :| 0 <= i < |order| && order[i] == a;
      assert bs[i].start == a;
    }
  }

  lemma LinksAreAreas(next: Links, lists: seq<seq<nat>>, areas: Areas, ids: set<nat>)
    requires LinksOnly(next, lists) && Indexed(lists, areas, ids)
    ensures forall a | At(a) in next :: a in ids
  {
    forall a | At(a) in next
      ensures a in ids
    {
      assert IsPlace(lists, At(a));
    }
  }

  /** The tree's cells are at the free areas. */
  lemma NodesAreAreas(m: RbMemory.Memory, ref: nat, shape: Tree, order: seq<nat>)
    requires Holds(m, ref, shape, order)
    ensures m.Keys == Members(order)
  {
    RbMemory.IdsInOrder(shape);
    RbMemory.RepNonNull(m, shape, 0);
  }

  /** Tree, lists and records without the records that are no free areas. */
  lemma Settled(m: RbMemory.Memory, ref: nat, shape: Tree, order: seq<nat>, lists: seq<seq<nat>>, areas: Areas, lo: nat, hi: nat)
    requires Holds(m, ref, shape, order) && Indexed(lists, areas, Members(order)) && Sound(areas, order, lo, hi)
    ensures var areas' := map a | a in areas && a in m :: areas[a];
            && Sound(areas', order, lo, hi) && Indexed(lists, areas', Members(order))
            && BlocksOf(areas', order) == BlocksOf(areas, order) && areas'.Keys == Members(order)
  {
    hide Holds, Gapped, Within, Fitting, Indexed;
    NodesAreAreas(m, ref, shape, order);
    var areas' := map a | a in areas && a in m :: areas[a];
    assert forall a | a in order :: Recorded(areas, a);
    SoundKept(areas, areas', order, lo, hi);
    IndexedFrame(lists, areas, areas', Members(order));
  }
}
