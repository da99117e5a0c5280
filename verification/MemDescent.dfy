/**
 The descent to the place of a block that comes back: what is known about the areas left and
 right of the path.
 */
module MemDescent {
  import opened MemBlocks
  import opened MemAreas
  import opened MemMerge
  import opened RbShape
  import opened RbMemory
  import RbOrder

  ghost predicate Descending(m: Memory, ref: nat, shape: Tree, areas: Areas, order: seq<nat>, b: Block, z: Context, t: Tree) {
    && Linked(m, ref, z, t) && Plug(z, t) == shape && order == Before(z) + InOrder(t) + After(z)
    && (forall a | a in Before(z) :: a in areas && a + areas[a].length < b.start)
    && (forall a | a in After(z) :: b.End() < a)
  }

  /** The block may come back somewhere among these areas. */
  ghost predicate Comes(areas: Areas, order: seq<nat>, b: Block, lo: nat, hi: nat) {
    && Sound(areas, order, lo, hi) && AllApart(BlocksOf(areas, order), b)
    && b.len >= SMALLEST && 0 < b.start && lo <= b.start && b.End() <= hi
  }

  /** The new record does not disturb the areas. */
  lemma Coming(areas: Areas, areas': Areas, order: seq<nat>, b: Block, lo: nat, hi: nat)
    requires Sound(areas, order, lo, hi) && AllApart(BlocksOf(areas, order), b)
    requires b.len >= SMALLEST && 0 < b.start && lo <= b.start && b.End() <= hi
    requires b.start in areas' && areas' == areas[b.start := areas'[b.start]]
    ensures Comes(areas', order, b, lo, hi) && Sound(areas', order, lo, hi) && Kept(areas, areas', order)
  {
    hide Sound, AllApart, BlocksOf;
    NoAreaThere(areas, order, b, lo, hi);
    KeptOutside(areas, areas', order, {b.start});
    SoundKept(areas, areas', order, lo, hi);
  }

  lemma AtRoot(m: Memory, ref: nat, shape: Tree, areas: Areas, order: seq<nat>, b: Block)
    requires RbOrder.Holds(m, ref, shape, order)
    ensures Descending(m, ref, shape, areas, order, b, Top, shape) && ref == Ptr(shape)
  {
    assert [] + order + [] == order;
  }

  /** At an area: its record, its children, and its place in the order. */
  lemma AtArea(m: Memory, ref: nat, shape: Tree, areas: Areas, order: seq<nat>, b: Block, z: Context, t: Tree, lo: nat, hi: nat)
    requires Descending(m, ref, shape, areas, order, b, z, t) && Ptr(t) != 0 && Comes(areas, order, b, lo, hi)
    ensures Linked(m, ref, z, t) && t != Leaf && t.id in m && m[t.id].left == Ptr(t.left) && m[t.id].right == Ptr(t.right)
    ensures order == (Before(z) + InOrder(t.left)) + [t.id] + (InOrder(t.right) + After(z))
    ensures Recorded(areas, t.id) && (b.End() <= t.id || areas[t.id].end <= b.start)
  {
    assert InOrder(t) == InOrder(t.left) + [t.id] + InOrder(t.right);
    InTheMiddle(Before(z), InOrder(t.left), t.id, InOrder(t.right), After(z));
    NoAreaThere(areas, order, b, lo, hi);
  }

  lemma InTheMiddle(b: seq<nat>, l: seq<nat>, x: nat, r: seq<nat>, a: seq<nat>)
    ensures b + (l + [x] + r) + a == (b + l) + [x] + (r + a)
    ensures x in b + (l + [x] + r) + a
  {
    assert (b + (l + [x] + r) + a)[|b| + |l|] == x;
  }

  lemma GoLeft(m: Memory, ref: nat, shape: Tree, areas: Areas, order: seq<nat>, b: Block, z: Context, t: Tree, lo: nat, hi: nat)
    requires Descending(m, ref, shape, areas, order, b, z, t) && t != Leaf && Comes(areas, order, b, lo, hi) && b.End() < t.id
    ensures Descending(m, ref, shape, areas, order, b, InLeft(z, t.id, t.color, t.right), t.left)
  {
    hide Linked, BlocksOf, AllApart, Sound, InOrder;
    DownLeft(m, ref, z, t);
    PlugDown(z, t);
    Around(m, ref, shape, areas, order, b, z, t, lo, hi);
    var z' := InLeft(z, t.id, t.color, t.right);
    assert Before(z') == Before(z) && After(z') == [t.id] + InOrder(t.right) + After(z);
    assert order == Before(z') + InOrder(t.left) + After(z');
    assert After(z') == [t.id] + (InOrder(t.right) + After(z));
  }

  lemma GoRight(m: Memory, ref: nat, shape: Tree, areas: Areas, order: seq<nat>, b: Block, z: Context, t: Tree, lo: nat, hi: nat)
    requires Descending(m, ref, shape, areas, order, b, z, t) && t != Leaf && Comes(areas, order, b, lo, hi)
    requires t.id in areas && b.start > areas[t.id].end
    ensures Descending(m, ref, shape, areas, order, b, InRight(z, t.left, t.id, t.color), t.right)
  {
    hide Linked, BlocksOf, AllApart, Sound, InOrder;
    DownRight(m, ref, z, t);
    PlugDown(z, t);
    Around(m, ref, shape, areas, order, b, z, t, lo, hi);
    var z' := InRight(z, t.left, t.id, t.color);
    assert Before(z') == Before(z) + InOrder(t.left) + [t.id] && After(z') == After(z);
    assert order == Before(z') + InOrder(t.right) + After(z');
  }

  lemma PlugDown(z: Context, t: Tree)
    requires t != Leaf
    ensures Plug(InLeft(z, t.id, t.color, t.right), t.left) == Plug(z, t)
    ensures Plug(InRight(z, t.left, t.id, t.color), t.right) == Plug(z, t)
  {
  }

  /** Areas before and behind the one the descent is at. */
  lemma Around(m: Memory, ref: nat, shape: Tree, areas: Areas, order: seq<nat>, b: Block, z: Context, t: Tree, lo: nat, hi: nat)
    requires Descending(m, ref, shape, areas, order, b, z, t) && t != Leaf && Comes(areas, order, b, lo, hi)
    ensures var before, after := Before(z) + InOrder(t.left), InOrder(t.right) + After(z);
            && order == before + [t.id] + after && Recorded(areas, t.id)
            && (forall a | a in before :: a in areas && a + areas[a].length < t.id)
            && (forall a | a in after :: areas[t.id].end < a)
  {
    hide Linked, AllApart, Gapped, Fitting, Within;
    var before, after := Before(z) + InOrder(t.left), InOrder(t.right) + After(z);
    assert InOrder(t) == InOrder(t.left) + [t.id] + InOrder(t.right);
    InTheMiddle(Before(z), InOrder(t.left), t.id, InOrder(t.right), After(z));
    assert order == before + ([t.id] + after);
    OrderedSplit(areas, before, [t.id] + after);
    assert t.id in [t.id] + after;
    OrderedSplit(areas, before + [t.id], after);
    assert t.id in before + [t.id];
  }

  lemma LeftmostEnds(areas: Areas, z: Context, t: Tree, b: Block)
    requires t != Leaf && forall a | a in Before(z) :: a in areas && a + areas[a].length < b.start
    ensures t.left == Leaf ==> !TouchesLeft(BlocksOf(areas, Before(z) + InOrder(t.left)), b)
  {
    if t.left == Leaf {
      assert Before(z) + InOrder(t.left) == Before(z);
      EndBefore(areas, Before(z), b);
    }
  }

  /** The block ends at the area's start. */
  lemma MeetsRight(m: Memory, ref: nat, shape: Tree, areas: Areas, order: seq<nat>, b: Block, z: Context, t: Tree, lo: nat, hi: nat)
    requires Descending(m, ref, shape, areas, order, b, z, t) && t != Leaf && Comes(areas, order, b, lo, hi) && b.End() == t.id
    ensures var before, after := Before(z) + InOrder(t.left), InOrder(t.right) + After(z);
            && Returns(areas, before, b, [t.id] + after, lo, hi)
            && (t.left == Leaf ==> !TouchesLeft(BlocksOf(areas, before), b))
  {
    hide Linked, BlocksOf, AllApart, Sound, InOrder, Returns, TouchesLeft, Before, After;
    var before, after := Before(z) + InOrder(t.left), InOrder(t.right) + After(z);
    LeftmostEnds(areas, z, t, b);
    Around(m, ref, shape, areas, order, b, z, t, lo, hi);
    assert order == before + ([t.id] + after);
    FitsBetween(areas, before, b, [t.id] + after, lo, hi);
  }

  /** The block starts at the area's end. */
  lemma MeetsLeft(m: Memory, ref: nat, shape: Tree, areas: Areas, order: seq<nat>, b: Block, z: Context, t: Tree, lo: nat, hi: nat)
    requires Descending(m, ref, shape, areas, order, b, z, t) && t != Leaf && Comes(areas, order, b, lo, hi)
    requires t.id in areas && areas[t.id].end == b.start
    ensures var before, after := Before(z) + InOrder(t.left), InOrder(t.right) + After(z);
            Returns(areas, before + [t.id], b, after, lo, hi)
  {
    hide Linked, BlocksOf, AllApart, Sound, InOrder, Returns, Before, After;
    var before, after := Before(z) + InOrder(t.left), InOrder(t.right) + After(z);
    Around(m, ref, shape, areas, order, b, z, t, lo, hi);
    assert order == before + [t.id] + after;
    FitsBetween(areas, before + [t.id], b, after, lo, hi);
  }

  /** No area is left to meet: the block goes in by itself. */
  lemma MeetsNone(m: Memory, ref: nat, shape: Tree, areas: Areas, order: seq<nat>, b: Block, z: Context, t: Tree, lo: nat, hi: nat)
    requires Descending(m, ref, shape, areas, order, b, z, t) && Ptr(t) == 0 && Comes(areas, order, b, lo, hi)
    requires RbOrder.Holds(m, ref, shape, order)
    ensures t == Leaf && Linked(m, ref, z, Leaf) && RedBlack(Plug(z, Leaf)) && RbOrder.NodesOnly(m, Before(z) + After(z))
    ensures order == Before(z) + After(z) && Returns(areas, Before(z), b, After(z), lo, hi)
    ensures !TouchesLeft(BlocksOf(areas, Before(z)), b) && !TouchesRight(b, BlocksOf(areas, After(z)))
  {
    hide BlocksOf, AllApart, Sound, Returns, Before, After, TouchesLeft, TouchesRight, RedBlack, Plug;
    assert t == Leaf;
    assert Before(z) + [] + After(z) == Before(z) + After(z);
    assert InOrder(Leaf) == [];
    EndBefore(areas, Before(z), b);
    StartBehind(areas, b, After(z));
    FitsBetween(areas, Before(z), b, After(z), lo, hi);
  }

  /** The free blocks before the place of the block and those behind it. */
  lemma FreeSplit(areas: Areas, areas': Areas, order: seq<nat>, before: seq<nat>, b: Block, after: seq<nat>, lo: nat, hi: nat)
    requires order == before + after && Kept(areas, areas', order) && Returns(areas', before, b, after, lo, hi)
    ensures |before| <= |BlocksOf(areas, order)|
    ensures BlocksOf(areas, order)[..|before|] == BlocksOf(areas', before)
    ensures BlocksOf(areas, order)[|before|..] == BlocksOf(areas', after)
    ensures Fits(BlocksOf(areas', before), b, BlocksOf(areas', after))
  {
    assert forall i | 0 <= i < |order| :: order[i] in order && BlockAt(areas, order[i]) == BlockAt(areas', order[i]);
    assert BlocksOf(areas, order)[..|before|] == BlocksOf(areas', before);
    assert BlocksOf(areas, order)[|before|..] == BlocksOf(areas', after);
  }
}
