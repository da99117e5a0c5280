/**
 The walk of a page insertion from the root entry down to the entry of the page: what holds
 at each step, what a blocked walk means, and what the finished walk has built.
 */
module PgtDescent {
  import opened PgtTree
  import opened PgtMemory
  import opened PgtMoves

  /** The walk leaves every kid of the root alone, except the one on its way. */
  ghost predicate RootKept(t: Tree, u: Tree, d: nat) {
    t.Dir? && u.Dir? && |t.kids| == |u.kids| == 16 && forall j | 0 <= j < 16 && j != d :: t.kids[j] == u.kids[j]
  }

  /**
   The walk along a from the table v has reached tree u at level k in context z. Until it
   makes a directory (made) nothing has changed; from then on it stands before an empty entry.
   */
  ghost predicate Descent(m: Memory, root: PgtEntry, z: Context, u: Tree, k: nat, a: nat, v: View, made: bool) {
    && Linked(m, root, z, u)
    && Along(z, k, a) && k + Depth(z) == v.level && Block(v.level, a) == v.block
    && ShapeAround(z, k)
    && (if made then u == Empty && z.In? else Plug(z, u) == v.tree && Shape(u, k))
    && FindSame(View(Plug(z, u), v.level, v.block), v)
    && (z.In? ==> RootKept(Plug(z, u), v.tree, Digit(v.level - 1, a)))
  }

  lemma DescentStart(m: Memory, root: PgtEntry, a: nat, v: View)
    requires TreeOf(m, root, v.tree, v.level) && Block(v.level, a) == v.block
    ensures Descent(m, root, Top, v.tree, v.level, a, v, false)
  {
  }

  /** The slot of the current entry. */
  lemma DescentSlot(m: Memory, root: PgtEntry, z: Context, u: Tree, k: nat, a: nat, v: View, made: bool)
    requires Descent(m, root, z, u, k, a, v, made)
    ensures z.Top? ==> root == Entry(u) && u == v.tree && k == v.level
    ensures z.In? ==>
              && z.ptr in m && |m[z.ptr].entries| == 16 && z.d == Digit(k, a)
              && m[z.ptr].entries[z.d] == Entry(u) && m[z.ptr].count == Count(m[z.ptr].entries)
    ensures u.Dir? ==> k > 0 && u.ptr in m && |m[u.ptr].entries| == 16
  {
  }

  lemma PlugSame(z: Context, u: Tree, w: Tree, k: nat, a: nat, v: View)
    requires Along(z, k, a) && FitsHoles(z) && k + Depth(z) == v.level && Block(v.level, a) == v.block
    requires FindSame(View(Plug(z, u), v.level, v.block), v)
    requires forall b | Block(k, b) == Block(k, a) :: Find(u, k, b) == Find(w, k, b)
    ensures FindSame(View(Plug(z, w), v.level, v.block), v)
  {
    forall b
      ensures FindIn(View(Plug(z, w), v.level, v.block), b) == FindIn(v, b)
    {
      assert FindIn(View(Plug(z, u), v.level, v.block), b) == FindIn(v, b);
      if Block(v.level, b) == v.block {
        FindPlug(z, u, w, k, a, b);
        FindPlug(z, w, u, k, a, b);
      }
    }
  }

  /** Into an existing directory. */
  lemma DescentEnter(m: Memory, root: PgtEntry, z: Context, u: Tree, k: nat, a: nat, v: View, made: bool)
    requires Descent(m, root, z, u, k, a, v, made) && u.Dir? && k > 0
    ensures |u.kids| == 16 && !made
    ensures var d := Digit(k - 1, a);
            Descent(m, root, In(z, u.ptr, u.kids, d), u.kids[d], k - 1, a, v, false)
  {
    Enter(m, root, z, u, Digit(k - 1, a));
  }

  /** Filling the empty entry at the end of the walk. */
  lemma FillEmpty(m: Memory, m': Memory, root: PgtEntry, z: Context, w: Tree)
    requires Linked(m, root, z, Empty) && z.In? && Present(w)
    requires Rep(m', w) && Distinct(w) && Ptrs(w) !! m.Keys && m'.Keys == m.Keys + Ptrs(w)
    requires forall p | p in m && p != z.ptr :: m'[p] == m[p]
    requires z.ptr in m && |m[z.ptr].entries| == 16 && z.d < 16
    requires m'[z.ptr] == PgtDir(m[z.ptr].entries[z.d := Entry(w)], m[z.ptr].count + 1)
    ensures Linked(m', root, z, w)
  {
    CountUpdate(m[z.ptr].entries, z.d, Entry(w));
    assert ContextPtrs(z) == m.Keys;
    FillHole(m, m', root, z, Empty, w);
  }

  lemma EmptyDir(m: Memory, p: nat)
    requires p in m && m[p] == PgtDir(seq(16, _ => EmptyEntry), 0)
    ensures Rep(m, Dir(p, NoKids())) && Distinct(Dir(p, NoKids())) && Ptrs(Dir(p, NoKids())) == {p}
  {
    CountZero(m[p].entries);
  }

  lemma CreateLinked(m: Memory, m': Memory, root: PgtEntry, z: Context, p: nat, d: nat)
    requires Linked(m, root, z, Empty) && z.In? && p !in m && d < 16
    requires z.ptr in m && |m[z.ptr].entries| == 16 && z.d < 16
    requires m' == m[p := PgtDir(seq(16, _ => EmptyEntry), 0)]
                    [z.ptr := PgtDir(m[z.ptr].entries[z.d := DirEntry(p)], m[z.ptr].count + 1)]
    ensures Linked(m', root, In(z, p, NoKids(), d), Empty)
    ensures Plug(In(z, p, NoKids(), d), Empty) == Plug(z, Dir(p, NoKids()))
  {
    hide Linked, Rep, Distinct, Ptrs;
    var w := Dir(p, NoKids());
    EmptyDir(m', p);
    FillEmpty(m, m', root, z, w);
    Enter(m', root, z, w, d);
  }

  lemma DescentParts(m: Memory, root: PgtEntry, z: Context, u: Tree, k: nat, a: nat, v: View, made: bool)
    requires Descent(m, root, z, u, k, a, v, made)
    ensures Linked(m, root, z, u) && FitsHoles(z)
  {
  }

  /** Into a directory made for an empty entry. */
  lemma DescentCreate(m: Memory, m': Memory, root: PgtEntry, z: Context, k: nat, a: nat, v: View, made: bool, p: nat)
    requires Descent(m, root, z, Empty, k, a, v, made) && z.In? && k > 0 && p !in m
    requires z.ptr in m && |m[z.ptr].entries| == 16 && z.d < 16
    requires m' == m[p := PgtDir(seq(16, _ => EmptyEntry), 0)]
                    [z.ptr := PgtDir(m[z.ptr].entries[z.d := DirEntry(p)], m[z.ptr].count + 1)]
    ensures Descent(m', root, In(z, p, NoKids(), Digit(k - 1, a)), Empty, k - 1, a, v, true)
  {
    hide Linked, Plug, FindSame;
    var w := Dir(p, NoKids());
    DescentParts(m, root, z, Empty, k, a, v, made);
    CreateLinked(m, m', root, z, p, Digit(k - 1, a));
    PlugSame(z, Empty, w, k, a, v);
    PlugRoot(z, Empty, w, k, a);
  }

  /** A region at or above the page's own level covers the page's address. */
  lemma DescentBlocked(m: Memory, root: PgtEntry, z: Context, u: Tree, j: nat, a: nat, v: View, made: bool, k: nat)
    requires Descent(m, root, z, u, j, a, v, made) && u.Leaf?
    ensures !made && Present(v.tree) && !Uncovered(v, k, a)
  {
    FindPlug(z, u, u, j, a, a);
    assert FindIn(v, a).Some?;
  }

  /** A present entry at the page's own level covers some address of the page. */
  lemma DescentOccupied(m: Memory, root: PgtEntry, z: Context, u: Tree, k: nat, a: nat, v: View, made: bool)
    requires Descent(m, root, z, u, k, a, v, made) && Present(u)
    ensures !made && Present(v.tree) && !Uncovered(v, k, a)
  {
    var b := Inhabited(u, k, Block(k, a));
    BlockNests(k, v.level, a, b);
    FindPlug(z, u, u, k, a, b);
    assert FindIn(v, b).Some?;
  }

  /** An empty entry at the page's level: the page covers nothing yet, and can be put in. */
  lemma DescentVacant(m: Memory, root: PgtEntry, z: Context, k: nat, a: nat, v: View, made: bool, r: PgtRegion)
    requires Descent(m, root, z, Empty, k, a, v, made) && RoomFor(v, k, a)
    ensures FitsHoles(z) && Uncovered(v, k, a)
    ensures var w := View(Plug(z, Leaf(r)), v.level, v.block); Canonical(w) && Adds(v, w, k, a, r)
  {
    hide Linked, Plug;
    DescentParts(m, root, z, Empty, k, a, v, made);
    var w := View(Plug(z, Leaf(r)), v.level, v.block);
    var e := View(Plug(z, Empty), v.level, v.block);
    forall b
      ensures Block(k, b) == Block(k, a) ==> FindIn(v, b) == None
      ensures FindIn(w, b) == if Block(k, b) == Block(k, a) then Some(Page(k, r)) else FindIn(v, b)
    {
      assert FindIn(e, b) == FindIn(v, b);
      if Block(k, b) == Block(k, a) { BlockNests(k, v.level, a, b); }
      if Block(v.level, b) == v.block {
        FindPlug(z, Leaf(r), Empty, k, a, b);
        FindPlug(z, Empty, Leaf(r), k, a, b);
      }
    }
    ShapePlug(z, Leaf(r), k);
    if z.In? { VacantTwoKids(z, k, a, v, r); }
  }

  lemma VacantTwoKids(z: Context, k: nat, a: nat, v: View, r: PgtRegion)
    requires Along(z, k, a) && FitsHoles(z) && z.In? && k + Depth(z) == v.level && Block(v.level, a) == v.block
    requires RootKept(Plug(z, Empty), v.tree, Digit(v.level - 1, a)) && RoomFor(v, k, a)
    ensures Plug(z, Leaf(r)).Dir? && TwoKids(Plug(z, Leaf(r)).kids)
  {
    hide Plug, Digit, Along, TwoKids;
    PlugRoot(z, Leaf(r), Empty, k, a);
    OtherMakesTwo(v.tree.kids, Plug(z, Leaf(r)).kids, Digit(v.level - 1, a));
  }

  lemma OtherMakesTwo(kids: seq<Tree>, new': seq<Tree>, d: nat)
    requires |kids| == |new'| && d < |kids| && OtherKid(kids, d) && Present(new'[d])
    requires forall j | 0 <= j < |kids| && j != d :: new'[j] == kids[j]
    ensures TwoKids(new')
  {
    var j :| 0 <= j < |kids| && j != d && Present(kids[j]);
    assert Present(new'[j]);
  }

  /** A page that is the whole table. */
  lemma DescentRoot(m: Memory, root: PgtEntry, k: nat, a: nat, v: View, made: bool, r: PgtRegion)
    requires Descent(m, root, Top, Empty, k, a, v, made)
    ensures TreeOf(m, RegionEntry(r), Leaf(r), v.level)
  {
  }

  /** The finished tree in memory, for a page below the root. */
  lemma DescentFinish(m: Memory, m': Memory, root: PgtEntry, z: Context, k: nat, a: nat, v: View, made: bool, r: PgtRegion)
    requires Descent(m, root, z, Empty, k, a, v, made) && z.In?
    requires z.ptr in m && |m[z.ptr].entries| == 16 && z.d < 16
    requires m' == m[z.ptr := PgtDir(m[z.ptr].entries[z.d := RegionEntry(r)], m[z.ptr].count + 1)]
    ensures TreeOf(m', root, Plug(z, Leaf(r)), v.level)
  {
    FillEmpty(m, m', root, z, Leaf(r));
    Leave(m', root, z, Leaf(r));
    ShapePlug(z, Leaf(r), k);
  }
}
