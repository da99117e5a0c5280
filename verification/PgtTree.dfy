/**
 The radix tree behind the page table: its entries and directories as they lie in memory,
 the tree they represent, what that tree maps each address to, and its canonical form.
 */
module PgtTree {
  import opened Bits

  datatype Option<+T> = None | Some(value: T)

  /** A memory region; ptr tells apart distinct region objects with equal bounds. */
  datatype PgtRegion = PgtRegion(ptr: nat, start: nat, end: nat)

  /** What the tree finds at an address: a region, and the level of the page that holds it. */
  datatype Page = Page(level: nat, region: PgtRegion)

  /** A tagged entry word: empty, a region, or the address of a child directory. */
  datatype PgtEntry = EmptyEntry | RegionEntry(region: PgtRegion) | DirEntry(dir: nat)

  datatype PgtDir = PgtDir(entries: seq<PgtEntry>, count: nat)

  /** The tree an entry stands for, with the address of each directory. */
  datatype Tree = Empty | Leaf(region: PgtRegion) | Dir(ptr: nat, kids: seq<Tree>)

  /** A tree with the level of its root and the number of the block the root covers. */
  datatype View = View(tree: Tree, level: nat, block: nat)

  // ----- blocks

  /** An entry at level k spans addresses that agree from this bit upward. */
  function Shift(k: nat): (r: nat) {
    4 * k + 4
  }

  /** Size of a page at level k. */
  function Span(k: nat): (r: nat)
    ensures r > 0
  {
    Pow2(Shift(k))
  }

  /** First address of block n at level k. */
  function BlockBase(k: nat, n: nat): (r: nat) {
    Up(n, Shift(k))
  }

  /** Number of the level-k block that holds a. */
  function Block(k: nat, a: nat): (r: nat) {
    Shr(a, Shift(k))
  }

  /** Index of a's level-k block inside its parent directory. */
  function Digit(k: nat, a: nat): (r: nat)
    ensures r < 16
  {
    Block(k, a) % 16
  }

  lemma BlockUp(k: nat, a: nat)
    ensures Block(k + 1, a) == Block(k, a) / 16
  {
    ByHexDigit(a, Shift(k));
  }

  lemma SpanUp(k: nat)
    ensures Span(k + 1) == 16 * Span(k)
  {
    ByHexDigit(0, Shift(k));
  }

  lemma {:induction false} BlockNests(k: nat, m: nat, a: nat, b: nat)
    requires k <= m && Block(k, a) == Block(k, b)
    ensures Block(m, a) == Block(m, b)
  {
    if k < m {
      BlockNests(k, m - 1, a, b);
      BlockUp(m - 1, a);
      BlockUp(m - 1, b);
    }
  }

  // ----- contents

  predicate Present(t: Tree) {
    t != Empty
  }

  /** The page found on the way down from a level-k entry along the digits of a. */
  function Find(t: Tree, k: nat, a: nat): (p: Option<Page>)
    ensures p.Some? ==> p.value.level <= k
    ensures p.Some? && t.Dir? ==> p.value.level < k
  {
    match t
    case Empty => None
    case Leaf(r) => Some(Page(k, r))
    case Dir(_, kids) => if k == 0 || |kids| != 16 then None else Find(kids[Digit(k - 1, a)], k - 1, a)
  }

  function FindIn(v: View, a: nat): (p: Option<Page>) {
    if Block(v.level, a) == v.block then Find(v.tree, v.level, a) else None
  }

  /** Two tables answer every lookup alike. */
  ghost predicate FindSame(v: View, w: View) {
    forall a :: FindIn(v, a) == FindIn(w, a)
  }

  /** w answers like v, except that the level-k page at a now belongs to r. */
  ghost predicate Adds(v: View, w: View, k: nat, a: nat, r: PgtRegion) {
    forall b :: FindIn(w, b) == if Block(k, b) == Block(k, a) then Some(Page(k, r)) else FindIn(v, b)
  }

  /** w answers like v, except that the level-k page at a is gone. */
  ghost predicate Drops(v: View, w: View, k: nat, a: nat) {
    forall b :: FindIn(w, b) == if Block(k, b) == Block(k, a) then None else FindIn(v, b)
  }

  /** No address of the level-k page at a is covered. */
  ghost predicate Uncovered(v: View, k: nat, a: nat) {
    forall b | Block(k, b) == Block(k, a) :: FindIn(v, b) == None
  }

  ghost predicate HasKid(kids: seq<Tree>) {
    exists i | 0 <= i < |kids| :: Present(kids[i])
  }

  ghost predicate TwoKids(kids: seq<Tree>) {
    exists i, j | 0 <= i < j < |kids| :: Present(kids[i]) && Present(kids[j])
  }

  /** Directories have 16 entries, at least one of them present, and sit above level 0. */
  ghost predicate Shape(t: Tree, k: nat) {
    t.Dir? ==>
      k > 0 && |t.kids| == 16 && HasKid(t.kids) && forall i | 0 <= i < 16 :: Shape(t.kids[i], k - 1)
  }

  /** The form every public operation leaves the table in. */
  ghost predicate Canonical(v: View) {
    && Shape(v.tree, v.level)
    && (v.tree == Empty ==> v.level == 0 && v.block == 0)
    && (v.tree.Dir? ==> TwoKids(v.tree.kids))
  }

  /** Equality of trees up to the addresses of their directories. */
  ghost predicate Same(t: Tree, u: Tree) {
    match (t, u)
    case (Dir(_, ts), Dir(_, us)) => |ts| == |us| && forall i | 0 <= i < |ts| :: Same(ts[i], us[i])
    case _ => t == u
  }

  lemma {:induction false} SameReflexive(t: Tree)
    ensures Same(t, t)
  {
    if t.Dir? {
      forall i | 0 <= i < |t.kids|
        ensures Same(t.kids[i], t.kids[i])
      {
        SameReflexive(t.kids[i]);
      }
    }
  }

  ghost predicate SameView(v: View, w: View) {
    Same(v.tree, w.tree) && v.level == w.level && v.block == w.block
  }

  lemma SameViewReflexive(v: View)
    ensures SameView(v, v)
  {
    SameReflexive(v.tree);
  }

  lemma ChildBlock(k: nat, n: nat, i: nat, a: nat)
    requires Block(k, a) == 16 * n + i && i < 16
    ensures Block(k + 1, a) == n && Digit(k, a) == i
  {
    BlockUp(k, a);
  }

  /** A present subtree of a well-shaped tree holds a page. */
  lemma {:induction false} Inhabited(t: Tree, k: nat, n: nat) returns (a: nat)
    requires Shape(t, k) && Present(t)
    ensures Block(k, a) == n && Find(t, k, a).Some?
  {
    if t.Leaf? {
      a := BlockBase(k, n);
      ShrRange(a, n, Shift(k));
    } else {
      var i :| 0 <= i < |t.kids| && Present(t.kids[i]);
      a := Inhabited(t.kids[i], k - 1, 16 * n + i);
      ChildBlock(k - 1, n, i, a);
    }
  }

  /** Well-shaped trees over one block that find the same pages have the same shape. */
  lemma {:induction false} ShapeUnique(t: Tree, u: Tree, k: nat, n: nat)
    requires Shape(t, k) && Shape(u, k)
    requires forall a :: Block(k, a) == n ==> Find(t, k, a) == Find(u, k, a)
    ensures Same(t, u)
  {
    if t.Dir? && u.Dir? {
      forall i | 0 <= i < 16
        ensures Same(t.kids[i], u.kids[i])
      {
        var m, c := k - 1, 16 * n + i;
        forall a | Block(m, a) == c
          ensures Find(t.kids[i], m, a) == Find(u.kids[i], m, a)
        {
          ChildBlock(k - 1, n, i, a);
          assert Find(t, k, a) == Find(u, k, a);
        }
        ShapeUnique(t.kids[i], u.kids[i], k - 1, 16 * n + i);
      }
    } else if Present(t) {
      var a := Inhabited(t, k, n);
      assert Find(t, k, a) == Find(u, k, a);
    } else if Present(u) {
      var a := Inhabited(u, k, n);
    }
  }

  /** A canonical table differs somewhere from an empty one and from a deeper one. */
  lemma Disagrees(v: View, w: View) returns (a: nat)
    requires Canonical(v) && Canonical(w) && Present(v.tree) && (Present(w.tree) ==> v.level < w.level)
    ensures FindIn(v, a) != FindIn(w, a)
  {
    a := Inhabited(v.tree, v.level, v.block);
    if w.tree.Dir? {
      var i, j :| 0 <= i < j < |w.tree.kids| && Present(w.tree.kids[i]) && Present(w.tree.kids[j]);
      var b := Inhabited(w.tree.kids[i], w.level - 1, 16 * w.block + i);
      var c := Inhabited(w.tree.kids[j], w.level - 1, 16 * w.block + j);
      ChildBlock(w.level - 1, w.block, i, b);
      ChildBlock(w.level - 1, w.block, j, c);
      if Block(v.level, b) != v.block {
        a := b;
      } else if Block(v.level, c) != v.block {
        a := c;
      } else {
        BlockNests(v.level, w.level - 1, b, c);
        assert false;
      }
    }
  }

  /** A canonical table is determined, up to directory addresses, by what it finds. */
  lemma CanonicalUnique(v: View, w: View)
    requires Canonical(v) && Canonical(w)
    requires FindSame(v, w)
    ensures SameView(v, w)
  {
    if Present(v.tree) && Present(w.tree) {
      if v.level < w.level {
        var a := Disagrees(v, w);
        assert false;
      } else if w.level < v.level {
        var a := Disagrees(w, v);
        assert false;
      }
      var a := Inhabited(v.tree, v.level, v.block);
      assert FindIn(w, a) == FindIn(v, a);
      forall b | Block(v.level, b) == v.block
        ensures Find(v.tree, v.level, b) == Find(w.tree, v.level, b)
      {
        assert FindIn(v, b) == FindIn(w, b);
      }
      ShapeUnique(v.tree, w.tree, v.level, v.block);
    } else if Present(v.tree) {
      var a := Disagrees(v, w);
      assert false;
    } else if Present(w.tree) {
      var a := Disagrees(w, v);
      assert false;
    }
  }
}
