/**
 What the page table does to its tree: grow the root by one level, shrink it while it has a
 single entry, and unlink a page together with the directories it leaves empty.
 */
module PgtMoves {
  import opened PgtTree
  import opened PgtMemory

  function NoKids(): (kids: seq<Tree>)
    ensures |kids| == 16 && forall i | 0 <= i < 16 :: kids[i] == Empty
  {
    seq(16, _ => Empty)
  }

  // ----- growing and shrinking the root

  function Expanded(v: View, p: nat): (w: View) {
    View(if v.tree == Empty then Empty else Dir(p, NoKids()[v.block % 16 := v.tree]), v.level + 1, v.block / 16)
  }

  /** Growing the root changes no answer. */
  lemma ExpandFind(v: View, p: nat, a: nat)
    ensures FindIn(Expanded(v, p), a) == FindIn(v, a)
  {
    BlockUp(v.level, a);
    var w, d := Expanded(v, p), Digit(v.level, a);
    if Present(v.tree) && Block(w.level, a) == w.block {
      assert FindIn(w, a) == Find(w.tree.kids[d], v.level, a);
      assert w.tree.kids[d] == if Block(v.level, a) == v.block then v.tree else Empty;
    }
  }

  lemma ExpandSame(v: View, p: nat)
    ensures FindSame(Expanded(v, p), v)
  {
    forall a
      ensures FindIn(Expanded(v, p), a) == FindIn(v, a)
    {
      ExpandFind(v, p, a);
    }
  }

  lemma ExpandShape(v: View, p: nat)
    requires Shape(v.tree, v.level)
    ensures Shape(Expanded(v, p).tree, v.level + 1)
  {
    if Present(v.tree) {
      assert Present(Expanded(v, p).tree.kids[v.block % 16]);
    }
  }

  /** The root has a present kid other than d. */
  ghost predicate OtherKid(kids: seq<Tree>, d: nat) {
    exists j | 0 <= j < |kids| && j != d :: Present(kids[j])
  }

  /** When a lies below the root, the root has an entry besides the one on the way to a. */
  ghost predicate RoomFor(v: View, k: nat, a: nat) {
    v.level > k && v.tree.Dir? && Block(v.level, a) == v.block ==> OtherKid(v.tree.kids, Digit(v.level - 1, a))
  }

  lemma EmptyRoom(v: View, k: nat, a: nat)
    requires v.tree == Empty
    ensures RoomFor(v, k, a)
  {
  }

  lemma CanonicalRoom(v: View, k: nat, a: nat)
    requires Canonical(v)
    ensures RoomFor(v, k, a)
  {
    if v.level > k && v.tree.Dir? {
      var i, j :| 0 <= i < j < |v.tree.kids| && Present(v.tree.kids[i]) && Present(v.tree.kids[j]);
      var d := Digit(v.level - 1, a);
      assert Present(v.tree.kids[if i == d then j else i]);
    }
  }

  /** Growing the root because a was out of range leaves the old root beside the way to a. */
  lemma ExpandedRoom(v: View, p: nat, k: nat, a: nat)
    requires Present(v.tree) && Block(v.level, a) != v.block
    ensures RoomFor(Expanded(v, p), k, a)
  {
    BlockUp(v.level, a);
    assert Present(Expanded(v, p).tree.kids[v.block % 16]);
  }

  predicate OnlyKid(kids: seq<Tree>, i: nat) {
    i < |kids| && Present(kids[i]) && forall j | 0 <= j < |kids| && j != i :: kids[j] == Empty
  }

  /** Index of the first present kid. */
  function FirstKid(kids: seq<Tree>): (i: nat) {
    if kids == [] || Present(kids[0]) then 0 else 1 + FirstKid(kids[1..])
  }

  lemma {:induction false} OnlyIsFirst(kids: seq<Tree>, i: nat)
    requires OnlyKid(kids, i)
    ensures FirstKid(kids) == i
  {
    if i > 0 {
      var rest := kids[1..];
      assert forall j | 0 <= j < |rest| :: rest[j] == kids[j + 1];
      OnlyIsFirst(rest, i - 1);
    }
  }

  /** The root after all shrinking: the reset view when empty, else past every single-entry directory. */
  function Shrunk(v: View): (w: View)
    decreases v.level
  {
    if v.tree == Empty then View(Empty, 0, 0)
    else if v.tree.Dir? && v.level > 0 && OnlyKid(v.tree.kids, FirstKid(v.tree.kids)) then
      var i := FirstKid(v.tree.kids);
      Shrunk(View(v.tree.kids[i], v.level - 1, 16 * v.block + i))
    else v
  }

  /** One shrinking step. */
  lemma ShrunkStep(v: View, i: nat)
    requires v.tree.Dir? && v.level > 0 && OnlyKid(v.tree.kids, i)
    ensures Shrunk(v) == Shrunk(View(v.tree.kids[i], v.level - 1, 16 * v.block + i))
  {
    OnlyIsFirst(v.tree.kids, i);
  }

  /** Nothing to shrink: an empty table goes back to the start, any other stays. */
  lemma ShrunkStays(v: View)
    ensures v.tree == Empty ==> Shrunk(v) == View(Empty, 0, 0)
    ensures v.tree.Leaf? ==> Shrunk(v) == v
    ensures v.tree.Dir? && !OnlyKid(v.tree.kids, FirstKid(v.tree.kids)) ==> Shrunk(v) == v
  {
  }

  lemma ShrinkFind(v: View, i: nat, a: nat)
    requires Shape(v.tree, v.level) && v.tree.Dir? && OnlyKid(v.tree.kids, i)
    ensures FindIn(View(v.tree.kids[i], v.level - 1, 16 * v.block + i), a) == FindIn(v, a)
  {
    BlockUp(v.level - 1, a);
    var d := Digit(v.level - 1, a);
    if Block(v.level, a) == v.block {
      assert FindIn(v, a) == Find(v.tree.kids[d], v.level - 1, a);
      assert d == i <==> Block(v.level - 1, a) == 16 * v.block + i;
    }
  }

  /** Shrinking ends in the canonical form and changes no answer. */
  lemma {:induction false} ShrunkCanonical(v: View)
    requires Shape(v.tree, v.level)
    ensures Canonical(Shrunk(v))
    ensures FindSame(Shrunk(v), v)
    decreases v.level
  {
    if v.tree.Dir? {
      var i := FirstKid(v.tree.kids);
      if OnlyKid(v.tree.kids, i) {
        var w := View(v.tree.kids[i], v.level - 1, 16 * v.block + i);
        ShrunkStep(v, i);
        ShrunkCanonical(w);
        forall a
          ensures FindIn(Shrunk(v), a) == FindIn(v, a)
        {
          ShrinkFind(v, i, a);
        }
      } else {
        var j: nat :| j < |v.tree.kids| && Present(v.tree.kids[j]);
        if OnlyKid(v.tree.kids, j) { OnlyIsFirst(v.tree.kids, j); }
      }
    }
  }

  lemma CanonicalShrunk(v: View)
    requires Canonical(v)
    ensures Shrunk(v) == v
  {
    if v.tree.Dir? {
      var i, j :| 0 <= i < j < |v.tree.kids| && Present(v.tree.kids[i]) && Present(v.tree.kids[j]);
      assert !OnlyKid(v.tree.kids, FirstKid(v.tree.kids));
    }
  }

  lemma ExpandedOnly(v: View, p: nat)
    requires Present(v.tree)
    ensures Expanded(v, p).tree.Dir? && OnlyKid(Expanded(v, p).tree.kids, v.block % 16)
    ensures Expanded(v, p).tree.kids[v.block % 16] == v.tree
    ensures Expanded(v, p).level == v.level + 1 && Expanded(v, p).block == v.block / 16
  {
  }

  /** Shrinking undoes growing exactly, directory addresses included. */
  lemma ShrunkExpanded(v: View, p: nat)
    requires Present(v.tree)
    ensures Shrunk(Expanded(v, p)) == Shrunk(v)
  {
    hide Shrunk, Expanded, OnlyKid, FirstKid;
    var i, w := v.block % 16, Expanded(v, p);
    ExpandedOnly(v, p);
    ShrunkStep(w, i);
    assert 16 * w.block + i == v.block;
  }

  /** A directory with one present entry is a context without other directories. */
  lemma SoleContext(m: Memory, p: nat, d: nat, es: seq<PgtEntry>)
    requires d < 16 && p in m && m[p] == PgtDir(es, 1) && |es| == 16 && es[d] != EmptyEntry
    requires forall i | 0 <= i < 16 && i != d :: es[i] == EmptyEntry
    ensures var z := In(Top, p, NoKids(), d);
            FitsHoles(z) && DistinctAround(z) && ContextPtrs(z) == {p} && RepAround(m, z, es[d])
  {
    var z := In(Top, p, NoKids(), d);
    CountOne(es, d);
    assert FramePtrs(p, z.kids, z.d) == {p};
    assert ContextPtrs(Top) == {};
  }

  /** A directory with the root as its only entry represents the grown tree. */
  lemma ExpandLinked(m: Memory, m': Memory, v: View, p: nat, es: seq<PgtEntry>)
    requires Linked(m, Entry(v.tree), Top, v.tree) && Present(v.tree) && p !in m
    requires |es| == 16 && es[v.block % 16] == Entry(v.tree)
    requires forall i | 0 <= i < 16 && i != v.block % 16 :: es[i] == EmptyEntry
    requires m' == m[p := PgtDir(es, 1)]
    ensures Linked(m', DirEntry(p), Top, Expanded(v, p).tree)
  {
    hide RepAround, DistinctAround, FramePtrs, Count;
    var z := In(Top, p, NoKids(), v.block % 16);
    SoleContext(m', p, v.block % 16, es);
    RepFrame(m, m', v.tree);
    assert m.Keys == Ptrs(v.tree);
    assert Rep(m', v.tree);
    assert Plug(z, v.tree) == Plug(Top, Dir(p, NoKids()[v.block % 16 := v.tree]));
    assert m'.Keys == ContextPtrs(z) + Ptrs(v.tree);
    assert Linked(m', DirEntry(p), z, v.tree);
    LeaveOnce(m', DirEntry(p), z, v.tree);
  }

  /** Without its root directory the memory represents the root's only entry. */
  lemma ShrinkLinked(m: Memory, t: Tree, i: nat)
    requires Linked(m, Entry(t), Top, t) && t.Dir? && |t.kids| == 16 && OnlyKid(t.kids, i)
    ensures Linked(m - {t.ptr}, Entry(t.kids[i]), Top, t.kids[i])
  {
    Enter(m, Entry(t), Top, t, i);
    assert FramePtrs(t.ptr, t.kids, i) == {t.ptr};
    RepFrame(m, m - {t.ptr}, t.kids[i]);
  }

  /** Filling the hole with a present tree touches one kid of the root, and makes it present. */
  lemma {:induction false} PlugRoot(z: Context, u: Tree, w: Tree, k: nat, a: nat)
    requires Along(z, k, a) && FitsHoles(z) && z.In?
    ensures Plug(z, u).Dir? && Plug(z, w).Dir? && |Plug(z, u).kids| == |Plug(z, w).kids| == 16
    ensures forall j | 0 <= j < 16 && j != Digit(k + Depth(z) - 1, a) :: Plug(z, u).kids[j] == Plug(z, w).kids[j]
    ensures Present(u) ==> Present(Plug(z, u).kids[Digit(k + Depth(z) - 1, a)])
  {
    if z.up.In? {
      PlugRoot(z.up, Dir(z.ptr, z.kids[z.d := u]), Dir(z.ptr, z.kids[z.d := w]), k + 1, a);
    }
  }

  // ----- unlinking a page

  /** t without the page found along a; directories left without entries go too. */
  ghost function Unlinked(t: Tree, k: nat, a: nat): (u: Tree)
    decreases k
  {
    if t.Dir? && k > 0 && |t.kids| == 16 then
      var d := Digit(k - 1, a);
      var kids := t.kids[d := Unlinked(t.kids[d], k - 1, a)];
      if HasKid(kids) then Dir(t.ptr, kids) else Empty
    else Empty
  }

  lemma {:induction false} UnlinkedShape(t: Tree, k: nat, a: nat)
    requires Shape(t, k)
    ensures Shape(Unlinked(t, k, a), k)
  {
    if t.Dir? { UnlinkedShape(t.kids[Digit(k - 1, a)], k - 1, a); }
  }

  /** Exactly the addresses of the unlinked page stop being found. */
  lemma {:induction false} UnlinkedFind(t: Tree, k: nat, a: nat, b: nat)
    requires Shape(t, k) && Find(t, k, a).Some? && Block(k, a) == Block(k, b)
    ensures var l := Find(t, k, a).value.level;
            Find(Unlinked(t, k, a), k, b) == if Block(l, a) == Block(l, b) then None else Find(t, k, b)
  {
    if t.Dir? {
      var d := Digit(k - 1, a);
      var l := Find(t, k, a).value.level;
      var kids := t.kids[d := Unlinked(t.kids[d], k - 1, a)];
      BlockUp(k - 1, a);
      BlockUp(k - 1, b);
      if Block(k - 1, a) == Block(k - 1, b) {
        UnlinkedFind(t.kids[d], k - 1, a, b);
      } else {
        if Block(l, a) == Block(l, b) { BlockNests(l, k - 1, a, b); }
        assert Digit(k - 1, b) != d;
      }
      if !HasKid(kids) { assert !Present(kids[Digit(k - 1, b)]); }
    }
  }

  lemma DistinctKid(t: Tree, d: nat, u: Tree)
    requires t.Dir? && d < |t.kids| && Distinct(t) && Distinct(u) && Ptrs(u) <= Ptrs(t.kids[d])
    ensures Distinct(Dir(t.ptr, t.kids[d := u])) && Ptrs(Dir(t.ptr, t.kids[d := u])) <= Ptrs(t)
  {
    FrameSplits(t, d);
    FrameJoins(t.ptr, t.kids, d, u);
    DirDistinct(t.ptr, t.kids, d, u);
  }

  // ----- the represented tree

  /**
   The directories in memory are exactly those of the tree, each reached once, every count
   is the number of present entries, and no directory is empty.
   */
  ghost predicate TreeOf(dirs: Memory, root: PgtEntry, tree: Tree, level: nat) {
    Linked(dirs, root, Top, tree) && Shape(tree, level)
  }

  /** What the root entry says about the tree. */
  lemma RootFacts(dirs: Memory, root: PgtEntry, tree: Tree, level: nat)
    requires TreeOf(dirs, root, tree, level)
    ensures root == Entry(tree)
    ensures tree == Empty ==> dirs == map[]
    ensures tree.Dir? ==>
              && level > 0 && |tree.kids| == 16 && HasKid(tree.kids)
              && tree.ptr in dirs && |dirs[tree.ptr].entries| == 16
              && (forall i | 0 <= i < 16 :: dirs[tree.ptr].entries[i] == Entry(tree.kids[i]))
              && dirs[tree.ptr].count == Count(dirs[tree.ptr].entries)
  {
  }

  lemma TreeDown(dirs: Memory, root: PgtEntry, tree: Tree, level: nat, idx: nat)
    requires TreeOf(dirs, root, tree, level) && tree.Dir? && OnlyKid(tree.kids, idx)
    ensures level > 0 && idx < 16 && root == DirEntry(tree.ptr) && tree.ptr in dirs
    ensures |dirs[tree.ptr].entries| == 16 && dirs[tree.ptr].entries[idx] == Entry(tree.kids[idx])
    ensures TreeOf(dirs - {tree.ptr}, Entry(tree.kids[idx]), tree.kids[idx], level - 1)
  {
    ShrinkLinked(dirs, tree, idx);
  }

  lemma TreeUp(m: Memory, m': Memory, root: PgtEntry, v: View, p: nat)
    requires TreeOf(m, root, v.tree, v.level) && Present(v.tree) && p !in m
    requires m' == m[p := PgtDir(seq(16, _ => EmptyEntry)[v.block % 16 := root], 1)]
    ensures TreeOf(m', DirEntry(p), Expanded(v, p).tree, v.level + 1)
  {
    ExpandLinked(m, m', v, p, m'[p].entries);
    ExpandShape(v, p);
  }

  /** An empty table is empty at every level. */
  lemma EmptyUp(m: Memory, root: PgtEntry, v: View, p: nat)
    requires TreeOf(m, root, v.tree, v.level) && v.tree == Empty
    ensures TreeOf(m, root, Expanded(v, p).tree, v.level + 1)
  {
  }

  /** In a directory that has a kid, a count of one says the found entry is the only one. */
  lemma CountPresent(es: seq<PgtEntry>, kids: seq<Tree>, idx: nat)
    requires |es| == |kids| && HasKid(kids) && forall i | 0 <= i < |es| :: es[i] == Entry(kids[i])
    requires idx <= |es| && (idx < |es| ==> es[idx] != EmptyEntry) && forall i | 0 <= i < idx :: es[i] == EmptyEntry
    ensures idx < |es| && (Count(es) == 1 <==> OnlyKid(kids, idx))
    ensures FirstKid(kids) == idx
  {
    var j :| 0 <= j < |kids| && Present(kids[j]);
    assert es[j] != EmptyEntry;
    CountOne(es, idx);
    FirstKidIs(kids, idx);
  }

  lemma {:induction false} FirstKidIs(kids: seq<Tree>, idx: nat)
    requires idx < |kids| && Present(kids[idx]) && forall i | 0 <= i < idx :: kids[i] == Empty
    ensures FirstKid(kids) == idx
  {
    if idx > 0 {
      FirstKidIs(kids[1..], idx - 1);
    }
  }
}
