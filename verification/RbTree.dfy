/**
 The red-black tree object: rotations, the insertion and erasure fix-ups, replacement and
 in-order neighbours, all on parent and child pointers updated in place.
 */
module RbTree {
  import opened RbShape
  import opened RbMemory
  import opened RbErase

  /** What a left rotation at x writes. */
  ghost predicate RotatedLeft(m: Memory, m': Memory, z: Context, t: Tree)
    requires t != Leaf && t.right != Leaf
  {
    var x, y, b := t.id, t.right.id, t.right.left;
    && x in m' && m'[x] == RbNode(y, t.color, Ptr(t.left), Ptr(b))
    && y in m' && m'[y] == RbNode(Above(z), t.right.color, x, Ptr(t.right.right))
    && (b != Leaf ==> b.id in m && b.id in m' && m'[b.id] == m[b.id].(parent := x))
    && (z != Top ==> z.id in m' && m'[z.id] == Around(z, y))
    && Agree(m, m', ContextIds(z) + Ids(t) - {x, y, Ptr(b), Above(z)})
  }

  /** The nodes a rotation touches are different, and their cells are as the tree says. */
  lemma LeftPivot(m: Memory, ref: nat, z: Context, t: Tree)
    requires Linked(m, ref, z, t) && t != Leaf && t.right != Leaf
    ensures var x, y, b := t.id, t.right.id, t.right.left;
            && x != 0 && x in m && m[x] == RbNode(Above(z), t.color, Ptr(t.left), y)
            && y != 0 && y in m && m[y] == RbNode(x, t.right.color, Ptr(b), Ptr(t.right.right)) && x != y
            && (b != Leaf ==> b.id != 0 && b.id in m && b.id != x && b.id != y)
            && (z != Top ==> z.id != 0 && z.id in m && m[z.id] == Around(z, x))
            && (z != Top ==> z.id != x && z.id != y && z.id != Ptr(b) && (z.InRight? ==> Ptr(z.left) != x))
  {
    RepNonNull(m, t, Above(z));
    AroundNonNull(m, z, Ptr(t));
    assert Rep(m, t.right, t.id) && Distinct(t.right);
    if t.right.left != Leaf { assert t.right.left.id in Ids(t.right); }
    if z.InRight? && z.left != Leaf { assert z.left.id in ContextIds(z); }
  }

  /** The subtrees around the pivot keep clear of the nodes it touches. */
  lemma LeftParts(m: Memory, ref: nat, z: Context, t: Tree)
    requires Linked(m, ref, z, t) && t != Leaf && t.right != Leaf
    ensures var b := t.right.left;
            var keep := ContextIds(z) + Ids(t) - {t.id, t.right.id, Ptr(b), Above(z)};
            Ids(t.left) <= keep && Ids(t.right.right) <= keep && Ids(b) - {Ptr(b)} <= keep
            && ContextIds(z) - {Above(z)} <= keep
  {
    RepNonNull(m, t, Above(z));
    AroundNonNull(m, z, Ptr(t));
    assert Distinct(t.right);
    assert z != Top ==> Above(z) in ContextIds(z);
    var b := t.right.left;
    assert b != Leaf ==> Ptr(b) in Ids(b);
  }

  lemma RightParts(m: Memory, ref: nat, z: Context, t: Tree)
    requires Linked(m, ref, z, t) && t != Leaf && t.left != Leaf
    ensures var b := t.left.right;
            var keep := ContextIds(z) + Ids(t) - {t.id, t.left.id, Ptr(b), Above(z)};
            Ids(t.right) <= keep && Ids(t.left.left) <= keep && Ids(b) - {Ptr(b)} <= keep
            && ContextIds(z) - {Above(z)} <= keep
  {
    RepNonNull(m, t, Above(z));
    AroundNonNull(m, z, Ptr(t));
    assert Distinct(t.left);
    assert z != Top ==> Above(z) in ContextIds(z);
    var b := t.left.right;
    assert b != Leaf ==> Ptr(b) in Ids(b);
  }

  lemma RightPivot(m: Memory, ref: nat, z: Context, t: Tree)
    requires Linked(m, ref, z, t) && t != Leaf && t.left != Leaf
    ensures var x, y, b := t.id, t.left.id, t.left.right;
            && x != 0 && x in m && m[x] == RbNode(Above(z), t.color, y, Ptr(t.right))
            && y != 0 && y in m && m[y] == RbNode(x, t.left.color, Ptr(t.left.left), Ptr(b)) && x != y
            && (b != Leaf ==> b.id != 0 && b.id in m && b.id != x && b.id != y)
            && (z != Top ==> z.id != 0 && z.id in m && m[z.id] == Around(z, x))
            && (z != Top ==> z.id != x && z.id != y && z.id != Ptr(b) && (z.InRight? ==> Ptr(z.left) != x))
  {
    RepNonNull(m, t, Above(z));
    AroundNonNull(m, z, Ptr(t));
    assert Rep(m, t.left, t.id) && Distinct(t.left);
    if t.left.right != Leaf { assert t.left.right.id in Ids(t.left); }
    if z.InRight? && z.left != Leaf { assert z.left.id in ContextIds(z); }
  }

  function LeftRotation(t: Tree): (u: Tree)
    requires t != Leaf && t.right != Leaf
    ensures InOrder(u) == InOrder(t)
  {
    var u := Node(Node(t.left, t.id, t.color, t.right.left), t.right.id, t.right.color, t.right.right);
    assert InOrder(t) == InOrder(t.left) + [t.id] + (InOrder(t.right.left) + [t.right.id] + InOrder(t.right.right));
    u
  }

  lemma RotatedLeftLinked(m: Memory, m': Memory, ref: nat, ref': nat, z: Context, t: Tree)
    requires Linked(m, ref, z, t) && t != Leaf && t.right != Leaf && RotatedLeft(m, m', z, t)
    requires ref' == if z == Top then t.right.id else ref
    ensures Linked(m', ref', z, LeftRotation(t))
  {
    var a, b, e := t.left, t.right.left, t.right.right;
    LeftPivot(m, ref, z, t);
    LeftParts(m, ref, z, t);
    assert Rep(m, t.right, t.id) && Distinct(t.right);
    RepFrame(m, m', a, t.id);
    RepFrame(m, m', e, t.right.id);
    RepMoved(m, m', b, t.right.id, t.id);
    RepAroundFilled(m, m', z, t.id, t.right.id);
    if z != Top { PlugPtr(z, t, LeftRotation(t)); }
  }

  /** What a right rotation at x writes. */
  ghost predicate RotatedRight(m: Memory, m': Memory, z: Context, t: Tree)
    requires t != Leaf && t.left != Leaf
  {
    var x, y, b := t.id, t.left.id, t.left.right;
    && x in m' && m'[x] == RbNode(y, t.color, Ptr(b), Ptr(t.right))
    && y in m' && m'[y] == RbNode(Above(z), t.left.color, Ptr(t.left.left), x)
    && (b != Leaf ==> b.id in m && b.id in m' && m'[b.id] == m[b.id].(parent := x))
    && (z != Top ==> z.id in m' && m'[z.id] == Around(z, y))
    && Agree(m, m', ContextIds(z) + Ids(t) - {x, y, Ptr(b), Above(z)})
  }

  function RightRotation(t: Tree): (u: Tree)
    requires t != Leaf && t.left != Leaf
    ensures InOrder(u) == InOrder(t)
  {
    var u := Node(t.left.left, t.left.id, t.left.color, Node(t.left.right, t.id, t.color, t.right));
    assert InOrder(u) == InOrder(t.left.left) + [t.left.id] + (InOrder(t.left.right) + [t.id] + InOrder(t.right));
    u
  }

  lemma RotatedRightLinked(m: Memory, m': Memory, ref: nat, ref': nat, z: Context, t: Tree)
    requires Linked(m, ref, z, t) && t != Leaf && t.left != Leaf && RotatedRight(m, m', z, t)
    requires ref' == if z == Top then t.left.id else ref
    ensures Linked(m', ref', z, RightRotation(t))
  {
    var a, b, e := t.left.left, t.left.right, t.right;
    RightPivot(m, ref, z, t);
    RightParts(m, ref, z, t);
    assert Rep(m, t.left, t.id) && Distinct(t.left);
    RepFrame(m, m', a, t.left.id);
    RepFrame(m, m', e, t.id);
    RepMoved(m, m', b, t.left.id, t.id);
    RepAroundFilled(m, m', z, t.id, t.left.id);
    if z != Top { PlugPtr(z, t, RightRotation(t)); }
  }

  lemma RecoloredLinked(m: Memory, m': Memory, ref: nat, z: Context, t: Tree, c: Color)
    requires Linked(m, ref, z, t) && t != Leaf && t.id in m && m' == m[t.id := m[t.id].(color := c)]
    ensures Linked(m', ref, z, t.(color := c))
  {
    RepFrame(m, m', t.left, t.id);
    RepFrame(m, m', t.right, t.id);
    RepAroundFrame(m, m', z, t.id);
    PlugPtr(z, t, t.(color := c));
  }

  lemma PushedBlackLinked(m: Memory, m': Memory, ref: nat, z: Context, t: Tree)
    requires Linked(m, ref, z, t) && t != Leaf && t.left != Leaf && t.right != Leaf
    requires {t.id, t.left.id, t.right.id} <= m.Keys
    requires m' == m[t.left.id := m[t.left.id].(color := Black)][t.right.id := m[t.right.id].(color := Black)]
                    [t.id := m[t.id].(color := Red)]
    ensures Linked(m', ref, z, Node(t.left.(color := Black), t.id, Red, t.right.(color := Black)))
  {
    DownLeft(m, ref, z, t);
    var m1 := m[t.left.id := m[t.left.id].(color := Black)];
    RecoloredLinked(m, m1, ref, InLeft(z, t.id, t.color, t.right), t.left, Black);
    var t1 := Node(t.left.(color := Black), t.id, t.color, t.right);
    Up(m1, ref, InLeft(z, t.id, t.color, t.right), t.left.(color := Black));
    DownRight(m1, ref, z, t1);
    var m2 := m1[t.right.id := m1[t.right.id].(color := Black)];
    RecoloredLinked(m1, m2, ref, InRight(z, t1.left, t.id, t.color), t.right, Black);
    Up(m2, ref, InRight(z, t1.left, t.id, t.color), t.right.(color := Black));
    var t2 := Node(t1.left, t.id, t.color, t.right.(color := Black));
    assert t.id != t.left.id && t.id != t.right.id && t.left.id != t.right.id;
    RecoloredLinked(m2, m2[t.id := m2[t.id].(color := Red)], ref, z, t2, Red);
  }

  /** The insertion loop's state: everything is lawful except that red t may have a red parent. */
  ghost predicate Inserting(z: Context, t: Tree, n: nat) {
    IsRed(t) && Bal(t, n) && BalAround(z, n)
  }

  lemma SameOrder(z: Context, t: Tree, u: Tree)
    requires InOrder(t) == InOrder(u)
    ensures InOrder(Plug(z, t)) == InOrder(Plug(z, u))
  {
    InOrderPlug(z, t);
    InOrderPlug(z, u);
  }

  /** The grandparent's subtree and the cells around it. */
  lemma GrandParent(m: Memory, ref: nat, z: Context, t: Tree)
    requires Linked(m, ref, z, t) && t != Leaf && z != Top && z.up != Top
    ensures var g := Wrap(z.up, Wrap(z, t));
            && Linked(m, ref, z.up.up, g) && Plug(z.up.up, g) == Plug(z, t)
            && z.id in m && m[z.id].right == (if z.InRight? then t.id else Ptr(z.right)) && m[z.id].parent == z.up.id
            && m[z.id].left == (if z.InLeft? then t.id else Ptr(z.left))
            && m[z.id].color == z.color && Ptr(Sibling(z)) != t.id
            && z.up.id in m && m[z.up.id].right == (if z.up.InRight? then z.id else Ptr(z.up.right))
            && m[z.up.id].left == (if z.up.InLeft? then z.id else Ptr(z.up.left)) && Ptr(Sibling(z.up)) != z.id
            && (Sibling(z.up) != Leaf ==> Sibling(z.up).id != 0 && Sibling(z.up).id in m
                                          && m[Sibling(z.up).id].color == Sibling(z.up).color)
  {
    Up(m, ref, z, t);
    Up(m, ref, z.up, Wrap(z, t));
    if Sibling(z) != Leaf { assert Sibling(z).id in ContextIds(z); }
    assert RepAround(m, z.up, z.id) && DistinctAround(z.up);
    if Sibling(z.up) != Leaf { assert Sibling(z.up).id in ContextIds(z.up); }
  }

  /** Colours do not show in the order. */
  lemma RecolorOrder(t: Tree, a: Color, b: Color, c: Color)
    requires t != Leaf && t.left != Leaf && t.right != Leaf
    ensures InOrder(Node(t.left.(color := a), t.id, b, t.right.(color := c))) == InOrder(t)
  {
    assert InOrder(t.left.(color := a)) == InOrder(t.left);
    assert InOrder(t.right.(color := c)) == InOrder(t.right);
  }

  lemma LiftedOrder(t: Tree)
    requires t != Leaf && t.left != Leaf
    ensures InOrder(Lifted(t)) == InOrder(t)
  {
    assert InOrder(Lifted(t)) == InOrder(RightRotation(t));
  }

  lemma LiftedRightOrder(t: Tree)
    requires t != Leaf && t.right != Leaf
    ensures InOrder(LiftedRight(t)) == InOrder(t)
  {
    assert InOrder(LiftedRight(t)) == InOrder(LeftRotation(t));
  }

  /** Left child up, in black; the node itself down to the right, in red. */
  function Lifted(t: Tree): (u: Tree)
    requires t != Leaf && t.left != Leaf
  {
    Node(t.left.left, t.left.id, Black, Node(t.left.right, t.id, Red, t.right))
  }

  function LiftedRight(t: Tree): (u: Tree)
    requires t != Leaf && t.right != Leaf
  {
    Node(Node(t.left, t.id, Red, t.right.left), t.right.id, Black, t.right.right)
  }

  /** What the insertion state says about the grandparent. */
  lemma InsertingAbove(z: Context, t: Tree, n: nat)
    requires Inserting(z, t, n) && RedTop(z)
    ensures z.up != Top && z.up.color == Black && Bal(Sibling(z.up), n) && BalAround(z.up.up, n + 1)
    ensures Bal(Sibling(z), n) && !IsRed(Sibling(z))
    ensures Bal(t, n) && IsRed(t) && Bal(t.left, n) && Bal(t.right, n) && !IsRed(t.left) && !IsRed(t.right)
  {
    assert BalAround(z.up, n);
  }

  lemma RedNode(l: Tree, x: nat, r: Tree, n: nat)
    requires Bal(l, n) && Bal(r, n) && !IsRed(l) && !IsRed(r)
    ensures Bal(Node(l, x, Red, r), n)
  {
  }

  /** Pushing the black down moves the red node two levels up. */
  lemma PushedInserting(z: Context, t: Tree, n: nat)
    requires Inserting(z, t, n) && RedTop(z) && z.up != Top && IsRed(Sibling(z.up))
    ensures var g := Wrap(z.up, Wrap(z, t));
            g.left != Leaf && g.right != Leaf &&
            Inserting(z.up.up, Node(g.left.(color := Black), g.id, Red, g.right.(color := Black)), n + 1)
  {
    InsertingAbove(z, t, n);
    var p := Wrap(z, t);
    assert Bal(Node(p.left, p.id, Black, p.right), n + 1);
    assert Bal(Sibling(z.up).(color := Black), n + 1);
  }

  /** Lifting the parent ends the violation. */
  lemma LiftedInserting(z: Context, a: Tree, p: nat, b: Tree, g: nat, u: Tree, n: nat)
    requires BalAround(z, n + 1) && IsRed(a) && Bal(a, n) && Bal(b, n) && !IsRed(b) && Bal(u, n) && !IsRed(u)
    ensures Inserting(InLeft(z, p, Black, Node(b, g, Red, u)), a, n)
    ensures Inserting(InRight(z, Node(u, g, Red, b), p, Black), a, n)
  {
  }

  lemma LeftOrder(t: Tree, l: Tree)
    requires t != Leaf && InOrder(l) == InOrder(t.left)
    ensures InOrder(t.(left := l)) == InOrder(t)
  {
  }

  lemma RightOrder(t: Tree, r: Tree)
    requires t != Leaf && InOrder(r) == InOrder(t.right)
    ensures InOrder(t.(right := r)) == InOrder(t)
  {
  }

  lemma RootBlackened(t: Tree, n: nat)
    requires t != Leaf && Bal(t, n)
    ensures RedBlack(t.(color := Black)) && InOrder(t.(color := Black)) == InOrder(t)
  {
    assert Bal(t.(color := Black), if t.color == Black then n else n + 1);
  }

  // ----- erasing

  /** Balanced, except that a red root may have a red child. */
  ghost predicate Loose(t: Tree, n: nat) {
    if IsRed(t) then Bal(t.left, n) && Bal(t.right, n) else Bal(t, n)
  }

  /** The erasure loop's state: t is one black node short of what its place asks for. */
  ghost predicate Short(z: Context, t: Tree, n: nat) {
    Loose(t, n) && BalAround(z, n + 1)
  }

  /** Everything is lawful. */
  ghost predicate Lawful(z: Context, t: Tree, n: nat) {
    Bal(t, n) && BalAround(z, n) && !(RedTop(z) && IsRed(t)) && (z == Top ==> !IsRed(t))
  }

  /** The sibling of a short black subtree. */
  lemma ShortSibling(z: Context, t: Tree, n: nat)
    requires Short(z, t, n) && z != Top && !IsRed(t)
    ensures Bal(t, n) && Sibling(z) != Leaf && Bal(Sibling(z), n + 1)
    ensures z.color == Red ==> !IsRed(Sibling(z)) && !RedTop(z.up) && z.up != Top
    ensures BalAround(z.up, if z.color == Black then n + 2 else n + 1)
    ensures IsRed(Sibling(z)) ==>
              && Sibling(z).left != Leaf && Bal(Sibling(z).left, n + 1) && !IsRed(Sibling(z).left)
              && Sibling(z).right != Leaf && Bal(Sibling(z).right, n + 1) && !IsRed(Sibling(z).right)
    ensures !IsRed(Sibling(z)) ==> Bal(Sibling(z).left, n) && Bal(Sibling(z).right, n)
  {
    assert !Bal(Leaf, n + 1);
  }

  /** A red sibling, lifted: the short subtree gets a black sibling and a red parent. */
  lemma RedSiblingShort(z: Context, t: Tree, n: nat)
    requires Short(z, t, n) && z != Top && !IsRed(t) && IsRed(Sibling(z))
    ensures z.InLeft? ==> Short(InLeft(InLeft(z.up, z.right.id, Black, z.right.right), z.id, Red, z.right.left), t, n)
    ensures z.InRight? ==> Short(InRight(InRight(z.up, z.left.left, z.left.id, Black), z.left.right, z.id, Red), t, n)
  {
    ShortSibling(z, t, n);
    var y := Sibling(z);
    if z.InLeft? {
      assert BalAround(InLeft(z.up, y.id, Black, y.right), n + 1);
    } else {
      assert BalAround(InRight(z.up, y.left, y.id, Black), n + 1);
    }
  }

  /** A black sibling with black children turned red: the shortage moves up. */
  lemma BlackSiblingShort(z: Context, t: Tree, n: nat)
    requires Short(z, t, n) && z != Top && !IsRed(t) && !IsRed(Sibling(z))
    requires !IsRed(Sibling(z).left) && !IsRed(Sibling(z).right)
    ensures Sibling(z) != Leaf
    ensures z.InLeft? ==> Short(z.up, Node(t, z.id, z.color, z.right.(color := Red)), if z.color == Black then n + 1 else n)
    ensures z.InRight? ==> Short(z.up, Node(z.left.(color := Red), z.id, z.color, t), if z.color == Black then n + 1 else n)
  {
    ShortSibling(z, t, n);
  }

  /** The other side of the parent: the context that has the sibling in its hole. */
  function Across(z: Context, t: Tree): (w: Context)
    requires z != Top
  {
    match z
    case InLeft(up, x, c, _) => InRight(up, t, x, c)
    case InRight(up, _, x, c) => InLeft(up, x, c, t)
  }

  /** Focus on the sibling, and the cells around it. */
  lemma SiblingCells(m: Memory, ref: nat, z: Context, t: Tree)
    requires Linked(m, ref, z, t) && z != Top && Sibling(z) != Leaf
    ensures Linked(m, ref, z.up, Wrap(z, t)) && Linked(m, ref, Across(z, t), Sibling(z))
    ensures Plug(z.up, Wrap(z, t)) == Plug(z, t)
    ensures z.id != 0 && z.id in m && m[z.id] == Around(z, Ptr(t)) && Ptr(t) != Ptr(Sibling(z))
    ensures var y := Sibling(z);
            && y.id != 0 && y.id in m && m[y.id].color == y.color
            && m[y.id].left == Ptr(y.left) && m[y.id].right == Ptr(y.right)
            && (y.left != Leaf ==> y.left.id != 0 && y.left.id in m && m[y.left.id].color == y.left.color)
            && (y.right != Leaf ==> y.right.id != 0 && y.right.id in m && m[y.right.id].color == y.right.color)
  {
    var y := Sibling(z);
    assert Rep(m, y, z.id);
    assert Rep(m, y.left, y.id) && Rep(m, y.right, y.id);
    assert y.id in ContextIds(z);
    Up(m, ref, z, t);
    if z.InLeft? { DownRight(m, ref, z.up, Wrap(z, t)); } else { DownLeft(m, ref, z.up, Wrap(z, t)); }
  }

  /** The final rotation with a red far nephew makes up for the missing black. */
  lemma FarNephewLawful(z: Context, t: Tree, p: nat, c: Color, a: Tree, y: nat, r: Tree, n: nat)
    requires Bal(t, n) && Bal(a, n) && IsRed(r) && Bal(r, n)
    requires BalAround(z, if c == Black then n + 2 else n + 1) && (c == Red ==> z != Top && !RedTop(z))
    ensures Lawful(z, Node(Node(t, p, Black, a), y, c, r.(color := Black)), if c == Black then n + 2 else n + 1)
    ensures Lawful(z, Node(r.(color := Black), y, c, Node(a, p, Black, t)), if c == Black then n + 2 else n + 1)
  {
    assert Bal(r.(color := Black), n + 1);
    assert Bal(Node(t, p, Black, a), n + 1) && Bal(Node(a, p, Black, t), n + 1);
  }

  /** A red near nephew lifted becomes the sibling, with the old sibling as red far nephew. */
  lemma NearNephew(y: Tree, n: nat)
    requires y != Leaf && !IsRed(y) && Bal(y.left, n) && Bal(y.right, n)
    ensures IsRed(y.left) && !IsRed(y.right) ==>
              var w := Lifted(y); Bal(w.left, n) && Bal(w.right, n) && IsRed(w.right)
    ensures IsRed(y.right) && !IsRed(y.left) ==>
              var w := LiftedRight(y); Bal(w.right, n) && Bal(w.left, n) && IsRed(w.left)
  {
  }

  lemma RecolorSiblingOrder(z: Context, t: Tree, c: Color)
    requires z != Top && Sibling(z) != Leaf
    ensures InOrder(Plug(z.up, Wrap(Across(z, t), Sibling(z).(color := c)))) == InOrder(Plug(z, t))
  {
    SiblingOrder(z, t, Sibling(z).(color := c));
  }

  /** Another sibling with the same nodes in the same order. */
  lemma SiblingOrder(z: Context, t: Tree, y: Tree)
    requires z != Top && InOrder(y) == InOrder(Sibling(z))
    ensures InOrder(Plug(z.up, Wrap(Across(z, t), y))) == InOrder(Plug(z, t))
  {
    SameOrder(z.up, Wrap(Across(z, t), y), Wrap(z, t));
  }

  /** Cells of a node, a child and a grandchild on the same side. */
  lemma FinishCells(m: Memory, ref: nat, z: Context, t: Tree)
    requires Linked(m, ref, z, t) && t != Leaf
    ensures t.id in m && m[t.id].color == t.color && m[t.id].left == Ptr(t.left) && m[t.id].right == Ptr(t.right)
    ensures t.right != Leaf ==> t.right.id in m && t.right.id != t.id && m[t.right.id].right == Ptr(t.right.right)
    ensures t.right != Leaf && t.right.right != Leaf ==>
              t.right.right.id in m && t.right.right.id != t.id && t.right.right.id != t.right.id
    ensures t.left != Leaf ==> t.left.id in m && t.left.id != t.id && m[t.left.id].left == Ptr(t.left.left)
    ensures t.left != Leaf && t.left.left != Leaf ==>
              t.left.left.id in m && t.left.left.id != t.id && t.left.left.id != t.left.id
  {
    if t.right != Leaf {
      assert Rep(m, t.right, t.id) && Distinct(t.right) && Rep(m, t.right.right, t.right.id);
      if t.right.right != Leaf { assert t.right.right.id in Ids(t.right); }
    }
    if t.left != Leaf {
      assert Rep(m, t.left, t.id) && Distinct(t.left) && Rep(m, t.left.left, t.left.id);
      if t.left.left != Leaf { assert t.left.left.id in Ids(t.left); }
    }
  }

  lemma FinishedLeft(m: Memory, m': Memory, ref: nat, z: Context, t: Tree, t1: Tree)
    requires Linked(m, ref, z, t) && t != Leaf && t.right != Leaf && t.right.right != Leaf
    requires {t.id, t.right.id, t.right.right.id} <= m.Keys
    requires m' == m[t.right.id := m[t.right.id].(color := t.color)][t.id := m[t.id].(color := Black)]
                    [t.right.right.id := m[t.right.right.id].(color := Black)]
    requires t1 == Node(t.left, t.id, Black, Node(t.right.left, t.right.id, t.color, t.right.right.(color := Black)))
    ensures Linked(m', ref, z, t1)
  {
    hide Linked;
    var z1, y := InRight(z, t.left, t.id, t.color), t.right;
    FinishCells(m, ref, z, t);
    DownRight(m, ref, z, t);
    var m1 := m[y.id := m[y.id].(color := t.color)];
    RecoloredLinked(m, m1, ref, z1, y, t.color);
    var y1 := y.(color := t.color);
    DownRight(m1, ref, z1, y1);
    var m2 := m1[y.right.id := m1[y.right.id].(color := Black)];
    RecoloredLinked(m1, m2, ref, InRight(z1, y.left, y.id, t.color), y.right, Black);
    Up(m2, ref, InRight(z1, y.left, y.id, t.color), y.right.(color := Black));
    var y2 := y1.(right := y.right.(color := Black));
    Up(m2, ref, z1, y2);
    var m3 := m2[t.id := m2[t.id].(color := Black)];
    RecoloredLinked(m2, m3, ref, z, t.(right := y2), Black);
    assert m3 == m';
  }

  lemma FinishedRight(m: Memory, m': Memory, ref: nat, z: Context, t: Tree, t1: Tree)
    requires Linked(m, ref, z, t) && t != Leaf && t.left != Leaf && t.left.left != Leaf
    requires {t.id, t.left.id, t.left.left.id} <= m.Keys
    requires m' == m[t.left.id := m[t.left.id].(color := t.color)][t.id := m[t.id].(color := Black)]
                    [t.left.left.id := m[t.left.left.id].(color := Black)]
    requires t1 == Node(Node(t.left.left.(color := Black), t.left.id, t.color, t.left.right), t.id, Black, t.right)
    ensures Linked(m', ref, z, t1)
  {
    hide Linked;
    var z1, y := InLeft(z, t.id, t.color, t.right), t.left;
    FinishCells(m, ref, z, t);
    DownLeft(m, ref, z, t);
    var m1 := m[y.id := m[y.id].(color := t.color)];
    RecoloredLinked(m, m1, ref, z1, y, t.color);
    var y1 := y.(color := t.color);
    DownLeft(m1, ref, z1, y1);
    var m2 := m1[y.left.id := m1[y.left.id].(color := Black)];
    RecoloredLinked(m1, m2, ref, InLeft(z1, y.id, t.color, y.right), y.left, Black);
    Up(m2, ref, InLeft(z1, y.id, t.color, y.right), y.left.(color := Black));
    var y2 := y1.(left := y.left.(color := Black));
    Up(m2, ref, z1, y2);
    var m3 := m2[t.id := m2[t.id].(color := Black)];
    RecoloredLinked(m2, m3, ref, z, t.(left := y2), Black);
    assert m3 == m';
  }

  lemma FinishedLeftOrder(t: Tree)
    requires t != Leaf && t.right != Leaf && t.right.right != Leaf
    ensures InOrder(Node(Node(t.left, t.id, Black, t.right.left), t.right.id, t.color, t.right.right.(color := Black)))
         == InOrder(t)
  {
    assert InOrder(t.right.right.(color := Black)) == InOrder(t.right.right);
    assert InOrder(LeftRotation(t)) == InOrder(t);
  }

  lemma FinishedRightOrder(t: Tree)
    requires t != Leaf && t.left != Leaf && t.left.left != Leaf
    ensures InOrder(Node(t.left.left.(color := Black), t.left.id, t.color, Node(t.left.right, t.id, Black, t.right)))
         == InOrder(t)
  {
    assert InOrder(t.left.left.(color := Black)) == InOrder(t.left.left);
    assert InOrder(RightRotation(t)) == InOrder(t);
  }

  lemma ParentCell(m: Memory, ref: nat, z: Context, t: Tree)
    requires Linked(m, ref, z, t) && t != Leaf
    ensures t.id != 0 && t.id in m && m[t.id].parent == Above(z) && m[t.id].color == t.color
  {
  }

  lemma {:induction false} RootInContext(z: Context, t: Tree)
    requires z != Top
    ensures Ptr(Plug(z, t)) in ContextIds(z)
  {
    if z.up != Top { RootInContext(z.up, Wrap(z, t)); }
  }

  /** What the pointer in the hole tells. */
  lemma HoleCells(m: Memory, ref: nat, z: Context, t: Tree)
    requires Linked(m, ref, z, t)
    ensures t != Leaf ==> t.id != 0 && t.id in m && m[t.id].color == t.color
    ensures Ptr(t) == ref <==> z == Top
  {
    if z != Top {
      RootInContext(z, t);
      AroundNonNull(m, z, Ptr(t));
    }
  }

  /** The parent's left pointer tells on which side a short subtree hangs. */
  lemma ParentSide(m: Memory, ref: nat, z: Context, t: Tree, n: nat)
    requires Linked(m, ref, z, t) && Short(z, t, n) && !IsRed(t) && z != Top
    ensures z.id in m && (m[z.id].left == Ptr(t) <==> z.InLeft?)
  {
    ShortSibling(z, t, n);
    SiblingCells(m, ref, z, t);
  }

  /** However the erasure loop ends, blackening the last node makes the tree lawful. */
  lemma ErasedLawful(z: Context, t: Tree, n: nat, done: bool)
    requires done ==> Lawful(z, t, n)
    requires !done ==> Short(z, t, n) && (IsRed(t) || z == Top)
    ensures done ==> Plug(z, t) != Leaf ==> RedBlack(Plug(z, t).(color := Black))
    ensures !done && t != Leaf ==> RedBlack(Plug(z, t.(color := Black)))
    ensures RedBlack(Leaf)
  {
    assert Bal(Leaf, 0);
    if done {
      BalPlug(z, t, n);
      if Plug(z, t) != Leaf { RootBlackened(Plug(z, t), n + Blacks(z)); }
    } else if t != Leaf {
      var m := if IsRed(t) then n + 1 else n;
      assert Bal(t.(color := Black), m);
      BalPlug(z, t.(color := Black), m);
    }
  }

  lemma RecoloredOrder(z: Context, t: Tree, c: Color)
    requires t != Leaf
    ensures InOrder(Plug(z, t.(color := c))) == InOrder(Plug(z, t))
  {
    SameOrder(z, t, t.(color := c));
  }

  lemma SpliceCells(m: Memory, ref: nat, z: Context, t: Tree, u: Tree)
    requires Linked(m, ref, z, t) && t != Leaf && (u == t.left || u == t.right)
    ensures t.id in m && m[t.id].parent == Above(z) && m[t.id].left == Ptr(t.left) && m[t.id].right == Ptr(t.right)
    ensures u != Leaf ==> u.id != 0 && u.id in m && u.id != t.id
    ensures z != Top ==> z.id != 0 && z.id in m && m[z.id] == Around(z, t.id) && z.id != Ptr(u) && z.id != t.id
    ensures z.InRight? ==> Ptr(z.left) != t.id
  {
    RepNonNull(m, t, Above(z));
    AroundNonNull(m, z, Ptr(t));
    if u != Leaf { assert u.id in Ids(t); }
    if z.InRight? && z.left != Leaf { assert z.left.id in ContextIds(z); }
  }

  lemma ReplaceCells(m: Memory, ref: nat, z: Context, t: Tree)
    requires Linked(m, ref, z, t) && t != Leaf
    ensures m[t.id] == RbNode(Above(z), t.color, Ptr(t.left), Ptr(t.right)) && t.id in m && t.id != 0
    ensures t.left != Leaf ==> t.left.id != 0 && t.left.id in m && t.left.id != t.id && t.left.id != Ptr(t.right)
    ensures t.right != Leaf ==> t.right.id != 0 && t.right.id in m && t.right.id != t.id
    ensures t.left != Leaf ==> t.left.id in Ids(t)
    ensures t.right != Leaf ==> t.right.id in Ids(t)
    ensures z != Top ==> z.id != 0 && z.id in m && z.id in ContextIds(z) && z.id !in Ids(t) && m[z.id] == Around(z, t.id)
    ensures z.InRight? ==> Ptr(z.left) != t.id
    ensures t.id in Ids(t)
  {
    SpliceCells(m, ref, z, t, t.left);
    SpliceCells(m, ref, z, t, t.right);
  }

  /** A node's children and its parent point to it. */
  lemma SelfCells(m: Memory, ref: nat, z: Context, t: Tree)
    requires Linked(m, ref, z, t) && t != Leaf
    ensures t.id in m && (z == Top ==> ref == t.id && m[t.id].parent == 0)
    ensures z != Top ==> m[t.id].parent != 0 && m[t.id].parent in m
                         && (m[m[t.id].parent].left == t.id || m[m[t.id].parent].right == t.id)
    ensures m[t.id].left != 0 ==> m[t.id].left in m && m[m[t.id].left].parent == t.id
    ensures m[t.id].right != 0 ==> m[t.id].right in m && m[m[t.id].right].parent == t.id
  {
    ReplaceCells(m, ref, z, t);
    assert Rep(m, t.left, t.id) && Rep(m, t.right, t.id);
  }

  function Adopted(m: Memory, z: Context, y: nat): (m': Memory) {
    if z == Top then m else m[z.id := Around(z, y)]
  }

  function MovedUp(m: Memory, y: nat, x: nat, q: nat, c: nat): (m': Memory)
    requires {x, y, q} <= m.Keys && (c != 0 ==> c in m) && m[x].right in m
    ensures m'.Keys == m.Keys
  {
    var m1 := if c == 0 then m else m[c := m[c].(parent := q)];
    var m2 := m1[q := m1[q].(left := c)];
    var m3 := m2[y := m2[y].(right := m[x].right)];
    m3[m[x].right := m3[m[x].right].(parent := y)]
  }

  function TakenOver(m: Memory, y: nat, x: nat): (m': Memory)
    requires {x, y} <= m.Keys && m[x].left in m
    ensures m'.Keys == m.Keys
  {
    var m1 := m[y := m[y].(parent := m[x].parent, color := m[x].color, left := m[x].left)];
    m1[m[x].left := m1[m[x].left].(parent := y)]
  }

  lemma ExchangedNear(m: Memory, m': Memory, ref: nat, z: Context, t: Tree, zz: Context, s: Tree)
    requires Linked(m, ref, z, t) && Linked(m, ref, zz, s) && Succeeds(z, t, zz, 0, s)
    requires {t.id, s.id} <= Adopted(m, z, s.id).Keys && Adopted(m, z, s.id)[t.id].left in Adopted(m, z, s.id)
    requires m' == TakenOver(Adopted(m, z, s.id), s.id, t.id)
    ensures Exchanged(m, m', z, t, zz, 0, s)
  {
    hide Linked;
    ExchangeCells(m, ref, z, t, zz, 0, s);
  }

  lemma ExchangedFar(m: Memory, m': Memory, ref: nat, z: Context, t: Tree, zz: Context, k: nat, s: Tree)
    requires Linked(m, ref, z, t) && Linked(m, ref, zz, s) && Succeeds(z, t, zz, k, s) && k > 0
    requires {t.id, s.id, zz.id} <= Adopted(m, z, s.id).Keys && (s.right != Leaf ==> s.right.id in m)
    requires Adopted(m, z, s.id)[t.id].right in Adopted(m, z, s.id) && Adopted(m, z, s.id)[t.id].left in m
    requires var m1 := MovedUp(Adopted(m, z, s.id), s.id, t.id, zz.id, Ptr(s.right));
             t.id in m1 && m1[t.id].left in m1 && m' == TakenOver(m1, s.id, t.id)
    ensures Exchanged(m, m', z, t, zz, k, s)
  {
    hide Linked;
    ExchangeCells(m, ref, z, t, zz, k, s);
  }

  lemma GraftParent(z: Context, t: Tree, zz: Context, k: nat, s: Tree)
    requires Succeeds(z, t, zz, k, s)
    ensures Above(Graft(zz, k, InRight(z, t.left, s.id, t.color))) == if k == 0 then s.id else Above(zz)
  {
  }

  /** The nodes the exchange with the successor touches. */
  lemma ExchangeCells(m: Memory, ref: nat, z: Context, t: Tree, zz: Context, k: nat, s: Tree)
    requires Linked(m, ref, z, t) && Linked(m, ref, zz, s) && Succeeds(z, t, zz, k, s)
    ensures var x, y, l, r, u := t.id, s.id, t.left.id, t.right.id, s.right;
            && {x, y, l, r} <= m.Keys && ContextIds(z) <= m.Keys
            && 0 !in {x, y, l, r} && 0 !in ContextIds(z)
            && m[x] == RbNode(Above(z), t.color, l, r) && m[y] == RbNode(Above(zz), s.color, 0, Ptr(u))
            && x != y && x != l && x != r && l != y && l != r && (k == 0 ==> r == y)
            && (k > 0 ==> r != y && zz.id in m && zz.id != 0 && zz.id != x && zz.id != y && zz.id != l)
            && (k == 0 ==> Above(zz) == x)
            && (k > 0 ==> Above(zz) == zz.id && m[zz.id] == Around(zz, y))
            && (u != Leaf ==> u.id in m && u.id != 0 && u.id != x && u.id != y && u.id != l && u.id != zz.id)
            && (u != Leaf && k > 0 ==> u.id != r)
            && (z != Top ==> z.id in ContextIds(z) && z.id !in {x, y, l, r, Ptr(u)} && m[z.id] == Around(z, x))
            && (z != Top && k > 0 ==> z.id != zz.id)
            && (z.InRight? ==> Ptr(z.left) != x)
  {
    ReplaceCells(m, ref, z, t);
    ReplaceCells(m, ref, zz, s);
    RepNonNull(m, t, Above(z));
    AroundNonNull(m, z, Ptr(t));
    InnerHas(zz, k, s);
    assert Ids(t.right) <= Ids(t) && s.id in Ids(s);
    assert t.left.id in Ids(t.left) && t.right.id in Ids(t.right);
    assert s.right != Leaf ==> s.right.id in Ids(s);
    if k > 0 {
      InnerPtr(zz, k, s, s);
      assert zz.InLeft?;
      assert t.right.id in ContextIds(zz);
    }
  }

  ghost function Last(s: seq<nat>): (x: nat) {
    if s == [] then 0 else s[|s| - 1]
  }

  /** A left child is not its parent's right child. */
  lemma LeftNotRight(m: Memory, ref: nat, z: Context, t: Tree)
    requires Linked(m, ref, z, t) && t != Leaf
    ensures z.InLeft? ==> Ptr(z.right) != t.id
  {
    if z.InLeft? && z.right != Leaf { assert z.right.id in ContextIds(z); }
  }

  /** After splicing out a red node all is lawful; after a black one its place is short. */
  lemma SpliceShort(z: Context, t: Tree, u: Tree) returns (n: nat)
    requires t != Leaf && RedBlack(Plug(z, t))
    requires (t.left == Leaf && u == t.right) || (t.right == Leaf && u == t.left)
    ensures t.color == Black ==> Short(z, u, n)
    ensures t.color == Red ==> RedBlack(Plug(z, u))
  {
    var m: nat :| Bal(Plug(z, t), m);
    BalUnplug(z, t, m);
    n := m - Blacks(z);
    if t.color == Black {
      n := n - 1;
    } else {
      BalPlug(z, u, n);
    }
  }

  lemma SplicedOrder(z: Context, t: Tree, u: Tree)
    requires t != Leaf && ((t.left == Leaf && u == t.right) || (t.right == Leaf && u == t.left))
    ensures InOrder(Plug(z, u)) == Before(z) + InOrder(t.left) + InOrder(t.right) + After(z)
  {
    InOrderPlug(z, u);
  }

  ghost function Grafted(z: Context, t: Tree, zz: Context, k: nat, s: Tree): (w: Context)
    requires Succeeds(z, t, zz, k, s)
  {
    Graft(zz, k, InRight(z, t.left, s.id, t.color))
  }

  lemma ExchangeShort(z: Context, t: Tree, zz: Context, k: nat, s: Tree) returns (n: nat)
    requires Succeeds(z, t, zz, k, s) && Plug(zz, s) == Plug(z, t) && RedBlack(Plug(z, t))
    ensures s.color == Black ==> Short(Grafted(z, t, zz, k, s), s.right, n)
    ensures s.color == Red ==> RedBlack(Plug(Grafted(z, t, zz, k, s), s.right))
  {
    var m: nat :| Bal(Plug(zz, s), m);
    BalUnplug(zz, s, m);
    n := m - Blacks(zz);
    var z' := Grafted(z, t, zz, k, s);
    GraftBal(zz, k, InRight(z, t.left, s.id, t.color), n);
    if s.color == Black {
      n := n - 1;
    } else {
      BalPlug(z', s.right, n);
    }
  }

  class NetRbTree {
    var ref: nat
    var cells: Memory

    constructor ()
      ensures Linked(cells, ref, Top, Leaf) && cells == map[]
    {
      ref, cells := 0, map[];
    }

    method SetParent(x: nat, p: nat)
      requires x in cells
      modifies this`cells
      ensures cells == old(cells)[x := old(cells)[x].(parent := p)]
    {
      cells := cells[x := cells[x].(parent := p)];
    }

    /** Make new' the child of parent in the place of node, or the root. */
    method ReplaceChild(parent: nat, node: nat, new': nat)
      requires parent != 0 ==> parent in cells
      modifies this
      ensures parent == 0 ==> ref == new' && cells == old(cells)
      ensures parent != 0 ==>
                && ref == old(ref)
                && var c := old(cells)[parent];
                   cells == old(cells)[parent := if c.left == node then c.(left := new') else c.(right := new')]
    {
      if parent != 0 {
        if cells[parent].left == node {
          cells := cells[parent := cells[parent].(left := new')];
        } else {
          cells := cells[parent := cells[parent].(right := new')];
        }
      } else {
        ref := new';
      }
    }

    method RotateLeft(node: nat, ghost z: Context, ghost t: Tree)
      requires Linked(cells, ref, z, t) && t != Leaf && t.right != Leaf && node == t.id
      modifies this
      ensures Linked(cells, ref, z, LeftRotation(t))
      ensures cells.Keys == old(cells).Keys
    {
      LeftPivot(cells, ref, z, t);
      hide Linked;
      var right, parent := cells[node].right, cells[node].parent;
      var inner := cells[right].left;
      cells := cells[node := cells[node].(right := inner)];
      if inner != 0 {
        SetParent(inner, node);
      }
      cells := cells[right := cells[right].(left := node)];
      SetParent(right, parent);
      ReplaceChild(parent, node, right);
      SetParent(node, right);
      RotatedLeftLinked(old(cells), cells, old(ref), ref, z, t);
    }

    method RotateRight(node: nat, ghost z: Context, ghost t: Tree)
      requires Linked(cells, ref, z, t) && t != Leaf && t.left != Leaf && node == t.id
      modifies this
      ensures Linked(cells, ref, z, RightRotation(t))
      ensures cells.Keys == old(cells).Keys
    {
      RightPivot(cells, ref, z, t);
      hide Linked;
      var left, parent := cells[node].left, cells[node].parent;
      var inner := cells[left].right;
      cells := cells[node := cells[node].(left := inner)];
      if inner != 0 {
        SetParent(inner, node);
      }
      cells := cells[left := cells[left].(right := node)];
      SetParent(left, parent);
      ReplaceChild(parent, node, left);
      SetParent(node, left);
      RotatedRightLinked(old(cells), cells, old(ref), ref, z, t);
    }

    method SetColor(x: nat, c: Color, ghost z: Context, ghost t: Tree)
      requires Linked(cells, ref, z, t) && t != Leaf && x == t.id
      modifies this`cells
      ensures Linked(cells, ref, z, t.(color := c))
      ensures cells.Keys == old(cells).Keys
    {
      cells := cells[x := cells[x].(color := c)];
      RecoloredLinked(old(cells), cells, ref, z, t, c);
    }

    /** Link a new red node into the empty place z. */
    method LinkNode(node: nat, parent: nat, asLeft: bool, ghost z: Context)
      requires Linked(cells, ref, z, Leaf) && node != 0 && node !in ContextIds(z) && parent == Above(z)
      requires z != Top ==> (asLeft <==> z.InLeft?)
      modifies this
      ensures Linked(cells, ref, z, Node(Leaf, node, Red, Leaf))
      ensures cells.Keys == old(cells).Keys + {node}
    {
      AroundNonNull(cells, z, 0);
      cells := cells[node := RbNode(parent, Red, 0, 0)];
      if parent == 0 {
        ref := node;
      } else if asLeft {
        cells := cells[parent := cells[parent].(left := node)];
      } else {
        cells := cells[parent := cells[parent].(right := node)];
      }
      RepAroundFilled(old(cells), cells, z, 0, node);
      if z != Top { PlugPtr(z, Leaf, Node(Leaf, node, Red, Leaf)); }
    }

    /** Parent and uncle red: push the grandparent's black down to both. */
    method PushBlack(parent: nat, uncle: nat, gparent: nat, ghost z: Context, ghost t: Tree)
      requires Linked(cells, ref, z, t) && t != Leaf && IsRed(t.left) && IsRed(t.right) && gparent == t.id
      requires (parent == t.left.id && uncle == t.right.id) || (parent == t.right.id && uncle == t.left.id)
      modifies this`cells
      ensures Linked(cells, ref, z, Node(t.left.(color := Black), t.id, Red, t.right.(color := Black)))
      ensures cells.Keys == old(cells).Keys
    {
      RepNonNull(cells, t, Above(z));
      assert t.left.id in Ids(t) && t.right.id in Ids(t);
      cells := cells[uncle := cells[uncle].(color := Black)];
      cells := cells[parent := cells[parent].(color := Black)];
      cells := cells[gparent := cells[gparent].(color := Red)];
      PushedBlackLinked(old(cells), cells, ref, z, t);
    }

    /** Blacken the left child of a black node, redden the node, and rotate it to the right. */
    method LiftLeft(parent: nat, gparent: nat, ghost z: Context, ghost t: Tree)
      requires Linked(cells, ref, z, t) && t != Leaf && t.left != Leaf && gparent == t.id && parent == t.left.id
      modifies this
      ensures Linked(cells, ref, z, Lifted(t))
      ensures cells.Keys == old(cells).Keys
    {
      hide Linked;
      DownLeft(cells, ref, z, t);
      SetColor(parent, Black, InLeft(z, t.id, t.color, t.right), t.left);
      ghost var t1 := Node(t.left.(color := Black), t.id, t.color, t.right);
      Up(cells, ref, InLeft(z, t.id, t.color, t.right), t1.left);
      SetColor(gparent, Red, z, t1);
      RotateRight(gparent, z, t1.(color := Red));
    }

    method LiftRight(parent: nat, gparent: nat, ghost z: Context, ghost t: Tree)
      requires Linked(cells, ref, z, t) && t != Leaf && t.right != Leaf && gparent == t.id && parent == t.right.id
      modifies this
      ensures Linked(cells, ref, z, LiftedRight(t))
      ensures cells.Keys == old(cells).Keys
    {
      hide Linked;
      DownRight(cells, ref, z, t);
      SetColor(parent, Black, InRight(z, t.left, t.id, t.color), t.right);
      ghost var t1 := Node(t.left, t.id, t.color, t.right.(color := Black));
      Up(cells, ref, InRight(z, t.left, t.id, t.color), t1.right);
      SetColor(gparent, Red, z, t1);
      RotateLeft(gparent, z, t1.(color := Red));
    }

    /** One round of the insertion loop when the parent is a left child. */
    method InsertLeft(node: nat, parent: nat, gparent: nat, ghost z: Context, ghost t: Tree, ghost n: nat)
        returns (more: bool, node': nat, ghost z': Context, ghost t': Tree, ghost n': nat)
      requires Linked(cells, ref, z, t) && Inserting(z, t, n) && RedTop(z) && z.up.InLeft?
      requires node == t.id && parent == z.id && gparent == z.up.id
      modifies this
      ensures Linked(cells, ref, z', t') && Inserting(z', t', n') && node' == t'.id
      ensures InOrder(Plug(z', t')) == InOrder(Plug(z, t))
      ensures Depth(z') < Depth(z) && (!more ==> !RedTop(z'))
      ensures cells.Keys == old(cells).Keys
    {
      ghost var zg, g := z.up.up, Wrap(z.up, Wrap(z, t));
      GrandParent(cells, ref, z, t);
      InsertingAbove(z, t, n);
      hide Linked, InOrder, BalAround;
      var uncle := cells[gparent].right;
      if uncle != 0 && cells[uncle].color == Red {
        PushBlack(parent, uncle, gparent, zg, g);
        z', t', n' := zg, Node(g.left.(color := Black), g.id, Red, g.right.(color := Black)), n + 1;
        RecolorOrder(g, Black, Red, Black);
        PushedInserting(z, t, n);
        SameOrder(zg, g, t');
        return true, gparent, z', t', n';
      }
      node', z', t', n' := TurnLeft(node, parent, gparent, z, t, n);
      more := false;
    }

    /** With a black uncle: turn the node outward if need be, and lift the parent. */
    method TurnLeft(node: nat, parent: nat, gparent: nat, ghost z: Context, ghost t: Tree, ghost n: nat)
        returns (node': nat, ghost z': Context, ghost t': Tree, ghost n': nat)
      requires Linked(cells, ref, z, t) && Inserting(z, t, n) && RedTop(z) && z.up.InLeft? && !IsRed(z.up.right)
      requires node == t.id && parent == z.id && gparent == z.up.id
      modifies this
      ensures Linked(cells, ref, z', t') && Inserting(z', t', n') && node' == t'.id
      ensures InOrder(Plug(z', t')) == InOrder(Plug(z, t))
      ensures Depth(z') < Depth(z) && !RedTop(z')
      ensures cells.Keys == old(cells).Keys
    {
      hide Linked, InOrder, BalAround, Inserting, Ptr, Bal;
      ghost var zg := z.up.up;
      InsertingAbove(z, t, n);
      var parent', g := OutwardLeft(node, parent, gparent, z, t, n);
      node' := if parent' == parent then node else parent;
      LiftLeft(parent', gparent, zg, g);
      LiftedOrder(g);
      SameOrder(zg, g, Lifted(g));
      DownLeft(cells, ref, zg, Lifted(g));
      z', t', n' := InLeft(zg, parent', Black, Lifted(g).right), Lifted(g).left, n;
      LiftedInserting(zg, t', parent', g.left.right, gparent, g.right, n);
    }

    /** Make the red node the outer child of its red parent. */
    method OutwardLeft(node: nat, parent: nat, gparent: nat, ghost z: Context, ghost t: Tree, ghost n: nat)
        returns (parent': nat, ghost g: Tree)
      requires Linked(cells, ref, z, t) && Inserting(z, t, n) && RedTop(z) && z.up.InLeft?
      requires node == t.id && parent == z.id && gparent == z.up.id
      modifies this
      ensures g.Node? && g.left.Node? && Linked(cells, ref, z.up.up, g)
      ensures g.id == gparent && g.right == z.up.right && g.left.id == parent'
      ensures InOrder(Plug(z.up.up, g)) == InOrder(Plug(z, t))
      ensures IsRed(g.left.left) && Bal(g.left.left, n)
      ensures Bal(g.left.right, n) && !IsRed(g.left.right)
      ensures g.left.left.id == if parent' == parent then node else parent
      ensures cells.Keys == old(cells).Keys
    {
      g := Wrap(z.up, Wrap(z, t));
      GrandParent(cells, ref, z, t);
      InsertingAbove(z, t, n);
      hide Linked, InOrder, BalAround, Inserting, Ptr, Bal;
      parent' := parent;
      if cells[parent].right == node {
        DownLeft(cells, ref, z.up.up, g);
        RotateLeft(parent, z.up, g.left);
        parent' := node;
        Up(cells, ref, z.up, LeftRotation(g.left));
        ghost var g' := g.(left := LeftRotation(g.left));
        LeftOrder(g, g'.left);
        SameOrder(z.up.up, g, g');
        RedNode(z.left, parent, t.left, n);
        g := g';
      }
    }

    /** One round of the insertion loop when the parent is a right child. */
    method InsertRight(node: nat, parent: nat, gparent: nat, ghost z: Context, ghost t: Tree, ghost n: nat)
        returns (more: bool, node': nat, ghost z': Context, ghost t': Tree, ghost n': nat)
      requires Linked(cells, ref, z, t) && Inserting(z, t, n) && RedTop(z) && z.up.InRight?
      requires node == t.id && parent == z.id && gparent == z.up.id
      modifies this
      ensures Linked(cells, ref, z', t') && Inserting(z', t', n') && node' == t'.id
      ensures InOrder(Plug(z', t')) == InOrder(Plug(z, t))
      ensures Depth(z') < Depth(z) && (!more ==> !RedTop(z'))
      ensures cells.Keys == old(cells).Keys
    {
      ghost var zg, g := z.up.up, Wrap(z.up, Wrap(z, t));
      GrandParent(cells, ref, z, t);
      InsertingAbove(z, t, n);
      hide Linked, InOrder, BalAround;
      var uncle := cells[gparent].left;
      if uncle != 0 && cells[uncle].color == Red {
        PushBlack(parent, uncle, gparent, zg, g);
        z', t', n' := zg, Node(g.left.(color := Black), g.id, Red, g.right.(color := Black)), n + 1;
        RecolorOrder(g, Black, Red, Black);
        PushedInserting(z, t, n);
        SameOrder(zg, g, t');
        return true, gparent, z', t', n';
      }
      node', z', t', n' := TurnRight(node, parent, gparent, z, t, n);
      more := false;
    }

    /** With a black uncle: turn the node outward if need be, and lift the parent. */
    method TurnRight(node: nat, parent: nat, gparent: nat, ghost z: Context, ghost t: Tree, ghost n: nat)
        returns (node': nat, ghost z': Context, ghost t': Tree, ghost n': nat)
      requires Linked(cells, ref, z, t) && Inserting(z, t, n) && RedTop(z) && z.up.InRight? && !IsRed(z.up.left)
      requires node == t.id && parent == z.id && gparent == z.up.id
      modifies this
      ensures Linked(cells, ref, z', t') && Inserting(z', t', n') && node' == t'.id
      ensures InOrder(Plug(z', t')) == InOrder(Plug(z, t))
      ensures Depth(z') < Depth(z) && !RedTop(z')
      ensures cells.Keys == old(cells).Keys
    {
      hide Linked, InOrder, BalAround, Inserting, Ptr, Bal;
      ghost var zg := z.up.up;
      InsertingAbove(z, t, n);
      var parent', g := OutwardRight(node, parent, gparent, z, t, n);
      node' := if parent' == parent then node else parent;
      LiftRight(parent', gparent, zg, g);
      LiftedRightOrder(g);
      SameOrder(zg, g, LiftedRight(g));
      DownRight(cells, ref, zg, LiftedRight(g));
      z', t', n' := InRight(zg, LiftedRight(g).left, parent', Black), LiftedRight(g).right, n;
      LiftedInserting(zg, t', parent', g.right.left, gparent, g.left, n);
    }

    /** Make the red node the outer child of its red parent. */
    method OutwardRight(node: nat, parent: nat, gparent: nat, ghost z: Context, ghost t: Tree, ghost n: nat)
        returns (parent': nat, ghost g: Tree)
      requires Linked(cells, ref, z, t) && Inserting(z, t, n) && RedTop(z) && z.up.InRight?
      requires node == t.id && parent == z.id && gparent == z.up.id
      modifies this
      ensures g.Node? && g.right.Node? && Linked(cells, ref, z.up.up, g)
      ensures g.id == gparent && g.left == z.up.left && g.right.id == parent'
      ensures InOrder(Plug(z.up.up, g)) == InOrder(Plug(z, t))
      ensures IsRed(g.right.right) && Bal(g.right.right, n)
      ensures Bal(g.right.left, n) && !IsRed(g.right.left)
      ensures g.right.right.id == if parent' == parent then node else parent
      ensures cells.Keys == old(cells).Keys
    {
      g := Wrap(z.up, Wrap(z, t));
      GrandParent(cells, ref, z, t);
      InsertingAbove(z, t, n);
      hide Linked, InOrder, BalAround, Inserting, Ptr, Bal;
      parent' := parent;
      if cells[parent].left == node {
        DownRight(cells, ref, z.up.up, g);
        RotateRight(parent, z.up, g.right);
        parent' := node;
        Up(cells, ref, z.up, RightRotation(g.right));
        ghost var g' := g.(right := RightRotation(g.right));
        RightOrder(g, g'.right);
        SameOrder(z.up.up, g, g');
        RedNode(t.right, parent, z.right, n);
        g := g';
      }
    }

    /**
     Restore the red-black laws after a red node was linked in: the tree holds the same nodes
     in the same order.
     */
    method Insert(node: nat, ghost z: Context, ghost t: Tree, ghost n: nat) returns (ghost u: Tree)
      requires Linked(cells, ref, z, t) && Inserting(z, t, n) && node == t.id
      modifies this
      ensures Linked(cells, ref, Top, u) && RedBlack(u) && InOrder(u) == InOrder(Plug(z, t))
      ensures cells.Keys == old(cells).Keys
    {
      hide Linked, InOrder;
      var node' := node;
      ghost var z', t', n' := z, t, n;
      var parent := ParentOf(node', z', t');
      while parent != 0 && cells[parent].color == Red
        invariant Linked(cells, ref, z', t') && Inserting(z', t', n') && node' == t'.id && cells.Keys == old(cells).Keys
        invariant InOrder(Plug(z', t')) == InOrder(Plug(z, t))
        invariant parent == Above(z') && (parent != 0 <==> z' != Top)
        invariant parent != 0 ==> parent in cells && cells[parent].color == z'.color
        decreases Depth(z')
      {
        GrandParent(cells, ref, z', t');
        var gparent := cells[parent].parent;
        var more: bool;
        if parent == cells[gparent].left {
          more, node', z', t', n' := InsertLeft(node', parent, gparent, z', t', n');
        } else {
          more, node', z', t', n' := InsertRight(node', parent, gparent, z', t', n');
        }
        parent := ParentOf(node', z', t');
      }
      u := BlackenRoot(z', t', n');
    }

    /** The parent pointer of a node. */
    method ParentOf(node: nat, ghost z: Context, ghost t: Tree) returns (parent: nat)
      requires Linked(cells, ref, z, t) && t != Leaf && node == t.id
      ensures parent == Above(z) && (parent != 0 <==> z != Top)
      ensures parent != 0 ==> parent in cells && cells[parent].color == z.color
    {
      parent := cells[node].parent;
    }

    /** The last step of an insertion: the root becomes black. */
    method BlackenRoot(ghost z: Context, ghost t: Tree, ghost n: nat) returns (ghost u: Tree)
      requires Linked(cells, ref, z, t) && Inserting(z, t, n) && !RedTop(z)
      modifies this
      ensures Linked(cells, ref, Top, u) && RedBlack(u) && InOrder(u) == InOrder(Plug(z, t))
      ensures cells.Keys == old(cells).Keys
    {
      ToRoot(cells, ref, z, t);
      BalPlug(z, t, n);
      ghost var r := Plug(z, t);
      u := r.(color := Black);
      SetColor(ref, Black, Top, r);
      RootBlackened(r, n + Blacks(z));
    }

    /** A red sibling on the right: lift it, so that the sibling becomes black. */
    method BlackSiblingLeft(parent: nat, ghost z: Context, ghost t: Tree, ghost n: nat)
        returns (other: nat, ghost z': Context)
      requires Linked(cells, ref, z, t) && Short(z, t, n) && !IsRed(t) && z.InLeft? && parent == z.id
      modifies this
      ensures Linked(cells, ref, z', t) && Short(z', t, n) && z'.InLeft? && z'.id == parent
      ensures z'.right != Leaf && !IsRed(z'.right) && other == z'.right.id
      ensures z' == z || (z'.color == Red && Depth(z') == Depth(z) + 1)
      ensures InOrder(Plug(z', t)) == InOrder(Plug(z, t))
      ensures cells.Keys == old(cells).Keys
    {
      ShortSibling(z, t, n);
      SiblingCells(cells, ref, z, t);
      hide Linked, Short, InOrder, Loose, BalAround, Bal;
      z' := z;
      other := cells[parent].right;
      if cells[other].color == Red {
        ghost var g := Wrap(z, t);
        RedSiblingShort(z, t, n);
        LiftedRightOrder(g);
        SameOrder(z.up, g, LiftedRight(g));
        LiftRight(other, parent, z.up, g);
        DownLeft(cells, ref, z.up, LiftedRight(g));
        z' := InLeft(InLeft(z.up, z.right.id, Black, z.right.right), z.id, Red, z.right.left);
        DownLeft(cells, ref, z'.up, LiftedRight(g).left);
        ShortSibling(z', t, n);
        SiblingCells(cells, ref, z', t);
        other := cells[parent].right;
      }
    }

    /** A black sibling on the right with black children: turn it red and move up. */
    method ReddenSiblingLeft(other: nat, ghost z: Context, ghost t: Tree, ghost n: nat)
        returns (ghost t': Tree, ghost n': nat)
      requires Linked(cells, ref, z, t) && Short(z, t, n) && !IsRed(t) && z.InLeft?
      requires z.right != Leaf && !IsRed(z.right) && other == z.right.id
      requires !IsRed(z.right.left) && !IsRed(z.right.right)
      modifies this
      ensures Linked(cells, ref, z.up, t') && Short(z.up, t', n') && t' != Leaf && t'.id == z.id && t'.color == z.color
      ensures InOrder(Plug(z.up, t')) == InOrder(Plug(z, t))
      ensures cells.Keys == old(cells).Keys
    {
      SiblingCells(cells, ref, z, t);
      hide Linked, Short, InOrder;
      BlackSiblingShort(z, t, n);
      SetColor(other, Red, Across(z, t), z.right);
      Up(cells, ref, Across(z, t), z.right.(color := Red));
      t', n' := Wrap(Across(z, t), z.right.(color := Red)), if z.color == Black then n + 1 else n;
      RecolorSiblingOrder(z, t, Red);
    }

    /** A black sibling on the right with a red child: two rotations at most make up the shortage. */
    method CompensateLeft(parent: nat, other: nat, ghost z: Context, ghost t: Tree, ghost n: nat)
        returns (ghost t': Tree, ghost n': nat)
      requires Linked(cells, ref, z, t) && Short(z, t, n) && !IsRed(t) && z.InLeft? && parent == z.id
      requires z.right != Leaf && !IsRed(z.right) && other == z.right.id
      requires IsRed(z.right.left) || IsRed(z.right.right)
      modifies this
      ensures Linked(cells, ref, z.up, t') && Lawful(z.up, t', n')
      ensures InOrder(Plug(z.up, t')) == InOrder(Plug(z, t))
      ensures cells.Keys == old(cells).Keys
    {
      ShortSibling(z, t, n);
      SiblingCells(cells, ref, z, t);
      NearNephew(z.right, n);
      hide Linked, Short, InOrder, Bal, BalAround, Lawful, Loose;
      var other', y := other, z.right;
      if cells[other].right == 0 || cells[cells[other].right].color == Black {
        LiftedOrder(y);
        LiftLeft(cells[other].left, other, Across(z, t), y);
        y := Lifted(z.right);
        Up(cells, ref, Across(z, t), y);
        DownLeft(cells, ref, z.up, Wrap(Across(z, t), y));
        SiblingCells(cells, ref, z.(right := y), t);
        other' := cells[parent].right;
      }
      t' := FinishEraseLeft(parent, other', z.up, Wrap(Across(z, t), y));
      n' := if z.color == Black then n + 2 else n + 1;
      FarNephewLawful(z.up, t, parent, z.color, y.left, y.id, y.right, n);
      SiblingOrder(z, t, y);
      SameOrder(z.up, Wrap(Across(z, t), y), t');
    }

    /** Sibling takes the parent's colour, parent and far nephew turn black, rotate the parent. */
    method FinishEraseLeft(parent: nat, other: nat, ghost z: Context, ghost t: Tree) returns (ghost u: Tree)
      requires Linked(cells, ref, z, t) && t != Leaf && t.right != Leaf && t.right.right != Leaf
      requires parent == t.id && other == t.right.id
      modifies this
      ensures u == Node(Node(t.left, t.id, Black, t.right.left), t.right.id, t.color, t.right.right.(color := Black))
      ensures Linked(cells, ref, z, u) && InOrder(u) == InOrder(t)
      ensures cells.Keys == old(cells).Keys
    {
      FinishCells(cells, ref, z, t);
      ghost var y := t.right;
      cells := cells[other := cells[other].(color := cells[parent].color)];
      cells := cells[parent := cells[parent].(color := Black)];
      cells := cells[cells[other].right := cells[cells[other].right].(color := Black)];
      ghost var t1 := Node(t.left, t.id, Black, Node(y.left, y.id, t.color, y.right.(color := Black)));
      FinishedLeft(old(cells), cells, ref, z, t, t1);
      RotateLeft(parent, z, t1);
      u := LeftRotation(t1);
      FinishedLeftOrder(t);
    }

    /** A red sibling on the left: lift it, so that the sibling becomes black. */
    method BlackSiblingRight(parent: nat, ghost z: Context, ghost t: Tree, ghost n: nat)
        returns (other: nat, ghost z': Context)
      requires Linked(cells, ref, z, t) && Short(z, t, n) && !IsRed(t) && z.InRight? && parent == z.id
      modifies this
      ensures Linked(cells, ref, z', t) && Short(z', t, n) && z'.InRight? && z'.id == parent
      ensures z'.left != Leaf && !IsRed(z'.left) && other == z'.left.id
      ensures z' == z || (z'.color == Red && Depth(z') == Depth(z) + 1)
      ensures InOrder(Plug(z', t)) == InOrder(Plug(z, t))
      ensures cells.Keys == old(cells).Keys
    {
      ShortSibling(z, t, n);
      SiblingCells(cells, ref, z, t);
      hide Linked, Short, InOrder, Loose, BalAround, Bal;
      z' := z;
      other := cells[parent].left;
      if cells[other].color == Red {
        ghost var g := Wrap(z, t);
        RedSiblingShort(z, t, n);
        LiftedOrder(g);
        SameOrder(z.up, g, Lifted(g));
        LiftLeft(other, parent, z.up, g);
        DownRight(cells, ref, z.up, Lifted(g));
        z' := InRight(InRight(z.up, z.left.left, z.left.id, Black), z.left.right, z.id, Red);
        DownRight(cells, ref, z'.up, Lifted(g).right);
        ShortSibling(z', t, n);
        SiblingCells(cells, ref, z', t);
        other := cells[parent].left;
      }
    }

    /** A black sibling on the left with black children: turn it red and move up. */
    method ReddenSiblingRight(other: nat, ghost z: Context, ghost t: Tree, ghost n: nat)
        returns (ghost t': Tree, ghost n': nat)
      requires Linked(cells, ref, z, t) && Short(z, t, n) && !IsRed(t) && z.InRight?
      requires z.left != Leaf && !IsRed(z.left) && other == z.left.id
      requires !IsRed(z.left.left) && !IsRed(z.left.right)
      modifies this
      ensures Linked(cells, ref, z.up, t') && Short(z.up, t', n') && t' != Leaf && t'.id == z.id && t'.color == z.color
      ensures InOrder(Plug(z.up, t')) == InOrder(Plug(z, t))
      ensures cells.Keys == old(cells).Keys
    {
      SiblingCells(cells, ref, z, t);
      hide Linked, Short, InOrder;
      BlackSiblingShort(z, t, n);
      SetColor(other, Red, Across(z, t), z.left);
      Up(cells, ref, Across(z, t), z.left.(color := Red));
      t', n' := Wrap(Across(z, t), z.left.(color := Red)), if z.color == Black then n + 1 else n;
      RecolorSiblingOrder(z, t, Red);
    }

    /** A black sibling on the left with a red child: two rotations at most make up the shortage. */
    method CompensateRight(parent: nat, other: nat, ghost z: Context, ghost t: Tree, ghost n: nat)
        returns (ghost t': Tree, ghost n': nat)
      requires Linked(cells, ref, z, t) && Short(z, t, n) && !IsRed(t) && z.InRight? && parent == z.id
      requires z.left != Leaf && !IsRed(z.left) && other == z.left.id
      requires IsRed(z.left.left) || IsRed(z.left.right)
      modifies this
      ensures Linked(cells, ref, z.up, t') && Lawful(z.up, t', n')
      ensures InOrder(Plug(z.up, t')) == InOrder(Plug(z, t))
      ensures cells.Keys == old(cells).Keys
    {
      ShortSibling(z, t, n);
      SiblingCells(cells, ref, z, t);
      NearNephew(z.left, n);
      hide Linked, Short, InOrder, Bal, BalAround, Lawful, Loose;
      var other', y := other, z.left;
      if cells[other].left == 0 || cells[cells[other].left].color == Black {
        LiftedRightOrder(y);
        LiftRight(cells[other].right, other, Across(z, t), y);
        y := LiftedRight(z.left);
        Up(cells, ref, Across(z, t), y);
        DownRight(cells, ref, z.up, Wrap(Across(z, t), y));
        SiblingCells(cells, ref, z.(left := y), t);
        other' := cells[parent].left;
      }
      t' := FinishEraseRight(parent, other', z.up, Wrap(Across(z, t), y));
      n' := if z.color == Black then n + 2 else n + 1;
      FarNephewLawful(z.up, t, parent, z.color, y.right, y.id, y.left, n);
      SiblingOrder(z, t, y);
      SameOrder(z.up, Wrap(Across(z, t), y), t');
    }

    /** Sibling takes the parent's colour, parent and far nephew turn black, rotate the parent. */
    method FinishEraseRight(parent: nat, other: nat, ghost z: Context, ghost t: Tree) returns (ghost u: Tree)
      requires Linked(cells, ref, z, t) && t != Leaf && t.left != Leaf && t.left.left != Leaf
      requires parent == t.id && other == t.left.id
      modifies this
      ensures u == Node(t.left.left.(color := Black), t.left.id, t.color, Node(t.left.right, t.id, Black, t.right))
      ensures Linked(cells, ref, z, u) && InOrder(u) == InOrder(t)
      ensures cells.Keys == old(cells).Keys
    {
      FinishCells(cells, ref, z, t);
      ghost var y := t.left;
      cells := cells[other := cells[other].(color := cells[parent].color)];
      cells := cells[parent := cells[parent].(color := Black)];
      cells := cells[cells[other].left := cells[cells[other].left].(color := Black)];
      ghost var t1 := Node(Node(y.left.(color := Black), y.id, t.color, y.right), t.id, Black, t.right);
      FinishedRight(old(cells), cells, ref, z, t, t1);
      RotateRight(parent, z, t1);
      u := RightRotation(t1);
      FinishedRightOrder(t);
    }

    /** One round of the erasure loop when the short subtree is a left child. */
    method EraseColorLeft(node: nat, parent: nat, ghost z: Context, ghost t: Tree, ghost n: nat)
        returns (done: bool, node': nat, parent': nat, ghost z': Context, ghost t': Tree, ghost n': nat)
      requires Linked(cells, ref, z, t) && Short(z, t, n) && !IsRed(t) && z.InLeft?
      requires node == Ptr(t) && parent == z.id
      modifies this
      ensures Linked(cells, ref, z', t') && InOrder(Plug(z', t')) == InOrder(Plug(z, t))
      ensures done ==> Lawful(z', t', n') && node' == ref
      ensures !done ==> Short(z', t', n') && node' == Ptr(t') && parent' == Above(z')
      ensures !done ==> IsRed(t') || Depth(z') < Depth(z)
      ensures cells.Keys == old(cells).Keys
    {
      hide Linked, Short, InOrder, Lawful, Loose, BalAround, Bal;
      var other, z1 := BlackSiblingLeft(parent, z, t, n);
      SiblingCells(cells, ref, z1, t);
      var left, right := cells[other].left, cells[other].right;
      if (left == 0 || cells[left].color == Black) && (right == 0 || cells[right].color == Black) {
        t', n' := ReddenSiblingLeft(other, z1, t, n);
        z' := z1.up;
        ParentCell(cells, ref, z', t');
        done, node', parent' := false, parent, cells[parent].parent;
      } else {
        t', n' := CompensateLeft(parent, other, z1, t, n);
        z' := z1.up;
        done, node', parent' := true, ref, 0;
      }
    }

    /** One round of the erasure loop when the short subtree is a right child. */
    method EraseColorRight(node: nat, parent: nat, ghost z: Context, ghost t: Tree, ghost n: nat)
        returns (done: bool, node': nat, parent': nat, ghost z': Context, ghost t': Tree, ghost n': nat)
      requires Linked(cells, ref, z, t) && Short(z, t, n) && !IsRed(t) && z.InRight?
      requires node == Ptr(t) && parent == z.id
      modifies this
      ensures Linked(cells, ref, z', t') && InOrder(Plug(z', t')) == InOrder(Plug(z, t))
      ensures done ==> Lawful(z', t', n') && node' == ref
      ensures !done ==> Short(z', t', n') && node' == Ptr(t') && parent' == Above(z')
      ensures !done ==> IsRed(t') || Depth(z') < Depth(z)
      ensures cells.Keys == old(cells).Keys
    {
      hide Linked, Short, InOrder, Lawful, Loose, BalAround, Bal;
      var other, z1 := BlackSiblingRight(parent, z, t, n);
      SiblingCells(cells, ref, z1, t);
      var left, right := cells[other].left, cells[other].right;
      if (left == 0 || cells[left].color == Black) && (right == 0 || cells[right].color == Black) {
        t', n' := ReddenSiblingRight(other, z1, t, n);
        z' := z1.up;
        ParentCell(cells, ref, z', t');
        done, node', parent' := false, parent, cells[parent].parent;
      } else {
        t', n' := CompensateRight(parent, other, z1, t, n);
        z' := z1.up;
        done, node', parent' := true, ref, 0;
      }
    }

    /** Make up for a missing black node at z, moving up as long as it cannot be settled there. */
    method EraseColor(node: nat, parent: nat, ghost z: Context, ghost t: Tree, ghost n: nat) returns (ghost u: Tree)
      requires Linked(cells, ref, z, t) && Short(z, t, n) && node == Ptr(t) && parent == Above(z)
      modifies this
      ensures Linked(cells, ref, Top, u) && RedBlack(u) && InOrder(u) == InOrder(Plug(z, t))
      ensures cells.Keys == old(cells).Keys
    {
      hide Linked, Short, InOrder, Lawful, Loose, BalAround, Bal;
      var node', parent', done := node, parent, false;
      ghost var z', t', n' := z, t, n;
      HoleCells(cells, ref, z', t');
      while !done && (node' == 0 || cells[node'].color == Black) && node' != ref
        invariant Linked(cells, ref, z', t') && InOrder(Plug(z', t')) == InOrder(Plug(z, t)) && cells.Keys == old(cells).Keys
        invariant done ==> Lawful(z', t', n') && node' == ref
        invariant !done ==> Short(z', t', n') && node' == Ptr(t') && parent' == Above(z')
        invariant !done ==> (node' != 0 ==> node' in cells) && (IsRed(t') <==> node' != 0 && cells[node'].color == Red)
        invariant !done ==> (node' == ref <==> z' == Top)
        decreases !done, !IsRed(t'), Depth(z')
      {
        ParentSide(cells, ref, z', t', n');
        if cells[parent'].left == node' {
          done, node', parent', z', t', n' := EraseColorLeft(node', parent', z', t', n');
        } else {
          done, node', parent', z', t', n' := EraseColorRight(node', parent', z', t', n');
        }
        if !done { HoleCells(cells, ref, z', t'); }
      }
      ghost var zf, tf := z', t';
      if done {
        ToRoot(cells, ref, z', t');
        zf, tf := Top, Plug(z', t');
      }
      HoleCells(cells, ref, zf, tf);
      ErasedLawful(z', t', n', done);
      if node' != 0 {
        RecoloredOrder(zf, tf, Black);
        SetColor(node', Black, zf, tf);
        ToRoot(cells, ref, zf, tf.(color := Black));
        u := Plug(zf, tf.(color := Black));
      } else {
        u := Leaf;
      }
    }

    /** Splice out a node that has at most one child. */
    method SpliceOut(node: nat, child: nat, ghost z: Context, ghost t: Tree, ghost u: Tree) returns (parent: nat)
      requires Linked(cells, ref, z, t) && t != Leaf && node == t.id && child == Ptr(u)
      requires (t.left == Leaf && u == t.right) || (t.right == Leaf && u == t.left)
      modifies this
      ensures Linked(cells, ref, z, u) && parent == Above(z)
      ensures cells.Keys == old(cells).Keys
    {
      SpliceCells(cells, ref, z, t, u);
      hide Linked;
      parent := cells[node].parent;
      if child != 0 {
        SetParent(child, parent);
      }
      ReplaceChild(parent, node, child);
      SplicedLinked(old(cells), cells, old(ref), ref, z, t, u);
    }

    /** Put a node that is not in the tree in the place of one that is. */
    method Replace(victim: nat, new': nat, ghost z: Context, ghost t: Tree)
      requires Linked(cells, ref, z, t) && t != Leaf && victim == t.id
      requires new' != 0 && new' !in ContextIds(z) + Ids(t)
      modifies this
      ensures Linked(cells, ref, z, Node(t.left, new', t.color, t.right))
      ensures cells.Keys == old(cells).Keys + {new'}
    {
      hide Linked;
      ReplaceCells(cells, ref, z, t);
      var parent := cells[victim].parent;
      ReplaceChild(parent, victim, new');
      if cells[victim].left != 0 {
        SetParent(cells[victim].left, new');
      }
      if cells[victim].right != 0 {
        SetParent(cells[victim].right, new');
      }
      cells := cells[new' := cells[victim]];
      ReplacedLinked(old(cells), cells, old(ref), ref, z, t, new');
    }

    /** The same steps with the node itself as the new one write what is there already. */
    method ReplaceBySelf(victim: nat, ghost z: Context, ghost t: Tree)
      requires Linked(cells, ref, z, t) && t != Leaf && victim == t.id
      modifies this
      ensures cells == old(cells) && ref == old(ref)
    {
      hide Linked;
      SelfCells(cells, ref, z, t);
      var parent := cells[victim].parent;
      ReplaceChild(parent, victim, victim);
      if cells[victim].left != 0 {
        SetParent(cells[victim].left, victim);
      }
      if cells[victim].right != 0 {
        SetParent(cells[victim].right, victim);
      }
      cells := cells[victim := cells[victim]];
      assert cells == old(cells);
    }

    /** The first node of the right subtree: the in-order successor of a node with two children. */
    method FindSuccessor(old': nat, ghost z: Context, ghost t: Tree)
        returns (node: nat, ghost zz: Context, ghost k: nat, ghost s: Tree)
      requires Linked(cells, ref, z, t) && t != Leaf && t.left != Leaf && t.right != Leaf && old' == t.id
      ensures Linked(cells, ref, zz, s) && Succeeds(z, t, zz, k, s) && s.Node? && node == s.id
      ensures LeftTurns(zz, k) && Plug(zz, s) == Plug(z, t)
    {
      ReplaceCells(cells, ref, z, t);
      DownRight(cells, ref, z, t);
      hide Linked;
      node := cells[old'].right;
      zz, k, s := InRight(z, t.left, t.id, t.color), 0, t.right;
      ReplaceCells(cells, ref, zz, s);
      var left := cells[node].left;
      while left != 0
        invariant Linked(cells, ref, zz, s) && s != Leaf && node == s.id && left == Ptr(s.left)
        invariant LeftTurns(zz, k) && Outer(zz, k) == InRight(z, t.left, t.id, t.color) && Inner(zz, k, s) == t.right
        invariant s.id in cells && (s.left != Leaf ==> s.left.id != 0)
        decreases s
      {
        DownLeft(cells, ref, zz, s);
        zz, k, s := InLeft(zz, s.id, s.color, s.right), k + 1, s.left;
        ReplaceCells(cells, ref, zz, s);
        node := left;
        left := cells[node].left;
      }
      PlugInner(zz, k, s);
    }

    /** Unhook the successor from its parent and give it the old node's right subtree. */
    method MoveUp(node: nat, old': nat, parent: nat, child: nat)
      requires {node, old', parent} <= cells.Keys && (child != 0 ==> child in cells) && cells[old'].right in cells
      requires old' !in {node, parent, child}
      modifies this`cells
      ensures cells == MovedUp(old(cells), node, old', parent, child)
    {
      if child != 0 {
        SetParent(child, parent);
      }
      cells := cells[parent := cells[parent].(left := child)];
      cells := cells[node := cells[node].(right := cells[old'].right)];
      SetParent(cells[old'].right, node);
    }

    /** Give the successor the old node's parent, colour and left subtree. */
    method TakeOver(node: nat, old': nat)
      requires {node, old'} <= cells.Keys && cells[old'].left in cells && old' != node
      modifies this`cells
      ensures cells == TakenOver(old(cells), node, old')
    {
      var c := cells[old'];
      cells := cells[node := cells[node].(parent := c.parent, color := c.color, left := c.left)];
      SetParent(cells[old'].left, node);
    }

    /** Write the successor's cell, the old node's neighbours and the successor's old place. */
    method Exchange(old': nat, node: nat, ghost z: Context, ghost t: Tree, ghost zz: Context, ghost k: nat, ghost s: Tree)
        returns (parent: nat, child: nat, color: Color)
      requires Linked(cells, ref, z, t) && Linked(cells, ref, zz, s) && Succeeds(z, t, zz, k, s) && old' == t.id && node == s.id
      modifies this
      ensures Exchanged(old(cells), cells, z, t, zz, k, s) && ref == (if z == Top then node else old(ref))
      ensures child == Ptr(s.right) && color == s.color && parent == if k == 0 then s.id else Above(zz)
      ensures cells.Keys == old(cells).Keys
    {
      hide Linked, Exchanged, Graft, LeftTurns, Inner;
      ExchangeCells(cells, ref, z, t, zz, k, s);
      ghost var m := cells;
      ReplaceChild(cells[old'].parent, old', node);
      assert cells == Adopted(m, z, node);
      child, parent, color := cells[node].right, cells[node].parent, cells[node].color;
      if parent == old' {
        parent := node;
      } else {
        MoveUp(node, old', parent, child);
      }
      TakeOver(node, old');
      if k == 0 {
        ExchangedNear(m, cells, old(ref), z, t, zz, s);
      } else {
        ExchangedFar(m, cells, old(ref), z, t, zz, k, s);
      }
    }

    /** Let the successor take the place of a node with two children. */
    method EraseWithTwoChildren(old': nat, ghost z: Context, ghost t: Tree)
        returns (parent: nat, child: nat, color: Color, ghost zz: Context, ghost k: nat, ghost s: Tree)
      requires Linked(cells, ref, z, t) && t != Leaf && t.left != Leaf && t.right != Leaf && old' == t.id
      modifies this
      ensures Succeeds(z, t, zz, k, s) && s.Node? && LeftTurns(zz, k) && Plug(zz, s) == Plug(z, t)
      ensures Linked(cells, ref, Graft(zz, k, InRight(z, t.left, s.id, t.color)), s.right)
      ensures child == Ptr(s.right) && color == s.color
      ensures parent == Above(Graft(zz, k, InRight(z, t.left, s.id, t.color)))
      ensures cells.Keys == old(cells).Keys
    {
      hide Linked, Exchanged, Succeeds, Graft, LeftTurns, Inner;
      var node;
      node, zz, k, s := FindSuccessor(old', z, t);
      GraftParent(z, t, zz, k, s);
      parent, child, color := Exchange(old', node, z, t, zz, k, s);
      ExchangedLinked(old(cells), cells, old(ref), ref, z, t, zz, k, s);
      DownRight(cells, ref, z, Node(t.left, s.id, t.color, Inner(zz, k, s.right)));
      FocusDown(cells, ref, InRight(z, t.left, s.id, t.color), zz, k, s.right);
    }

    /**
     Erase a node: the red-black laws hold again, and the in-order sequence has lost exactly
     this node.
     */
    method Erase(node: nat, ghost z: Context, ghost t: Tree) returns (ghost u: Tree)
      requires Linked(cells, ref, z, t) && t != Leaf && node == t.id && RedBlack(Plug(z, t))
      modifies this
      ensures Linked(cells, ref, Top, u) && RedBlack(u)
      ensures InOrder(u) == Before(z) + InOrder(t.left) + InOrder(t.right) + After(z)
      ensures cells.Keys == old(cells).Keys
    {
      ReplaceCells(cells, ref, z, t);
      hide Linked, InOrder, Bal, BalAround, Short, Lawful, RedBlack;
      var child := 0;
      ghost var w := Leaf;
      if cells[node].left == 0 {
        child, w := cells[node].right, t.right;
      } else if cells[node].right == 0 {
        child, w := cells[node].left, t.left;
      } else {
        u := EraseInner(node, z, t);
        return;
      }
      var color := cells[node].color;
      ghost var n := SpliceShort(z, t, w);
      var parent := SpliceOut(node, child, z, t, w);
      SplicedOrder(z, t, w);
      if color == Black {
        u := EraseColor(child, parent, z, w, n);
      } else {
        ToRoot(cells, ref, z, w);
        u := Plug(z, w);
      }
    }

    /** Erase a node with two children. */
    method EraseInner(node: nat, ghost z: Context, ghost t: Tree) returns (ghost u: Tree)
      requires Linked(cells, ref, z, t) && t != Leaf && t.left != Leaf && t.right != Leaf && node == t.id
      requires RedBlack(Plug(z, t))
      modifies this
      ensures Linked(cells, ref, Top, u) && RedBlack(u)
      ensures InOrder(u) == Before(z) + InOrder(t.left) + InOrder(t.right) + After(z)
      ensures cells.Keys == old(cells).Keys
    {
      hide Linked, InOrder, Bal, BalAround, Short, Lawful, RedBlack, Graft;
      var parent, child, color, zz, k, s := EraseWithTwoChildren(node, z, t);
      ghost var z' := Grafted(z, t, zz, k, s);
      ghost var n := ExchangeShort(z, t, zz, k, s);
      ExchangedOrder(z, t, zz, k, s);
      if color == Black {
        u := EraseColor(child, parent, z', s.right, n);
      } else {
        ToRoot(cells, ref, z', s.right);
        u := Plug(z', s.right);
      }
    }

    /**
     The node after this one in order, or null: the first node of the right subtree, or the
     nearest ancestor on whose left the node lies.
     */
    method Next(node: nat, ghost z: Context, ghost t: Tree) returns (next: nat)
      requires Linked(cells, ref, z, t) && t != Leaf && node == t.id
      ensures var after := InOrder(t.right) + After(z);
              next == if after == [] then 0 else after[0]
    {
      ReplaceCells(cells, ref, z, t);
      if cells[node].right != 0 {
        next := cells[node].right;
        ghost var z', t' := InRight(z, t.left, t.id, t.color), t.right;
        DownRight(cells, ref, z, t);
        ReplaceCells(cells, ref, z', t');
        hide Linked;
        while cells[next].left != 0
          invariant Linked(cells, ref, z', t') && t' != Leaf && next == t'.id && next in cells
          invariant cells[next].left == Ptr(t'.left) && (t'.left != Leaf ==> t'.left.id != 0)
          invariant InOrder(t.right)[..1] == InOrder(t')[..1]
          decreases t'
        {
          DownLeft(cells, ref, z', t');
          z', t' := InLeft(z', t'.id, t'.color, t'.right), t'.left;
          ReplaceCells(cells, ref, z', t');
          next := cells[next].left;
        }
        assert InOrder(t')[0] == next;
        return;
      }
      next := Climb(node, z, t);
    }

    /** Up to the nearest ancestor on whose left the node lies. */
    method Climb(node: nat, ghost z: Context, ghost t: Tree) returns (next: nat)
      requires Linked(cells, ref, z, t) && t != Leaf && node == t.id
      ensures next == if After(z) == [] then 0 else After(z)[0]
    {
      ReplaceCells(cells, ref, z, t);
      hide Linked;
      var node' := node;
      ghost var z', t' := z, t;
      next := cells[node'].parent;
      while next != 0 && node' == cells[next].right
        invariant Linked(cells, ref, z', t') && t' != Leaf && node' == t'.id && next == Above(z')
        invariant z' != Top ==> next != 0 && next in cells && cells[next] == Around(z', node')
        invariant After(z') == After(z)
        decreases Depth(z')
      {
        LeftNotRight(cells, ref, z', t');
        Up(cells, ref, z', t');
        t', z' := Wrap(z', t'), z'.up;
        ReplaceCells(cells, ref, z', t');
        node' := next;
        next := cells[node'].parent;
      }
    }

    /** The last node of the left subtree; without one, the node itself. */
    method Prev(node: nat, ghost z: Context, ghost t: Tree) returns (prev: nat)
      requires Linked(cells, ref, z, t) && t != Leaf && node == t.id
      ensures prev == if t.left == Leaf then node else InOrder(t.left)[|InOrder(t.left)| - 1]
    {
      ReplaceCells(cells, ref, z, t);
      prev := node;
      if cells[node].left != 0 {
        prev := cells[node].left;
        ghost var z', t' := InLeft(z, t.id, t.color, t.right), t.left;
        DownLeft(cells, ref, z, t);
        ReplaceCells(cells, ref, z', t');
        hide Linked;
        while cells[prev].right != 0
          invariant Linked(cells, ref, z', t') && t' != Leaf && prev == t'.id && prev in cells
          invariant cells[prev].right == Ptr(t'.right) && (t'.right != Leaf ==> t'.right.id != 0)
          invariant Last(InOrder(t.left)) == Last(InOrder(t'))
          decreases t'
        {
          DownRight(cells, ref, z', t');
          z', t' := InRight(z', t'.left, t'.id, t'.color), t'.right;
          ReplaceCells(cells, ref, z', t');
          prev := cells[prev].right;
        }
        assert Last(InOrder(t')) == prev;
      }
    }
  }
}
