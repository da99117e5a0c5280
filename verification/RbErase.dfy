/**
 Taking a node out of the tree: splicing out a node with at most one child, putting one
 node in another's place, and the successor that takes the place of a node with two.
 */
module RbErase {
  import opened RbShape
  import opened RbMemory

  /** t's root goes, and its only child u takes its place at z. */
  ghost predicate Spliced(m: Memory, m': Memory, z: Context, t: Tree, u: Tree) {
    && (u != Leaf ==> u.id in m && u.id in m' && m'[u.id] == m[u.id].(parent := Above(z)))
    && (z != Top ==> z.id in m' && m'[z.id] == Around(z, Ptr(u)))
    && Agree(m, m', ContextIds(z) + Ids(t) - {Ptr(t), Ptr(u), Above(z)})
  }

  lemma SplicedLinked(m: Memory, m': Memory, ref: nat, ref': nat, z: Context, t: Tree, u: Tree)
    requires Linked(m, ref, z, t) && t != Leaf && Spliced(m, m', z, t, u)
    requires (t.left == Leaf && u == t.right) || (t.right == Leaf && u == t.left)
    requires ref' == if z == Top then Ptr(u) else ref
    ensures Linked(m', ref', z, u)
  {
    RepNonNull(m, t, Above(z));
    AroundNonNull(m, z, Ptr(t));
    assert z != Top ==> Above(z) in ContextIds(z);
    assert u != Leaf ==> Ptr(u) in Ids(t);
    RepMoved(m, m', u, t.id, Above(z));
    RepAroundFilled(m, m', z, t.id, Ptr(u));
    if z != Top { PlugPtr(z, t, u); }
  }

  /** The node at y takes the place of t's root. */
  ghost predicate Replaced(m: Memory, m': Memory, z: Context, t: Tree, y: nat)
    requires t != Leaf
  {
    && y in m' && m'[y] == RbNode(Above(z), t.color, Ptr(t.left), Ptr(t.right))
    && (t.left != Leaf ==> t.left.id in m && t.left.id in m' && m'[t.left.id] == m[t.left.id].(parent := y))
    && (t.right != Leaf ==> t.right.id in m && t.right.id in m' && m'[t.right.id] == m[t.right.id].(parent := y))
    && (z != Top ==> z.id in m' && m'[z.id] == Around(z, y))
    && Agree(m, m', ContextIds(z) + Ids(t) - {t.id, Ptr(t.left), Ptr(t.right), Above(z)})
  }

  lemma ReplacedLinked(m: Memory, m': Memory, ref: nat, ref': nat, z: Context, t: Tree, y: nat)
    requires Linked(m, ref, z, t) && t != Leaf && y != 0 && y !in ContextIds(z) + Ids(t) && Replaced(m, m', z, t, y)
    requires ref' == if z == Top then y else ref
    ensures Linked(m', ref', z, t.(id := y))
  {
    RepNonNull(m, t, Above(z));
    AroundNonNull(m, z, Ptr(t));
    assert z != Top ==> Above(z) in ContextIds(z);
    assert t.left != Leaf ==> Ptr(t.left) in Ids(t.left);
    assert t.right != Leaf ==> Ptr(t.right) in Ids(t.right);
    RepMoved(m, m', t.left, t.id, y);
    RepMoved(m, m', t.right, t.id, y);
    RepAroundFilled(m, m', z, t.id, y);
    if z != Top { PlugPtr(z, t, t.(id := y)); }
  }

  // ----- the way from a node's right child down to its successor

  /** The k innermost frames of z are left turns. */
  ghost predicate LeftTurns(z: Context, k: nat) {
    k > 0 ==> z.InLeft? && LeftTurns(z.up, k - 1)
  }

  /** The context above the k innermost frames. */
  ghost function Outer(z: Context, k: nat): (w: Context)
    requires LeftTurns(z, k)
  {
    if k == 0 then z else Outer(z.up, k - 1)
  }

  /** The k innermost frames filled with t. */
  ghost function Inner(z: Context, k: nat, t: Tree): (u: Tree)
    requires LeftTurns(z, k)
  {
    if k == 0 then t else Inner(z.up, k - 1, Wrap(z, t))
  }

  /** The k innermost frames on top of another context. */
  ghost function Graft(z: Context, k: nat, w: Context): (z': Context)
    requires LeftTurns(z, k)
  {
    if k == 0 then w else InLeft(Graft(z.up, k - 1, w), z.id, z.color, z.right)
  }

  lemma {:induction false} PlugInner(z: Context, k: nat, t: Tree)
    requires LeftTurns(z, k)
    ensures Plug(Outer(z, k), Inner(z, k, t)) == Plug(z, t)
  {
    if k > 0 { PlugInner(z.up, k - 1, Wrap(z, t)); }
  }

  lemma {:induction false} FocusUp(m: Memory, ref: nat, z: Context, k: nat, t: Tree)
    requires LeftTurns(z, k) && Linked(m, ref, z, t)
    ensures Linked(m, ref, Outer(z, k), Inner(z, k, t))
  {
    if k > 0 {
      Up(m, ref, z, t);
      FocusUp(m, ref, z.up, k - 1, Wrap(z, t));
    }
  }

  lemma {:induction false} FocusDown(m: Memory, ref: nat, w: Context, z: Context, k: nat, t: Tree)
    requires LeftTurns(z, k) && Linked(m, ref, w, Inner(z, k, t))
    ensures Linked(m, ref, Graft(z, k, w), t)
  {
    if k > 0 {
      FocusDown(m, ref, w, z.up, k - 1, Wrap(z, t));
      DownLeft(m, ref, Graft(z.up, k - 1, w), Wrap(z, t));
    }
  }

  /** What follows the hole within its k innermost frames. */
  ghost function Rest(z: Context, k: nat): (s: seq<nat>)
    requires LeftTurns(z, k)
  {
    if k == 0 then [] else [z.id] + InOrder(z.right) + Rest(z.up, k - 1)
  }

  lemma {:induction false} InnerOrder(z: Context, k: nat, t: Tree)
    requires LeftTurns(z, k)
    ensures InOrder(Inner(z, k, t)) == InOrder(t) + Rest(z, k)
  {
    if k > 0 {
      InnerOrder(z.up, k - 1, Wrap(z, t));
      assert InOrder(t) + Rest(z, k) == InOrder(Wrap(z, t)) + Rest(z.up, k - 1);
    }
  }

  /** Two contexts that differ only in the address of the hole's parent. */
  ghost predicate SameFrame(w: Context, w': Context) {
    w.InRight? && w'.InRight? && w'.up == w.up && w'.left == w.left && w'.color == w.color
  }

  lemma {:induction false} GraftBal(z: Context, k: nat, w: Context, n: nat)
    requires LeftTurns(z, k) && BalAround(z, n) && SameFrame(Outer(z, k), w)
    ensures BalAround(Graft(z, k, w), n)
    ensures RedTop(Graft(z, k, w)) <==> RedTop(z)
    ensures Graft(z, k, w) != Top
  {
    if k > 0 {
      GraftBal(z.up, k - 1, w, if z.color == Black then n + 1 else n);
      GraftTop(z.up, k - 1, w);
    }
  }

  lemma GraftTop(z: Context, k: nat, w: Context)
    requires LeftTurns(z, k) && SameFrame(Outer(z, k), w)
    ensures Graft(z, k, w) != Top && z != Top && Graft(z, k, w).color == z.color
  {
  }

  lemma {:induction false} InnerIds(z: Context, k: nat, t: Tree)
    requires LeftTurns(z, k)
    ensures ContextIds(Outer(z, k)) + Ids(Inner(z, k, t)) == ContextIds(z) + Ids(t)
  {
    if k > 0 { InnerIds(z.up, k - 1, Wrap(z, t)); }
  }

  lemma {:induction false} InnerPtr(z: Context, k: nat, t: Tree, u: Tree)
    requires LeftTurns(z, k) && k > 0
    ensures Ptr(Inner(z, k, t)) == Ptr(Inner(z, k, u)) && Inner(z, k, t) != Leaf && Inner(z, k, u) != Leaf
    ensures Inner(z, k, t).id in ContextIds(z)
  {
    if k > 1 { InnerPtr(z.up, k - 1, Wrap(z, t), Wrap(z, u)); }
  }

  // ----- a node with two children

  /** z, t: the node to erase; zz, k, s: its successor s, reached by k left turns from t.right. */
  ghost predicate Succeeds(z: Context, t: Tree, zz: Context, k: nat, s: Tree) {
    && t != Leaf && t.left != Leaf && t.right != Leaf
    && s != Leaf && s.left == Leaf
    && LeftTurns(zz, k) && Outer(zz, k) == InRight(z, t.left, t.id, t.color) && Inner(zz, k, s) == t.right
  }

  /** What the exchange of t's root for its successor writes. */
  ghost predicate Exchanged(m: Memory, m': Memory, z: Context, t: Tree, zz: Context, k: nat, s: Tree)
    requires Succeeds(z, t, zz, k, s)
  {
    var y, u, r := s.id, s.right, t.right.id;
    && m.Keys <= m'.Keys
    && {t.id, y, t.left.id, r} + ContextIds(z) <= m.Keys && (u != Leaf ==> u.id in m) && (k > 0 ==> zz.id in m)
    && m'[y] == RbNode(Above(z), t.color, t.left.id, if k == 0 then Ptr(u) else r)
    && m'[t.left.id] == m[t.left.id].(parent := y)
    && (z != Top ==> m'[z.id] == Around(z, y))
    && (k > 0 ==> m'[zz.id] == if zz.id == r then m[r].(left := Ptr(u), parent := y) else m[zz.id].(left := Ptr(u)))
    && (k > 0 && zz.id != r ==> m'[r] == m[r].(parent := y))
    && (u != Leaf ==> m'[u.id] == if k == 0 then m[u.id] else m[u.id].(parent := zz.id))
    && forall i | i in m && i !in {t.id, y, t.left.id, Above(z), r, Above(zz), Ptr(u)} :: m'[i] == m[i]
  }

  /** Memory after the successor has been spliced out of its old place. */
  ghost function WithoutSuccessor(m: Memory, zz: Context, s: Tree): (m1: Memory)
    requires zz != Top && zz.id in m && s != Leaf && (s.right != Leaf ==> s.right.id in m)
  {
    var m1 := m[zz.id := Around(zz, Ptr(s.right))];
    if s.right == Leaf then m1 else m1[s.right.id := m[s.right.id].(parent := zz.id)]
  }

  lemma SuccessorOut(m: Memory, ref: nat, zz: Context, s: Tree)
    requires Linked(m, ref, zz, s) && zz != Top && s != Leaf && s.left == Leaf
    ensures zz.id in m && (s.right != Leaf ==> s.right.id in m && s.right.id != zz.id)
    ensures Linked(WithoutSuccessor(m, zz, s), ref, zz, s.right)
  {
    RepNonNull(m, s, Above(zz));
    AroundNonNull(m, zz, Ptr(s));
    if s.right != Leaf { assert s.right.id in Ids(s); }
    SplicedLinked(m, WithoutSuccessor(m, zz, s), ref, ref, zz, s, s.right);
  }

  /** The tree between the two steps: the old root with its successor gone. */
  ghost function Between(z: Context, t: Tree, zz: Context, k: nat, s: Tree): (u: Tree)
    requires Succeeds(z, t, zz, k, s)
    ensures u.Node?
  {
    t.(right := Inner(zz, k, s.right))
  }

  lemma BetweenLinked(m: Memory, ref: nat, z: Context, t: Tree, zz: Context, k: nat, s: Tree)
    requires Linked(m, ref, zz, s) && Succeeds(z, t, zz, k, s)
    ensures zz != Top && zz.id in m && (s.right != Leaf ==> s.right.id in m)
    ensures Linked(WithoutSuccessor(m, zz, s), ref, z, Between(z, t, zz, k, s))
    ensures s.id != 0 && s.id !in ContextIds(z) + Ids(Between(z, t, zz, k, s))
    ensures ContextIds(z) + Ids(Between(z, t, zz, k, s)) + {s.id} == ContextIds(zz) + Ids(s)
  {
    if k > 0 { assert zz.InLeft?; }
    SuccessorOut(m, ref, zz, s);
    var m1 := WithoutSuccessor(m, zz, s);
    FocusUp(m1, ref, zz, k, s.right);
    Up(m1, ref, Outer(zz, k), Inner(zz, k, s.right));
    InnerIds(zz, k, s.right);
  }

  /** The exchanged memory holds the tree with the successor in the erased node's place. */
  lemma ExchangedLinked(m: Memory, m': Memory, ref: nat, ref': nat, z: Context, t: Tree, zz: Context, k: nat, s: Tree)
    requires Linked(m, ref, zz, s) && Succeeds(z, t, zz, k, s) && Exchanged(m, m', z, t, zz, k, s)
    requires ref' == if z == Top then s.id else ref
    ensures Linked(m', ref', z, Node(t.left, s.id, t.color, Inner(zz, k, s.right)))
  {
    BetweenLinked(m, ref, z, t, zz, k, s);
    var m1, b := WithoutSuccessor(m, zz, s), Between(z, t, zz, k, s);
    ExchangedReplaced(m, m', ref, z, t, zz, k, s);
    ReplacedLinked(m1, m', ref, ref', z, b, s.id);
  }

  lemma {:induction false} InnerHas(z: Context, k: nat, t: Tree)
    requires LeftTurns(z, k)
    ensures Ids(t) <= Ids(Inner(z, k, t))
    ensures k > 0 ==> z.id in Ids(Inner(z, k, t))
  {
    if k > 0 { InnerHas(z.up, k - 1, Wrap(z, t)); }
  }

  /** Where the nodes of the exchange lie once the successor is out of its old place. */
  lemma BetweenFacts(m: Memory, ref: nat, z: Context, t: Tree, zz: Context, k: nat, s: Tree)
    requires Linked(m, ref, zz, s) && Succeeds(z, t, zz, k, s)
    requires zz != Top && zz.id in m && (s.right != Leaf ==> s.right.id in m)
    ensures var m1, b, u := WithoutSuccessor(m, zz, s), Between(z, t, zz, k, s), s.right;
            && b.id == t.id && b.left == t.left && b.color == t.color && (k == 0 ==> b.right == u)
            && 0 !in Ids(b) && 0 !in ContextIds(z) && Ids(b) !! ContextIds(z)
            && Ids(b.left) !! Ids(b.right) && b.id !in Ids(b.left) && b.id !in Ids(b.right)
            && b.left.id in Ids(b.left) && (z != Top ==> z.id in ContextIds(z))
            && (u != Leaf ==> u.id in Ids(b.right) && m[u.id].parent == s.id)
            && (k > 0 ==> b.right.Node? && b.right.id == t.right.id && b.right.id in Ids(b.right) && zz.id in Ids(b.right)
                          && m[zz.id] == Around(zz, s.id))
            && (k == 0 ==> zz.id == t.id && t.right == s)
            && s.id !in Ids(b) && s.id !in ContextIds(z)
  {
    var m1, b, u := WithoutSuccessor(m, zz, s), Between(z, t, zz, k, s), s.right;
    BetweenLinked(m, ref, z, t, zz, k, s);
    RepNonNull(m1, b, Above(z));
    AroundNonNull(m1, z, Ptr(b));
    InnerHas(zz, k, u);
    assert Rep(m, u, s.id);
    assert u != Leaf ==> u.id in Ids(u) && m[u.id].parent == s.id;
    if k > 0 {
      InnerPtr(zz, k, s, u);
      assert m[zz.id] == Around(zz, s.id);
    }
  }

  lemma ExchangedReplacedNear(m: Memory, m': Memory, ref: nat, z: Context, t: Tree, zz: Context, k: nat, s: Tree)
    requires Linked(m, ref, zz, s) && Succeeds(z, t, zz, k, s) && Exchanged(m, m', z, t, zz, k, s) && k == 0
    requires zz != Top && zz.id in m && (s.right != Leaf ==> s.right.id in m)
    ensures Replaced(WithoutSuccessor(m, zz, s), m', z, Between(z, t, zz, k, s), s.id)
  {
    hide Linked, Rep, Distinct, RepAround, DistinctAround, Inner, ContextIds;
    BetweenFacts(m, ref, z, t, zz, k, s);
    var m1, b := WithoutSuccessor(m, zz, s), Between(z, t, zz, k, s);
    forall i | i in ContextIds(z) + Ids(b) - {b.id, Ptr(b.left), Ptr(b.right), Above(z)} && i in m1
      ensures i in m' && m'[i] == m1[i]
    {
    }
  }

  /** What the exchange leaves alone, for a successor further down. */
  lemma ExchangedAgree(m: Memory, m': Memory, ref: nat, z: Context, t: Tree, zz: Context, k: nat, s: Tree)
    requires Linked(m, ref, zz, s) && Succeeds(z, t, zz, k, s) && Exchanged(m, m', z, t, zz, k, s) && k > 0
    requires zz != Top && zz.id in m && (s.right != Leaf ==> s.right.id in m)
    ensures var m1, b := WithoutSuccessor(m, zz, s), Between(z, t, zz, k, s);
            b.right != Leaf && Agree(m1, m', ContextIds(z) + Ids(b) - {b.id, Ptr(b.left), Ptr(b.right), Above(z)})
  {
    hide Linked, Rep, Distinct, RepAround, DistinctAround, Inner, ContextIds, Outer;
    BetweenFacts(m, ref, z, t, zz, k, s);
    var m1, b := WithoutSuccessor(m, zz, s), Between(z, t, zz, k, s);
    forall i | i in ContextIds(z) + Ids(b) - {b.id, Ptr(b.left), Ptr(b.right), Above(z)} && i in m1
      ensures i in m' && m'[i] == m1[i]
    {
    }
  }

  lemma ExchangedReplacedFar(m: Memory, m': Memory, ref: nat, z: Context, t: Tree, zz: Context, k: nat, s: Tree)
    requires Linked(m, ref, zz, s) && Succeeds(z, t, zz, k, s) && Exchanged(m, m', z, t, zz, k, s) && k > 0
    requires zz != Top && zz.id in m && (s.right != Leaf ==> s.right.id in m)
    ensures Replaced(WithoutSuccessor(m, zz, s), m', z, Between(z, t, zz, k, s), s.id)
  {
    hide Linked, Rep, Distinct, RepAround, DistinctAround, Inner, ContextIds, Outer, Agree;
    BetweenFacts(m, ref, z, t, zz, k, s);
    ExchangedAgree(m, m', ref, z, t, zz, k, s);
  }

  lemma ExchangedReplaced(m: Memory, m': Memory, ref: nat, z: Context, t: Tree, zz: Context, k: nat, s: Tree)
    requires Linked(m, ref, zz, s) && Succeeds(z, t, zz, k, s) && Exchanged(m, m', z, t, zz, k, s)
    requires zz != Top && zz.id in m && (s.right != Leaf ==> s.right.id in m)
    ensures Replaced(WithoutSuccessor(m, zz, s), m', z, Between(z, t, zz, k, s), s.id)
  {
    hide Linked, Succeeds, Exchanged, Replaced;
    if k == 0 {
      ExchangedReplacedNear(m, m', ref, z, t, zz, k, s);
    } else {
      ExchangedReplacedFar(m, m', ref, z, t, zz, k, s);
    }
  }

  lemma {:induction false} PlugGraft(z: Context, k: nat, w: Context, t: Tree)
    requires LeftTurns(z, k)
    ensures Plug(Graft(z, k, w), t) == Plug(w, Inner(z, k, t))
  {
    if k > 0 { PlugGraft(z.up, k - 1, w, Wrap(z, t)); }
  }

  /** The in-order sequence loses exactly the erased node. */
  lemma ExchangedOrder(z: Context, t: Tree, zz: Context, k: nat, s: Tree)
    requires Succeeds(z, t, zz, k, s)
    ensures InOrder(Plug(Graft(zz, k, InRight(z, t.left, s.id, t.color)), s.right))
         == Before(z) + InOrder(t.left) + InOrder(t.right) + After(z)
  {
    var w, r := InRight(z, t.left, s.id, t.color), Inner(zz, k, s.right);
    PlugGraft(zz, k, w, s.right);
    InnerOrder(zz, k, s);
    InnerOrder(zz, k, s.right);
    assert InOrder(t.right) == [s.id] + InOrder(r) by { assert InOrder(s) == [s.id] + InOrder(s.right); }
    InOrderPlug(z, Node(t.left, s.id, t.color, r));
    assert InOrder(Node(t.left, s.id, t.color, r)) == InOrder(t.left) + [s.id] + InOrder(r);
    hide InOrder, Before, After, Plug, Inner;
    Regroup(Before(z), InOrder(t.left), [s.id], InOrder(r), After(z));
  }

  lemma Regroup(a: seq<nat>, b: seq<nat>, c: seq<nat>, d: seq<nat>, e: seq<nat>)
    ensures a + (b + c + d) + e == a + b + (c + d) + e
  {
  }
}
