/**
 The tree operations as changes to the in-order sequence of node addresses.
 */
module RbOrder {
  import opened Sequences
  import opened RbShape
  import opened RbMemory
  import opened RbTree

  /** Memory m has nodes at these addresses only. */
  ghost predicate NodesOnly(m: Memory, order: seq<nat>) {
    forall x | x in m :: x in order
  }

  /** The whole tree is a red-black tree linked in memory with this in-order sequence, and the memory holds nothing else. */
  ghost predicate Holds(m: Memory, ref: nat, shape: Tree, order: seq<nat>) {
    Linked(m, ref, Top, shape) && RedBlack(shape) && InOrder(shape) == order && NodesOnly(m, order)
  }

  /** The tree does without the cell of a node that it does not hold. */
  lemma LinkedWithout(m: Memory, ref: nat, t: Tree, x: nat)
    requires Linked(m, ref, Top, t) && x !in InOrder(t)
    ensures Linked(m - {x}, ref, Top, t)
  {
    IdsInOrder(t);
    RepFrame(m, m - {x}, t, 0);
  }

  lemma {:induction false} InOrderNoRepeats(t: Tree)
    requires Distinct(t)
    ensures NoRepeats(InOrder(t))
  {
    if t != Leaf {
      InOrderNoRepeats(t.left);
      InOrderNoRepeats(t.right);
      IdsInOrder(t.left);
      IdsInOrder(t.right);
      NoRepeatsConcat(InOrder(t.left), t.id, InOrder(t.right));
    }
  }

  lemma NoRepeatsConcat(s: seq<nat>, x: nat, t: seq<nat>)
    requires NoRepeats(s) && NoRepeats(t) && x !in s && x !in t && forall y | y in s :: y !in t
    ensures NoRepeats(s + [x] + t)
  {
    var u := s + [x] + t;
    forall i, j | 0 <= i < j < |u|
      ensures u[i] != u[j]
    {
      assert i < |s| ==> u[i] in s;
      assert j > |s| ==> u[j] == t[j - |s| - 1] && u[j] in t;
      assert i > |s| ==> u[i] == t[i - |s| - 1];
    }
  }

  /** A node stands at one place of the sequence. */
  lemma SplitUnique(s: seq<nat>, t: seq<nat>, x: nat, s': seq<nat>, t': seq<nat>)
    requires s + [x] + t == s' + [x] + t' && NoRepeats(s + [x] + t)
    ensures s == s' && t == t'
  {
    var u := s + [x] + t;
    assert u[|s|] == x && u[|s'|] == x;
    assert |s| == |s'|;
    assert s == u[..|s|] && s' == u[..|s|] && t == u[|s| + 1..] && t' == u[|s| + 1..];
  }

  lemma SplitAround(s: seq<nat>, t: seq<nat>, x: nat, b: seq<nat>, l: seq<nat>, r: seq<nat>, a: seq<nat>)
    requires s + [x] + t == b + (l + [x] + r) + a && NoRepeats(s + [x] + t)
    ensures s == b + l && t == r + a
  {
    assert b + (l + [x] + r) + a == (b + l) + [x] + (r + a);
    SplitUnique(s, t, x, b + l, r + a);
  }

  /** Where a node sits in the tree, given what is before and after it in order. */
  lemma LocateSplit(m: Memory, ref: nat, shape: Tree, before: seq<nat>, a: nat, after: seq<nat>)
      returns (z: Context, t: Tree)
    requires Holds(m, ref, shape, before + [a] + after)
    ensures Linked(m, ref, z, t) && t != Leaf && t.id == a && Plug(z, t) == shape
    ensures before == Before(z) + InOrder(t.left) && after == InOrder(t.right) + After(z)
  {
    assert Distinct(shape);
    IdsInOrder(shape);
    hide RedBlack, Linked, Plug, Before, After, NoRepeats;
    PlugTop(shape);
    assert (before + [a] + after)[|before|] == a;
    InOrderNoRepeats(shape);
    z, t := Locate(m, ref, Top, shape, a);
    InOrderPlug(z, t);
    assert InOrder(t) == InOrder(t.left) + [a] + InOrder(t.right);
    SplitAround(before, after, a, Before(z), InOrder(t.left), InOrder(t.right), After(z));
  }

  /** Erasing a node takes it out of the sequence; its memory is no longer the tree's. */
  method EraseAt(rb: NetRbTree, a: nat, ghost shape: Tree, ghost before: seq<nat>, ghost after: seq<nat>)
      returns (ghost u: Tree)
    requires Holds(rb.cells, rb.ref, shape, before + [a] + after)
    modifies rb
    ensures Holds(rb.cells, rb.ref, u, before + after)
  {
    hide Linked, RedBlack, InOrder, Before, After, NoRepeats, NodesOnly;
    ghost var z, t := LocateSplit(rb.cells, rb.ref, shape, before, a, after);
    SplitDistinct(rb.cells, rb.ref, shape, before, a, after);
    u := rb.Erase(a, z, t);
    assert before + after == Before(z) + InOrder(t.left) + InOrder(t.right) + After(z);
    LinkedWithout(rb.cells, rb.ref, u, a);
    OnlyWithout(old(rb.cells), rb.cells, before, a, after);
    rb.cells := rb.cells - {a};
  }

  lemma SplitDistinct(m: Memory, ref: nat, shape: Tree, before: seq<nat>, a: nat, after: seq<nat>)
    requires Holds(m, ref, shape, before + [a] + after)
    ensures a !in before + after
  {
    assert Distinct(shape);
    InOrderNoRepeats(shape);
    var s := before + [a] + after;
    assert s[|before|] == a;
    forall x | x in before + after
      ensures x != a
    {
      if x in before {
        var i :| 0 <= i < |before| && before[i] == x;
        assert s[i] == x;
      } else {
        var i :| 0 <= i < |after| && after[i] == x;
        assert s[|before| + 1 + i] == x;
      }
    }
  }

  lemma OnlyWithout(m: Memory, m': Memory, before: seq<nat>, a: nat, after: seq<nat>)
    requires NodesOnly(m, before + [a] + after) && m'.Keys == m.Keys
    ensures NodesOnly(m' - {a}, before + after)
  {
  }

  lemma OnlyInstead(m: Memory, m': Memory, before: seq<nat>, a: nat, a': nat, after: seq<nat>)
    requires NodesOnly(m, before + [a] + after) && m'.Keys == m.Keys + {a'} && a' != a
    ensures NodesOnly(m' - {a}, before + [a'] + after)
  {
  }

  lemma OnlyWith(m: Memory, m': Memory, before: seq<nat>, a: nat, after: seq<nat>)
    requires NodesOnly(m, before + after) && m'.Keys == m.Keys + {a}
    ensures NodesOnly(m', before + [a] + after)
  {
  }

  /** The red-black laws do not look at addresses. */
  lemma RenamedBalanced(z: Context, t: Tree, x: nat)
    requires t != Leaf && RedBlack(Plug(z, t))
    ensures RedBlack(Plug(z, Node(t.left, x, t.color, t.right)))
  {
    hide Plug;
    var u := Node(t.left, x, t.color, t.right);
    var n: nat :| Bal(Plug(z, t), n);
    BalUnplug(z, t, n);
    BalPlug(z, u, n - Blacks(z));
    PlugTop(u);
  }

  lemma PlugTop(t: Tree)
    ensures Plug(Top, t) == t
  {
  }

  lemma RenamedOrder(z: Context, t: Tree, x: nat)
    requires t != Leaf
    ensures InOrder(Plug(z, Node(t.left, x, t.color, t.right)))
         == Before(z) + InOrder(t.left) + [x] + (InOrder(t.right) + After(z))
  {
    hide Plug;
    var u := Node(t.left, x, t.color, t.right);
    InOrderPlug(z, u);
    assert InOrder(u) == InOrder(t.left) + [x] + InOrder(t.right);
    hide InOrder, Before, After;
    assert Before(z) + InOrder(u) + After(z) == Before(z) + InOrder(t.left) + [x] + (InOrder(t.right) + After(z));
  }

  /** Replacing a node puts the other in its place of the sequence; its memory is no longer the tree's. */
  method ReplaceAt(rb: NetRbTree, a: nat, a': nat, ghost shape: Tree, ghost before: seq<nat>, ghost after: seq<nat>)
      returns (ghost u: Tree)
    requires Holds(rb.cells, rb.ref, shape, before + [a] + after) && a' != 0 && a' !in before + [a] + after
    modifies rb
    ensures Holds(rb.cells, rb.ref, u, before + [a'] + after)
  {
    hide Linked, RedBlack, InOrder, Before, After, NoRepeats, NodesOnly;
    ghost var z, t := LocateSplit(rb.cells, rb.ref, shape, before, a, after);
    SplitDistinct(rb.cells, rb.ref, shape, before, a, after);
    PlugIds(z, t);
    IdsInOrder(shape);
    rb.Replace(a, a', z, t);
    u := Plug(z, Node(t.left, a', t.color, t.right));
    ToRoot(rb.cells, rb.ref, z, Node(t.left, a', t.color, t.right));
    RenamedBalanced(z, t, a');
    RenamedOrder(z, t, a');
    assert a != a' by { assert (before + [a] + after)[|before|] == a; }
    LinkedWithout(rb.cells, rb.ref, u, a);
    OnlyInstead(old(rb.cells), rb.cells, before, a, a', after);
    rb.cells := rb.cells - {a};
  }

  /** Replacing a node by itself changes nothing. */
  method ReplaceSelf(rb: NetRbTree, a: nat, ghost shape: Tree, ghost before: seq<nat>, ghost after: seq<nat>)
      returns (ghost u: Tree)
    requires Holds(rb.cells, rb.ref, shape, before + [a] + after)
    modifies rb
    ensures Holds(rb.cells, rb.ref, u, before + [a] + after)
  {
    hide Linked, RedBlack, InOrder, Before, After, NoRepeats, NodesOnly;
    ghost var z, t := LocateSplit(rb.cells, rb.ref, shape, before, a, after);
    rb.ReplaceBySelf(a, z, t);
    u := shape;
  }

  lemma EmptyHole(z: Context, x: nat) returns (n: nat)
    requires RedBlack(Plug(z, Leaf))
    ensures Inserting(z, Node(Leaf, x, Red, Leaf), n)
    ensures InOrder(Plug(z, Leaf)) == Before(z) + After(z)
    ensures InOrder(Plug(z, Node(Leaf, x, Red, Leaf))) == Before(z) + [x] + After(z)
  {
    var k: nat :| Bal(Plug(z, Leaf), k);
    BalUnplug(z, Leaf, k);
    n := k - Blacks(z);
    InOrderPlug(z, Leaf);
    InOrderPlug(z, Node(Leaf, x, Red, Leaf));
    assert InOrder(Node(Leaf, x, Red, Leaf)) == [x];
    assert Before(z) + [] + After(z) == Before(z) + After(z);
  }

  /** Linking a node into an empty place puts it there in the sequence. */
  method InsertAt(rb: NetRbTree, a: nat, parent: nat, asLeft: bool, ghost z: Context) returns (ghost u: Tree)
    requires Linked(rb.cells, rb.ref, z, Leaf) && RedBlack(Plug(z, Leaf)) && NodesOnly(rb.cells, Before(z) + After(z))
    requires a != 0 && a !in Before(z) + After(z) && parent == Above(z) && (z != Top ==> (asLeft <==> z.InLeft?))
    modifies rb
    ensures Holds(rb.cells, rb.ref, u, Before(z) + [a] + After(z))
  {
    hide Linked, RedBlack, InOrder, Before, After, NodesOnly;
    ghost var n := EmptyHole(z, a);
    PlugIds(z, Leaf);
    IdsInOrder(Plug(z, Leaf));
    rb.LinkNode(a, parent, asLeft, z);
    u := rb.Insert(a, z, Node(Leaf, a, Red, Leaf), n);
    OnlyWith(old(rb.cells), rb.cells, Before(z), a, After(z));
  }
}
