/**
 Tree nodes in memory: each node's parent, colour and children by address (0 is null), and
 when such a memory represents a tree at a place in its surroundings.
 */
module RbMemory {
  import opened RbShape

  datatype RbNode = RbNode(parent: nat, color: Color, left: nat, right: nat)

  type Memory = map<nat, RbNode>

  function Ptr(t: Tree): (p: nat) {
    if t == Leaf then 0 else t.id
  }

  /** Address of the hole's parent. */
  function Above(z: Context): (p: nat) {
    if z == Top then 0 else z.id
  }

  ghost function Ids(t: Tree): (s: set<nat>) {
    if t == Leaf then {} else Ids(t.left) + {t.id} + Ids(t.right)
  }

  ghost predicate Distinct(t: Tree) {
    t != Leaf ==>
      && t.id !in Ids(t.left) && t.id !in Ids(t.right) && Ids(t.left) !! Ids(t.right)
      && Distinct(t.left) && Distinct(t.right)
  }

  /** Memory m holds t, whose parent is at p. */
  ghost predicate Rep(m: Memory, t: Tree, p: nat) {
    t != Leaf ==>
      && t.id != 0 && t.id in m && m[t.id] == RbNode(p, t.color, Ptr(t.left), Ptr(t.right))
      && Rep(m, t.left, t.id) && Rep(m, t.right, t.id)
  }

  ghost function ContextIds(z: Context): (s: set<nat>) {
    if z == Top then {} else {z.id} + Ids(Sibling(z)) + ContextIds(z.up)
  }

  ghost predicate DistinctAround(z: Context) {
    z != Top ==>
      && z.id !in Ids(Sibling(z)) && Distinct(Sibling(z))
      && z.id !in ContextIds(z.up) && Ids(Sibling(z)) !! ContextIds(z.up)
      && DistinctAround(z.up)
  }

  /** The cell of the hole's parent when the hole is filled by the node at h. */
  function Around(z: Context, h: nat): (c: RbNode)
    requires z != Top
  {
    match z
    case InLeft(up, _, c, r) => RbNode(Above(up), c, h, Ptr(r))
    case InRight(up, l, _, c) => RbNode(Above(up), c, Ptr(l), h)
  }

  /** Memory m holds the surroundings z of a hole filled by the node at h. */
  ghost predicate RepAround(m: Memory, z: Context, h: nat) {
    z != Top ==>
      && z.id != 0 && z.id in m && m[z.id] == Around(z, h)
      && Rep(m, Sibling(z), z.id)
      && RepAround(m, z.up, z.id)
  }

  /** Memory m with root pointer ref holds t in the surroundings z, and no node twice. */
  ghost predicate Linked(m: Memory, ref: nat, z: Context, t: Tree) {
    && ref == Ptr(Plug(z, t))
    && RepAround(m, z, Ptr(t)) && Rep(m, t, Above(z))
    && DistinctAround(z) && Distinct(t) && Ids(t) !! ContextIds(z)
  }

  // ----- frames

  ghost predicate Agree(m: Memory, m': Memory, s: set<nat>) {
    forall x | x in s && x in m :: x in m' && m'[x] == m[x]
  }

  lemma {:induction false} RepFrame(m: Memory, m': Memory, t: Tree, p: nat)
    requires Rep(m, t, p) && Agree(m, m', Ids(t))
    ensures Rep(m', t, p)
  {
    if t != Leaf {
      RepFrame(m, m', t.left, t.id);
      RepFrame(m, m', t.right, t.id);
    }
  }

  /** Only the root of t moved under another parent. */
  lemma RepMoved(m: Memory, m': Memory, t: Tree, p: nat, p': nat)
    requires Rep(m, t, p) && Distinct(t) && Agree(m, m', Ids(t) - {Ptr(t)})
    requires t != Leaf ==> t.id in m' && m'[t.id] == m[t.id].(parent := p')
    ensures Rep(m', t, p')
  {
    if t != Leaf {
      RepFrame(m, m', t.left, t.id);
      RepFrame(m, m', t.right, t.id);
    }
  }

  lemma {:induction false} RepAroundFrame(m: Memory, m': Memory, z: Context, h: nat)
    requires RepAround(m, z, h) && Agree(m, m', ContextIds(z))
    ensures RepAround(m', z, h)
  {
    if z != Top {
      RepFrame(m, m', Sibling(z), z.id);
      RepAroundFrame(m, m', z.up, z.id);
    }
  }

  /** Only the hole's parent got another child in the hole. */
  lemma RepAroundFilled(m: Memory, m': Memory, z: Context, h: nat, h': nat)
    requires RepAround(m, z, h) && DistinctAround(z) && Agree(m, m', ContextIds(z) - {Above(z)})
    requires z != Top ==> z.id in m' && m'[z.id] == Around(z, h')
    ensures RepAround(m', z, h')
  {
    if z != Top {
      RepFrame(m, m', Sibling(z), z.id);
      RepAroundFrame(m, m', z.up, z.id);
    }
  }

  lemma {:induction false} RepNonNull(m: Memory, t: Tree, p: nat)
    requires Rep(m, t, p)
    ensures 0 !in Ids(t) && Ids(t) <= m.Keys
  {
    if t != Leaf {
      RepNonNull(m, t.left, t.id);
      RepNonNull(m, t.right, t.id);
    }
  }

  lemma {:induction false} AroundNonNull(m: Memory, z: Context, h: nat)
    requires RepAround(m, z, h)
    ensures 0 !in ContextIds(z) && ContextIds(z) <= m.Keys
  {
    if z != Top {
      RepNonNull(m, Sibling(z), z.id);
      AroundNonNull(m, z.up, z.id);
    }
  }

  // ----- moving the focus

  lemma Up(m: Memory, ref: nat, z: Context, t: Tree)
    requires Linked(m, ref, z, t) && z != Top
    ensures Linked(m, ref, z.up, Wrap(z, t))
  {
  }

  lemma DownLeft(m: Memory, ref: nat, z: Context, t: Tree)
    requires Linked(m, ref, z, t) && t != Leaf
    ensures Linked(m, ref, InLeft(z, t.id, t.color, t.right), t.left)
  {
  }

  lemma DownRight(m: Memory, ref: nat, z: Context, t: Tree)
    requires Linked(m, ref, z, t) && t != Leaf
    ensures Linked(m, ref, InRight(z, t.left, t.id, t.color), t.right)
  {
  }

  lemma {:induction false} PlugIds(z: Context, t: Tree)
    ensures Ids(Plug(z, t)) == ContextIds(z) + Ids(t)
  {
    if z != Top { PlugIds(z.up, Wrap(z, t)); }
  }

  lemma {:induction false} ToRoot(m: Memory, ref: nat, z: Context, t: Tree)
    requires Linked(m, ref, z, t)
    ensures Linked(m, ref, Top, Plug(z, t))
  {
    if z != Top {
      Up(m, ref, z, t);
      ToRoot(m, ref, z.up, Wrap(z, t));
    }
  }

  /** The place of a node in a tree. */
  lemma {:induction false} Locate(m: Memory, ref: nat, z: Context, t: Tree, x: nat) returns (z': Context, t': Tree)
    requires Linked(m, ref, z, t) && x in Ids(t)
    ensures Linked(m, ref, z', t') && t' != Leaf && t'.id == x && Plug(z', t') == Plug(z, t)
    decreases t
  {
    if t.id == x {
      z', t' := z, t;
    } else if x in Ids(t.left) {
      DownLeft(m, ref, z, t);
      z', t' := Locate(m, ref, InLeft(z, t.id, t.color, t.right), t.left, x);
    } else {
      DownRight(m, ref, z, t);
      z', t' := Locate(m, ref, InRight(z, t.left, t.id, t.color), t.right, x);
    }
  }

  lemma {:induction false} PlugPtr(z: Context, t: Tree, u: Tree)
    requires z != Top || Ptr(t) == Ptr(u)
    ensures Ptr(Plug(z, t)) == Ptr(Plug(z, u))
  {
    if z != Top { PlugPtr(z.up, Wrap(z, t), Wrap(z, u)); }
  }

  lemma {:induction false} IdsInOrder(t: Tree)
    ensures forall x :: x in Ids(t) <==> x in InOrder(t)
  {
    if t != Leaf {
      IdsInOrder(t.left);
      IdsInOrder(t.right);
    }
  }
}
