/**
 Red-black trees as values: trees of node addresses, a tree with a hole, in-order sequences,
 and the red-black laws for whole trees and around a hole.
 */
module RbShape {
  import B = Bits

  datatype Color = Red | Black

  datatype Tree = Leaf | Node(left: Tree, id: nat, color: Color, right: Tree)

  /** The surroundings of a hole, from the hole's parent up to the root. */
  datatype Context =
    | Top
    | InLeft(up: Context, id: nat, color: Color, right: Tree)
    | InRight(up: Context, left: Tree, id: nat, color: Color)

  /** The parent of the hole with t in the hole. */
  function Wrap(z: Context, t: Tree): (u: Tree)
    requires z != Top
  {
    match z
    case InLeft(_, x, c, r) => Node(t, x, c, r)
    case InRight(_, l, x, c) => Node(l, x, c, t)
  }

  function Plug(z: Context, t: Tree): (u: Tree) {
    if z == Top then t else Plug(z.up, Wrap(z, t))
  }

  function Depth(z: Context): (n: nat) {
    if z == Top then 0 else 1 + Depth(z.up)
  }

  // ----- in-order sequences

  function InOrder(t: Tree): (s: seq<nat>) {
    match t
    case Leaf => []
    case Node(l, x, _, r) => InOrder(l) + [x] + InOrder(r)
  }

  /** What comes before the hole, in order. */
  function Before(z: Context): (s: seq<nat>) {
    match z
    case Top => []
    case InLeft(up, _, _, _) => Before(up)
    case InRight(up, l, x, _) => Before(up) + InOrder(l) + [x]
  }

  /** What comes after the hole, in order. */
  function After(z: Context): (s: seq<nat>) {
    match z
    case Top => []
    case InLeft(up, x, _, r) => [x] + InOrder(r) + After(up)
    case InRight(up, _, _, _) => After(up)
  }

  lemma {:induction false} InOrderPlug(z: Context, t: Tree)
    ensures InOrder(Plug(z, t)) == Before(z) + InOrder(t) + After(z)
  {
    if z != Top {
      InOrderPlug(z.up, Wrap(z, t));
      assert Before(z) + InOrder(t) + After(z) == Before(z.up) + InOrder(Wrap(z, t)) + After(z.up);
    }
  }

  function Size(t: Tree): (n: nat) {
    if t == Leaf then 0 else Size(t.left) + 1 + Size(t.right)
  }

  function Height(t: Tree): (n: nat) {
    if t == Leaf then 0
    else 1 + if Height(t.left) > Height(t.right) then Height(t.left) else Height(t.right)
  }

  lemma {:induction false} SizeInOrder(t: Tree)
    ensures |InOrder(t)| == Size(t)
  {
    if t.Node? {
      SizeInOrder(t.left);
      SizeInOrder(t.right);
    }
  }

  // ----- the red-black laws

  predicate IsRed(t: Tree) {
    t.Node? && t.color == Red
  }

  /** Every path down has n black nodes, and no red node has a red child. */
  predicate Bal(t: Tree, n: nat) {
    match t
    case Leaf => n == 0
    case Node(l, _, Black, r) => n > 0 && Bal(l, n - 1) && Bal(r, n - 1)
    case Node(l, _, Red, r) => Bal(l, n) && Bal(r, n) && !IsRed(l) && !IsRed(r)
  }

  predicate RedTop(z: Context) {
    z != Top && z.color == Red
  }

  function Sibling(z: Context): (t: Tree)
    requires z != Top
  {
    if z.InLeft? then z.right else z.left
  }

  /**
   The laws around a hole that takes a tree of black height n; the outermost node, the root,
   is black.
   */
  predicate BalAround(z: Context, n: nat) {
    z != Top ==>
      && Bal(Sibling(z), n)
      && (z.color == Red ==> z.up != Top && z.up.color == Black && !IsRed(Sibling(z)))
      && BalAround(z.up, if z.color == Black then n + 1 else n)
  }

  function Blacks(z: Context): (n: nat) {
    if z == Top then 0 else Blacks(z.up) + (if z.color == Black then 1 else 0)
  }

  /** A red-black tree: balanced, with a black root. */
  ghost predicate RedBlack(t: Tree) {
    !IsRed(t) && exists n: nat :: Bal(t, n)
  }

  lemma {:induction false} BalPlug(z: Context, t: Tree, n: nat)
    requires BalAround(z, n) && Bal(t, n) && !(RedTop(z) && IsRed(t))
    ensures Bal(Plug(z, t), n + Blacks(z))
    ensures z != Top ==> !IsRed(Plug(z, t))
  {
    if z != Top {
      BalPlug(z.up, Wrap(z, t), if z.color == Black then n + 1 else n);
    }
  }

  lemma {:induction false} BalUnplug(z: Context, t: Tree, n: nat)
    requires Bal(Plug(z, t), n) && !IsRed(Plug(z, t))
    ensures Blacks(z) <= n && BalAround(z, n - Blacks(z)) && Bal(t, n - Blacks(z))
    ensures !(RedTop(z) && IsRed(t)) && (z == Top ==> !IsRed(t))
  {
    if z != Top {
      BalUnplug(z.up, Wrap(z, t), n);
    }
  }

  // ----- height

  /** Black height n needs at least 2^n - 1 nodes and allows height at most 2n (2n + 1 under a red root). */
  lemma {:induction false} BalSize(t: Tree, n: nat)
    requires Bal(t, n)
    ensures B.Pow2(n) <= Size(t) + 1
    ensures Height(t) <= 2 * n + (if IsRed(t) then 1 else 0)
  {
    if t.Node? {
      var m := if t.color == Black then n - 1 else n;
      BalSize(t.left, m);
      BalSize(t.right, m);
    }
  }

  lemma {:induction false} Pow2Square(n: nat)
    ensures B.Pow2(2 * n) == B.Pow2(n) * B.Pow2(n)
  {
    if n > 0 {
      Pow2Square(n - 1);
      var p := B.Pow2(n - 1);
      assert B.Pow2(2 * n) == 2 * B.Pow2(2 * n - 1) == 4 * B.Pow2(2 * (n - 1));
      assert (2 * p) * (2 * p) == 4 * (p * p);
    }
  }

  /** The height of a red-black tree of s nodes is at most 2 log2(s + 1). */
  lemma HeightBound(t: Tree)
    requires RedBlack(t)
    ensures B.Pow2(Height(t)) <= (|InOrder(t)| + 1) * (|InOrder(t)| + 1)
  {
    SizeInOrder(t);
    var n: nat :| Bal(t, n);
    BalSize(t, n);
    B.Pow2Monotone(Height(t), 2 * n);
    Pow2Square(n);
    SquareMonotone(B.Pow2(n), Size(t) + 1);
  }

  lemma SquareMonotone(a: nat, b: nat)
    requires a <= b
    ensures a * a <= b * b
  {
  }
}
