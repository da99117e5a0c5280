/**
 Page directories in memory: a tree is represented by a map from directory address to
 directory.
 */
module PgtMemory {
  import opened PgtTree

  type Memory = map<nat, PgtDir>

  function Entry(t: Tree): (e: PgtEntry) {
    match t
    case Empty => EmptyEntry
    case Leaf(r) => RegionEntry(r)
    case Dir(p, _) => DirEntry(p)
  }

  function Count(es: seq<PgtEntry>): (n: nat) {
    if es == [] then 0 else Count(es[..|es| - 1]) + (if es[|es| - 1] == EmptyEntry then 0 else 1)
  }

  /** Addresses of the directories of t. */
  ghost function Ptrs(t: Tree): (ps: set<nat>) {
    if t.Dir? then {t.ptr} + (set i, p | 0 <= i < |t.kids| && p in Ptrs(t.kids[i]) :: p) else {}
  }

  /** No directory is reached twice. */
  ghost predicate Distinct(t: Tree) {
    t.Dir? ==>
      && (forall i | 0 <= i < |t.kids| :: t.ptr !in Ptrs(t.kids[i]) && Distinct(t.kids[i]))
      && (forall i, j | 0 <= i < j < |t.kids| :: Ptrs(t.kids[i]) !! Ptrs(t.kids[j]))
  }

  /** The directory at p holds the entries of kids and the right count. */
  ghost predicate Holds(m: Memory, p: nat, kids: seq<Tree>) {
    && p in m
    && |m[p].entries| == |kids|
    && (forall i | 0 <= i < |kids| :: m[p].entries[i] == Entry(kids[i]))
    && m[p].count == Count(m[p].entries)
  }

  ghost predicate Rep(m: Memory, t: Tree) {
    t.Dir? ==> Holds(m, t.ptr, t.kids) && forall i | 0 <= i < |t.kids| :: Rep(m, t.kids[i])
  }

  lemma {:induction false} CountUpdate(es: seq<PgtEntry>, i: nat, e: PgtEntry)
    requires i < |es|
    ensures Count(es[i := e]) == Count(es)
                                 - (if es[i] == EmptyEntry then 0 else 1) + (if e == EmptyEntry then 0 else 1)
  {
    var n := |es| - 1;
    if i < n {
      CountUpdate(es[..n], i, e);
      assert es[i := e][..n] == es[..n][i := e];
    } else {
      assert es[i := e][..n] == es[..n];
    }
  }

  lemma {:induction false} CountZero(es: seq<PgtEntry>)
    ensures Count(es) == 0 <==> forall i | 0 <= i < |es| :: es[i] == EmptyEntry
  {
    if es != [] {
      var n := |es| - 1;
      CountZero(es[..n]);
      assert forall i | 0 <= i < n :: es[..n][i] == es[i];
    }
  }

  /** A count of one means one present entry. */
  lemma CountOne(es: seq<PgtEntry>, i: nat)
    requires i < |es| && es[i] != EmptyEntry
    ensures Count(es) == 1 <==> forall j | 0 <= j < |es| && j != i :: es[j] == EmptyEntry
  {
    CountUpdate(es, i, EmptyEntry);
    CountZero(es[i := EmptyEntry]);
    assert forall j | 0 <= j < |es| && j != i :: es[i := EmptyEntry][j] == es[j];
  }

  lemma KidPtrs(t: Tree, i: nat)
    requires t.Dir? && i < |t.kids|
    ensures Ptrs(t.kids[i]) <= Ptrs(t)
  {
  }

  lemma {:induction false} RepFrame(m: Memory, m': Memory, t: Tree)
    requires Rep(m, t)
    requires forall p | p in Ptrs(t) :: p in m && p in m' && m'[p] == m[p]
    ensures Rep(m', t)
  {
    if t.Dir? {
      assert t.ptr in Ptrs(t);
      forall i | 0 <= i < |t.kids|
        ensures Rep(m', t.kids[i])
      {
        KidPtrs(t, i);
        RepFrame(m, m', t.kids[i]);
      }
    }
  }

  lemma {:induction false} RepPtrs(m: Memory, t: Tree)
    requires Rep(m, t)
    ensures Ptrs(t) <= m.Keys
  {
    if t.Dir? {
      forall i | 0 <= i < |t.kids|
        ensures Ptrs(t.kids[i]) <= m.Keys
      {
        RepPtrs(m, t.kids[i]);
      }
    }
  }

  // ----- a tree with a hole, at the end of the path along an address

  /** The surroundings of a hole: directory up's kids with kid d taken out, and so on upward. */
  datatype Context = Top | In(up: Context, ptr: nat, kids: seq<Tree>, d: nat)

  function Plug(z: Context, u: Tree): (t: Tree)
    requires FitsHoles(z)
  {
    match z
    case Top => u
    case In(up, p, kids, d) => Plug(up, Dir(p, kids[d := u]))
  }

  predicate FitsHoles(z: Context) {
    z.In? ==> |z.kids| == 16 && z.d < 16 && FitsHoles(z.up)
  }

  function Depth(z: Context): (n: nat) {
    if z.Top? then 0 else 1 + Depth(z.up)
  }

  /** The hole sits at level k on the path along a. */
  predicate Along(z: Context, k: nat, a: nat) {
    z.In? ==> |z.kids| == 16 && z.d == Digit(k, a) && Along(z.up, k + 1, a)
  }

  /** Inside the hole's block the plugged tree answers; outside the context does. */
  lemma {:induction false} FindPlug(z: Context, u: Tree, w: Tree, k: nat, a: nat, b: nat)
    requires Along(z, k, a) && FitsHoles(z) && Block(k + Depth(z), a) == Block(k + Depth(z), b)
    ensures Block(k, a) == Block(k, b) ==> Find(Plug(z, u), k + Depth(z), b) == Find(u, k, b)
    ensures Block(k, a) != Block(k, b) ==>
              Find(Plug(z, u), k + Depth(z), b) == Find(Plug(z, w), k + Depth(z), b)
  {
    if z.In? {
      FindPlug(z.up, Dir(z.ptr, z.kids[z.d := u]), Dir(z.ptr, z.kids[z.d := w]), k + 1, a, b);
      FindPlug(z.up, Dir(z.ptr, z.kids[z.d := w]), Dir(z.ptr, z.kids[z.d := u]), k + 1, a, b);
      BlockUp(k, a);
      BlockUp(k, b);
    }
  }

  /** Everything around the hole is well shaped. */
  ghost predicate ShapeAround(z: Context, k: nat) {
    z.In? ==>
      |z.kids| == 16 && (forall i | 0 <= i < 16 && i != z.d :: Shape(z.kids[i], k)) && ShapeAround(z.up, k + 1)
  }

  lemma {:induction false} ShapePlug(z: Context, u: Tree, k: nat)
    requires FitsHoles(z) && ShapeAround(z, k) && Shape(u, k) && Present(u)
    ensures Shape(Plug(z, u), k + Depth(z)) && Present(Plug(z, u))
  {
    if z.In? {
      var kids := z.kids[z.d := u];
      assert Present(kids[z.d]);
      ShapePlug(z.up, Dir(z.ptr, kids), k + 1);
    }
  }

  ghost function FramePtrs(p: nat, kids: seq<Tree>, d: nat): (ps: set<nat>) {
    {p} + (set i, q | 0 <= i < |kids| && i != d && q in Ptrs(kids[i]) :: q)
  }

  ghost function ContextPtrs(z: Context): (ps: set<nat>) {
    if z.Top? then {} else FramePtrs(z.ptr, z.kids, z.d) + ContextPtrs(z.up)
  }

  ghost predicate FrameDistinct(p: nat, kids: seq<Tree>, d: nat) {
    && (forall i | 0 <= i < |kids| && i != d :: p !in Ptrs(kids[i]) && Distinct(kids[i]))
    && (forall i, j | 0 <= i < j < |kids| && i != d && j != d :: Ptrs(kids[i]) !! Ptrs(kids[j]))
  }

  ghost predicate DistinctAround(z: Context) {
    z.In? ==> FrameDistinct(z.ptr, z.kids, z.d) && FramePtrs(z.ptr, z.kids, z.d) !! ContextPtrs(z.up)
              && DistinctAround(z.up)
  }

  /** The directory at p holds the entries of kids, with e in place of kid d. */
  ghost predicate HoldsAround(m: Memory, p: nat, kids: seq<Tree>, d: nat, e: PgtEntry) {
    && p in m
    && |m[p].entries| == |kids| && d < |kids|
    && (forall i | 0 <= i < |kids| && i != d :: m[p].entries[i] == Entry(kids[i]))
    && m[p].entries[d] == e
    && m[p].count == Count(m[p].entries)
  }

  ghost predicate RepAround(m: Memory, z: Context, e: PgtEntry) {
    z.In? ==>
      && HoldsAround(m, z.ptr, z.kids, z.d, e)
      && (forall i | 0 <= i < |z.kids| && i != z.d :: Rep(m, z.kids[i]))
      && RepAround(m, z.up, DirEntry(z.ptr))
  }

  /**
   Memory m and the root entry represent tree u in context z, every directory in m is
   reached, and none is reached twice.
   */
  ghost predicate Linked(m: Memory, root: PgtEntry, z: Context, u: Tree) {
    && FitsHoles(z)
    && root == Entry(Plug(z, u))
    && RepAround(m, z, Entry(u)) && Rep(m, u)
    && DistinctAround(z) && Distinct(u) && Ptrs(u) !! ContextPtrs(z)
    && m.Keys == ContextPtrs(z) + Ptrs(u)
  }

  lemma {:induction false} PlugEntry(z: Context, u: Tree, w: Tree)
    requires FitsHoles(z) && (z.In? || Entry(u) == Entry(w))
    ensures Entry(Plug(z, u)) == Entry(Plug(z, w))
  {
    if z.In? { PlugEntry(z.up, Dir(z.ptr, z.kids[z.d := u]), Dir(z.ptr, z.kids[z.d := w])); }
  }

  lemma FrameSplits(t: Tree, d: nat)
    requires t.Dir? && d < |t.kids|
    ensures Ptrs(t) == FramePtrs(t.ptr, t.kids, d) + Ptrs(t.kids[d])
  {
  }

  lemma FrameJoins(p: nat, kids: seq<Tree>, d: nat, u: Tree)
    requires d < |kids|
    ensures Ptrs(Dir(p, kids[d := u])) == FramePtrs(p, kids, d) + Ptrs(u)
  {
    var t := Dir(p, kids[d := u]);
    FrameSplits(t, d);
    assert FramePtrs(p, t.kids, d) == FramePtrs(p, kids, d) by {
      assert forall i | 0 <= i < |kids| && i != d :: t.kids[i] == kids[i];
    }
  }

  /** One step down: the hole moves into kid d of the directory that filled it. */
  lemma Enter(m: Memory, root: PgtEntry, z: Context, t: Tree, d: nat)
    requires Linked(m, root, z, t) && t.Dir? && |t.kids| == 16 && d < 16
    ensures Linked(m, root, In(z, t.ptr, t.kids, d), t.kids[d])
    ensures Plug(In(z, t.ptr, t.kids, d), t.kids[d]) == Plug(z, t)
  {
    assert t.kids[d := t.kids[d]] == t.kids;
    FrameSplits(t, d);
  }

  lemma DirDistinct(p: nat, kids: seq<Tree>, d: nat, u: Tree)
    requires d < |kids| && FrameDistinct(p, kids, d) && Distinct(u) && Ptrs(u) !! FramePtrs(p, kids, d)
    ensures Distinct(Dir(p, kids[d := u]))
  {
    var t := Dir(p, kids[d := u]);
    forall i, j | 0 <= i < j < |t.kids|
      ensures Ptrs(t.kids[i]) !! Ptrs(t.kids[j])
    {
      var k := if i == d then j else i;
      assert Ptrs(kids[k]) <= FramePtrs(p, kids, d);
    }
  }

  /** One step up. */
  lemma LeaveOnce(m: Memory, root: PgtEntry, z: Context, u: Tree)
    requires Linked(m, root, z, u) && z.In?
    ensures Linked(m, root, z.up, Dir(z.ptr, z.kids[z.d := u]))
  {
    var t := Dir(z.ptr, z.kids[z.d := u]);
    FrameJoins(z.ptr, z.kids, z.d, u);
    DirDistinct(z.ptr, z.kids, z.d, u);
    assert Holds(m, t.ptr, t.kids);
  }

  /** All the way up: the plugged tree is represented. */
  lemma {:induction false} Leave(m: Memory, root: PgtEntry, z: Context, u: Tree)
    requires Linked(m, root, z, u)
    ensures Linked(m, root, Top, Plug(z, u))
  {
    if z.In? {
      LeaveOnce(m, root, z, u);
      Leave(m, root, z.up, Dir(z.ptr, z.kids[z.d := u]));
    }
  }

  lemma {:induction false} RepAroundFrame(m: Memory, m': Memory, z: Context, e: PgtEntry)
    requires RepAround(m, z, e)
    requires forall p | p in ContextPtrs(z) :: p in m && p in m' && m'[p] == m[p]
    ensures RepAround(m', z, e)
  {
    if z.In? {
      assert z.ptr in FramePtrs(z.ptr, z.kids, z.d);
      forall i | 0 <= i < |z.kids| && i != z.d
        ensures Rep(m', z.kids[i])
      {
        assert Ptrs(z.kids[i]) <= FramePtrs(z.ptr, z.kids, z.d);
        RepFrame(m, m', z.kids[i]);
      }
      RepAroundFrame(m, m', z.up, DirEntry(z.ptr));
    }
  }

  /** Writing one slot of the innermost directory changes what fills the hole. */
  lemma FillHole(m: Memory, m': Memory, root: PgtEntry, z: Context, u: Tree, w: Tree)
    requires Linked(m, root, z, u) && z.In?
    requires forall p | p in ContextPtrs(z) && p != z.ptr :: p in m' && m'[p] == m[p]
    requires z.ptr in m' && m'[z.ptr].entries == m[z.ptr].entries[z.d := Entry(w)]
    requires m'[z.ptr].count == Count(m'[z.ptr].entries)
    requires Rep(m', w) && Distinct(w) && Ptrs(w) !! ContextPtrs(z) && m'.Keys == ContextPtrs(z) + Ptrs(w)
    ensures Linked(m', root, z, w)
  {
    PlugEntry(z, u, w);
    forall i | 0 <= i < |z.kids| && i != z.d
      ensures Rep(m', z.kids[i])
    {
      assert Ptrs(z.kids[i]) <= FramePtrs(z.ptr, z.kids, z.d) - {z.ptr};
      RepFrame(m, m', z.kids[i]);
    }
    assert z.ptr !in ContextPtrs(z.up);
    RepAroundFrame(m, m', z.up, DirEntry(z.ptr));
  }
}
