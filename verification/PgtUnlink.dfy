/**
 Unlinking in memory: the slot that holds a subtree, what it means to cut that subtree down
 to a smaller one, and how cuts compose on the way back up.
 */
module PgtUnlink {
  import opened PgtTree
  import opened PgtMemory
  import opened PgtMoves

  /** Where an entry lives: in the table's root field, or in slot index of a directory. */
  datatype Slot = RootSlot | DirSlot(dir: nat, index: nat)

  predicate ValidSlot(m: Memory, slot: Slot) {
    slot.DirSlot? ==> slot.dir in m && |m[slot.dir].entries| == 16 && slot.index < 16
  }

  function EntryIn(m: Memory, root: PgtEntry, slot: Slot): (e: PgtEntry)
    requires ValidSlot(m, slot)
  {
    match slot
    case RootSlot => root
    case DirSlot(p, i) => m[p].entries[i]
  }

  /** The slot holds t: its entry and its directories, which are not the slot's own. */
  ghost predicate Held(m: Memory, root: PgtEntry, slot: Slot, t: Tree) {
    && ValidSlot(m, slot) && EntryIn(m, root, slot) == Entry(t) && Rep(m, t) && Distinct(t) && Ptrs(t) <= m.Keys
    && (slot.DirSlot? ==> slot.dir !in Ptrs(t) && m[slot.dir].count == Count(m[slot.dir].entries))
  }

  /** t in the slot became u; no directory outside t changed, apart from the slot itself. */
  ghost predicate Cut(m: Memory, root: PgtEntry, m': Memory, root': PgtEntry, slot: Slot, t: Tree, u: Tree) {
    && Held(m, root, slot, t) && Held(m', root', slot, u)
    && Ptrs(u) <= Ptrs(t) && m'.Keys == m.Keys - Ptrs(t) + Ptrs(u)
    && (forall q | q in m && q !in Ptrs(t) && (slot.DirSlot? ==> q != slot.dir) :: m'[q] == m[q])
    && (slot.DirSlot? ==> root' == root
                          && m'[slot.dir].entries == m[slot.dir].entries[slot.index := Entry(u)])
  }

  /** The memory after clearing a slot and taking it off its directory's count. */
  function Cleared(m: Memory, slot: Slot): (m': Memory)
    requires ValidSlot(m, slot) && (slot.DirSlot? ==> m[slot.dir].count > 0)
  {
    match slot
    case RootSlot => m
    case DirSlot(p, i) => m[p := PgtDir(m[p].entries[i := EmptyEntry], m[p].count - 1)]
  }

  lemma HeldKid(m: Memory, root: PgtEntry, slot: Slot, t: Tree, d: nat)
    requires Held(m, root, slot, t) && t.Dir? && |t.kids| == 16 && d < 16
    ensures Held(m, root, DirSlot(t.ptr, d), t.kids[d])
  {
    KidPtrs(t, d);
  }

  lemma CutLeaf(m: Memory, root: PgtEntry, slot: Slot, t: Tree)
    requires Held(m, root, slot, t) && t.Leaf?
    ensures slot.DirSlot? ==> m[slot.dir].count > 0
    ensures Cut(m, root, Cleared(m, slot), if slot.RootSlot? then EmptyEntry else root, slot, t, Empty)
  {
    if slot.DirSlot? { CountUpdate(m[slot.dir].entries, slot.index, EmptyEntry); }
  }

  lemma CutKidRep(m: Memory, root: PgtEntry, m': Memory, t: Tree, d: nat, u: Tree)
    requires t.Dir? && |t.kids| == 16 && d < 16 && Rep(m, t) && Distinct(t)
    requires Cut(m, root, m', root, DirSlot(t.ptr, d), t.kids[d], u)
    ensures Rep(m', Dir(t.ptr, t.kids[d := u])) && Holds(m', t.ptr, t.kids[d := u])
  {
    forall i | 0 <= i < 16 && i != d
      ensures Rep(m', t.kids[i])
    {
      assert Ptrs(t.kids[i]) !! Ptrs(t.kids[d]);
      RepPtrs(m, t.kids[i]);
      RepFrame(m, m', t.kids[i]);
    }
    RepKid(m, m', t, d, u);
  }

  lemma RepKid(m: Memory, m': Memory, t: Tree, d: nat, kid: Tree)
    requires t.Dir? && d < |t.kids| && Rep(m', kid) && Holds(m', t.ptr, t.kids[d := kid])
    requires forall i | 0 <= i < |t.kids| && i != d :: Rep(m', t.kids[i])
    ensures Rep(m', Dir(t.ptr, t.kids[d := kid]))
  {
  }

  /** A cut inside a directory that keeps an entry. */
  lemma CutKid(m: Memory, root: PgtEntry, m': Memory, slot: Slot, t: Tree, d: nat, u: Tree)
    requires Held(m, root, slot, t) && t.Dir? && |t.kids| == 16 && d < 16
    requires Cut(m, root, m', root, DirSlot(t.ptr, d), t.kids[d], u)
    requires HasKid(t.kids[d := u])
    ensures Cut(m, root, m', root, slot, t, Dir(t.ptr, t.kids[d := u]))
    ensures m'[t.ptr].count != 0
  {
    hide Rep, Distinct, Ptrs;
    CutKidRep(m, root, m', t, d, u);
    DistinctKid(t, d, u);
    CutKidPtrs(m, m', t, d, u);
    CountKids(m', t.ptr, t.kids[d := u]);
  }

  lemma CutKidPtrs(m: Memory, m': Memory, t: Tree, d: nat, u: Tree)
    requires t.Dir? && d < |t.kids| && Distinct(t) && Ptrs(t) <= m.Keys && Ptrs(u) <= Ptrs(t.kids[d])
    requires m'.Keys == m.Keys - Ptrs(t.kids[d]) + Ptrs(u)
    ensures m'.Keys == m.Keys - Ptrs(t) + Ptrs(Dir(t.ptr, t.kids[d := u]))
    ensures t.ptr in Ptrs(t) && Ptrs(t.kids[d]) <= Ptrs(t)
  {
    FrameSplits(t, d);
    FrameJoins(t.ptr, t.kids, d, u);
    assert FramePtrs(t.ptr, t.kids, d) !! Ptrs(t.kids[d]);
  }

  /** The count of a directory says whether it still has an entry. */
  lemma CountKids(m: Memory, p: nat, kids: seq<Tree>)
    requires Holds(m, p, kids)
    ensures m[p].count == 0 <==> !HasKid(kids)
  {
    CountZero(m[p].entries);
    if !HasKid(kids) {
      assert forall i | 0 <= i < |kids| :: !Present(kids[i]);
    } else {
      var i :| 0 <= i < |kids| && Present(kids[i]);
      assert m[p].entries[i] != EmptyEntry;
    }
  }

  /** A cut that empties a directory: the slot is cleared and the directory released. */
  lemma CutDir(m: Memory, root: PgtEntry, m': Memory, slot: Slot, t: Tree, d: nat, u: Tree)
    requires Held(m, root, slot, t) && t.Dir? && |t.kids| == 16 && d < 16
    requires Cut(m, root, m', root, DirSlot(t.ptr, d), t.kids[d], u)
    requires !HasKid(t.kids[d := u])
    ensures m'[t.ptr].count == 0
    ensures ValidSlot(m', slot) && (slot.DirSlot? ==> m'[slot.dir].count > 0) && t.ptr in m'
    ensures Cut(m, root, Cleared(m', slot) - {t.ptr}, if slot.RootSlot? then EmptyEntry else root, slot, t, Empty)
  {
    hide Rep, Distinct, Ptrs;
    CutKidRep(m, root, m', t, d, u);
    CutKidPtrs(m, m', t, d, u);
    CountKids(m', t.ptr, t.kids[d := u]);
    NoKidPtrs(t.ptr, t.kids[d := u]);
    if slot.DirSlot? {
      CountUpdate(m[slot.dir].entries, slot.index, EmptyEntry);
    }
  }

  lemma NoKidPtrs(p: nat, kids: seq<Tree>)
    requires !HasKid(kids)
    ensures Ptrs(Dir(p, kids)) == {p} && Ptrs(Empty) == {}
    ensures forall m: Memory :: Rep(m, Empty)
    ensures Distinct(Empty)
  {
    assert forall i | 0 <= i < |kids| :: !Present(kids[i]);
  }

  lemma RootHeld(m: Memory, root: PgtEntry, t: Tree, k: nat)
    requires TreeOf(m, root, t, k)
    ensures Held(m, root, RootSlot, t) && Shape(t, k) && m.Keys == Ptrs(t)
  {
  }

  /** A cut at the root leaves the represented tree cut. */
  lemma RootCut(m: Memory, root: PgtEntry, m': Memory, root': PgtEntry, t: Tree, k: nat, a: nat)
    requires Cut(m, root, m', root', RootSlot, t, Unlinked(t, k, a)) && m.Keys == Ptrs(t) && Shape(t, k)
    ensures TreeOf(m', root', Unlinked(t, k, a), k)
  {
    UnlinkedShape(t, k, a);
    assert m'.Keys == Ptrs(Unlinked(t, k, a));
  }

  lemma UnlinkedDrops(v: View, w: View, k: nat, a: nat, r: PgtRegion)
    requires Shape(v.tree, v.level) && Block(v.level, a) == v.block
    requires Find(v.tree, v.level, a) == Some(Page(k, r))
    requires w == View(Unlinked(v.tree, v.level, a), v.level, v.block)
    ensures Drops(v, w, k, a)
  {
    forall b
      ensures FindIn(w, b) == if Block(k, b) == Block(k, a) then None else FindIn(v, b)
    {
      if Block(v.level, b) == v.block {
        UnlinkedFind(v.tree, v.level, a, b);
      }
    }
  }
}
