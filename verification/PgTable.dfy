/**
 The page table object: its root entry, base address, space mask, depth and directories,
 and the operations that insert, remove and find regions.
 */
module PgTable {
  import opened Bits
  import opened PgtTree
  import opened PgtMemory
  import opened PgtMoves
  import opened PgtDescent
  import opened PgtUnlink
  import opened PgtRegions
  import opened PgtSweep
  import opened PgtOrder
  import opened PgtGeometry

  datatype Status = Ok | Error | InvalidParam

  /** An aligned page address and a legal order pass the page check. */
  predicate ValidPage(address: nat, order: nat) {
    And(address, Pow2(order) - 1) == 0 && order % 4 == 0
  }

  lemma PageIsValid(k: nat, address: nat)
    requires AlignedTo(k, address)
    ensures ValidPage(address, Shift(k))
  {
    AndLowMask(address, Shift(k));
  }

  /** Some address at which no directory lives: the allocation callback's promise. */
  method FreshAddress(m: Memory) returns (p: nat)
    ensures p !in m
  {
    p := 0;
    ghost var below: set<nat> := {};
    while p in m
      invariant below <= m.Keys && forall q | q in below :: q < p
      decreases m.Keys - below
    {
      below := below + {p};
      p := p + 1;
    }
  }

  class NetPgTable {
    var root: PgtEntry
    var virBase: nat
    var spaceMask: nat
    var indexShift: nat
    var regionCount: nat

    /** The directories allocated and not yet released, by address. */
    var dirs: Memory

    ghost var tree: Tree
    ghost var level: nat
    ghost var block: nat

    /** The regions inserted and not removed since. */
    ghost var regions: set<PgtRegion>

    ghost function Contents(): (v: View)
      reads this
    {
      View(tree, level, block)
    }

    ghost predicate Rooted()
      reads this
    {
      GeometryOf(virBase, spaceMask, indexShift, level, block) && TreeOf(dirs, root, tree, level)
    }

    /** The stored regions and their number, which moves inside the tree leave alone. */
    ghost predicate Kept(count: nat, stored: set<PgtRegion>)
      reads this
    {
      regionCount == count && regions == stored
    }

    /** Rooted and in the canonical form that public operations leave. */
    ghost predicate Settled()
      reads this
    {
      Rooted() && Canonical(Contents())
    }

    /** What holds between public operations. */
    ghost predicate Valid()
      reads this
    {
      Settled() && Stores(Contents(), regions) && regionCount == |regions|
    }

    constructor ()
      ensures Valid() && regions == {} && tree == Empty && regionCount == 0 && dirs == map[]
      ensures virBase == 0 && indexShift == PAGE_SHIFT_MIN
    {
      root := EmptyEntry;
      virBase := 0;
      spaceMask := WORD - 16;
      indexShift := PAGE_SHIFT_MIN;
      regionCount := 0;
      dirs := map[];
      tree := Empty;
      level := 0;
      block := 0;
      regions := {};
      new;
      EmptyReset();
    }

    method DirAlloc() returns (p: nat)
      modifies this`dirs
      ensures p !in old(dirs) && dirs == old(dirs)[p := PgtDir(seq(16, _ => EmptyEntry), 0)]
    {
      p := FreshAddress(dirs);
      dirs := dirs[p := PgtDir(seq(16, _ => EmptyEntry), 0)];
    }

    /** Releasing is only allowed for a live directory, so none is released twice. */
    method DirRelease(p: nat)
      requires p in dirs
      modifies this`dirs
      ensures dirs == old(dirs) - {p}
    {
      dirs := dirs - {p};
    }

    method Reset()
      modifies this`virBase, this`spaceMask, this`indexShift, this`level, this`block
      ensures virBase == 0 && spaceMask == WORD - 16 && indexShift == PAGE_SHIFT_MIN && level == 0 && block == 0
    {
      virBase := 0;
      spaceMask := WORD - 16;
      indexShift := PAGE_SHIFT_MIN;
      level, block := 0, 0;
    }

    /** Move the root entry into slot i of a new directory, which becomes the root. */
    method SinkRoot(i: nat) returns (pgd: nat)
      requires i < 16
      modifies this`root, this`dirs
      ensures pgd !in old(dirs) && root == DirEntry(pgd)
      ensures dirs == old(dirs)[pgd := PgtDir(seq(16, _ => EmptyEntry)[i := old(root)], 1)]
    {
      pgd := DirAlloc();
      dirs := dirs[pgd := PgtDir(dirs[pgd].entries[i := root], 1)];
      root := DirEntry(pgd);
    }

    /** Grow the root by one level. */
    method Expand() returns (ok: bool, ghost p: nat)
      requires Rooted()
      modifies this
      ensures Rooted() && Kept(old(regionCount), old(regions))
      ensures ok <==> old(level) < TOP_LEVEL
      ensures ok ==> Contents() == Expanded(old(Contents()), p)
      ensures !ok ==> Contents() == old(Contents())
    {
      hide TreeOf, GeometryOf, Shl, Up, And, Shr, Pow2;
      p := 0;
      RootFacts(dirs, root, tree, level);
      ShiftOfLevel(virBase, spaceMask, indexShift, level, block);
      if indexShift > 60 {
        return false, p;
      }
      ghost var v := Contents();
      GeometryUp(virBase, spaceMask, indexShift, level, block);
      if root != EmptyEntry {
        var pgd := SinkRoot(And(Shr(virBase, indexShift), 15));
        TreeUp(old(dirs), dirs, old(root), v, pgd);
        p := pgd;
      } else {
        EmptyUp(dirs, root, v, p);
      }
      indexShift := indexShift + 4;
      spaceMask := Shl(spaceMask, 4);
      virBase := And(virBase, spaceMask);
      tree, level, block := Expanded(v, p).tree, level + 1, block / 16;
      return true, p;
    }

    /** One shrinking step; false when there is nothing left to shrink. */
    method Shrink() returns (ok: bool)
      requires Rooted()
      modifies this
      ensures Rooted() && Kept(old(regionCount), old(regions))
      ensures ok ==> level < old(level)
      ensures Shrunk(Contents()) == Shrunk(old(Contents()))
      ensures !ok ==> Contents() == Shrunk(old(Contents()))
    {
      hide TreeOf, GeometryOf, OnlyKid, Shrunk, Count, HasKid, FirstKid;
      RootFacts(dirs, root, tree, level);
      ghost var v := Contents();
      ShrunkStays(v);
      if root == EmptyEntry {
        Reset();
        EmptyReset();
        ShrunkStays(View(Empty, 0, 0));
        return false;
      }
      if !root.DirEntry? {
        return false;
      }
      var pgd := root.dir;
      var es := dirs[pgd].entries;
      var idx := FindPresent(es);
      CountPresent(es, tree.kids, idx);
      if dirs[pgd].count != 1 {
        return false;
      }
      ShrunkStep(v, idx);
      DropRoot(idx);
      return true;
    }

    /** Replace the root directory by its only entry. */
    method DropRoot(idx: nat)
      requires Rooted() && tree.Dir? && OnlyKid(tree.kids, idx)
      modifies this
      ensures Rooted() && Kept(old(regionCount), old(regions)) && old(level) > 0
      ensures Contents() == View(old(tree).kids[idx], old(level) - 1, 16 * old(block) + idx)
    {
      hide TreeOf, GeometryOf;
      TreeDown(dirs, root, tree, level, idx);
      GeometryDown(virBase, spaceMask, indexShift, level, block, idx);
      var pgd := root.dir;
      root := dirs[pgd].entries[idx];
      indexShift := indexShift - 4;
      virBase := Or(virBase, Shl(idx, indexShift));
      spaceMask := Or(spaceMask, Shl(15, indexShift));
      DirRelease(pgd);
      tree, level, block := tree.kids[idx], level - 1, 16 * block + idx;
    }

    method ShrinkAll()
      requires Rooted()
      modifies this
      ensures Settled() && Kept(old(regionCount), old(regions))
      ensures Contents() == Shrunk(old(Contents()))
      ensures FindSame(Contents(), old(Contents()))
    {
      ShrunkCanonical(Contents());
      var more := true;
      while more
        invariant Rooted() && Kept(old(regionCount), old(regions))
        invariant Shrunk(Contents()) == Shrunk(old(Contents()))
        invariant !more ==> Contents() == Shrunk(old(Contents()))
        decreases more, level
      {
        more := Shrink();
      }
    }

    /** Grow the root until it spans the order and holds the address. */
    method EnsureCapacity(order: nat, address: nat, ghost k: nat)
      requires Settled() && k < TOP_LEVEL && order == Shift(k) && address < WORD
      modifies this
      ensures Rooted() && Kept(old(regionCount), old(regions))
      ensures k <= level && Block(level, address) == block
      ensures FindSame(Contents(), old(Contents())) && RoomFor(Contents(), k, address)
      ensures Present(old(tree)) ==> Present(tree) && Shrunk(Contents()) == old(Contents())
      ensures !Present(old(tree)) ==> tree == Empty && level == k
    {
      ghost var v0 := Contents();
      CanonicalShrunk(v0);
      CanonicalRoom(v0, k, address);
      while indexShift < order
        invariant Rooted() && Kept(old(regionCount), old(regions))
        invariant Contents() == v0 || level <= k
        invariant FindSame(Contents(), v0)
        invariant Present(tree) <==> Present(old(tree))
        invariant Present(tree) ==> Shrunk(Contents()) == v0
        decreases k - level
      {
        var ok, p := Grow(address, k);
      }
      assert RoomFor(Contents(), k, address);
      hide RoomFor, Shrunk, Canonical;
      FitAddress(address, k);
    }

    /** Choose the block of an empty table, or grow a filled one until it holds the address. */
    method FitAddress(address: nat, ghost k: nat)
      requires Rooted() && k <= level && address < WORD && RoomFor(Contents(), k, address)
      modifies this
      ensures Rooted() && Kept(old(regionCount), old(regions)) && k <= level && Block(level, address) == block
      ensures FindSame(Contents(), old(Contents())) && RoomFor(Contents(), k, address)
      ensures Present(tree) <==> Present(old(tree))
      ensures Present(tree) ==> Shrunk(Contents()) == Shrunk(old(Contents()))
      ensures !Present(tree) ==> level == old(level)
    {
      hide TreeOf, RoomFor, Shrunk;
      ghost var v0 := Contents();
      RootFacts(dirs, root, tree, level);
      if root == EmptyEntry {
        virBase := And(address, spaceMask);
        block := Block(level, address);
        AndMask(address, level);
        UpShrBounds(address, Shift(level));
        EmptyRoom(Contents(), k, address);
      } else {
        InRange(address, level, block);
        while And(address, spaceMask) != virBase
          invariant Rooted() && Kept(old(regionCount), old(regions)) && k <= level
          invariant FindSame(Contents(), v0) && RoomFor(Contents(), k, address)
          invariant Present(tree) && Shrunk(Contents()) == Shrunk(v0)
          invariant And(address, spaceMask) == virBase <==> Block(level, address) == block
          decreases TOP_LEVEL - level
        {
          TopBlock(address);
          TopBlock(virBase);
          BaseBlock(level, block);
          var ok, p := Grow(address, k);
          InRange(address, level, block);
        }
      }
    }

    /** One growing step and what it keeps. */
    method Grow(address: nat, ghost k: nat) returns (ok: bool, ghost p: nat)
      requires Rooted() && level < TOP_LEVEL
      modifies this
      ensures Rooted() && ok && Kept(old(regionCount), old(regions)) && level == old(level) + 1
      ensures FindSame(Contents(), old(Contents())) && (Present(tree) <==> Present(old(tree)))
      ensures Present(tree) ==> Shrunk(Contents()) == Shrunk(old(Contents()))
      ensures Present(tree) && Block(old(level), address) != old(block) ==> RoomFor(Contents(), k, address)
    {
      hide TreeOf, GeometryOf, Shrunk, RoomFor;
      ghost var v := Contents();
      ok, p := Expand();
      ExpandSame(v, p);
      if Present(v.tree) {
        ShrunkExpanded(v, p);
        if Block(v.level, address) != v.block { ExpandedRoom(v, p, k, address); }
      }
    }

    function EntryAt(slot: Slot): (e: PgtEntry)
      requires ValidSlot(dirs, slot)
      reads this
    {
      EntryIn(dirs, root, slot)
    }

    /** Fill an empty slot and count the new entry in its directory. */
    method SetSlot(slot: Slot, e: PgtEntry)
      requires ValidSlot(dirs, slot)
      modifies this`root, this`dirs
      ensures slot.RootSlot? ==> root == e && dirs == old(dirs)
      ensures slot.DirSlot? ==>
                root == old(root) &&
                dirs == old(dirs)[slot.dir := PgtDir(old(dirs)[slot.dir].entries[slot.index := e],
                                                     old(dirs)[slot.dir].count + 1)]
    {
      match slot {
        case RootSlot =>
          root := e;
        case DirSlot(p, i) =>
          dirs := dirs[p := PgtDir(dirs[p].entries[i := e], dirs[p].count + 1)];
      }
    }

    /**
     Insert one page: succeeds exactly when the page covers no address already covered, and
     then maps its addresses and no others to the region; otherwise nothing at all changes.
     */
    method InsertPage(address: nat, order: nat, region: PgtRegion, ghost k: nat) returns (r: Status)
      requires Settled() && k < TOP_LEVEL && order == Shift(k) && AlignedTo(k, address) && address < WORD
      modifies this
      ensures Settled() && Kept(old(regionCount), old(regions))
      ensures r == Ok <==> Uncovered(old(Contents()), k, address)
      ensures r == Ok ==> Adds(old(Contents()), Contents(), k, address, region)
      ensures r != Ok ==> r == Error && Contents() == old(Contents())
    {
      PageIsValid(k, address);
      if !ValidPage(address, order) {
        return InvalidParam;
      }
      ghost var v0 := Contents();
      EnsureCapacity(order, address, k);
      hide TreeOf, Descent, RoomFor, Adds, Uncovered, FindSame, Canonical, AlignedTo;
      ghost var v := Contents();
      var slot, blocked, z, u, made := Walk(address, order, k);
      if blocked || EntryAt(slot) != EmptyEntry {
        if !blocked { DescentOccupied(dirs, root, z, u, k, address, v, made); }
        ShrinkAll();
        BlockedBoth(v0, v, k, address);
        return Error;
      }
      PlaceRegion(slot, region, z, k, address, made);
      AddsBoth(v0, v, Contents(), k, address, region);
      return Ok;
    }

    /** Walk down to the slot of the page, making directories; a region on the way blocks it. */
    method Walk(address: nat, order: nat, ghost k: nat)
        returns (slot: Slot, blocked: bool, ghost z: Context, ghost u: Tree, ghost made: bool)
      requires Rooted() && order == Shift(k) && k <= level && Block(level, address) == block
      requires tree == Empty ==> level == k
      modifies this`root, this`dirs
      ensures blocked ==> !made && Present(tree) && !Uncovered(Contents(), k, address)
      ensures !blocked ==> Descent(dirs, root, z, u, k, address, Contents(), made) && ValidSlot(dirs, slot)
      ensures !blocked ==> slot == (if z.Top? then RootSlot else DirSlot(z.ptr, z.d)) && EntryAt(slot) == Entry(u)
      ensures !made ==> TreeOf(dirs, root, tree, level)
    {
      hide TreeOf, Descent, Uncovered;
      ghost var v := Contents();
      ghost var j := level;
      z, u, made := Top, tree, false;
      slot := RootSlot;
      var currentShift := indexShift;
      DescentStart(dirs, root, address, v);
      DescentSlot(dirs, root, z, u, j, address, v, made);
      while order != currentShift
        invariant k <= j && currentShift == Shift(j)
        invariant Descent(dirs, root, z, u, j, address, v, made) && ValidSlot(dirs, slot)
        invariant slot == (if z.Top? then RootSlot else DirSlot(z.ptr, z.d)) && EntryAt(slot) == Entry(u)
        invariant !made ==> TreeOf(dirs, root, tree, level)
        decreases currentShift
      {
        DescentSlot(dirs, root, z, u, j, address, v, made);
        if EntryAt(slot).RegionEntry? {
          DescentBlocked(dirs, root, z, u, j, address, v, made, k);
          blocked := true;
          return;
        }
        slot, z, u, made := StepDown(slot, address, currentShift - 4, z, u, j, v, made);
        currentShift := currentShift - 4;
        j := j - 1;
      }
      blocked := false;
    }

    /** One level down, making the directory if the slot is empty. */
    method StepDown(slot: Slot, address: nat, nextShift: nat,
                    ghost z: Context, ghost u: Tree, ghost j: nat, ghost v: View, ghost made: bool)
        returns (next: Slot, ghost z': Context, ghost u': Tree, ghost made': bool)
      requires Descent(dirs, root, z, u, j, address, v, made) && ValidSlot(dirs, slot) && !u.Leaf?
      requires slot == (if z.Top? then RootSlot else DirSlot(z.ptr, z.d)) && EntryAt(slot) == Entry(u)
      requires j > 0 && nextShift == Shift(j - 1) && (z.Top? ==> u != Empty)
      modifies this`root, this`dirs
      ensures Descent(dirs, root, z', u', j - 1, address, v, made') && ValidSlot(dirs, next)
      ensures next == DirSlot(z'.ptr, z'.d) && z'.In? && EntryAt(next) == Entry(u')
      ensures !made' ==> !made && dirs == old(dirs) && root == old(root)
    {
      hide Descent;
      ghost var d := Digit(j - 1, address);
      var entry, dir := EntryAt(slot), 0;
      if entry == EmptyEntry {
        dir := MakeDir(slot, z, j, address, v, made);
        z', u', made' := In(z, dir, NoKids(), d), Empty, true;
      } else {
        dir := entry.dir;
        DescentEnter(dirs, root, z, u, j, address, v, made);
        z', u', made' := In(z, u.ptr, u.kids, d), u.kids[d], false;
      }
      IndexBits(Block(j - 1, address));
      next := DirSlot(dir, And(Shr(address, nextShift), 15));
      DescentSlot(dirs, root, z', u', j - 1, address, v, made');
    }

    /** Make a directory for the empty slot the walk stands before. */
    method MakeDir(slot: Slot, ghost z: Context, ghost j: nat, ghost a: nat, ghost v: View, ghost made: bool)
        returns (dir: nat)
      requires Descent(dirs, root, z, Empty, j, a, v, made) && z.In? && j > 0 && slot == DirSlot(z.ptr, z.d)
      modifies this`dirs, this`root
      ensures Descent(dirs, root, In(z, dir, NoKids(), Digit(j - 1, a)), Empty, j - 1, a, v, true)
    {
      hide Descent, Digit;
      ghost var m := dirs;
      DescentSlot(dirs, root, z, Empty, j, a, v, made);
      dir := DirAlloc();
      SetSlot(slot, DirEntry(dir));
      DescentCreate(m, dirs, root, z, j, a, v, made, dir);
    }

    /** Put the region into the empty slot at the end of the walk. */
    method PlaceRegion(slot: Slot, region: PgtRegion, ghost z: Context, ghost k: nat, ghost a: nat, ghost made: bool)
      requires GeometryOf(virBase, spaceMask, indexShift, level, block)
      requires Descent(dirs, root, z, Empty, k, a, Contents(), made) && RoomFor(Contents(), k, a)
      requires slot == if z.Top? then RootSlot else DirSlot(z.ptr, z.d)
      modifies this
      ensures Settled() && Kept(old(regionCount), old(regions))
      ensures Uncovered(old(Contents()), k, a) && Adds(old(Contents()), Contents(), k, a, region)
    {
      hide TreeOf, GeometryOf, Descent, RoomFor, Adds, Uncovered, Canonical;
      ghost var v, m, root0 := Contents(), dirs, root;
      DescentSlot(dirs, root, z, Empty, k, a, v, made);
      DescentVacant(dirs, root, z, k, a, v, made, region);
      SetSlot(slot, RegionEntry(region));
      if z.In? {
        DescentFinish(m, dirs, root, z, k, a, v, made, region);
      } else {
        DescentRoot(m, root0, k, a, v, made, region);
      }
      tree := Plug(z, Leaf(region));
    }

    /** Clear a slot and take the entry off its directory's count. */
    method ClearSlot(slot: Slot)
      requires ValidSlot(dirs, slot) && (slot.DirSlot? ==> dirs[slot.dir].count > 0)
      modifies this`root, this`dirs
      ensures dirs == Cleared(old(dirs), slot)
      ensures root == if slot.RootSlot? then EmptyEntry else old(root)
    {
      match slot {
        case RootSlot =>
          root := EmptyEntry;
        case DirSlot(p, i) =>
          dirs := dirs[p := PgtDir(dirs[p].entries[i := EmptyEntry], dirs[p].count - 1)];
      }
    }

    /**
     Unlink the page along address if it is region's page of that order, and the
     directories this leaves empty; every other directory is untouched.
     */
    method UnlinkRegion(address: nat, order: nat, slot: Slot, shift: nat, region: PgtRegion,
                        ghost t: Tree, ghost j: nat, ghost k: nat) returns (ok: bool)
      requires Held(dirs, root, slot, t) && Shape(t, j) && shift == Shift(j) && order == Shift(k)
      modifies this`root, this`dirs
      ensures ok <==> Find(t, j, address) == Some(Page(k, region))
      ensures ok ==> Cut(old(dirs), old(root), dirs, root, slot, t, Unlinked(t, j, address))
      ensures !ok ==> dirs == old(dirs) && root == old(root)
      decreases j
    {
      hide Rep, Distinct, Ptrs;
      match EntryAt(slot) {
        case RegionEntry(r) =>
          if shift != order || r != region {
            return false;
          }
          CutLeaf(dirs, root, slot, t);
          ClearSlot(slot);
          return true;
        case EmptyEntry =>
          return false;
        case DirEntry(p) =>
          ghost var d := Digit(j - 1, address);
          IndexBits(Block(j - 1, address));
          HeldKid(dirs, root, slot, t, d);
          var index := And(Shr(address, shift - 4), 15);
          ok := UnlinkRegion(address, order, DirSlot(p, index), shift - 4, region, t.kids[d], j - 1, k);
          if !ok {
            return;
          }
          ghost var u := Unlinked(t.kids[d], j - 1, address);
          if HasKid(t.kids[d := u]) {
            CutKid(old(dirs), root, dirs, slot, t, d, u);
          } else {
            CutDir(old(dirs), root, dirs, slot, t, d, u);
          }
          if dirs[p].count == 0 {
            ClearSlot(slot);
            DirRelease(p);
          }
      }
    }

    /** Remove one page: succeeds exactly when it is the page of region found at its address. */
    method RemovePage(address: nat, order: nat, region: PgtRegion, ghost k: nat) returns (r: Status)
      requires Settled() && k < TOP_LEVEL && order == Shift(k) && AlignedTo(k, address) && address < WORD
      modifies this
      ensures Settled() && Kept(old(regionCount), old(regions))
      ensures r == Ok <==> FindIn(old(Contents()), address) == Some(Page(k, region))
      ensures r == Ok ==> Drops(old(Contents()), Contents(), k, address)
      ensures r != Ok ==> r == Error && Contents() == old(Contents())
    {
      PageIsValid(k, address);
      if !ValidPage(address, order) {
        return InvalidParam;
      }
      hide AlignedTo, Canonical, Drops, FindIn;
      InRange(address, level, block);
      ghost var v := Contents();
      if And(address, spaceMask) != virBase {
        assert FindIn(v, address) == None by { OutOfRange(v, address); }
        return Error;
      }
      RootHeld(dirs, root, tree, level);
      var ok := UnlinkRegion(address, order, RootSlot, indexShift, region, tree, level, k);
      InsideRange(v, address);
      if !ok {
        return Error;
      }
      RootCut(old(dirs), old(root), dirs, root, tree, level, address);
      tree := Unlinked(tree, level, address);
      UnlinkedDrops(v, Contents(), k, address, region);
      ghost var w := Contents();
      ShrinkAll();
      DropsBoth(v, w, Contents(), k, address);
      return Ok;
    }

    /** Take out the pages put in before the page at fail was refused. */
    method RollBack(region: PgtRegion, fail: nat, ghost v0: View) returns (r: Status)
      requires Settled() && Cuttable(region.start, region.end) && Cuttable(fail, region.end) && region.start <= fail
      requires Between(Contents(), v0, region, region.start, fail) && FreeRange(v0, region.start, fail)
      requires CutPoint(region.start, region.end, fail)
      modifies this
      ensures Settled() && Kept(old(regionCount), old(regions))
      ensures r == Error && FindSame(Contents(), v0)
    {
      hide FindIn, Between, FreeRange, PagesFrom, CutPoint, Canonical, TreeOf, NextLevel, GeometryOf, Drops;
      hide Pow2, Span, NextPageOrder;
      var end, address := fail, region.start;
      PagesStart(region);
      while address < end
        invariant Settled() && Kept(old(regionCount), old(regions))
        invariant region.start <= address <= end && Cuttable(address, region.end)
        invariant Between(Contents(), v0, region, address, fail)
        invariant PagesFrom(region, address) && CutPoint(address, region.end, fail)
        decreases end - address
      {
        ghost var k, v := NextLevel(address, region.end), Contents();
        RollBackPage(v, v0, region, address, fail);
        var order := NextPageOrder(address, end);
        var ret := RemovePage(address, order, region, k);
        RemovedPage(v, Contents(), v0, region, address, fail, order);
        address := address + Pow2(order);
      }
      BetweenNothing(Contents(), v0, region, fail);
      return Error;
    }

    /** The same table as before, up to the addresses of its directories. */
    ghost predicate SameTable(v: View, base: nat, mask: nat, shift: nat, count: nat, stored: set<PgtRegion>)
      reads this
    {
      SameView(Contents(), v) && virBase == base && spaceMask == mask && indexShift == shift && Kept(count, stored)
    }

    /**
     Insert a region: succeeds exactly when it is aligned, not empty and apart from every
     stored region. On failure the table is as before, up to directory addresses.
     */
    method Insert(region: PgtRegion) returns (r: Status)
      requires Valid() && region.start < WORD && region.end < WORD
      modifies this
      ensures Valid()
      ensures r == InvalidParam <==> !Cuttable(region.start, region.end)
      ensures r == Ok <==> Cuttable(region.start, region.end) && forall s | s in old(regions) :: Apart(s, region)
      ensures r == Ok ==> region !in old(regions) && regions == old(regions) + {region}
      ensures r != Ok ==> SameTable(old(Contents()), old(virBase), old(spaceMask), old(indexShift),
                                    old(regionCount), old(regions))
    {
      hide Stores, FindSame, SameView, FindIn, Between, FreeRange, CutPoint, Canonical, TreeOf, Mask, BlockBase, And;
      if region.start >= region.end || !Aligned(region.start) || !Aligned(region.end) {
        SameViewReflexive(Contents());
        return InvalidParam;
      }
      ghost var v0 := Contents();
      var address := InsertPages(region);
      if address < region.end {
        r := RollBack(region, address, v0);
        StoresLike(v0, Contents(), regions);
        CanonicalUnique(Contents(), v0);
        SameFields(Contents(), v0);
        return;
      }
      FreeIsApart(v0, regions, region);
      StoresInsert(v0, Contents(), regions, region);
      regions := regions + {region};
      regionCount := regionCount + 1;
      return Ok;
    }

    /** Put in the pages of a region one by one, up to the first that is refused. */
    method InsertPages(region: PgtRegion) returns (address: nat)
      requires Valid() && Cuttable(region.start, region.end)
      modifies this
      ensures Settled() && Kept(old(regionCount), old(regions)) && region.start <= address <= region.end
      ensures Between(Contents(), old(Contents()), region, region.start, address)
      ensures FreeRange(old(Contents()), region.start, address)
      ensures address < region.end ==> Cuttable(address, region.end) && CutPoint(region.start, region.end, address)
      ensures address < region.end ==> exists s :: s in regions && !Apart(s, region)
    {
      hide Stores, FindIn, Between, FreeRange, PagesFrom, CutPoint, Canonical, TreeOf, NextLevel, Uncovered, Adds;
      hide Pow2, Span, NextPageOrder;
      ghost var v0 := Contents();
      var end := region.end;
      address := region.start;
      BetweenStart(v0, region);
      while address < end
        invariant Settled() && Kept(old(regionCount), old(regions))
        invariant region.start <= address <= end && (address < end ==> Cuttable(address, end))
        invariant Between(Contents(), v0, region, region.start, address) && FreeRange(v0, region.start, address)
        invariant PagesFrom(region, address) && CutPoint(region.start, end, address)
        decreases end - address
      {
        ghost var k, v := NextLevel(address, end), Contents();
        NextPageLargestFit(address, end);
        var order := NextPageOrder(address, end);
        var ret := InsertPage(address, order, region, k);
        if ret != Ok {
          BlockedOverlaps(v, v0, regions, region, address);
          return;
        }
        InsertedPage(v, Contents(), v0, region, address, order);
        address := address + Pow2(order);
      }
    }

    /** Remove a region: succeeds exactly when it is stored; otherwise nothing changes. */
    method Remove(region: PgtRegion) returns (r: Status)
      requires Valid() && region.start < WORD && region.end < WORD
      modifies this
      ensures Valid()
      ensures r == Ok <==> region in old(regions)
      ensures r == Ok ==> regions == old(regions) - {region}
      ensures r != Ok ==> r == Error && Contents() == old(Contents()) && Kept(old(regionCount), old(regions))
    {
      hide FindIn, Gone, PagesFrom, Canonical, TreeOf, GeometryOf, NextLevel, Drops;
      hide Pow2, Span, NextPageOrder, And, AnswersAt;
      if region.start >= region.end || !Aligned(region.start) || !Aligned(region.end) {
        return Error;
      }
      ghost var v0 := Contents();
      var address, end := region.start, region.end;
      GoneStart(v0, region);
      while address < end
        invariant Settled() && Kept(old(regionCount), old(regions))
        invariant region.start <= address <= end && (address < end ==> Cuttable(address, end))
        invariant address > region.start ==> region in regions
        invariant Gone(Contents(), v0, region.start, address) && PagesFrom(region, address)
        invariant address == region.start ==> Contents() == v0
        decreases end - address
      {
        ghost var k, v := NextLevel(address, end), Contents();
        NextPageLargestFit(address, end);
        StoredPage(v, v0, regions, region, address);
        var order := NextPageOrder(address, end);
        var ret := RemovePage(address, order, region, k);
        if ret != Ok {
          return Error;
        }
        RemovedStored(v, Contents(), v0, regions, region, address, order);
        address := address + Pow2(order);
      }
      StoresRemove(v0, Contents(), regions, region);
      regions := regions - {region};
      if regionCount > 0 {
        regionCount := regionCount - 1;
      }
      return Ok;
    }

    /** Find the region that covers an address: exactly the stored one, if there is one. */
    method Lookup(address: nat) returns (r: Option<PgtRegion>)
      requires Valid() && address < WORD
      ensures r.Some? ==> r.value in regions && Covers(r.value, address)
      ensures r == None ==> forall s | s in regions :: !Covers(s, address)
    {
      hide Canonical, TreeOf, Stores, Distinct, Ptrs, Rep, Shape, Find, And, Shr, BlockBase, Mask, GeometryOf;
      ghost var v := Contents();
      RangeTest(virBase, spaceMask, indexShift, level, block, address);
      StoredAnswer(v, regions, address);
      if And(address, spaceMask) != virBase {
        return None;
      }
      RootHeld(dirs, root, tree, level);
      RootWhole(dirs, root, tree, level);
      var entry, currentShift := root, indexShift;
      ghost var t, k := tree, level;
      while true
        invariant Rep(dirs, t) && Shape(t, k) && entry == Entry(t) && currentShift == Shift(k)
        invariant FindIn(v, address) == Find(t, k, address)
        decreases k
      {
        LookupStep(dirs, t, k, address);
        match entry {
          case EmptyEntry =>
            return None;
          case RegionEntry(region) =>
            if address < region.start || address >= region.end {
              return None;
            }
            return Some(region);
          case DirEntry(p) =>
            currentShift := currentShift - 4;
            entry := dirs[p].entries[And(Shr(address, currentShift), 15)];
            t, k := t.kids[Digit(k - 1, address)], k - 1;
        }
      }
    }

    /** Walk a subtree that lies wholly inside the searched range. */
    method SearchSubtree(address: nat, order: nat, entry: PgtEntry, currentShift: nat, s: Sweep,
                         ghost t: Tree, ghost k: nat, ghost n: nat) returns (s': Sweep)
      requires entry == Entry(t) && Rep(dirs, t) && Shape(t, k) && currentShift == Shift(k) <= order <= ADDR_BITS
      requires BlockStores(t, k, n, regions)
      requires address <= BlockBase(k, n) && BlockBase(k, n) + Span(k) <= address + Pow2(order) <= WORD
      ensures s' == Visit(t, s)
      decreases k
    {
      hide BlockStores, BlockBase, Span, Pow2;
      s' := s;
      match entry {
        case EmptyEntry =>
        case RegionEntry(region) =>
          if s.last == Some(region) || (s.last.Some? && region.start < s.last.value.end) {
            return;
          }
          s' := s'.(last := Some(region));
          LeafInside(region, k, n, regions);
          var from := if region.start < address then address else region.start;
          var to := if region.end - 1 < address + Pow2(order) - 1 then region.end - 1 else address + Pow2(order) - 1;
          if from > to {
            return;
          }
          s' := s'.(found := s'.found + [region]);
        case DirEntry(p) =>
          var i := 0;
          while i < 16
            invariant 0 <= i <= 16 && VisitAll(t.kids, s) == VisitAll(t.kids[i..], s')
          {
            KidStores(t, k, n, regions, i);
            KidInside(k, n, i, address, Pow2(order));
            s' := SearchSubtree(address, order, dirs[p].entries[i], currentShift - 4, s', t.kids[i], k - 1, 16 * n + i);
            assert t.kids[i..][1..] == t.kids[i + 1..];
            i := i + 1;
          }
      }
    }

    /** Search the table's own range, as Cleanup asks for it: every stored region, in order. */
    method SearchRange(from: nat, to: nat) returns (s: Sweep)
      requires Valid() && from == virBase && to == virBase + Span(level) - 1
      ensures Ascending(s.found) && forall r :: r in s.found <==> r in regions
    {
      hide Canonical, TreeOf, Stores, Ascending, And, Span, NextPageOrder, BlockBase;
      s := Sweep(None, []);
      RangeBounds(level, block, to);
      RangeOrder(level, block);
      ghost var top := (virBase + Span(level)) % WORD;
      assert Pow2(indexShift) == Span(level) by { assert indexShift == Shift(level); SpanIsPow2(level); }
      var address := And(from, WORD - 16);
      var end := And((to + 15) % WORD, WORD - 16);
      if indexShift < ADDR_BITS {
        var bound := (virBase + Pow2(indexShift)) % WORD;
        address := if address < virBase then virBase else address;
        end := if bound < end then bound else end;
      } else if virBase != 0 {
        return;
      }
      ghost var again := false;
      while address <= to
        invariant address < WORD
        invariant !again ==> address == virBase && s == Sweep(None, [])
        invariant again ==> address == top && level < TOP_LEVEL && Ascending(s.found)
        invariant again ==> forall r :: r in s.found <==> r in regions
        decreases !again
      {
        var order := NextPageOrder(address, end);
        InRange(address, level, block);
        BaseBlock(level, block);
        if again { WrapsOnce(level, block, address, to); }
        if And(address, spaceMask) == virBase {
          s := SearchRoot(address, order, s);
        }
        if order >= ADDR_BITS {
          break;
        }
        address := (address + Pow2(order)) % WORD;
        again := true;
      }
    }

    /** The one step of the search that meets the root. */
    method SearchRoot(address: nat, order: nat, s: Sweep) returns (s': Sweep)
      requires Valid() && address == virBase && order == indexShift && s == Sweep(None, [])
      ensures Ascending(s'.found) && forall r :: r in s'.found <==> r in regions
    {
      hide Canonical, TreeOf, Stores, Ascending;
      RootHeld(dirs, root, tree, level);
      RootSweep(Contents(), regions);
      BlockInWord(level, block);
      s' := SearchSubtree(address, order, root, indexShift, s, tree, level, block);
      SweepTree(tree, level, block, regions, s);
      assert SweptTo(s', regions, BlockBase(level, block + 1));
    }

    /** Remove every region: they are found once each, in order, and the table ends up new. */
    method Cleanup() returns (found: seq<PgtRegion>)
      requires Valid()
      modifies this
      ensures Valid() && regions == {} && regionCount == 0
      ensures root == EmptyEntry && virBase == 0 && indexShift == PAGE_SHIFT_MIN && dirs == map[]
      ensures Ascending(found) && |found| == |old(regions)| && forall r :: r in found <==> r in old(regions)
    {
      hide Canonical, TreeOf, Stores, Ascending, GeometryOf;
      found := [];
      if regionCount == 0 {
        assert regions == {} && Ascending([]) by { NothingFound(regions); }
        EmptyTable(Contents(), dirs, root, virBase, spaceMask, indexShift);
        return;
      }
      CleanupRange(level, block, virBase, spaceMask, indexShift);
      var from := virBase;
      var mask := And(if indexShift >= 64 then 0 else Pow2(indexShift), spaceMask);
      var to := (virBase + mask + WORD - 1) % WORD;
      var s := SearchRange(from, to);
      found := s.found;
      FoundOnce(found, Contents(), regions);
      if |found| != regionCount {
        return;
      }
      var i := 0;
      while i < |found|
        invariant Valid() && 0 <= i <= |found|
        invariant forall r :: r in regions <==> r in found[i..]
      {
        FoundBelow(found, i);
        var ret := Remove(found[i]);
        i := i + 1;
      }
      assert regions == {};
      EmptyTable(Contents(), dirs, root, virBase, spaceMask, indexShift);
    }
  }

  lemma SpanIsPow2(k: nat)
    ensures Pow2(Shift(k)) == Span(k)
  {
  }

  /** One block of level k below the top: its size is not touched by the mask. */
  lemma SpanMasked(k: nat)
    requires k < TOP_LEVEL
    ensures Span(k) < WORD && And(Span(k), Mask(k)) == Span(k)
  {
    hide And, Up, Shr;
    Pow2Word();
    SpanUp(k);
    Pow2Monotone(Shift(k + 1), 64);
    UpPow2(0, Shift(k));
    BaseBlock(k, 1);
    AndMask(Span(k), k);
  }

  /** The inclusive end Cleanup computes is the last address of the table's block. */
  lemma CleanupRange(k: nat, n: nat, base: nat, mask: nat, shift: nat)
    requires GeometryOf(base, mask, shift, k, n)
    ensures (base + And(if shift >= 64 then 0 else Pow2(shift), mask) + WORD - 1) % WORD == base + Span(k) - 1
  {
    hide Up, And, Pow2, BlockBase, Mask;
    BlockInWord(k, n);
    if k == TOP_LEVEL {
      AndZero(mask);
      Pow2Word();
    } else {
      SpanMasked(k);
    }
  }

  lemma AndZero(m: nat)
    ensures And(0, m) == 0
  {
  }

  lemma NothingFound(regions: set<PgtRegion>)
    requires |regions| == 0
    ensures regions == {} && Ascending([])
  {
  }

  /** Only the empty canonical table stores nothing, and it is the initial one. */
  lemma EmptyTable(v: View, dirs: Memory, root: PgtEntry, base: nat, mask: nat, shift: nat)
    requires Canonical(v) && Stores(v, {}) && TreeOf(dirs, root, v.tree, v.level)
    requires GeometryOf(base, mask, shift, v.level, v.block)
    ensures root == EmptyEntry && dirs == map[] && base == 0 && shift == PAGE_SHIFT_MIN
  {
    if Present(v.tree) {
      var a := Inhabited(v.tree, v.level, v.block);
      StoredAnswer(v, {}, a);
      assert false;
    }
    UpZero(4);
  }

  /** What the search found is each stored region once. */
  lemma FoundOnce(found: seq<PgtRegion>, v: View, regions: set<PgtRegion>)
    requires Ascending(found) && Stores(v, regions) && forall r :: r in found <==> r in regions
    ensures |found| == |regions| && forall i, j | 0 <= i < j < |found| :: found[i] != found[j]
    ensures forall r | r in found :: r.start < WORD && r.end < WORD
  {
    AscendingDistinct(found, regions);
  }

  lemma FoundBelow(found: seq<PgtRegion>, i: nat)
    requires i < |found| && forall i, j | 0 <= i < j < |found| :: found[i] != found[j]
    ensures found[i] in found[i..]
    ensures forall r :: r in found[i + 1..] <==> r in found[i..] && r != found[i]
  {
    assert found[i..] == [found[i]] + found[i + 1..];
    assert forall j | i < j < |found| :: found[i + 1..][j - i - 1] == found[j];
  }

  /** Past the last address the search wraps to 0, outside the table's block. */
  lemma WrapsOnce(k: nat, n: nat, address: nat, to: nat)
    requires k < TOP_LEVEL && BlockBase(k, n) < WORD && to == BlockBase(k, n) + Span(k) - 1
    requires address == (BlockBase(k, n) + Span(k)) % WORD <= to
    ensures address == 0 && Block(k, address) != n
  {
    BlockInWord(k, n);
    Pow2Word();
    SpanUp(k);
    Pow2Monotone(Shift(k + 1), 64);
    UpZero(Shift(k));
  }

  lemma SameFields(v: View, w: View)
    requires SameView(v, w)
    ensures v.level == w.level && v.block == w.block
  {
  }

  lemma OutOfRange(v: View, a: nat)
    requires Block(v.level, a) != v.block
    ensures FindIn(v, a) == None
  {
  }

  lemma InsideRange(v: View, a: nat)
    requires Block(v.level, a) == v.block
    ensures FindIn(v, a) == Find(v.tree, v.level, a)
  {
  }

  lemma DropsBoth(v: View, w: View, x: View, k: nat, a: nat)
    requires Drops(v, w, k, a) && FindSame(x, w)
    ensures Drops(v, x, k, a)
  {
  }

  lemma BlockedBoth(v0: View, v: View, k: nat, a: nat)
    requires FindSame(v, v0) && !Uncovered(v, k, a)
    ensures !Uncovered(v0, k, a)
  {
    var b :| Block(k, b) == Block(k, a) && FindIn(v, b) != None;
    assert FindIn(v0, b) != None;
  }

  lemma AddsBoth(v0: View, v: View, w: View, k: nat, a: nat, r: PgtRegion)
    requires FindSame(v, v0) && Adds(v, w, k, a, r) && Uncovered(v, k, a)
    ensures Adds(v0, w, k, a, r) && Uncovered(v0, k, a)
  {
  }

  /** Index of the first present entry, as the shrinking scan finds it. */
  method FindPresent(es: seq<PgtEntry>) returns (idx: nat)
    ensures idx <= |es| && (idx < |es| ==> es[idx] != EmptyEntry)
    ensures forall i | 0 <= i < idx :: es[i] == EmptyEntry
  {
    idx := 0;
    while idx < |es| && es[idx] == EmptyEntry
      invariant idx <= |es| && forall i | 0 <= i < idx :: es[i] == EmptyEntry
    {
      idx := idx + 1;
    }
  }

  lemma EmptyReset()
    ensures GeometryOf(0, WORD - 16, PAGE_SHIFT_MIN, 0, 0) && TreeOf(map[], EmptyEntry, Empty, 0)
  {
    Pow2Word();
    UpZero(4);
  }

  lemma RangeTest(base: nat, mask: nat, shift: nat, level: nat, block: nat, a: nat)
    requires GeometryOf(base, mask, shift, level, block) && a < WORD
    ensures shift == Shift(level) && (And(a, mask) == base <==> Block(level, a) == block)
  {
    hide And, BlockBase, Mask;
    InRange(a, level, block);
  }

  lemma RootWhole(m: Memory, root: PgtEntry, t: Tree, k: nat)
    requires TreeOf(m, root, t, k)
    ensures Rep(m, t) && root == Entry(t)
  {
  }

  /** One step of a lookup: the answer is here, or in the kid the next four bits name. */
  lemma LookupStep(m: Memory, t: Tree, k: nat, a: nat)
    requires Rep(m, t) && Shape(t, k)
    ensures t == Empty ==> Find(t, k, a) == None
    ensures t.Leaf? ==> Find(t, k, a) == Some(Page(k, t.region))
    ensures t.Dir? ==>
              && k > 0 && |t.kids| == 16 && Digit(k - 1, a) < 16 && And(Shr(a, Shift(k) - 4), 15) == Digit(k - 1, a)
              && t.ptr in m && |m[t.ptr].entries| == 16 && m[t.ptr].entries[Digit(k - 1, a)] == Entry(t.kids[Digit(k - 1, a)])
              && Rep(m, t.kids[Digit(k - 1, a)]) && Shape(t.kids[Digit(k - 1, a)], k - 1)
              && Find(t, k, a) == Find(t.kids[Digit(k - 1, a)], k - 1, a)
  {
    hide And;
    if t.Dir? { IndexBits(Block(k - 1, a)); }
  }
}
