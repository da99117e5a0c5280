/**
 The whole of a pool: the shared list of batches, the lists of the thread caches, and who has
 each min block.
 */
module PoolState {
  import opened Sequences
  import opened PoolLists

  /** Who has a min block: the shared list, one thread cache, or a user. */
  datatype Owner = Shared | InCache(c: nat) | User

  datatype TCache = TCache(head: nat, currentFree: nat)

  type Owners = map<nat, Owner>
  type Lists = map<nat, seq<nat>>

  ghost predicate SharedOk(cells: Cells, freeHead: nat, freeCount: nat, batches: seq<seq<nat>>, rest: seq<nat>, steps: nat) {
    && Chain(cells, freeHead, Queue(batches, rest)) && AllBatches(cells, batches) && Unfinished(cells, rest, steps)
    && freeCount == |Queue(batches, rest)|
    && forall i | 0 <= i < |batches| :: |batches[i]| < 2 * steps
  }

  ghost predicate CacheOk(cells: Cells, cache: TCache, s: seq<nat>) {
    Chain(cells, cache.head, s) && cache.currentFree == |s|
  }

  /** The lists hold exactly the blocks the owners say, and none twice. */
  ghost predicate OwnersOk(owner: Owners, flat: seq<nat>, lists: Lists) {
    && NoRepeats(flat) && (forall c | c in lists :: NoRepeats(lists[c]))
    && (forall x: nat :: x in flat <==> x in owner && owner[x] == Shared)
    && (forall c, x: nat | c in lists :: x in lists[c] <==> x in owner && owner[x] == InCache(c))
    && (forall x | x in owner && owner[x].InCache? :: owner[x].c in lists)
  }

  ghost predicate CachesOk(cells: Cells, caches: map<nat, TCache>, lists: Lists) {
    caches.Keys == lists.Keys && forall c | c in caches :: CacheOk(cells, caches[c], lists[c])
  }

  ghost predicate Bounded(lists: Lists, steps: nat) {
    forall c | c in lists :: |lists[c]| < 2 * steps
  }

  ghost predicate Backed(cells: Cells, owner: Owners) {
    forall x | x in owner :: x in cells && x != 0
  }

  function Give(owner: Owners, s: seq<nat>, o: Owner): (owner': Owners) {
    map x | x in owner :: if x in s then o else owner[x]
  }

  /** Only blocks of s were written. */
  ghost predicate WritesOnly(cells: Cells, cells': Cells, s: seq<nat>) {
    cells'.Keys == cells.Keys && forall x | x in cells && x !in s :: cells'[x] == cells[x]
  }

  lemma BackedKept(cells: Cells, cells': Cells, owner: Owners, s: seq<nat>, o: Owner)
    requires Backed(cells, owner) && cells'.Keys == cells.Keys
    ensures Backed(cells', Give(owner, s, o))
  {
  }

  /** Caches whose blocks were not written stay. */
  lemma CachesKept(cells: Cells, cells': Cells, caches: map<nat, TCache>, lists: Lists, c: nat, cache': TCache, list': seq<nat>, s: seq<nat>)
    requires CachesOk(cells, caches, lists) && WritesOnly(cells, cells', s) && CacheOk(cells', cache', list')
    requires forall d | d in lists && d != c :: forall x | x in s :: x !in lists[d]
    ensures CachesOk(cells', caches[c := cache'], lists[c := list'])
  {
    var caches', lists' := caches[c := cache'], lists[c := list'];
    forall d | d in caches'
      ensures CacheOk(cells', caches'[d], lists'[d])
    {
      if d != c {
        assert CacheOk(cells, caches[d], lists[d]);
        ChainFrame(cells, cells', caches[d].head, lists[d]);
      }
    }
  }

  lemma SharedKept(cells: Cells, cells': Cells, freeHead: nat, freeCount: nat, batches: seq<seq<nat>>, rest: seq<nat>, steps: nat, s: seq<nat>)
    requires SharedOk(cells, freeHead, freeCount, batches, rest, steps) && WritesOnly(cells, cells', s)
    requires forall x | x in s :: x !in Queue(batches, rest)
    ensures SharedOk(cells', freeHead, freeCount, batches, rest, steps)
  {
    hide Queue, AllBatches, Unfinished;
    ChainFrame(cells, cells', freeHead, Queue(batches, rest));
    QueueFrame(cells, cells', batches, rest, steps);
  }

  // ----- who has what, after blocks moved

  lemma NoRepeatsParts(s: seq<nat>, t: seq<nat>)
    requires NoRepeats(s + t)
    ensures NoRepeats(s) && NoRepeats(t) && forall x | x in s :: x !in t
  {
    var u := s + t;
    assert forall i | 0 <= i < |s| :: s[i] == u[i];
    assert forall i | 0 <= i < |t| :: t[i] == u[|s| + i];
  }

  lemma NoRepeatsJoin(s: seq<nat>, t: seq<nat>)
    requires NoRepeats(s) && NoRepeats(t) && forall x | x in s :: x !in t
    ensures NoRepeats(s + t)
  {
    var u := s + t;
    forall i, j | 0 <= i < j < |u|
      ensures u[i] != u[j]
    {
      if i < |s| <= j { assert s[i] in s && t[j - |s|] in t; }
    }
  }

  /** The front of the shared list goes to a cache that was empty. */
  lemma ToCache(owner: Owners, s: seq<nat>, t: seq<nat>, lists: Lists, c: nat)
    requires OwnersOk(owner, s + t, lists) && c in lists && lists[c] == []
    ensures OwnersOk(Give(owner, s, InCache(c)), t, lists[c := s])
  {
    hide NoRepeats;
    NoRepeatsParts(s, t);
    var owner', lists' := Give(owner, s, InCache(c)), lists[c := s];
    assert forall x :: x in s + t <==> x in s || x in t;
    forall d, x: nat | d in lists'
      ensures x in lists'[d] <==> x in owner' && owner'[x] == InCache(d)
    {
      assert x in lists[d] <==> x in owner && owner[x] == InCache(d);
    }
  }

  /** The front of a cache's list goes to the shared list. */
  lemma ToShared(owner: Owners, flat: seq<nat>, lists: Lists, c: nat, s: seq<nat>, t: seq<nat>)
    requires OwnersOk(owner, flat, lists) && c in lists && lists[c] == s + t
    ensures OwnersOk(Give(owner, s, Shared), s + flat, lists[c := t])
    ensures NoRepeats(s + flat) && NoRepeats(s + t)
  {
    hide NoRepeats;
    NoRepeatsParts(s, t);
    assert forall x :: x in s + t <==> x in s || x in t;
    assert forall x :: x in s + flat <==> x in s || x in flat;
    assert forall x | x in s :: x in lists[c];
    NoRepeatsJoin(s, flat);
    var owner', lists' := Give(owner, s, Shared), lists[c := t];
    forall d, x: nat | d in lists'
      ensures x in lists'[d] <==> x in owner' && owner'[x] == InCache(d)
    {
      assert x in lists[d] <==> x in owner && owner[x] == InCache(d);
    }
  }

  /** The first block of a cache's list goes to a user. */
  lemma ToUser(owner: Owners, flat: seq<nat>, lists: Lists, c: nat, v: nat, t: seq<nat>)
    requires OwnersOk(owner, flat, lists) && c in lists && lists[c] == [v] + t
    ensures v in owner && owner[v] == InCache(c)
    ensures OwnersOk(owner[v := User], flat, lists[c := t])
  {
    NoRepeatsParts([v], t);
    assert v in lists[c] && v in [v];
    assert forall x :: x in [v] + t <==> x == v || x in t;
    var owner', lists' := owner[v := User], lists[c := t];
    forall d, x: nat | d in lists'
      ensures x in lists'[d] <==> x in owner' && owner'[x] == InCache(d)
    {
      assert x in lists[d] <==> x in owner && owner[x] == InCache(d);
    }
  }

  /** A user's block goes to a cache. */
  lemma FromUser(owner: Owners, flat: seq<nat>, lists: Lists, c: nat, v: nat)
    requires OwnersOk(owner, flat, lists) && c in lists && v in owner && owner[v] == User
    ensures v !in flat && forall d | d in lists :: v !in lists[d]
    ensures OwnersOk(owner[v := InCache(c)], flat, lists[c := [v] + lists[c]])
  {
    assert v !in flat;
    assert forall d | d in lists :: v !in lists[d];
    NoRepeatsJoin([v], lists[c]);
    assert forall x :: x in [v] + lists[c] <==> x == v || x in lists[c];
    var owner', lists' := owner[v := InCache(c)], lists[c := [v] + lists[c]];
    forall d, x: nat | d in lists'
      ensures x in lists'[d] <==> x in owner' && owner'[x] == InCache(d)
    {
      assert x in lists[d] <==> x in owner && owner[x] == InCache(d);
    }
  }

  /** Blocks nobody had go to the shared list. */
  lemma FromOs(owner: Owners, flat: seq<nat>, lists: Lists, s: seq<nat>)
    requires OwnersOk(owner, flat, lists) && NoRepeats(s) && forall x | x in s :: x !in owner
    ensures OwnersOk(owner + map x | x in s :: Shared, s + flat, lists)
  {
    assert forall x | x in s :: x !in flat;
    NoRepeatsJoin(s, flat);
    assert forall x :: x in s + flat <==> x in s || x in flat;
    var owner' := owner + map x | x in s :: Shared;
    forall d, x: nat | d in lists
      ensures x in lists[d] <==> x in owner' && owner'[x] == InCache(d)
    {
      assert x in lists[d] <==> x in owner && owner[x] == InCache(d);
    }
  }

  lemma NewCache(owner: Owners, flat: seq<nat>, lists: Lists, c: nat)
    requires OwnersOk(owner, flat, lists) && c !in lists
    ensures OwnersOk(owner, flat, lists[c := []])
  {
    assert forall x | x in owner :: owner[x] != InCache(c);
  }

  /** Blocks with an owner were not written. */
  ghost predicate Untouched(cells: Cells, cells': Cells, owner: Owners) {
    forall x | x in owner && x in cells :: x in cells' && cells'[x] == cells[x]
  }

  lemma AllKept(cells: Cells, cells': Cells, freeHead: nat, freeCount: nat, batches: seq<seq<nat>>, rest: seq<nat>, steps: nat,
                caches: map<nat, TCache>, lists: Lists, owner: Owners)
    requires SharedOk(cells, freeHead, freeCount, batches, rest, steps) && CachesOk(cells, caches, lists)
    requires OwnersOk(owner, Queue(batches, rest), lists) && Backed(cells, owner) && Untouched(cells, cells', owner)
    ensures SharedOk(cells', freeHead, freeCount, batches, rest, steps) && CachesOk(cells', caches, lists) && Backed(cells', owner)
  {
    hide OwnersOk, Untouched, Queue, Chain, AllBatches, Unfinished;
    OwnedSame(cells, cells', owner, Queue(batches, rest), lists);
    ChainFrame(cells, cells', freeHead, Queue(batches, rest));
    QueueFrame(cells, cells', batches, rest, steps);
    forall c | c in caches
      ensures CacheOk(cells', caches[c], lists[c])
    {
      assert CacheOk(cells, caches[c], lists[c]);
      ChainFrame(cells, cells', caches[c].head, lists[c]);
    }
    BackedSame(cells, cells', owner);
  }

  lemma OwnedSame(cells: Cells, cells': Cells, owner: Owners, flat: seq<nat>, lists: Lists)
    requires OwnersOk(owner, flat, lists) && Untouched(cells, cells', owner)
    ensures SameNext(cells, cells', flat) && SameMarks(cells, cells', flat)
    ensures forall c | c in lists :: SameNext(cells, cells', lists[c])
  {
    hide NoRepeats;
  }

  lemma BackedSame(cells: Cells, cells': Cells, owner: Owners)
    requires Backed(cells, owner) && Untouched(cells, cells', owner)
    ensures Backed(cells', owner)
  {
  }

  /** Caches stay when only blocks of others were written. */
  lemma CachesFrame(cells: Cells, cells': Cells, caches: map<nat, TCache>, lists: Lists, s: seq<nat>)
    requires CachesOk(cells, caches, lists) && WritesOnly(cells, cells', s)
    requires forall d | d in lists :: forall x | x in s :: x !in lists[d]
    ensures CachesOk(cells', caches, lists)
  {
    forall c | c in caches
      ensures CacheOk(cells', caches[c], lists[c])
    {
      assert CacheOk(cells, caches[c], lists[c]);
      ChainFrame(cells, cells', caches[c].head, lists[c]);
    }
  }

  /** The back of a cache's list goes to users. */
  lemma ToUsers(owner: Owners, flat: seq<nat>, lists: Lists, c: nat, s: seq<nat>, t: seq<nat>)
    requires OwnersOk(owner, flat, lists) && c in lists && lists[c] == s + t
    ensures OwnersOk(Give(owner, t, User), flat, lists[c := s]) && NoRepeats(t)
    ensures forall x | x in t :: x in owner && owner[x] == InCache(c)
  {
    hide NoRepeats;
    NoRepeatsParts(s, t);
    assert forall x :: x in s + t <==> x in s || x in t;
    assert forall x | x in t :: x in lists[c];
    var owner', lists' := Give(owner, t, User), lists[c := s];
    forall d, x: nat | d in lists'
      ensures x in lists'[d] <==> x in owner' && owner'[x] == InCache(d)
    {
      assert x in lists[d] <==> x in owner && owner[x] == InCache(d);
    }
  }

  /** A block nobody had goes to the end of a cache's list. */
  lemma ToBack(owner: Owners, flat: seq<nat>, lists: Lists, c: nat, v: nat)
    requires OwnersOk(owner, flat, lists) && c in lists && v !in owner
    ensures OwnersOk(owner[v := InCache(c)], flat, lists[c := lists[c] + [v]])
    ensures v !in flat && forall d | d in lists :: v !in lists[d]
  {
    hide NoRepeats;
    assert v !in flat && v !in lists[c];
    NoRepeatsJoin(lists[c], [v]) by { NoRepeatsSingle(v); }
    assert forall x :: x in lists[c] + [v] <==> x in lists[c] || x == v;
    var owner', lists' := owner[v := InCache(c)], lists[c := lists[c] + [v]];
    forall d, x: nat | d in lists'
      ensures x in lists'[d] <==> x in owner' && owner'[x] == InCache(d)
    {
      assert x in lists[d] <==> x in owner && owner[x] == InCache(d);
    }
  }

  lemma NoRepeatsSingle(v: nat)
    ensures NoRepeats([v])
  {
  }

  /** A user's block leaves. */
  lemma Leaves(owner: Owners, flat: seq<nat>, lists: Lists, v: nat)
    requires OwnersOk(owner, flat, lists) && v in owner && owner[v] == User
    ensures OwnersOk(owner - {v}, flat, lists)
  {
    hide NoRepeats;
  }

  /** A block nobody had goes to a user. */
  lemma Comes(owner: Owners, flat: seq<nat>, lists: Lists, v: nat)
    requires OwnersOk(owner, flat, lists) && v !in owner
    ensures OwnersOk(owner[v := User], flat, lists)
  {
    hide NoRepeats;
  }

  /** Only blocks of s were written, some perhaps for the first time. */
  ghost predicate Changes(cells: Cells, cells': Cells, s: seq<nat>) {
    forall x | x in cells && x !in s :: x in cells' && cells'[x] == cells[x]
  }

  /** Lists whose blocks were not written stay. */
  lemma CachesChanged(cells: Cells, cells': Cells, caches: map<nat, TCache>, lists: Lists, c: nat, cache': TCache, list': seq<nat>, s: seq<nat>)
    requires CachesOk(cells, caches, lists) && Changes(cells, cells', s) && CacheOk(cells', cache', list')
    requires forall d | d in lists && d != c :: forall x | x in s :: x !in lists[d]
    ensures CachesOk(cells', caches[c := cache'], lists[c := list'])
  {
    var caches', lists' := caches[c := cache'], lists[c := list'];
    forall d | d in caches'
      ensures CacheOk(cells', caches'[d], lists'[d])
    {
      if d != c {
        assert CacheOk(cells, caches[d], lists[d]);
        ChainFrame(cells, cells', caches[d].head, lists[d]);
      }
    }
  }

  /** Every min block is in exactly one of the shared list, one cache's list, and a user's hands. */
  lemma OneHolder(owner: Owners, flat: seq<nat>, lists: Lists, x: nat)
    requires OwnersOk(owner, flat, lists) && x in owner
    ensures owner[x] == Shared <==> x in flat
    ensures forall c | c in lists :: owner[x] == InCache(c) <==> x in lists[c]
    ensures owner[x] == User <==> x !in flat && forall c | c in lists :: x !in lists[c]
  {
    hide NoRepeats;
    if owner[x].InCache? { assert x in lists[owner[x].c]; }
  }
}
