/**
 The cache in front of the allocator, for aligned addresses: a list of free blocks for each tier,
 filled from the allocator in batches and trimmed back to it.
 */
module AllocatorCache {
  import opened Sequences
  import opened CacheTiers
  import opened CacheWords
  import opened MemTake
  import opened CacheBooks
  import opened MemAllocator
  import opened MemPartition
  import opened Multiples
  import opened PoolLists
  import opened PoolState
  import MemRegion
  import B = Bits

  class NetAllocatorCache {
    const major: NetMemAllocator
    const c: Config
    const maxCacheBlockSize: nat
    var tiers: map<nat, TCache>
    var links: Cells
    var totalCacheSizeKB: nat
    var sizes: Held
    ghost var lists: Lists
    ghost var owner: Owners

    ghost predicate Options() {
      ConfigOk(c) && maxCacheBlockSize == MaxSize(c.policy, c.base, c.count)
    }

    ghost predicate MajorOk()
      reads this, major, major.region, major.region.rb, major.region.fl
    {
      major.Valid() && major.inited && major.alignAddress && major.minBlockSize == c.base && major.region.hi <= ADDRESSES
    }

    ghost predicate Linked()
      reads this
    {
      CachesOk(links, tiers, lists) && OwnersOk(owner, [], lists) && 0 !in owner
    }

    /** Everything but the bound on the lists. */
    ghost predicate Sorted()
      reads this, major, major.region, major.region.rb, major.region.fl
    {
      Options() && MajorOk() && Linked() && Accounts(c, major.held, owner, lists, sizes, totalCacheSizeKB, major.region.hi)
    }

    ghost predicate Valid()
      reads this, major, major.region, major.region.rb, major.region.fl
    {
      Sorted() && Bounded(lists, c.perTier)
    }

    /** The blocks callers have. */
    ghost function Outstanding(): (m: Held)
      reads this, major
    {
      Out(major.held, owner)
    }

    constructor (major: NetMemAllocator, policy: Policy, tierCount: nat, perTier: nat)
      requires major.Valid() && major.inited && major.alignAddress && major.region.hi <= ADDRESSES
      requires TierCountOk(policy, tierCount) && 4 <= perTier <= 8192
      ensures Valid() && this.major == major && c == Config(policy, major.minBlockSize, tierCount, perTier) && Outstanding() == major.held
    {
      hide NetMemAllocator.Valid, Accounts, OwnersOk, MaxSize, Out, IsBase;
      this.major, c := major, Config(policy, major.minBlockSize, tierCount, perTier);
      maxCacheBlockSize := MaxSize(policy, major.minBlockSize, tierCount);
      tiers := NoTiers(tierCount);
      links, totalCacheSizeKB, sizes := map[], 0, map[];
      lists := map i | i in NoTiers(tierCount) :: [];
      owner := map a | a in major.held :: User;
      new;
      HeldBelow(major);
      AccountsOpened(c, major.held, owner, lists, major.region.hi);
    }

    /** Under exact options cached and free memory together with the callers' blocks is all the memory there is. */
    lemma Conserved()
      requires Valid() && Exact(c)
      ensures totalCacheSizeKB * 1024 + major.region.freeSize + HeldTotal(Outstanding(), major.region.hi) == major.region.hi - major.region.lo
    {
      hide MemRegion.MemoryRegion.Valid, MemRegion.MemoryRegion.Free;
    }

    /** Take the first block of a tier's list for a caller, and remember its size. */
    method Pop(i: nat) returns (address: nat)
      requires Valid() && i in lists && lists[i] != []
      modifies this`tiers, this`lists, this`owner, this`sizes, this`totalCacheSizeKB
      ensures Valid() && address == old(lists)[i][0] && address !in old(Outstanding()) && address in major.held
      ensures Exact(c) ==> major.held[address] == TierSize(c.policy, c.base, i)
      ensures Outstanding() == old(Outstanding())[address := major.held[address]]
      ensures lists == old(lists)[i := old(lists)[i][1..]]
      ensures sizes == old(sizes)[address := TimesKept(c.policy, c.base, i, address)]
    {
      hide NetMemAllocator.Valid, OwnersOk, Accounts, Chain, TierSize, TierCountOk, MaxSize, NoRepeats, BlockKB, TimesKept, Request,
           IsBase, Exact, Minus64;
      BaseFacts(c.base);
      HeldSum(major);
      ListHead(links, tiers, lists, i);
      ghost var s := lists[i];
      address := tiers[i].head;
      assert s == [address] + s[1..];
      ChainPop(links, address, s);
      var tier := TCache(links[address].next, tiers[i].currentFree - 1);
      CachesChanged(links, links, tiers, lists, i, tier, s[1..], []);
      ToUser(owner, [], lists, i, address, s[1..]);
      AccountsPop(c, major.held, owner, lists, sizes, totalCacheSizeKB, major.region.hi, i, address, s[1..]);
      OutAdd(major.held, owner, address);
      tiers := tiers[i := tier];
      totalCacheSizeKB := Minus64(totalCacheSizeKB, BlockKB(c.policy, c.base, i));
      sizes := sizes[address := TimesKept(c.policy, c.base, i, address)];
      owner, lists := owner[address := User], lists[i := s[1..]];
    }

    /** One more block of tier i from the allocator, at the end of the tier's list. */
    method FillOne(i: nat, last: nat) returns (ok: bool, address: nat)
      requires Sorted() && i in lists && i < c.count && Request(c.policy, c.base, i) > 0
      requires last == if lists[i] == [] then 0 else lists[i][|lists[i]| - 1]
      modifies this`tiers, this`links, this`lists, this`owner, this`totalCacheSizeKB,
               major`addrLenMap, major`held, major`asked, major`mem, major`firstAllocLength, major`firstReqLength,
               major.region`areas, major.region`freeCnt, major.region`freeSize, major.region`shape, major.region`order,
               major.region.rb, major.region.fl
      ensures Sorted() && Outstanding() == old(Outstanding())
      ensures ok <==> Serves(old(major.Blocks()), Request(c.policy, c.base, i))
      ensures !ok ==> major.Blocks() == old(major.Blocks())
      ensures lists == if ok then old(lists)[i := old(lists)[i] + [address]] else old(lists)
      ensures major.held == if ok then old(major.held)[address := Request(c.policy, c.base, i)] else old(major.held)
      ensures ok ==> address !in old(major.held)
    {
      hide NetMemAllocator.Valid, OwnersOk, Accounts, TierSize, TierCountOk, MaxSize, NoRepeats, CachesOk, RoundUp, Out, BlockKB, Request,
           IsBase, Exact, Plus64, Serves, ConfigOk, NetMemAllocator.Blocks;
      WholeRequest(c, i);
      var r, a, k, n := major.Allocate(Request(c.policy, c.base, i));
      if r != MemAllocator.Ok {
        return false, 0;
      }
      address := a;
      assert address in major.held;
      HeldBelow(major);
      HeldSum(major);
      NotOwned(c, old(major.held), owner, lists, sizes, totalCacheSizeKB, major.region.hi, address);
      AccountsFill(c, old(major.held), owner, lists, sizes, totalCacheSizeKB, major.region.hi, i, address);
      ToBack(owner, [], lists, i, address);
      OutSame(old(major.held), owner, address, n, InCache(i));
      AppendLink(i, last, address);
      totalCacheSizeKB := Plus64(totalCacheSizeKB, BlockKB(c.policy, c.base, i));
      owner, lists := owner[address := InCache(i)], lists[i := lists[i] + [address]];
      ok := true;
    }

    /** Link a new block behind the last of a tier's list, or as the first. */
    method AppendLink(i: nat, last: nat, address: nat)
      requires CachesOk(links, tiers, lists) && OwnersOk(owner, [], lists) && i in lists && address !in owner && address != 0
      requires last == if lists[i] == [] then 0 else lists[i][|lists[i]| - 1]
      modifies this`tiers, this`links
      ensures CachesOk(links, tiers, lists[i := lists[i] + [address]])
    {
      hide OwnersOk, NoRepeats, CachesOk, Chain;
      ToBack(owner, [], lists, i, address);
      ListHead(links, tiers, lists, i);
      ListDistinct(owner, lists, i);
      ListLast(links, tiers[i].head, lists[i]);
      ghost var s, links0 := lists[i], links;
      if last == 0 {
        links := links[address := MinBlock(0, 0, 0)];
        tiers := tiers[i := TCache(address, tiers[i].currentFree + 1)];
        OneLink(links, address);
        assert s + [address] == [] + [address];
        CachesChanged(links0, links, old(tiers), lists, i, tiers[i], s + [address], [address]);
      } else {
        links := links[last := links[last].(next := address)][address := MinBlock(0, 0, 0)];
        tiers := tiers[i := tiers[i].(currentFree := tiers[i].currentFree + 1)];
        ChainAppend(links0, links, tiers[i].head, s, address);
        OnlyIn(owner, lists, i, last);
        CachesChanged(links0, links, old(tiers), lists, i, tiers[i], s + [address], [last, address]);
      }
    }

    /** Fill the empty list of a tier with up to perTier blocks, as far as the allocator has them. */
    method Fill(i: nat)
      requires Valid() && i in lists && lists[i] == [] && i < c.count && Request(c.policy, c.base, i) > 0
      modifies this`tiers, this`links, this`lists, this`owner, this`totalCacheSizeKB, this`sizes,
               major`addrLenMap, major`held, major`asked, major`mem, major`firstAllocLength, major`firstReqLength,
               major.region`areas, major.region`freeCnt, major.region`freeSize, major.region`shape, major.region`order,
               major.region.rb, major.region.fl
      ensures Valid() && Outstanding() == old(Outstanding()) && sizes == old(sizes)
      ensures lists == old(lists)[i := lists[i]] && i in lists && |lists[i]| <= c.perTier
      ensures lists[i] != [] <==> Serves(old(major.Blocks()), Request(c.policy, c.base, i))
      ensures |lists[i]| == c.perTier || !Serves(major.Blocks(), Request(c.policy, c.base, i))
      ensures forall x | x in lists[i] :: x in major.held && major.held[x] == Request(c.policy, c.base, i)
    {
      hide NetMemAllocator.Valid, Options, MajorOk, Linked, Accounts, Out, Request, Serves, NetMemAllocator.Blocks;
      var last, n, more := 0, 0, true;
      assert c.perTier > 0 by { PerTierPositive(); }
      while n < c.perTier && more
        invariant Sorted() && Outstanding() == old(Outstanding()) && i in lists && lists == old(lists)[i := lists[i]] && sizes == old(sizes)
        invariant |lists[i]| == n <= c.perTier && last == if lists[i] == [] then 0 else lists[i][|lists[i]| - 1]
        invariant forall x | x in lists[i] :: x in major.held && major.held[x] == Request(c.policy, c.base, i)
        invariant n == 0 && more ==> major.Blocks() == old(major.Blocks())
        invariant n > 0 ==> Serves(old(major.Blocks()), Request(c.policy, c.base, i))
        invariant n == 0 && !more ==> !Serves(old(major.Blocks()), Request(c.policy, c.base, i))
        invariant !more ==> !Serves(major.Blocks(), Request(c.policy, c.base, i))
        decreases c.perTier - n, more
      {
        var a: nat;
        more, a := FillOne(i, last);
        if more {
          last, n := a, n + 1;
        }
      }
      Short(old(lists), lists, i, c.perTier);
    }

    lemma PerTierPositive()
      requires Sorted()
      ensures c.perTier > 0
    {
    }

    /**
     Allocate at least size bytes: from the tier's list, from the allocator when it is empty or the
     size is beyond all tiers. It fails exactly if the tier's list is empty and no free area holds
     what the code asks for.
     */
    method Allocate(size: nat) returns (r: NResult, address: nat)
      requires Valid() && size < WORD64
      modifies this`tiers, this`links, this`lists, this`owner, this`totalCacheSizeKB, this`sizes,
               major`addrLenMap, major`held, major`asked, major`mem, major`firstAllocLength, major`firstReqLength,
               major.region`areas, major.region`freeCnt, major.region`freeSize, major.region`shape, major.region`order,
               major.region.rb, major.region.fl
      ensures Valid()
      ensures r == MemAllocator.Ok ==>
                && address in Outstanding() && address !in old(Outstanding())
                && Outstanding() == old(Outstanding())[address := Outstanding()[address]]
                && (Exact(c) || size > maxCacheBlockSize ==> Outstanding()[address] >= size)
      ensures r != MemAllocator.Ok ==> Outstanding() == old(Outstanding())
      ensures size > maxCacheBlockSize ==>
                && (r == MemAllocator.Ok <==> !RoundsToNothing(size, c.base) && Serves(old(major.Blocks()), RoundUp(size, c.base)))
                && (r == MemAllocator.HandsOutNothing <==> RoundsToNothing(size, c.base) && old(major.Blocks()) != [])
      ensures size <= maxCacheBlockSize && TierFor(c.policy, size, c.base) >= c.count ==> r == MemAllocator.InvalidParam
      ensures 0 < size <= maxCacheBlockSize ==> TierFor(c.policy, size, c.base) < c.count
      ensures size == 0 && c.policy == Times ==> r == MemAllocator.InvalidParam
      ensures size <= maxCacheBlockSize && TierFor(c.policy, size, c.base) < c.count ==>
                var i := TierFor(c.policy, size, c.base);
                var n := Request(c.policy, c.base, i);
                && i in old(lists)
                && (r == MemAllocator.HandsOutNothing <==> old(lists)[i] == [] && n == 0 && old(major.Blocks()) != [])
                && (r == MemAllocator.Ok <==> old(lists)[i] != [] || (n > 0 && Serves(old(major.Blocks()), n)))
                && (r == MemAllocator.Ok && old(lists)[i] == [] ==> Outstanding()[address] == n)
    {
      hide NetMemAllocator.Valid, OwnersOk, Accounts, TierSize, TierCountOk, MaxSize, Out, CachesOk, TierFor, Bounded, Request, Serves, RoundUp,
           IsBase, Exact, NetMemAllocator.Blocks, TimesKept;
      BaseFacts(c.base);
      address := 0;
      if size <= maxCacheBlockSize { TierChosen(c.policy, size, c.base, c.count); }
      if size > maxCacheBlockSize {
        r, address := AllocateDirect(size);
        return;
      }
      var tierIndex := TierFor(c.policy, size, c.base);
      if tierIndex >= c.count {
        return MemAllocator.InvalidParam, 0;
      }
      HasTier(c, major.held, owner, lists, sizes, totalCacheSizeKB, major.region.hi, tierIndex);
      ListHead(links, tiers, lists, tierIndex);
      if tiers[tierIndex].head == 0 {
        if Request(c.policy, c.base, tierIndex) == 0 {
          r := AskForNothing();
          return r, 0;
        }
        Fill(tierIndex);
        ListHead(links, tiers, lists, tierIndex);
        if tiers[tierIndex].head == 0 {
          return MemAllocator.Error, 0;
        }
      }
      address := Pop(tierIndex);
      r := MemAllocator.Ok;
    }

    /** The allocator is asked for nothing, and hands out the start of a free area if there is one. */
    method AskForNothing() returns (r: NResult)
      requires Valid()
      ensures r == (if major.Blocks() == [] then MemAllocator.Error else MemAllocator.HandsOutNothing)
    {
      hide MemRegion.MemoryRegion.Valid, MemRegion.MemoryRegion.Free, Accounts, OwnersOk, CachesOk, Bounded, ConfigOk;
      var none := major.NoArea();
      r := if none then MemAllocator.Error else MemAllocator.HandsOutNothing;
    }

    /** A size beyond all tiers goes to the allocator. */
    method AllocateDirect(size: nat) returns (r: NResult, address: nat)
      requires Valid() && size < WORD64
      modifies this`tiers, this`links, this`lists, this`owner, this`totalCacheSizeKB, this`sizes,
               major`addrLenMap, major`held, major`asked, major`mem, major`firstAllocLength, major`firstReqLength,
               major.region`areas, major.region`freeCnt, major.region`freeSize, major.region`shape, major.region`order,
               major.region.rb, major.region.fl
      ensures Valid() && (r == MemAllocator.Ok <==> !RoundsToNothing(size, c.base) && Serves(old(major.Blocks()), RoundUp(size, c.base)))
      ensures r == MemAllocator.HandsOutNothing <==> RoundsToNothing(size, c.base) && old(major.Blocks()) != []
      ensures r == MemAllocator.Ok ==>
                && address in Outstanding() && address !in old(Outstanding()) && Outstanding()[address] >= size
                && Outstanding() == old(Outstanding())[address := Outstanding()[address]]
      ensures r != MemAllocator.Ok ==> Outstanding() == old(Outstanding())
    {
      hide NetMemAllocator.Valid, OwnersOk, Accounts, MaxSize, Out, CachesOk, RoundUp, ConfigOk, Serves, NetMemAllocator.Blocks;
      ghost var k, n;
      r, address, k, n := major.Allocate(size);
      if r == MemAllocator.Ok {
        assert address in major.held;
        HeldBelow(major);
        NotOwned(c, old(major.held), owner, lists, sizes, totalCacheSizeKB, major.region.hi, address);
        AccountsDirect(c, old(major.held), owner, lists, sizes, totalCacheSizeKB, major.region.hi, address, n);
        PoolState.Comes(owner, [], lists, address);
        OutNew(old(major.held), owner, address, n);
        owner := owner[address := User];
      }
    }

    /** Put a caller's block in front of the list of the tier its record names. */
    method Push(address: nat, i: nat)
      requires Valid() && address in sizes && i == TierForTimes(c.policy, sizes[address], c.base) && i in lists
      modifies this`tiers, this`links, this`lists, this`owner, this`totalCacheSizeKB, this`sizes
      ensures Sorted() && address in old(Outstanding())
      ensures Exact(c) ==> old(Outstanding())[address] == TierSize(c.policy, c.base, i)
      ensures lists == old(lists)[i := [address] + old(lists)[i]] && Outstanding() == old(Outstanding()) - {address}
      ensures sizes == old(sizes) - {address}
    {
      hide NetMemAllocator.Valid, OwnersOk, Accounts, Chain, TierSize, TierCountOk, MaxSize, NoRepeats, BlockKB, TierForTimes, CachesOk, Out,
           IsBase, Exact, Plus64;
      HeldSum(major);
      AccountsPush(c, major.held, owner, lists, sizes, totalCacheSizeKB, major.region.hi, i, address);
      FromUser(owner, [], lists, i, address);
      ListHead(links, tiers, lists, i);
      ghost var s, links0 := lists[i], links;
      links := links[address := MinBlock(tiers[i].head, 0, 0)];
      ChainPush(links0, links, tiers[i].head, s, address);
      CachesChanged(links0, links, tiers, lists, i, TCache(address, tiers[i].currentFree + 1), [address] + s, [address]);
      tiers := tiers[i := TCache(address, tiers[i].currentFree + 1)];
      OutDrop(major.held, owner, address, InCache(i));
      OutValue(major.held, owner, address);
      totalCacheSizeKB := Plus64(totalCacheSizeKB, BlockKB(c.policy, c.base, i));
      sizes := sizes - {address};
      owner, lists := owner[address := InCache(i)], lists[i := [address] + s];
    }

    /** Cut a list of twice perTier blocks in two: the first half stays, the second is to go back. */
    method Cut(i: nat) returns (returnHead: nat, ghost t: seq<nat>)
      requires Sorted() && i in lists && |lists[i]| == 2 * c.perTier
      modifies this`tiers, this`links, this`lists, this`owner, this`totalCacheSizeKB
      ensures Sorted() && t == old(lists)[i][c.perTier..] && lists == old(lists)[i := old(lists)[i][..c.perTier]]
      ensures Chain(links, returnHead, t) && NoRepeats(t) && Pending(major.held, owner, sizes, t)
      ensures ButFor(old(Outstanding()), Outstanding(), t)
    {
      hide NetMemAllocator.Valid, OwnersOk, Accounts, Chain, TierSize, TierCountOk, MaxSize, NoRepeats, HalfKB, CachesOk, Out, Pending, ButFor,
           IsBase, Exact, Minus64;
      HeldSum(major);
      ghost var s := lists[i][..c.perTier];
      t := lists[i][c.perTier..];
      assert lists[i] == s + t;
      returnHead := CutLinks(i, s, t);
      AccountsCut(c, major.held, owner, lists, sizes, totalCacheSizeKB, major.region.hi, i, s, t);
      ToUsers(owner, [], lists, i, s, t);
      CutOwners(major.held, owner, sizes, t, i);
      totalCacheSizeKB := Minus64(totalCacheSizeKB, HalfKB(c.policy, c.base, i, c.perTier));
      owner, lists := Give(owner, t, User), lists[i := s];
    }

    /** Unlink the blocks behind the first perTier ones. */
    method CutLinks(i: nat, ghost s: seq<nat>, ghost t: seq<nat>) returns (returnHead: nat)
      requires CachesOk(links, tiers, lists) && OwnersOk(owner, [], lists) && i in lists && lists[i] == s + t
      requires |s| == |t| == c.perTier > 0
      modifies this`tiers, this`links
      ensures CachesOk(links, tiers, lists[i := s]) && Chain(links, returnHead, t)
    {
      hide OwnersOk, Chain, NoRepeats, CachesOk;
      ListHead(links, tiers, lists, i);
      ListDistinct(owner, lists, i);
      var lastRetained := Walk(links, tiers[i].head, c.perTier - 1, lists[i]);
      assert lastRetained == s[c.perTier - 1];
      ListMember(links, tiers[i].head, s + t, c.perTier - 1);
      returnHead := links[lastRetained].next;
      ghost var links0 := links;
      links := links[lastRetained := links[lastRetained].(next := 0)];
      ChainCut(links0, links, tiers[i].head, s, t);
      assert lastRetained in lists[i];
      OnlyIn(owner, lists, i, lastRetained);
      CachesChanged(links0, links, tiers, lists, i, TCache(tiers[i].head, tiers[i].currentFree - c.perTier), s, [lastRetained]);
      tiers := tiers[i := TCache(tiers[i].head, tiers[i].currentFree - c.perTier)];
    }

    /** Give one block back to the allocator. */
    method ReleaseOne(v: nat)
      requires Sorted() && v in major.held && v in owner && owner[v] == User && v !in sizes
      modifies this`owner,
               major`addrLenMap, major`held, major`asked, major`mem, major`firstAllocLength, major`firstReqLength,
               major.region`areas, major.region`freeCnt, major.region`freeSize, major.region`shape, major.region`order,
               major.region.rb, major.region.fl
      ensures Sorted() && owner == old(owner) - {v} && major.held == old(major.held) - {v}
      ensures Outstanding() == old(Outstanding()) - {v}
    {
      hide NetMemAllocator.Valid, OwnersOk, Accounts, MaxSize, Out, CachesOk, ConfigOk;
      var r, k := major.Free(v);
      AccountsLeave(c, old(major.held), owner, lists, sizes, totalCacheSizeKB, major.region.hi, v);
      Leaves(owner, [], lists, v);
      OutGone(old(major.held), owner, v);
      owner := owner - {v};
    }

    /** Give the blocks of a chain back, one after the other. */
    method ReturnAll(head: nat, ghost t: seq<nat>, ghost before: Held)
      requires Sorted() && Chain(links, head, t) && NoRepeats(t) && Pending(major.held, owner, sizes, t)
      requires ButFor(before, Outstanding(), t)
      modifies this`owner,
               major`addrLenMap, major`held, major`asked, major`mem, major`firstAllocLength, major`firstReqLength,
               major.region`areas, major.region`freeCnt, major.region`freeSize, major.region`shape, major.region`order,
               major.region.rb, major.region.fl
      ensures Sorted() && Outstanding() == before
    {
      hide NetMemAllocator.Valid, Options, MajorOk, Linked, Accounts, Out, Chain, NoRepeats, ButFor, Pending;
      var returnHead := head;
      ghost var rest := t;
      while returnHead != 0
        invariant Sorted() && Chain(links, returnHead, rest) && NoRepeats(rest) && Pending(major.held, owner, sizes, rest)
        invariant ButFor(before, Outstanding(), rest)
        decreases |rest|
      {
        NextPending(links, returnHead, rest, major.held, owner, sizes, before, Outstanding());
        var next := links[returnHead].next;
        ReleaseOne(returnHead);
        returnHead, rest := next, rest[1..];
      }
      NonePending(links, rest, before, Outstanding());
    }

    /**
     Free a block: one with a record goes to the front of the list of the tier that the record
     names, and a list that reaches twice perTier blocks gives half of them back; any other goes
     to the allocator.
     */
    method Free(address: nat) returns (r: NResult)
      requires Valid() && (address in owner ==> owner[address] == User)
      modifies this`tiers, this`links, this`lists, this`owner, this`totalCacheSizeKB, this`sizes,
               major`addrLenMap, major`held, major`asked, major`mem, major`firstAllocLength, major`firstReqLength,
               major.region`areas, major.region`freeCnt, major.region`freeSize, major.region`shape, major.region`order,
               major.region.rb, major.region.fl
      ensures Valid() && Outstanding() == if r == MemAllocator.Ok then old(Outstanding()) - {address} else old(Outstanding())
      ensures r == MemAllocator.Ok ==> address in old(Outstanding())
      ensures address !in old(sizes) ==> (r == MemAllocator.Ok <==> address in old(Outstanding())) && lists == old(lists)
      ensures address in old(sizes) ==>
                var i := TierForTimes(c.policy, old(sizes)[address], c.base);
                && (r == MemAllocator.Ok <==> i < c.count) && (i < c.count ==> Returned(old(lists), lists, i, address, c.perTier))
                && (Exact(c) ==> i < c.count && old(Outstanding())[address] == TierSize(c.policy, c.base, i))
    {
      hide NetMemAllocator.Valid, OwnersOk, Accounts, Chain, TierSize, TierCountOk, MaxSize, NoRepeats, CachesOk, Out, Pending, ButFor, Returned,
           IsBase, Exact, TierForTimes;
      BaseFacts(c.base);
      KnownBlocks(c, major.held, owner, lists, sizes, totalCacheSizeKB, major.region.hi, address);
      if address in sizes {
        r := FreeToCache(address);
        return;
      }
      var size: nat;
      r, size := AskMajor(address);
      if r != MemAllocator.Ok {
        NothingOut(major.held, owner, address);
        return;
      }
      ReleaseOne(address);
    }

    /** Free a block that has a record. */
    method FreeToCache(address: nat) returns (r: NResult)
      requires Valid() && address in sizes
      modifies this`tiers, this`links, this`lists, this`owner, this`totalCacheSizeKB, this`sizes,
               major`addrLenMap, major`held, major`asked, major`mem, major`firstAllocLength, major`firstReqLength,
               major.region`areas, major.region`freeCnt, major.region`freeSize, major.region`shape, major.region`order,
               major.region.rb, major.region.fl
      ensures Valid() && Outstanding() == (if r == MemAllocator.Ok then old(Outstanding()) - {address} else old(Outstanding()))
      ensures address in old(Outstanding()) && sizes == old(sizes) - {address}
      ensures var i := TierForTimes(c.policy, old(sizes)[address], c.base);
              && (r == MemAllocator.Ok <==> i < c.count) && (i < c.count ==> Returned(old(lists), lists, i, address, c.perTier))
              && (Exact(c) ==> i < c.count && old(Outstanding())[address] == TierSize(c.policy, c.base, i))
    {
      hide NetMemAllocator.Valid, OwnersOk, Accounts, Chain, TierSize, TierCountOk, MaxSize, NoRepeats, CachesOk, Out, Pending, ButFor, Returned,
           IsBase, Exact, TierForTimes;
      BaseFacts(c.base);
      KnownBlocks(c, major.held, owner, lists, sizes, totalCacheSizeKB, major.region.hi, address);
      OutValue(major.held, owner, address);
      var i := TierForTimes(c.policy, sizes[address], c.base);
      HasTier(c, major.held, owner, lists, sizes, totalCacheSizeKB, major.region.hi, i);
      if i >= c.count {
        if Exact(c) { HasRecordedTier(c, major.held, owner, lists, sizes, totalCacheSizeKB, major.region.hi, address); }
        AccountsForget(c, major.held, owner, lists, sizes, totalCacheSizeKB, major.region.hi, address);
        sizes := sizes - {address};
        return MemAllocator.InvalidParam;
      }
      Push(address, i);
      ListHead(links, tiers, lists, i);
      OneReturned(old(lists), lists, i, address, c.perTier);
      if tiers[i].currentFree < c.perTier * 2 {
        return MemAllocator.Ok;
      }
      ghost var out := Outstanding();
      HalfReturned(old(lists), lists, i, address, c.perTier);
      var returnHead, t := Cut(i);
      ReturnAll(returnHead, t, out);
      return MemAllocator.Ok;
    }

    /** Ask the allocator for the size of a block. */
    method AskMajor(address: nat) returns (r: NResult, size: nat)
      requires MajorOk()
      ensures r == MemAllocator.Ok <==> address in major.held
    {
      hide NetMemAllocator.Valid;
      r, size := major.GetSizeByAddressAlign(address);
    }
  }

  lemma KnownBlocks(c: Config, held: Held, owner: Owners, lists: Lists, sizes: Held, kb: nat, hi: nat, v: nat)
    requires Accounts(c, held, owner, lists, sizes, kb, hi)
    ensures (v in held <==> v in owner) && (v in sizes ==> v in held && owner[v] == User)
    ensures v in Out(held, owner) <==> v in held && v in owner && owner[v] == User
  {
  }

  lemma HasTier(c: Config, held: Held, owner: Owners, lists: Lists, sizes: Held, kb: nat, hi: nat, i: nat)
    requires Accounts(c, held, owner, lists, sizes, kb, hi)
    ensures i in lists <==> i < c.count
  {
  }

  lemma NotOwned(c: Config, held: Held, owner: Owners, lists: Lists, sizes: Held, kb: nat, hi: nat, v: nat)
    requires Accounts(c, held, owner, lists, sizes, kb, hi) && v !in held
    ensures v !in owner
  {
  }

  /** What is asked for needs no rounding up. */
  lemma WholeRequest(c: Config, i: nat)
    requires ConfigOk(c)
    ensures c.base > 0 && Request(c.policy, c.base, i) + c.base <= WORD64
    ensures RoundUp(Request(c.policy, c.base, i), c.base) == Request(c.policy, c.base, i)
  {
    hide Request, RoundUp, Multiple, IsBase;
    BaseFacts(c.base);
    RequestWhole(c.policy, c.base, i);
    RoundUpExact(Request(c.policy, c.base, i), c.base);
  }

  /** All the blocks of the allocator are no longer than its range. */
  lemma HeldSum(major: NetMemAllocator)
    requires major.Valid() && major.alignAddress
    ensures HeldTotal(major.held, major.region.hi) <= major.region.hi
  {
    hide MemRegion.MemoryRegion.Valid, MemRegion.MemoryRegion.Free;
  }

  lemma OutGone(held: Held, owner: Owners, v: nat)
    ensures Out(held - {v}, owner - {v}) == Out(held, owner) - {v}
  {
  }

  lemma NothingOut(held: Held, owner: Owners, v: nat)
    requires v !in held
    ensures v !in Out(held, owner) && Out(held, owner) - {v} == Out(held, owner)
  {
  }

  lemma NextPending(links: Cells, head: nat, rest: seq<nat>, held: Held, owner: Owners, sizes: Held, before: Held, after: Held)
    requires Chain(links, head, rest) && head != 0 && NoRepeats(rest) && Pending(held, owner, sizes, rest) && ButFor(before, after, rest)
    ensures rest != [] && head == rest[0] && head in links && Chain(links, links[head].next, rest[1..]) && NoRepeats(rest[1..])
    ensures head in held && head in owner && owner[head] == User && head !in sizes
    ensures Pending(held - {head}, owner - {head}, sizes, rest[1..]) && ButFor(before, after - {head}, rest[1..])
  {
    hide Chain, NoRepeats;
    PendingHead(links, head, rest);
    ChainPop(links, head, rest);
    assert rest == [head] + rest[1..];
    NoRepeatsParts([head], rest[1..]);
    assert head in [head];
  }

  lemma PendingHead(links: Cells, head: nat, rest: seq<nat>)
    requires Chain(links, head, rest) && head != 0
    ensures rest != [] && head == rest[0]
  {
  }

  lemma NullHead(links: Cells, head: nat, s: seq<nat>)
    requires Chain(links, head, s)
    ensures head == 0 <==> s == []
  {
    if s != [] { assert s[0] != 0; }
  }

  lemma NonePending(links: Cells, rest: seq<nat>, before: Held, after: Held)
    requires Chain(links, 0, rest) && ButFor(before, after, rest)
    ensures after == before
  {
    NullHead(links, 0, rest);
  }

  /** List i is one longer and short enough, or cut to its first n blocks on reaching 2 n; the others are as they were. */
  ghost predicate Returned(before: Lists, after: Lists, i: nat, v: nat, n: nat) {
    i in before && i in after && after == before[i := after[i]] &&
      if |before[i]| + 1 < 2 * n then after[i] == [v] + before[i]
      else |before[i]| + 1 == 2 * n && after[i] == ([v] + before[i])[..n]
  }

  lemma OneReturned(before: Lists, after: Lists, i: nat, v: nat, n: nat)
    requires i in before && after == before[i := [v] + before[i]] && Bounded(before, n)
    ensures |after[i]| <= 2 * n
    ensures |after[i]| < 2 * n ==> Returned(before, after, i, v, n) && Bounded(after, n)
  {
  }

  lemma HalfReturned(before: Lists, after: Lists, i: nat, v: nat, n: nat)
    requires i in before && after == before[i := [v] + before[i]] && Bounded(before, n) && |after[i]| == 2 * n && n > 0
    ensures Returned(before, after[i := after[i][..n]], i, v, n) && Bounded(after[i := after[i][..n]], n)
  {
  }

  /** Blocks cut off a list and not yet given back: with nobody's size on record. */
  ghost predicate Pending(held: Held, owner: Owners, sizes: Held, t: seq<nat>) {
    forall x | x in t :: x in held && x in owner && owner[x] == User && x !in sizes
  }

  /** The callers' blocks are as before, but for those of t. */
  ghost predicate ButFor(before: Held, after: Held, t: seq<nat>) {
    && (forall a | a in before :: a in after && after[a] == before[a] && a !in t)
    && (forall a | a in after :: a in before || a in t)
  }

  lemma CutOwners(held: Held, owner: Owners, sizes: Held, t: seq<nat>, i: nat)
    requires forall x | x in t :: x in owner && owner[x] == InCache(i) && x in held && x !in sizes
    ensures Pending(held, Give(owner, t, User), sizes, t)
    ensures ButFor(Out(held, owner), Out(held, Give(owner, t, User)), t)
  {
  }

  lemma ListMember(links: Cells, head: nat, s: seq<nat>, i: nat)
    requires Chain(links, head, s) && i < |s|
    ensures s[i] in links && s[i] != 0
  {
  }

  lemma OutValue(held: Held, owner: Owners, v: nat)
    requires v in held && v in owner && owner[v] == User
    ensures v in Out(held, owner) && Out(held, owner)[v] == held[v]
  {
  }

  lemma Short(lists: Lists, lists': Lists, i: nat, n: nat)
    requires Bounded(lists, n) && i in lists' && lists' == lists[i := lists'[i]] && |lists'[i]| <= n && n > 0
    ensures Bounded(lists', n)
  {
  }

  lemma OutNew(held: Held, owner: Owners, v: nat, n: nat)
    requires v !in held
    ensures v !in Out(held, owner) && Out(held[v := n], owner[v := User]) == Out(held, owner)[v := n]
  {
  }

  /** The chosen tier is large enough; asking for nothing has no tier under the first policy. */
  lemma TierChosen(policy: Policy, size: nat, base: nat, count: nat)
    requires base > 0 && TierCountOk(policy, count) && size <= MaxSize(policy, base, count)
    ensures var i := TierFor(policy, size, base);
            && (i < count ==> size <= TierSize(policy, base, i))
            && (size == 0 && policy == Times ==> i >= count)
            && (size > 0 ==> i < count)
  {
    hide TierFor, TierSize, MaxSize;
    if size > 0 {
      TierFits(policy, size, base, count);
    } else if policy == Times {
      NothingRefused(base, count);
    }
  }

  lemma ListLast(links: Cells, head: nat, s: seq<nat>)
    requires Chain(links, head, s)
    ensures s != [] ==> s[|s| - 1] in links && s[|s| - 1] in s && s[|s| - 1] != 0
  {
  }

  lemma OutSame(held: Held, owner: Owners, v: nat, n: nat, o: Owner)
    requires v !in held && o != User
    ensures Out(held[v := n], owner[v := o]) == Out(held, owner)
  {
  }

  lemma ListDistinct(owner: Owners, lists: Lists, i: nat)
    requires OwnersOk(owner, [], lists) && i in lists
    ensures NoRepeats(lists[i])
  {
  }

  lemma OneLink(links: Cells, v: nat)
    requires v != 0 && v in links && links[v].next == 0
    ensures Chain(links, v, [] + [v])
  {
  }

  /** A block of one list is in no other. */
  lemma OnlyIn(owner: Owners, lists: Lists, i: nat, v: nat)
    requires OwnersOk(owner, [], lists) && i in lists && v in lists[i]
    ensures forall d | d in lists && d != i :: v !in lists[d]
  {
    hide NoRepeats;
    assert owner[v] == InCache(i);
    forall d | d in lists && d != i
      ensures v !in lists[d]
    {
      assert v in lists[d] <==> v in owner && owner[v] == InCache(d);
    }
  }

  /** Blocks of the allocator lie inside its range. */
  lemma HeldBelow(major: NetMemAllocator)
    requires major.Valid() && major.alignAddress
    ensures forall a | a in major.held :: 0 < a < major.region.hi
    ensures major.minBlockSize >= 4096 && IsBase(major.minBlockSize)
  {
    hide MemRegion.MemoryRegion.Valid, MemRegion.MemoryRegion.Free;
    major.HeldInside();
    BlockSizeIsBase(major.minBlockSize);
  }

  lemma BlockSizeIsBase(n: nat)
    requires IsBlockSize(n)
    ensures IsBase(n)
  {
    assert B.Pow2(5) == 32;
    assert B.Pow2(10) == 1024;
    Pow2Divides(n, 10, 1024);
  }

  lemma ListHead(links: Cells, tiers: map<nat, TCache>, lists: Lists, i: nat)
    requires CachesOk(links, tiers, lists) && i in lists
    ensures i in tiers && CacheOk(links, tiers[i], lists[i])
    ensures lists[i] != [] ==> tiers[i].head == lists[i][0] && tiers[i].head in links && tiers[i].head != 0
    ensures lists[i] == [] <==> tiers[i].head == 0
  {
    assert CacheOk(links, tiers[i], lists[i]);
  }

}
