/**
 The pool of fixed-size min blocks and the thread caches in front of it.
 */
module FixedPool {
  import opened Sequences
  import opened Multiples
  import opened PoolLists
  import opened PoolExpand
  import opened PoolState
  import opened PoolMoves
  import B = Bits

  const MIN_BLOCK_HEADER: nat := 24
  const MB: nat := 0x10_0000

  datatype SuperBlock = SuperBlock(buffer: nat, size: nat)

  /** Options the pool accepts. */
  predicate ValidOptions(superBlkSizeMB: nat, minBlkSize: nat, tcExpandBlkCnt: nat) {
    && 0 < superBlkSizeMB <= 256 && 8 <= tcExpandBlkCnt <= 256 && minBlkSize >= MIN_BLOCK_HEADER
    && minBlkSize * tcExpandBlkCnt * 16 / 1024 / 1024 <= superBlkSizeMB
    && superBlkSizeMB * MB % (minBlkSize * tcExpandBlkCnt) == 0
  }

  lemma OptionsAre(superBlkSizeMB: nat, minBlkSize: nat, tcExpandBlkCnt: nat)
    ensures ValidOptions(superBlkSizeMB, minBlkSize, tcExpandBlkCnt) <==>
            && 0 < superBlkSizeMB <= 256 && 8 <= tcExpandBlkCnt <= 256 && minBlkSize >= 24
            && minBlkSize * tcExpandBlkCnt * 16 / 1024 / 1024 <= superBlkSizeMB
            && superBlkSizeMB * 1024 * 1024 % (minBlkSize * tcExpandBlkCnt) == 0
  {
    assert superBlkSizeMB * 1024 * 1024 == superBlkSizeMB * MB;
  }

  function BatchBytes(minBlkSize: nat, tcExpandBlkCnt: nat): (n: nat)
    requires minBlkSize > 0 && tcExpandBlkCnt > 0
    ensures n > 0
  {
    minBlkSize * tcExpandBlkCnt
  }

  /** The size of the first super block, in bytes. */
  function FirstSize(superBlkSizeMB: nat): (n: nat) {
    superBlkSizeMB * 1024 * 1024
  }

  /** Each super block is as large as all before it: nothing yet, or the first size doubled some times. */
  ghost predicate Doubled(superBlkSizeMB: nat, total: nat) {
    total == 0 || exists k: nat :: total == FirstSize(superBlkSizeMB) * B.Pow2(k)
  }

  /** How an operation on the pool ends: with one of the code's results, or where the code follows a null pointer. */
  lemma FirstBytes(superBlkSizeMB: nat)
    ensures FirstSize(superBlkSizeMB) == superBlkSizeMB * 1024 * 1024
  {
  }

  datatype PoolResult = Ok | MallocFailed | InvalidParam | NullDereference

  class NetMemPoolFixed {
    const superBlkSizeMB: nat
    const minBlkSize: nat
    const tcExpandBlkCnt: nat
    var cells: Cells
    var freeHead: nat
    var freeCount: nat
    var superBlocks: seq<SuperBlock>
    var totalSuperBlkSize: nat
    var inited: bool
    var caches: map<nat, TCache>
    ghost var batches: seq<seq<nat>>
    ghost var rest: seq<nat>
    ghost var lists: Lists
    ghost var owner: Owners

    ghost predicate Options() {
      ValidOptions(superBlkSizeMB, minBlkSize, tcExpandBlkCnt)
    }

    /** All but the bound on the caches' lengths. */
    ghost predicate Linked()
      reads this
    {
      && Options()
      && SharedOk(cells, freeHead, freeCount, batches, rest, tcExpandBlkCnt)
      && CachesOk(cells, caches, lists)
      && OwnersOk(owner, Queue(batches, rest), lists)
      && Backed(cells, owner)
    }

    ghost predicate Valid()
      reads this
    {
      Linked() && Bounded(lists, tcExpandBlkCnt) && Doubled(superBlkSizeMB, totalSuperBlkSize)
    }

    /** The super block at base has room and touches no block the pool has. */
    ghost predicate Fresh(base: nat, size: nat)
      reads this
    {
      base > 0 && forall x | x in owner :: x + minBlkSize <= base || base + size <= x
    }

    /**
     String the min blocks of a super block together, in batches, as far as the 32-bit count goes.
     All blocks are in whole batches exactly if the super block is shorter than 2^32 blocks.
     */
    method MakeFreeList(blk: SuperBlock) returns (head: nat, tail: nat, count: nat, ghost news: seq<seq<nat>>, ghost cur: seq<nat>)
      requires Options() && blk.buffer > 0 && blk.size > 0 && Multiple(blk.size, BatchBytes(minBlkSize, tcExpandBlkCnt))
      requires CountOf(blk.size, minBlkSize) + 1 < 0x1_0000_0000
      requires Clear(cells, blk.buffer, minBlkSize, 0, BlockCount(blk.size, minBlkSize))
      modifies this`cells
      ensures count == CountOf(blk.size, minBlkSize) && WritesOnly(old(cells), cells, Blocks(blk.buffer, minBlkSize, count))
      ensures Flat(news) + cur == Blocks(blk.buffer, minBlkSize, count) && |cur| == Mod(count, tcExpandBlkCnt)
      ensures forall i | 0 <= i < |news| :: |news[i]| == tcExpandBlkCnt
      ensures count > 0 ==>
                && Chain(cells, head, Flat(news) + cur) && AllBatches(cells, news) && Unfinished(cells, cur, tcExpandBlkCnt)
                && head == blk.buffer && tail == BlockAt(blk.buffer, minBlkSize, count - 1)
      ensures Flat(news) == Blocks(blk.buffer, minBlkSize, BlockCount(blk.size, minBlkSize)) <==> Countable(blk.size, minBlkSize)
    {
      hide Cutting, WritesOnly, ValidOptions, Multiple, Blocks, AllBatches, Chain, Flat, Mod, BlockCount, CountOf, Clear, Unfinished, Countable, BatchBytes;
      OptionFacts(superBlkSizeMB, minBlkSize, tcExpandBlkCnt);
      count := CountOf(blk.size, minBlkSize);
      CountNoMore(blk.size, minBlkSize);
      WholeSize(blk.size, minBlkSize, tcExpandBlkCnt);
      ghost var base, all, n := blk.buffer, Blocks(blk.buffer, minBlkSize, count), BlockCount(blk.size, minBlkSize);
      ClearPresent(cells, base, minBlkSize, count, n);
      var address := blk.buffer;
      head := address;
      var iter := head;
      var batchHeader: nat := 0;
      cur, news := [], [];
      ModNext(0, tcExpandBlkCnt);
      CutNone(cells, base, minBlkSize, batchHeader, tcExpandBlkCnt, all);
      for i := 1 to count + 1
        invariant address == BlockAt(base, minBlkSize, i - 1)
        invariant iter == if i <= count || count == 0 then address else BlockAt(base, minBlkSize, count - 1)
        invariant WritesOnly(old(cells), cells, all) && Clear(cells, base, minBlkSize, i - 1, n)
        invariant Cutting(cells, base, minBlkSize, i - 1, news, cur, batchHeader, tcExpandBlkCnt)
        invariant |cur| == Mod(i - 1, tcExpandBlkCnt)
      {
        var mod := Mod(i, tcExpandBlkCnt);
        ModNext(i - 1, tcExpandBlkCnt);
        BlockPresent(old(cells), cells, base, minBlkSize, count, i - 1);
        BlockClear(cells, base, minBlkSize, i - 1, n);
        HeaderPresent(old(cells), cells, base, minBlkSize, count, i - 1, news, cur, batchHeader, tcExpandBlkCnt);
        ghost var cells0, header0 := cells, batchHeader;
        if mod == 1 {
          batchHeader := iter;
        } else if mod == 0 && batchHeader != 0 {
          cells := cells[batchHeader := cells[batchHeader].(nextN := iter, count := tcExpandBlkCnt)];
          WroteIn(old(cells), cells0, cells, all, batchHeader);
        }
        ghost var cells1 := cells;
        address := address + minBlkSize;
        cells := cells[iter := cells[iter].(next := address)];
        WroteIn(old(cells), cells1, cells, all, iter);
        ClearBehind(cells0, cells, base, minBlkSize, i - 1, n, news, cur, header0, tcExpandBlkCnt);
        if mod == 0 {
          CutOff(cells0, base, minBlkSize, i - 1, news, cur, header0, tcExpandBlkCnt);
          news, cur := news + [cur + [iter]], [];
        } else {
          CutInto(cells0, base, minBlkSize, i - 1, news, cur, header0, tcExpandBlkCnt);
          cur := cur + [iter];
        }
        if i != count {
          iter := address;
        }
      }
      tail := iter;
      ghost var cells2 := cells;
      CutAll(cells, base, minBlkSize, count, n, news, cur, batchHeader, tcExpandBlkCnt);
      cells := cells[tail := MinBlock(0, 0, 0)];
      if count > 0 {
        BlockPresent(old(cells), cells2, base, minBlkSize, count, count - 1);
        WroteIn(old(cells), cells2, cells, all, tail);
      }
      AllExactly(base, minBlkSize, tcExpandBlkCnt, blk.size, Flat(news), cur);
    }

    /** Hang a run of batches in front of the shared list; nothing at all is refused. */
    method AttachToFreeList(head: nat, tail: nat, count: nat, ghost news: seq<seq<nat>>, ghost cur: seq<nat>) returns (ok: bool)
      requires SharedOk(cells, freeHead, freeCount, batches, rest, tcExpandBlkCnt) && NoRepeats(Flat(news) + cur + Queue(batches, rest))
      requires count == |Flat(news) + cur| && (cur != [] ==> batches == [] && rest == [])
      requires count > 0 ==>
                 && Chain(cells, head, Flat(news) + cur) && AllBatches(cells, news) && Unfinished(cells, cur, tcExpandBlkCnt)
                 && tail == (Flat(news) + cur)[count - 1]
      requires forall i | 0 <= i < |news| :: |news[i]| < 2 * tcExpandBlkCnt
      modifies this`cells, this`freeHead, this`freeCount, this`batches, this`rest
      ensures ok <==> count != 0
      ensures !ok ==> unchanged(this)
      ensures ok ==>
                && batches == news + old(batches) && rest == (if cur == [] then old(rest) else cur)
                && SharedOk(cells, freeHead, freeCount, batches, rest, tcExpandBlkCnt)
                && Queue(batches, rest) == Flat(news) + cur + Queue(old(batches), old(rest))
                && WritesOnly(old(cells), cells, Flat(news) + cur) && freeCount == old(freeCount) + count
    {
      hide Flat, NoRepeats, Chain, Queue, Unfinished;
      if count == 0 {
        return false;
      }
      ghost var s, q := Flat(news) + cur, Queue(batches, rest);
      TailPresent(cells, head, s);
      cells := cells[tail := cells[tail].(next := freeHead)];
      ChainJoin(old(cells), cells, head, s, freeHead, q);
      QueueAttached(news, cur, batches, rest);
      QueueFrame(old(cells), cells, batches, rest, tcExpandBlkCnt);
      BatchesFrame(old(cells), cells, news);
      UnfinishedFrame(old(cells), cells, cur, tcExpandBlkCnt);
      freeHead := head;
      freeCount := freeCount + count;
      batches := news + batches;
      rest := if cur == [] then rest else cur;
      ok := true;
    }

    /**
     One more super block from the system, as large as all before it together, for an empty shared
     list. Its blocks are all shared, in whole batches, exactly if it is shorter than 2^32 blocks.
     */
    method ExpandFromOs(mem: nat) returns (r: PoolResult)
      requires Valid() && freeCount == 0 && (mem != 0 ==> Fresh(mem, ExpandSize()))
      modifies this`cells, this`freeHead, this`freeCount, this`batches, this`rest, this`owner, this`superBlocks, this`totalSuperBlkSize
      ensures Valid() && lists == old(lists)
      ensures r == MallocFailed <==> mem == 0
      ensures r == MallocFailed ==> unchanged(this)
      ensures r == InvalidParam <==> mem != 0 && CountOf(old(ExpandSize()), minBlkSize) == 0
      ensures r == Ok <==> mem != 0 && CountOf(old(ExpandSize()), minBlkSize) > 0
      ensures mem != 0 ==>
                && totalSuperBlkSize == old(totalSuperBlkSize) + old(ExpandSize())
                && totalSuperBlkSize == (if old(totalSuperBlkSize) == 0 then superBlkSizeMB * 1024 * 1024 else 2 * old(totalSuperBlkSize))
                && superBlocks == old(superBlocks) + [SuperBlock(mem, totalSuperBlkSize - old(totalSuperBlkSize))]
      ensures r == InvalidParam ==> owner == old(owner) && freeCount == 0
      ensures r == Ok ==> Expanded(old(ExpandSize()), mem, minBlkSize, tcExpandBlkCnt, old(owner), owner, freeCount, batches, rest)
    {
      hide SharedOk, CachesOk, OwnersOk, Backed, Bounded, Flat, NoRepeats, Chain, AllBatches, ValidOptions, Multiple, Blocks,
           BlockCount, WritesOnly, Untouched, BatchBytes, Zeroed, CountOf, Mod, Queue, Doubled, Clear, Unfinished, FirstSize, Countable, Expanded;
      var superBlkSize := ExpandSize();
      FirstBytes(superBlkSizeMB);
      if mem == 0 {
        return MallocFailed;
      }
      ExpandFacts(superBlkSizeMB, minBlkSize, tcExpandBlkCnt, totalSuperBlkSize, superBlkSize);
      NothingShared(cells, freeHead, freeCount, batches, rest, tcExpandBlkCnt);
      var head, tail, count, news, cur := StringNew(mem, superBlkSize);
      ghost var some, cells2 := Flat(news) + cur, cells;
      var ok := AttachToFreeList(head, tail, count, news, cur);
      if !ok {
        return InvalidParam;
      }
      FromOs(owner, [], lists, some);
      CachesFrameNew(cells2, cells, caches, lists, owner, [], some);
      owner := owner + map x | x in some :: Shared;
      BackedNew(cells2, cells, old(owner), some, owner);
      Attached(superBlkSize, mem, minBlkSize, tcExpandBlkCnt, old(owner), owner, news, cur, batches, rest);
      r := Ok;
    }

    /** Take the memory of a super block, clear it and string its blocks together; the lists stay as they are. */
    method StringNew(mem: nat, superBlkSize: nat) returns (head: nat, tail: nat, count: nat, ghost news: seq<seq<nat>>, ghost cur: seq<nat>)
      requires Linked() && mem > 0 && Fresh(mem, superBlkSize) && minBlkSize > 0 && tcExpandBlkCnt > 1 && Queue(batches, rest) == []
      requires superBlkSize > 0 && Multiple(superBlkSize, BatchBytes(minBlkSize, tcExpandBlkCnt))
      requires BlockCount(superBlkSize, minBlkSize) * minBlkSize == superBlkSize && CountOf(superBlkSize, minBlkSize) + 1 < 0x1_0000_0000
      modifies this`cells, this`superBlocks, this`totalSuperBlkSize
      ensures Linked() && totalSuperBlkSize == old(totalSuperBlkSize) + superBlkSize && count == CountOf(superBlkSize, minBlkSize)
      ensures superBlocks == old(superBlocks) + [SuperBlock(mem, superBlkSize)]
      ensures Flat(news) + cur == Blocks(mem, minBlkSize, count) && |cur| == Mod(count, tcExpandBlkCnt) && |Flat(news) + cur| == count
      ensures forall i | 0 <= i < |news| :: |news[i]| == tcExpandBlkCnt
      ensures count > 0 ==>
                && Chain(cells, head, Flat(news) + cur) && AllBatches(cells, news) && Unfinished(cells, cur, tcExpandBlkCnt)
                && tail == (Flat(news) + cur)[count - 1]
      ensures NoRepeats(Flat(news) + cur) && Flat(news) + cur + [] == Flat(news) + cur
      ensures forall x | x in Flat(news) + cur :: x !in owner && x > 0 && x in cells
      ensures Flat(news) == Blocks(mem, minBlkSize, BlockCount(superBlkSize, minBlkSize)) <==> Countable(superBlkSize, minBlkSize)
    {
      hide SharedOk, CachesOk, OwnersOk, Backed, Flat, NoRepeats, Chain, AllBatches, ValidOptions, Multiple, Blocks,
           BlockCount, WritesOnly, Untouched, BatchBytes, Zeroed, CountOf, Mod, Queue, Clear, Unfinished, Countable;
      ghost var n := BlockCount(superBlkSize, minBlkSize);
      ghost var all, cells0 := Blocks(mem, minBlkSize, n), cells;
      NewBlocks(owner, mem, minBlkSize, superBlkSize, Queue(batches, rest), lists);
      var blk := SuperBlock(mem, superBlkSize);
      superBlocks := superBlocks + [blk];
      totalSuperBlkSize := totalSuperBlkSize + superBlkSize;
      cells := Zeroed(cells, mem, minBlkSize, BlockCount(superBlkSize, minBlkSize));
      ghost var cells1 := cells;
      ZeroedNew(cells0, mem, minBlkSize, n);
      head, tail, count, news, cur := MakeFreeList(blk);
      ghost var some := Flat(news) + cur;
      CountNoMore(superBlkSize, minBlkSize);
      SomeOfAll(mem, minBlkSize, superBlkSize, owner);
      StillUntouched(cells0, cells1, cells, all, some, owner);
      AllKept(cells0, cells, freeHead, freeCount, batches, rest, tcExpandBlkCnt, caches, lists, owner);
      FirstsAndLast(some, mem, minBlkSize, count);
      ClearPresent(cells1, mem, minBlkSize, count, n);
      WroteKeys(cells1, cells, some);
    }

    function ExpandSize(): (n: nat)
      reads this
    {
      if totalSuperBlkSize == 0 then FirstSize(superBlkSizeMB) else totalSuperBlkSize
    }

    constructor (superBlkSizeMB: nat, minBlkSize: nat, tcExpandBlkCnt: nat)
      ensures this.superBlkSizeMB == superBlkSizeMB && this.minBlkSize == minBlkSize && this.tcExpandBlkCnt == tcExpandBlkCnt
      ensures !inited && (Options() ==> Valid()) && owner == map[] && caches == map[] && freeCount == totalSuperBlkSize == 0
    {
      this.superBlkSizeMB, this.minBlkSize, this.tcExpandBlkCnt := superBlkSizeMB, minBlkSize, tcExpandBlkCnt;
      cells, freeHead, freeCount, superBlocks, totalSuperBlkSize, inited, caches := map[], 0, 0, [], 0, false, map[];
      batches, rest, lists, owner := [], [], map[], map[];
      new;
      if Options() { OptionFacts(superBlkSizeMB, minBlkSize, tcExpandBlkCnt); }
    }

    /** Check the options and take the first super block. */
    method Initialize(mem: nat) returns (ok: bool)
      requires inited || Options() ==> Valid()
      requires Options() && !inited ==> freeCount == 0 && totalSuperBlkSize == 0 && (mem != 0 ==> Fresh(mem, ExpandSize()))
      modifies this
      ensures ok <==> old(inited) || (Options() && mem != 0)
      ensures Options() <==>
                && 0 < superBlkSizeMB <= 256 && 8 <= tcExpandBlkCnt <= 256 && minBlkSize >= 24
                && minBlkSize * tcExpandBlkCnt * 16 / 1024 / 1024 <= superBlkSizeMB
                && superBlkSizeMB * 1024 * 1024 % (minBlkSize * tcExpandBlkCnt) == 0
      ensures ok ==> Valid() && inited
      ensures !ok ==> unchanged(this)
    {
      hide ValidOptions, SharedOk, CachesOk, OwnersOk, Backed, Bounded, Doubled, CountOf, BlockCount, Mod, Blocks, Queue, FirstSize, Expanded;
      OptionsAre(superBlkSizeMB, minBlkSize, tcExpandBlkCnt);
      if inited {
        return true;
      }
      if !ValidOptions(superBlkSizeMB, minBlkSize, tcExpandBlkCnt) {
        return false;
      }
      FirstCount(superBlkSizeMB, minBlkSize, tcExpandBlkCnt);
      var r := ExpandFromOs(mem);
      if r != Ok {
        return false;
      }
      inited := true;
      ok := true;
    }

    /**
     Move the first batch of the shared list to a cache whose list is empty, after one more super
     block if the shared list is empty too. Where only an unfinished batch is left the code
     follows its null pointer.
     */
    method TCAlloc(c: nat, mem: nat) returns (r: PoolResult)
      requires Valid() && c in caches && caches[c].head == 0
      requires freeCount == 0 && mem != 0 ==> Fresh(mem, ExpandSize())
      modifies this
      ensures Valid() && inited == old(inited) && caches.Keys == old(caches.Keys)
      ensures r == MallocFailed <==> old(freeCount) == 0 && mem == 0
      ensures r == InvalidParam <==> old(freeCount) == 0 && mem != 0 && CountOf(old(ExpandSize()), minBlkSize) == 0
      ensures r == NullDereference <==>
                if old(freeCount) == 0 then mem != 0 && 0 < CountOf(old(ExpandSize()), minBlkSize) < tcExpandBlkCnt
                else old(freeHead) in old(cells) && old(cells)[old(freeHead)].nextN == 0
      ensures r == Ok <==>
                if old(freeCount) == 0 then mem != 0 && CountOf(old(ExpandSize()), minBlkSize) >= tcExpandBlkCnt
                else old(freeHead) in old(cells) && old(cells)[old(freeHead)].nextN != 0
      ensures totalSuperBlkSize ==
              if old(freeCount) > 0 || mem == 0 then old(totalSuperBlkSize)
              else if old(totalSuperBlkSize) == 0 then superBlkSizeMB * 1024 * 1024
              else 2 * old(totalSuperBlkSize)
      ensures r == Ok && old(freeCount) == 0 ==>
                forall x | x in lists[c] :: mem <= x && x + minBlkSize <= mem + totalSuperBlkSize - old(totalSuperBlkSize)
      ensures r != Ok ==> caches == old(caches) && lists == old(lists) && Unmoved(old(owner), owner)
      ensures r == Ok ==>
                && caches == old(caches)[c := caches[c]] && lists == old(lists)[c := lists[c]]
                && lists[c] != [] && (forall x | x in lists[c] :: x in old(owner) ==> old(owner)[x] == Shared)
                && (forall x | x in old(owner) :: x in owner && owner[x] == if x in lists[c] then InCache(c) else old(owner)[x])
                && (forall x | x in owner && x !in old(owner) :: owner[x] == if x in lists[c] then InCache(c) else Shared)
                && caches[c].head in cells && cells[caches[c].head].count == |lists[c]|
    {
      hide SharedOk, CachesOk, OwnersOk, Backed, Bounded, Flat, NoRepeats, Chain, AllBatches, ValidOptions, Doubled, Blocks,
           BlockCount, WritesOnly, CutOffFirst, CountOf, Mod, Queue, FirstSize;
      if freeCount == 0 {
        NothingShared(cells, freeHead, freeCount, batches, rest, tcExpandBlkCnt);
        OptionFacts(superBlkSizeMB, minBlkSize, tcExpandBlkCnt);
        ghost var size := ExpandSize();
        r := ExpandFromOs(mem);
        if r != Ok {
          return;
        }
        SharedInside(old(owner), owner, lists, size, mem, minBlkSize, tcExpandBlkCnt, freeCount, batches, rest);
      }
      FirstBatch(cells, freeHead, freeCount, batches, rest, tcExpandBlkCnt);
      r := TakeFirst(c);
    }

    /** The step of TCAlloc under the lock, when the shared list is not empty. */
    method TakeFirst(c: nat) returns (r: PoolResult)
      requires Valid() && freeCount > 0 && c in caches && caches[c].head == 0
      modifies this`cells, this`freeHead, this`freeCount, this`batches, this`caches, this`lists, this`owner
      ensures Valid() && caches.Keys == old(caches.Keys)
      ensures r == if old(batches) == [] then NullDereference else Ok
      ensures r != Ok ==> unchanged(this)
      ensures r == Ok ==>
                && caches == old(caches)[c := caches[c]] && lists == old(lists)[c := lists[c]]
                && lists[c] != [] && owner == Give(old(owner), lists[c], InCache(c))
                && (forall x | x in lists[c] :: x in old(owner) && old(owner)[x] == Shared)
                && caches[c].head in cells && cells[caches[c].head].count == |lists[c]|
    {
      hide SharedOk, CachesOk, OwnersOk, Backed, Flat, NoRepeats, Chain, AllBatches, ValidOptions, Doubled, WritesOnly, Queue;
      EmptyCache(cells, caches, lists, owner, Queue(batches, rest), c);
      FirstBatch(cells, freeHead, freeCount, batches, rest, tcExpandBlkCnt);
      if cells[freeHead].nextN == 0 {
        return NullDereference;
      }
      FirstTaken(cells, freeHead, freeCount, batches, rest, tcExpandBlkCnt);
      ghost var b, more := batches[0], batches[1..];
      var head := freeHead;
      var last := cells[head].nextN;
      freeCount := freeCount - cells[head].count;
      freeHead := cells[last].next;
      cells := cells[last := cells[last].(next := 0)];
      caches := caches[c := TCache(head, cells[head].count)];
      SharedMembers(owner, b, Queue(more, rest), lists);
      CachesKept(old(cells), cells, old(caches), lists, c, caches[c], b, b);
      ToCache(owner, b, Queue(more, rest), lists, c);
      BackedKept(old(cells), cells, owner, b, InCache(c));
      owner := Give(owner, b, InCache(c));
      batches, lists := more, lists[c := b];
      r := Ok;
    }

    /** A new thread cache starts empty. */
    method AddCache(c: nat)
      requires Valid() && c !in caches
      modifies this`caches, this`lists
      ensures Valid() && c in caches && lists == old(lists)[c := []]
    {
      hide SharedOk, Flat, ValidOptions, Doubled, OwnersOk;
      OptionFacts(superBlkSizeMB, minBlkSize, tcExpandBlkCnt);
      CachesKept(cells, cells, caches, lists, c, TCache(0, 0), [], []);
      NewCache(owner, Queue(batches, rest), lists, c);
      caches, lists := caches[c := TCache(0, 0)], lists[c := []];
    }

    /** Take the first block of a cache's list. */
    method Pop(c: nat) returns (v: nat)
      requires Valid() && c in caches && caches[c].head != 0
      modifies this`caches, this`lists, this`owner
      ensures Valid() && caches.Keys == old(caches.Keys)
      ensures old(lists)[c] != [] && v == old(lists)[c][0] && v != 0 && lists == old(lists)[c := old(lists)[c][1..]]
      ensures v in old(owner) && old(owner)[v] == InCache(c) && owner == old(owner)[v := User]
    {
      hide SharedOk, OwnersOk, Flat, NoRepeats, Chain, ValidOptions, Doubled, CachesOk;
      EmptyCache(cells, caches, lists, owner, Queue(batches, rest), c);
      ghost var s := lists[c];
      ChainPop(cells, caches[c].head, s);
      HeadFirst(cells, caches[c].head, s);
      v := caches[c].head;
      ghost var cache' := TCache(cells[v].next, caches[c].currentFree - 1);
      CachesKept(cells, cells, caches, lists, c, cache', s[1..], []);
      caches := caches[c := TCache(cells[v].next, caches[c].currentFree - 1)];
      assert s == [v] + s[1..];
      ToUser(owner, Queue(batches, rest), lists, c, v, s[1..]);
      owner, lists := owner[v := User], lists[c := s[1..]];
    }

    /** Allocate a block through a cache: a block that no user had, and nobody else's changes hands. */
    method Allocate(c: nat, mem: nat) returns (r: PoolResult, v: nat)
      requires Valid() && c in caches
      requires caches[c].head == 0 && freeCount == 0 && mem != 0 ==> Fresh(mem, ExpandSize())
      modifies this
      ensures Valid() && caches.Keys == old(caches.Keys) && (v != 0 <==> r == Ok)
      ensures r == MallocFailed <==> old(caches)[c].head == 0 && old(freeCount) == 0 && mem == 0
      ensures r == InvalidParam <==>
                old(caches)[c].head == 0 && old(freeCount) == 0 && mem != 0 && CountOf(old(ExpandSize()), minBlkSize) == 0
      ensures r == NullDereference <==>
                && old(caches)[c].head == 0
                && if old(freeCount) == 0 then mem != 0 && 0 < CountOf(old(ExpandSize()), minBlkSize) < tcExpandBlkCnt
                   else old(freeHead) in old(cells) && old(cells)[old(freeHead)].nextN == 0
      ensures r == Ok <==>
                || old(caches)[c].head != 0
                || if old(freeCount) == 0 then mem != 0 && CountOf(old(ExpandSize()), minBlkSize) >= tcExpandBlkCnt
                   else old(freeHead) in old(cells) && old(cells)[old(freeHead)].nextN != 0
      ensures totalSuperBlkSize ==
              if old(caches)[c].head != 0 || old(freeCount) > 0 || mem == 0 then old(totalSuperBlkSize)
              else if old(totalSuperBlkSize) == 0 then superBlkSizeMB * 1024 * 1024
              else 2 * old(totalSuperBlkSize)
      ensures r == Ok && old(caches)[c].head == 0 && old(freeCount) == 0 ==>
                mem <= v && v + minBlkSize <= mem + totalSuperBlkSize - old(totalSuperBlkSize)
      ensures r == Ok ==> v in owner && owner[v] == User && (v in old(owner) ==> old(owner)[v] != User)
      ensures old(owner.Keys) <= owner.Keys && forall x | x in owner && x != v :: owner[x] == User <==> x in old(owner) && old(owner)[x] == User
      ensures forall d | d in lists && d != c :: lists[d] == old(lists)[d]
    {
      hide SharedOk, CachesOk, OwnersOk, Backed, Bounded, ValidOptions, Doubled, CountOf, FirstSize, Queue;
      EmptyCache(cells, caches, lists, owner, Queue(batches, rest), c);
      ZeroUnowned(cells, owner);
      if caches[c].head != 0 {
        v := Pop(c);
        return Ok, v;
      }
      r := TCAlloc(c, mem);
      ZeroUnowned(cells, owner);
      if r != Ok {
        return r, 0;
      }
      EmptyCache(cells, caches, lists, owner, Queue(batches, rest), c);
      v := Pop(c);
    }

    /** Give the first n blocks of a cache's list to the shared list as one batch. */
    method ReturnBatch(c: nat, n: nat)
      requires Linked() && c in caches && 0 < n < 2 * tcExpandBlkCnt && n <= |lists[c]|
      modifies this`cells, this`freeHead, this`freeCount, this`batches, this`rest, this`caches, this`lists, this`owner
      ensures Linked() && caches.Keys == old(caches.Keys) && batches == [old(lists)[c][..n]] + old(batches)
      ensures lists == old(lists)[c := old(lists)[c][n..]] && owner == Give(old(owner), old(lists)[c][..n], Shared)
      ensures freeCount == old(freeCount) + n
    {
      hide SharedOk, OwnersOk, Flat, NoRepeats, Chain, ValidOptions, CachesOk, Backed, WritesOnly, AllBatches, Batch, Queue, Give;
      EmptyCache(cells, caches, lists, owner, Queue(batches, rest), c);
      ghost var s, t := lists[c][..n], lists[c][n..];
      assert lists[c] == s + t && s[n - 1] == lists[c][n - 1];
      var head := caches[c].head;
      DetachOk(cells, head, s, t);
      HeadFirst(cells, head, s + t);
      var last := Walk(cells, head, n - 1, s + t);
      cells := cells[head := cells[head].(nextN := last)];
      var behind := cells[last].next;
      RestKept(old(cells), head, last);
      cells := cells[last := cells[last].(next := 0)];
      cells := cells[head := cells[head].(count := n)];
      CacheMembers(owner, Queue(batches, rest), lists, c, s, t);
      CachesKept(old(cells), cells, old(caches), lists, c, TCache(behind, |t|), t, s);
      SharedKept(old(cells), cells, freeHead, freeCount, batches, rest, tcExpandBlkCnt, s);
      caches := caches[c := TCache(behind, caches[c].currentFree - n)];
      ToShared(owner, Queue(batches, rest), lists, c, s, t);
      BackedKept(old(cells), cells, owner, s, Shared);
      ghost var cells1 := cells;
      OneBatch(cells, s);
      assert Flat([s]) + [] == s;
      var ok := AttachToFreeList(head, cells[head].nextN, cells[head].count, [s], []);
      owner, lists := Give(owner, s, Shared), lists[c := t];
      CachesAfter(cells1, cells, caches, lists, owner, Queue(batches, rest), s);
      WroteKeys(cells1, cells, s);
      BackedSameKeys(cells1, cells, owner);
    }

    /** Put a user's block in front of a cache's list. */
    method Push(c: nat, v: nat)
      requires Linked() && c in caches && v in owner && owner[v] == User
      modifies this`cells, this`caches, this`lists, this`owner
      ensures Linked() && caches.Keys == old(caches.Keys)
      ensures lists == old(lists)[c := [v] + old(lists)[c]] && owner == old(owner)[v := InCache(c)]
      ensures c in caches && caches[c].currentFree == |lists[c]|
    {
      hide SharedOk, OwnersOk, Flat, NoRepeats, Chain, ValidOptions, CachesOk, WritesOnly;
      EmptyCache(cells, caches, lists, owner, Queue(batches, rest), c);
      FromUser(owner, Queue(batches, rest), lists, c, v);
      cells := cells[v := cells[v].(next := caches[c].head)];
      OneWritten(old(cells), v, cells[v]);
      ChainPush(old(cells), cells, caches[c].head, lists[c], v);
      CachesKept(old(cells), cells, caches, lists, c, TCache(v, caches[c].currentFree + 1), [v] + lists[c], [v]);
      SharedKept(old(cells), cells, freeHead, freeCount, batches, rest, tcExpandBlkCnt, [v]);
      caches := caches[c := TCache(v, caches[c].currentFree + 1)];
      owner, lists := owner[v := InCache(c)], lists[c := [v] + lists[c]];
    }

    /** Free a block through a cache; a cache that has reached twice its step returns one batch. */
    method Free(c: nat, v: nat)
      requires Valid() && c in caches && (v != 0 ==> v in owner && owner[v] == User)
      modifies this`cells, this`freeHead, this`freeCount, this`batches, this`rest, this`caches, this`lists, this`owner
      ensures Valid() && caches.Keys == old(caches.Keys) && owner.Keys == old(owner.Keys)
      ensures v == 0 ==> unchanged(this)
      ensures forall x | x in owner :: owner[x] == User <==> x != v && old(owner)[x] == User
      ensures forall d | d in lists && d != c :: lists[d] == old(lists)[d]
      ensures v != 0 && |old(lists)[c]| + 1 < 2 * tcExpandBlkCnt ==> lists[c] == [v] + old(lists)[c] && freeCount == old(freeCount)
      ensures v != 0 && |old(lists)[c]| + 1 == 2 * tcExpandBlkCnt ==>
                |lists[c]| == tcExpandBlkCnt && freeCount == old(freeCount) + tcExpandBlkCnt
    {
      hide SharedOk, CachesOk, OwnersOk, Backed, ValidOptions, Doubled, Chain, NoRepeats, Flat;
      UsersOnly(owner, Queue(batches, rest), lists);
      if v == 0 {
        ZeroUnowned(cells, owner);
        return;
      }
      OptionFacts(superBlkSizeMB, minBlkSize, tcExpandBlkCnt);
      EmptyCache(cells, caches, lists, owner, Queue(batches, rest), c);
      Push(c, v);
      if caches[c].currentFree / 2 < tcExpandBlkCnt {
        assert Bounded(lists, tcExpandBlkCnt);
        return;
      }
      UsersOnly(owner, Queue(batches, rest), lists);
      ghost var s, owner1 := lists[c][..tcExpandBlkCnt], owner;
      assert forall x | x in s :: x in lists[c];
      ReturnBatch(c, tcExpandBlkCnt);
      assert forall d | d in lists && d != c :: lists[d] == old(lists)[d];
      assert Bounded(lists, tcExpandBlkCnt);
    }

    /** Give all blocks of a cache back, when its thread ends. */
    method FreeAllToPool(c: nat)
      requires Valid() && c in caches
      modifies this`cells, this`freeHead, this`freeCount, this`batches, this`rest, this`caches, this`lists, this`owner
      ensures Valid() && caches.Keys == old(caches.Keys) && lists == old(lists)[c := []]
      ensures freeCount == old(freeCount) + |old(lists)[c]|
      ensures owner == Give(old(owner), old(lists)[c], Shared)
    {
      hide SharedOk, CachesOk, OwnersOk, Backed, ValidOptions, Doubled, Chain;
      EmptyCache(cells, caches, lists, owner, Queue(batches, rest), c);
      if caches[c].currentFree == 0 {
        assert lists == lists[c := []];
        return;
      }
      ghost var s := lists[c];
      ReturnBatch(c, caches[c].currentFree);
      assert s[..|s|] == s && s[|s|..] == [];
    }

    /** A user writes what it likes into its own block. */
    method UserWrite(v: nat, k: MinBlock)
      requires Valid() && v in owner && owner[v] == User
      modifies this`cells
      ensures Valid() && cells == old(cells)[v := k]
    {
      hide SharedOk, CachesOk, Flat, ValidOptions, Doubled, NoRepeats;
      cells := cells[v := k];
      OneWritten(old(cells), v, k);
      UsersOnly(owner, Queue(batches, rest), lists);
      CachesFrame(old(cells), cells, caches, lists, [v]);
      SharedKept(old(cells), cells, freeHead, freeCount, batches, rest, tcExpandBlkCnt, [v]);
    }
  }

  /** A user's block is in no list. */
  lemma UsersOnly(owner: Owners, flat: seq<nat>, lists: Lists)
    requires OwnersOk(owner, flat, lists)
    ensures forall x | x in owner && owner[x] == User :: x !in flat && forall d | d in lists :: x !in lists[d]
    ensures forall d | d in lists :: forall x | x in lists[d] :: x in owner && owner[x] == InCache(d)
  {
    hide NoRepeats;
  }

  lemma ZeroUnowned(cells: Cells, owner: Owners)
    requires Backed(cells, owner)
    ensures 0 !in owner
  {
  }

  lemma RestKept(cells: Cells, head: nat, last: nat)
    requires head in cells && last in cells
    ensures cells[head := cells[head].(nextN := last)][last].next == cells[last].next
  {
  }

  lemma OneBatch(cells: Cells, s: seq<nat>)
    requires Batch(cells, s)
    ensures Flat([s]) == s && AllBatches(cells, [s]) && s != [] && s[0] in cells
    ensures cells[s[0]].nextN == s[|s| - 1] && cells[s[0]].count == |s|
  {
    FlatOne(s);
  }

  /** Blocks at the front of one cache's list are in no other list. */
  lemma CacheMembers(owner: Owners, flat: seq<nat>, lists: Lists, c: nat, s: seq<nat>, t: seq<nat>)
    requires OwnersOk(owner, flat, lists) && c in lists && lists[c] == s + t
    ensures forall x | x in s :: x !in flat
    ensures forall d | d in lists && d != c :: forall x | x in s :: x !in lists[d]
  {
    hide NoRepeats;
    assert forall x | x in s :: x in lists[c];
  }

  lemma CachesAfter(cells: Cells, cells': Cells, caches: map<nat, TCache>, lists: Lists, owner: Owners, flat: seq<nat>, s: seq<nat>)
    requires CachesOk(cells, caches, lists) && WritesOnly(cells, cells', s) && OwnersOk(owner, flat, lists)
    requires forall x | x in s :: x in flat
    ensures CachesOk(cells', caches, lists)
  {
    hide NoRepeats, CachesOk, WritesOnly;
    CachesFrame(cells, cells', caches, lists, s);
  }

  lemma WroteKeys(cells: Cells, cells': Cells, s: seq<nat>)
    requires WritesOnly(cells, cells', s)
    ensures cells'.Keys == cells.Keys
  {
  }

  lemma BackedSameKeys(cells: Cells, cells': Cells, owner: Owners)
    requires Backed(cells, owner) && cells'.Keys == cells.Keys
    ensures Backed(cells', owner)
  {
  }

  /**
   The shared list after an expansion from nothing: the blocks counted, in batches and perhaps an
   unfinished one; all of the super block's exactly if it is shorter than 2^32 blocks.
   */
  ghost predicate Expanded(size: nat, mem: nat, unit: nat, steps: nat, owner: Owners, owner': Owners,
                           freeCount: nat, batches: seq<seq<nat>>, rest: seq<nat>) {
    && unit > 0 && steps > 0 && freeCount == CountOf(size, unit) && |rest| == Mod(freeCount, steps)
    && (batches == [] <==> freeCount < steps)
    && owner'.Keys == owner.Keys + (set x | x in Blocks(mem, unit, freeCount)) && Unmoved(owner, owner')
    && (Flat(batches) == Blocks(mem, unit, BlockCount(size, unit)) <==> Countable(size, unit))
  }

  /** No block changed hands; new ones are shared. */
  ghost predicate Unmoved(owner: Owners, owner': Owners) {
    && (forall x | x in owner :: x in owner' && owner'[x] == owner[x])
    && (forall x | x in owner' && x !in owner :: owner'[x] == Shared)
  }

  /** After an expansion from nothing every shared block lies inside the new super block. */
  lemma SharedInside(owner: Owners, owner': Owners, lists: Lists, size: nat, mem: nat, unit: nat, steps: nat,
                     freeCount: nat, batches: seq<seq<nat>>, rest: seq<nat>)
    requires OwnersOk(owner, [], lists) && Expanded(size, mem, unit, steps, owner, owner', freeCount, batches, rest)
    ensures forall x | x in owner' && owner'[x] == Shared :: mem <= x && x + unit <= mem + size
  {
    hide Mod, Flat, CountOf, BlockCount, Blocks, Countable;
    forall x | x in owner' && owner'[x] == Shared
      ensures mem <= x && x + unit <= mem + size
    {
      assert x !in [];
      BlockInside(mem, unit, freeCount, x);
      CountedInside(size, mem, unit);
    }
  }

  lemma CountedInside(size: nat, mem: nat, unit: nat)
    requires unit > 0
    ensures BlockAt(mem, unit, CountOf(size, unit)) <= mem + size
  {
    var n, q := CountOf(size, unit), size / unit;
    CountNoMore(size, unit);
    BlockAtValue(mem, unit, n);
    MulMonotone(n, q, unit);
    assert q * unit <= size;
  }

  lemma HeadFirst(cells: Cells, head: nat, s: seq<nat>)
    requires Chain(cells, head, s) && s != []
    ensures head == s[0] && head != 0 && head in cells
  {
  }

  /** A cache with no first block has no blocks. */
  lemma EmptyCache(cells: Cells, caches: map<nat, TCache>, lists: Lists, owner: Owners, flat: seq<nat>, c: nat)
    requires CachesOk(cells, caches, lists) && OwnersOk(owner, flat, lists) && c in caches
    ensures c in lists && NoRepeats(flat) && (caches[c].head == 0 <==> lists[c] == []) && CacheOk(cells, caches[c], lists[c])
    ensures NoRepeats(lists[c])
  {
    assert CacheOk(cells, caches[c], lists[c]);
    if lists[c] != [] { assert lists[c][0] != 0; }
  }

  /** Blocks at the front of the shared list are in no cache. */
  lemma SharedMembers(owner: Owners, s: seq<nat>, t: seq<nat>, lists: Lists)
    requires OwnersOk(owner, s + t, lists)
    ensures forall x | x in s :: x in owner && owner[x] == Shared
    ensures forall d | d in lists :: forall x | x in s :: x !in lists[d]
  {
    hide NoRepeats;
    assert forall x | x in s :: x in s + t;
  }

  lemma TailPresent(cells: Cells, head: nat, s: seq<nat>)
    requires Chain(cells, head, s) && s != []
    ensures s[|s| - 1] in cells && s[|s| - 1] in s
  {
  }

  lemma ExpandFacts(superBlkSizeMB: nat, minBlkSize: nat, tcExpandBlkCnt: nat, total: nat, size: nat)
    requires ValidOptions(superBlkSizeMB, minBlkSize, tcExpandBlkCnt) && Doubled(superBlkSizeMB, total)
    requires size == if total == 0 then FirstSize(superBlkSizeMB) else total
    ensures size > 0 && Multiple(size, BatchBytes(minBlkSize, tcExpandBlkCnt)) && Doubled(superBlkSizeMB, total + size)
    ensures minBlkSize >= 24 && 8 <= tcExpandBlkCnt <= 256
    ensures BlockCount(size, minBlkSize) * minBlkSize == size && BlockCount(size, minBlkSize) > 0
    ensures CountOf(size, minBlkSize) + 1 < 0x1_0000_0000
  {
    hide ValidOptions, FirstSize, BlockCount, CountOf, Multiple, BatchBytes;
    OptionFacts(superBlkSizeMB, minBlkSize, tcExpandBlkCnt);
    FirstFacts(superBlkSizeMB, minBlkSize, tcExpandBlkCnt);
    var first, batch := FirstSize(superBlkSizeMB), BatchBytes(minBlkSize, tcExpandBlkCnt);
    assert first == first * B.Pow2(0) by { assert B.Pow2(0) == 1; }
    var k: nat :| size == first * B.Pow2(k);
    NextDoubled(superBlkSizeMB, total, size, k);
    MulAtLeast(B.Pow2(k), first);
    assert first * B.Pow2(k) == B.Pow2(k) * first;
    MultipleProduct(first, B.Pow2(k), batch);
    WholeSize(size, minBlkSize, tcExpandBlkCnt);
    NeverLast(superBlkSizeMB, minBlkSize, tcExpandBlkCnt, size, k);
  }

  lemma NextDoubled(superBlkSizeMB: nat, total: nat, size: nat, k: nat)
    requires size == FirstSize(superBlkSizeMB) * B.Pow2(k) && (total == 0 || total == size)
    ensures Doubled(superBlkSizeMB, total + size)
  {
    if total != 0 { assert total + size == FirstSize(superBlkSizeMB) * B.Pow2(k + 1); }
  }

  lemma MultipleProduct(n: nat, q: nat, unit: nat)
    requires unit > 0 && Multiple(n, unit)
    ensures Multiple(n * q, unit)
  {
    MultipleTimes(n, unit);
    assert n * q == (n / unit * q) * unit;
    TimesMultiple(n / unit * q, unit);
  }

  lemma WholeSize(size: nat, unit: nat, steps: nat)
    requires size > 0 && unit > 0 && steps > 0 && Multiple(size, BatchBytes(unit, steps))
    ensures Mod(BlockCount(size, unit), steps) == 0 && BlockCount(size, unit) * unit == size && BlockCount(size, unit) > 0
  {
    WholeBatches(size, unit, steps);
  }

  lemma FirstFacts(superBlkSizeMB: nat, minBlkSize: nat, tcExpandBlkCnt: nat)
    requires ValidOptions(superBlkSizeMB, minBlkSize, tcExpandBlkCnt)
    ensures 0 < FirstSize(superBlkSizeMB) <= 0x1000_0000 && Multiple(FirstSize(superBlkSizeMB), BatchBytes(minBlkSize, tcExpandBlkCnt))
  {
  }

  /** The count of a first size doubled k times is the first count doubled, in 32 bits. */
  lemma NeverLast(superBlkSizeMB: nat, minBlkSize: nat, tcExpandBlkCnt: nat, size: nat, k: nat)
    requires ValidOptions(superBlkSizeMB, minBlkSize, tcExpandBlkCnt) && size == FirstSize(superBlkSizeMB) * B.Pow2(k)
    ensures minBlkSize > 0 && CountOf(size, minBlkSize) + 1 < 0x1_0000_0000
  {
    hide ValidOptions, FirstSize, BlockCount, Multiple, BatchBytes;
    OptionFacts(superBlkSizeMB, minBlkSize, tcExpandBlkCnt);
    FirstFacts(superBlkSizeMB, minBlkSize, tcExpandBlkCnt);
    var first := FirstSize(superBlkSizeMB);
    WholeSize(first, minBlkSize, tcExpandBlkCnt);
    var n := BlockCount(first, minBlkSize);
    CountDoubled(first, minBlkSize, n, B.Pow2(k));
    if k == 0 {
      assert B.Pow2(0) == 1;
      MulAtLeast(minBlkSize, n);
    } else {
      EvenCount(n, B.Pow2(k - 1));
    }
  }

  lemma CountDoubled(first: nat, unit: nat, n: nat, p: nat)
    requires unit > 0 && n * unit == first
    ensures BlockCount(first * p, unit) == n * p
  {
    assert first * p == (n * p) * unit;
    TimesMultiple(n * p, unit);
  }

  lemma EvenCount(n: nat, p: nat)
    ensures (n * (2 * p)) % 0x1_0000_0000 + 1 < 0x1_0000_0000
  {
    assert n * (2 * p) == 2 * (n * p);
  }

  /** The first super block has at least one whole batch, and all of it is counted. */
  lemma FirstCount(superBlkSizeMB: nat, minBlkSize: nat, tcExpandBlkCnt: nat)
    requires ValidOptions(superBlkSizeMB, minBlkSize, tcExpandBlkCnt)
    ensures minBlkSize > 0 && CountOf(FirstSize(superBlkSizeMB), minBlkSize) > 0
  {
    hide ValidOptions, FirstSize, BlockCount, Multiple, BatchBytes;
    OptionFacts(superBlkSizeMB, minBlkSize, tcExpandBlkCnt);
    FirstFacts(superBlkSizeMB, minBlkSize, tcExpandBlkCnt);
    WholeSize(FirstSize(superBlkSizeMB), minBlkSize, tcExpandBlkCnt);
    CountExactly(FirstSize(superBlkSizeMB), minBlkSize);
  }

  /** The memory of the first k blocks of a super block, cleared. */
  function Zeroed(cells: Cells, base: nat, unit: nat, k: nat): (cells': Cells) {
    cells + map x | x in Blocks(base, unit, k) :: MinBlock(0, 0, 0)
  }

  lemma NewBlocks(owner: Owners, base: nat, unit: nat, size: nat, flat: seq<nat>, lists: Lists)
    requires unit > 0 && BlockCount(size, unit) * unit == size && OwnersOk(owner, flat, lists)
    requires base > 0 && forall x | x in owner :: x + unit <= base || base + size <= x
    ensures var all := Blocks(base, unit, BlockCount(size, unit));
            NoRepeats(all) && (forall x | x in all :: x !in owner && x > 0) && NoRepeats(all + flat)
  {
    hide BlockCount;
    var n := BlockCount(size, unit);
    BlocksNoRepeats(base, unit, n);
    BlockAtValue(base, unit, n);
    forall x | x in Blocks(base, unit, n)
      ensures x !in owner && x > 0
    {
      BlockInside(base, unit, n, x);
    }
    NoRepeatsJoin(Blocks(base, unit, n), flat);
  }

  lemma ZeroedNew(cells: Cells, base: nat, unit: nat, k: nat)
    ensures Clear(Zeroed(cells, base, unit, k), base, unit, 0, k)
    ensures forall x | x in cells && x !in Blocks(base, unit, k) :: x in Zeroed(cells, base, unit, k) && Zeroed(cells, base, unit, k)[x] == cells[x]
  {
    var s := Blocks(base, unit, k);
    forall j: nat | j < k
      ensures BlockAt(base, unit, j) in s
    {
      assert s[j] == BlockAt(base, unit, j);
    }
  }

  /** The blocks that are counted are among all the blocks, and new. */
  lemma SomeOfAll(base: nat, unit: nat, size: nat, owner: Owners)
    requires unit > 0 && NoRepeats(Blocks(base, unit, BlockCount(size, unit)))
    requires forall x | x in Blocks(base, unit, BlockCount(size, unit)) :: x !in owner && x > 0
    ensures var some, all := Blocks(base, unit, CountOf(size, unit)), Blocks(base, unit, BlockCount(size, unit));
            NoRepeats(some) && (forall x | x in some :: x in all && x !in owner && x > 0)
  {
    hide BlockCount, CountOf;
    CountNoMore(size, unit);
    var some, all := Blocks(base, unit, CountOf(size, unit)), Blocks(base, unit, BlockCount(size, unit));
    assert forall j | 0 <= j < |some| :: some[j] == all[j];
    forall x | x in some
      ensures x in all
    {
      var j :| 0 <= j < |some| && some[j] == x;
      assert all[j] == x;
    }
  }

  lemma CountNoMore(size: nat, unit: nat)
    requires unit > 0
    ensures CountOf(size, unit) <= BlockCount(size, unit)
  {
  }

  lemma ClearPresent(cells: Cells, base: nat, unit: nat, count: nat, n: nat)
    requires Clear(cells, base, unit, 0, n) && count <= n
    ensures forall x | x in Blocks(base, unit, count) :: x in cells
  {
  }

  lemma BlockClear(cells: Cells, base: nat, unit: nat, k: nat, n: nat)
    requires Clear(cells, base, unit, k, n) && k < n
    ensures BlockAt(base, unit, k) in cells && cells[BlockAt(base, unit, k)] == MinBlock(0, 0, 0)
  {
  }

  /** The blocks behind the one being written stay clear. */
  lemma ClearBehind(cells: Cells, cells': Cells, base: nat, unit: nat, k: nat, n: nat,
                    done: seq<seq<nat>>, cur: seq<nat>, header: nat, steps: nat)
    requires Clear(cells, base, unit, k, n) && unit > 0 && Cutting(cells, base, unit, k, done, cur, header, steps)
    requires forall x | x in cells && x != BlockAt(base, unit, k) && (cur == [] || x != header) :: x in cells' && cells'[x] == cells[x]
    ensures Clear(cells', base, unit, k + 1, n)
  {
    hide BlockAt;
    BlocksNext(base, unit, k);
    assert BlockAt(base, unit, k) in Blocks(base, unit, k + 1);
    if cur != [] {
      assert cur[0] in cur && header in Flat(done) + cur;
      assert header in Blocks(base, unit, k + 1);
    }
    ClearStill(cells, cells', base, unit, k, n);
  }

  /** Nothing is missing from the batches exactly if the super block is shorter than 2^32 blocks. */
  lemma AllExactly(base: nat, unit: nat, steps: nat, size: nat, flat: seq<nat>, cur: seq<nat>)
    requires unit > 0 && steps > 0 && size > 0 && Multiple(size, BatchBytes(unit, steps))
    requires flat + cur == Blocks(base, unit, CountOf(size, unit)) && |cur| == Mod(CountOf(size, unit), steps)
    ensures flat == Blocks(base, unit, BlockCount(size, unit)) <==> Countable(size, unit)
  {
    hide Blocks, BlockCount, CountOf, Mod;
    WholeSize(size, unit, steps);
    CountExactly(size, unit);
    CountNoMore(size, unit);
    if Countable(size, unit) { assert flat + [] == flat; }
  }

  lemma StillUntouched(cells: Cells, cells1: Cells, cells2: Cells, all: seq<nat>, some: seq<nat>, owner: Owners)
    requires (forall x | x in cells && x !in all :: x in cells1 && cells1[x] == cells[x]) && WritesOnly(cells1, cells2, some)
    requires (forall x | x in all :: x !in owner) && forall x | x in some :: x !in owner
    ensures Untouched(cells, cells2, owner)
  {
  }

  lemma FirstsAndLast(some: seq<nat>, base: nat, unit: nat, n: nat)
    requires some == Blocks(base, unit, n)
    ensures |some| == n && (n > 0 ==> some[n - 1] == BlockAt(base, unit, n - 1)) && some + [] == some
  {
  }

  lemma CachesFrameNew(cells: Cells, cells': Cells, caches: map<nat, TCache>, lists: Lists, owner: Owners, flat: seq<nat>, s: seq<nat>)
    requires CachesOk(cells, caches, lists) && WritesOnly(cells, cells', s) && OwnersOk(owner, flat, lists) && forall x | x in s :: x !in owner
    ensures CachesOk(cells', caches, lists)
  {
    hide NoRepeats, CachesOk, WritesOnly;
    CachesFrame(cells, cells', caches, lists, s);
  }

  lemma BackedNew(cells: Cells, cells': Cells, owner: Owners, all: seq<nat>, owner': Owners)
    requires Backed(cells, owner) && WritesOnly(cells, cells', all)
    requires owner' == owner + map x | x in all :: Shared
    requires forall x | x in all :: x in cells && x > 0
    ensures Backed(cells', owner')
  {
  }

  /** With a free count of 0 there is nothing in the shared list. */
  lemma NothingShared(cells: Cells, freeHead: nat, freeCount: nat, batches: seq<seq<nat>>, rest: seq<nat>, steps: nat)
    requires SharedOk(cells, freeHead, freeCount, batches, rest, steps) && freeCount == 0
    ensures batches == [] && rest == [] && Queue(batches, rest) == []
  {
    if batches != [] { SomeFree(cells, batches, rest); }
  }

  lemma QueueAttached(news: seq<seq<nat>>, cur: seq<nat>, batches: seq<seq<nat>>, rest: seq<nat>)
    requires cur != [] ==> batches == [] && rest == []
    ensures Queue(news + batches, if cur == [] then rest else cur) == Flat(news) + cur + Queue(batches, rest)
  {
    FlatConcat(news, batches);
    if cur == [] { assert Flat(news) + cur == Flat(news); } else { assert news + batches == news; }
  }

  lemma UnfinishedFrame(cells: Cells, cells': Cells, cur: seq<nat>, steps: nat)
    requires Unfinished(cells, cur, steps) && SameMarks(cells, cells', cur)
    ensures Unfinished(cells', cur, steps)
  {
    if cur != [] { assert cur[0] in cur; }
  }

  /** What is shared after an expansion from nothing. */
  lemma Attached(size: nat, mem: nat, unit: nat, steps: nat, owner: Owners, owner': Owners,
                 news: seq<seq<nat>>, cur: seq<nat>, batches: seq<seq<nat>>, rest: seq<nat>)
    requires unit > 0 && steps > 0 && batches == news + [] && rest == (if cur == [] then [] else cur)
    requires (forall i | 0 <= i < |news| :: |news[i]| == steps) && |cur| == Mod(CountOf(size, unit), steps)
    requires Flat(news) + cur == Blocks(mem, unit, CountOf(size, unit))
    requires Flat(news) == Blocks(mem, unit, BlockCount(size, unit)) <==> Countable(size, unit)
    requires owner' == owner + (map x | x in Flat(news) + cur :: Shared) && forall x | x in Flat(news) + cur :: x !in owner
    ensures Expanded(size, mem, unit, steps, owner, owner', CountOf(size, unit), batches, rest)
  {
    hide Blocks, CountOf, BlockCount, Countable, Mod;
    assert news + [] == news;
    if news != [] { assert |news[0]| == steps; }
  }

  lemma OptionFacts(superBlkSizeMB: nat, minBlkSize: nat, tcExpandBlkCnt: nat)
    requires ValidOptions(superBlkSizeMB, minBlkSize, tcExpandBlkCnt)
    ensures minBlkSize >= 24 && 8 <= tcExpandBlkCnt <= 256
  {
  }

  lemma CutNone(cells: Cells, base: nat, unit: nat, header: nat, steps: nat, all: seq<nat>)
    requires steps > 0
    ensures Cutting(cells, base, unit, 0, [], [], header, steps) && WritesOnly(cells, cells, all)
  {
  }

  lemma WroteIn(cells0: Cells, cells: Cells, cells': Cells, all: seq<nat>, x: nat)
    requires WritesOnly(cells0, cells, all) && x in all && x in cells && x in cells' && cells' == cells[x := cells'[x]]
    ensures WritesOnly(cells0, cells', all)
  {
  }

  lemma BlockPresent(cells0: Cells, cells: Cells, base: nat, unit: nat, count: nat, k: nat)
    requires WritesOnly(cells0, cells, Blocks(base, unit, count)) && k < count
    requires forall x | x in Blocks(base, unit, count) :: x in cells0
    ensures BlockAt(base, unit, k) in Blocks(base, unit, count) && BlockAt(base, unit, k) in cells
  {
    assert Blocks(base, unit, count)[k] == BlockAt(base, unit, k);
  }

  lemma HeaderPresent(cells0: Cells, cells: Cells, base: nat, unit: nat, count: nat, k: nat,
                      done: seq<seq<nat>>, cur: seq<nat>, header: nat, steps: nat)
    requires WritesOnly(cells0, cells, Blocks(base, unit, count)) && k < count && base > 0
    requires forall x | x in Blocks(base, unit, count) :: x in cells0
    requires Cutting(cells, base, unit, k, done, cur, header, steps)
    ensures cur != [] ==> header in Blocks(base, unit, count) && header in cells && header != 0
  {
    if cur != [] {
      var j := |Flat(done)|;
      assert (Flat(done) + cur)[j] == header;
      assert Blocks(base, unit, k)[j] == BlockAt(base, unit, j);
      BlockPresent(cells0, cells, base, unit, count, j);
      BlockAtPositive(base, unit, j);
    }
  }

  /** The blocks counted are cut into batches, and the last one is cleared. */
  lemma CutAll(cells: Cells, base: nat, unit: nat, count: nat, n: nat, done: seq<seq<nat>>, cur: seq<nat>, header: nat, steps: nat)
    requires Cutting(cells, base, unit, count, done, cur, header, steps) && unit > 0 && base > 0 && steps > 1
    requires count == 0 ==> Clear(cells, base, unit, 0, n) && n > 0
    ensures Flat(done) + cur == Blocks(base, unit, count) && (forall i | 0 <= i < |done| :: |done[i]| == steps)
    ensures count == 0 ==> cells[base := MinBlock(0, 0, 0)] == cells
    ensures count > 0 ==>
              var cells' := cells[BlockAt(base, unit, count - 1) := MinBlock(0, 0, 0)];
              Chain(cells', base, Flat(done) + cur) && AllBatches(cells', done) && Unfinished(cells', cur, steps)
  {
    if count == 0 {
      assert BlockAt(base, unit, 0) == base;
    } else {
      var tail := BlockAt(base, unit, count - 1);
      StrungChain(cells, cells[tail := MinBlock(0, 0, 0)], base, unit, count);
      BlocksNoRepeats(base, unit, count);
      TailUnmarked(cells, done, cur, steps, tail);
    }
  }

  // ----- super blocks of 2^32 min blocks and more

  lemma Shifts()
    ensures B.Pow2(9) == 512 && B.Pow2(16) == 0x1_0000
  {
    assert B.Pow2(5) == 32;
    assert B.Pow2(12) == 4096;
  }

  /** 255 MB, blocks of 24 bytes in batches of 40: doubled nine times the count wraps and leaves 24 blocks of a batch. */
  lemma UnfinishedBatch()
    ensures ValidOptions(255, 24, 40) && var size := FirstSize(255) * B.Pow2(9);
            CountOf(size, 24) == 1409286144 && Mod(CountOf(size, 24), 40) == 24
  {
    Shifts();
  }

  /** The default options: a super block of 2^38 bytes counts no block at all and is refused. */
  lemma NoneCounted()
    ensures ValidOptions(4, 64, 128) && CountOf(FirstSize(4) * B.Pow2(16), 64) == 0
  {
    Shifts();
  }
}
