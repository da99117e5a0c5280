/**
 The memory allocator: blocks handed out of one region and taken back, either with their lengths
 in a map beside the region (aligned addresses) or with headers inside it.
 */
module MemAllocator {
  import opened Bits
  import opened MemBlocks
  import opened MemAreas
  import opened MemMerge
  import opened MemTake
  import opened MemPartition
  import opened MemUnits
  import opened Multiples
  import opened MemHeader
  import opened LittleEndian
  import opened MemGuard
  import opened MemAccounts
  import opened MemNodes
  import opened RbPacking
  import opened MemRegion

  /**
   The code's results, and one more for where it hands out an address that stays free, or one with
   no room for its own node when it comes back: the model stops there.
   */
  datatype NResult = Ok | Error | InvalidParam | NotInitialized | HandsOutNothing

  /** No two bits of x are set. */
  function PowerOf2(x: nat): (r: bool) {
    x == 0 || And(x - 1, x) == 0
  }

  /** Block sizes: the powers of two from 4 KiB to 1 GiB. */
  ghost predicate IsBlockSize(n: nat) {
    4096 <= n <= 0x4000_0000 && IsPow2(n)
  }

  lemma BlockSizeExactly(n: nat)
    ensures IsBlockSize(n) <==> 4096 <= n <= 0x4000_0000 && PowerOf2(n)
  {
    hide And, IsPow2;
    if n > 0 { SingleBit(n); }
  }

  /** The first error among the parameters of an allocator. */
  function CheckOptions(mrAddress: nat, mrSize: nat, minBlockSize: nat): (r: NResult)
    ensures r == Ok <==> mrAddress > 0 && IsBlockSize(minBlockSize) && minBlockSize <= mrSize
    ensures r == Ok || r == InvalidParam
  {
    BlockSizeExactly(minBlockSize);
    if mrAddress == 0 || !PowerOf2(minBlockSize) || minBlockSize < 4096 || minBlockSize > 1024 * 1024 * 1024 || mrSize < minBlockSize
    then InvalidParam else Ok
  }

  /** The end of a range in 64-bit arithmetic: it wraps around exactly if it is not behind the start. */
  function EndOf(address: nat, size: nat): (end: nat)
    requires address < WORD64 && 0 < size < WORD64
    ensures end <= address <==> address + size >= WORD64
    ensures end > address ==> end == address + size
  {
    (address + size) % 0x1_0000_0000_0000_0000
  }

  class NetMemAllocator {
    var inited: bool
    var alignAddress: bool
    var mrAddress: nat
    var mrSize: nat
    var minBlockSize: nat
    var region: MemoryRegion
    var addrLenMap: Held
    var firstAllocLength: nat
    var firstReqLength: nat
    var mem: Bytes
    ghost var held: Held
    ghost var asked: Asked

    ghost predicate Valid()
      reads this, region, region.rb, region.fl
    {
      && region.Valid() && IsBlockSize(minBlockSize) && region.totalSize == region.hi - region.lo
      && (!inited ==> held == map[] && asked == map[] && addrLenMap == map[] && firstAllocLength == 0 && firstReqLength == 0)
      && (!inited ==> region.lo == region.hi && region.Free() == [] && region.freeSize == 0)
      && (region.lo < region.hi ==> 0 < region.lo && region.hi < WORD64)
      && (inited && region.lo < region.hi ==> region.lo == mrAddress && region.hi == mrAddress + mrSize)
      && BooksOk(alignAddress, addrLenMap, mem, region.Free(), held, asked, firstAllocLength, firstReqLength,
                 region.freeSize, region.lo, region.hi, minBlockSize)
    }

    ghost function Blocks(): (bs: seq<Block>)
      reads this, region
    {
      region.Free()
    }

    constructor (mem: Bytes)
      ensures Valid() && !inited && Blocks() == [] && held == map[] && this.mem == mem
      ensures fresh(region) && fresh(region.rb) && fresh(region.fl)
    {
      hide MemoryRegion.Valid, MemoryRegion.Free, BooksOk;
      Pow2Page();
      inited, alignAddress, mrAddress, mrSize, minBlockSize := false, false, 0, 0, 4096;
      region := new MemoryRegion(0, 0);
      addrLenMap, firstAllocLength, firstReqLength := map[], 0, 0;
      this.mem := mem;
      held, asked := map[], map[];
      new;
      BlockSizeFacts(4096);
      EmptyOk(alignAddress, mem, 0, 4096);
    }

    /**
     Bind the allocator to a range: afterwards the range is one free block and nothing is handed
     out. A range that wraps around is refused, and the allocator then manages nothing.
     */
    method Initialize(address: nat, size: nat, blockSize: nat, aligned: bool) returns (r: NResult)
      requires Valid() && address < WORD64 && size < SPAN
      requires aligned && blockSize > 0 ==> RestFits(size, blockSize)
      requires !aligned ==> Mapped(mem, address, size)
      modifies this
      ensures Valid()
      ensures old(inited) ==>
                && r == (if address == old(mrAddress) && size == old(mrSize) && blockSize == old(minBlockSize) then Ok else Error)
                && unchanged(this)
      ensures !old(inited) && CheckOptions(address, size, blockSize) != Ok ==> r == InvalidParam && unchanged(this)
      ensures !old(inited) && CheckOptions(address, size, blockSize) == Ok ==>
                && inited && held == map[] && mrAddress == address && mrSize == size && minBlockSize == blockSize && alignAddress == aligned
                && (r == Ok <==> address + size < WORD64) && (r == Ok || r == InvalidParam)
                && Blocks() == (if r == Ok then [Block(address, size)] else [])
                && (r == Ok ==> region.lo == address && region.hi == address + size && fresh(region) && fresh(region.rb) && fresh(region.fl))
                && (r != Ok ==> region == old(region))
    {
      hide MemoryRegion.Valid, MemoryRegion.Free, BooksOk, CheckOptions, RestFits, Mapped, EndOf;
      if inited {
        if address == mrAddress && size == mrSize && blockSize == minBlockSize {
          return Ok;
        }
        return Error;
      }
      r := CheckOptions(address, size, blockSize);
      if r != Ok {
        return;
      }
      var end := EndOf(address, size);
      if end <= address {
        BindNothing(address, size, blockSize, aligned);
        return InvalidParam;
      }
      BindRange(address, end, blockSize, aligned);
    }

    /** A range that wraps around: the allocator counts as initialized and manages nothing. */
    method BindNothing(address: nat, size: nat, blockSize: nat, aligned: bool)
      requires Valid() && !inited && IsBlockSize(blockSize)
      modifies this
      ensures Valid() && inited && held == map[] && Blocks() == [] && region == old(region)
      ensures mrAddress == address && mrSize == size && minBlockSize == blockSize && alignAddress == aligned
    {
      hide MemoryRegion.Valid, MemoryRegion.Free, BooksOk;
      inited, alignAddress, mrAddress, mrSize, minBlockSize := true, aligned, address, size, blockSize;
      BlockSizeFacts(minBlockSize);
      EmptyOk(alignAddress, mem, region.lo, minBlockSize);
    }

    /** A range with valid options becomes one free block. */
    method BindRange(address: nat, end: nat, blockSize: nat, aligned: bool)
      requires Valid() && !inited && 0 < address < end < address + SPAN && end < WORD64 && IsBlockSize(blockSize) && blockSize <= end - address
      requires if aligned then RestFits(end - address, blockSize) else Mapped(mem, address, end - address)
      modifies this
      ensures Valid() && inited && held == map[] && Blocks() == [Block(address, end - address)]
      ensures mrAddress == address && mrSize == end - address && minBlockSize == blockSize && alignAddress == aligned
      ensures region.lo == address && region.hi == end && fresh(region) && fresh(region.rb) && fresh(region.fl)
    {
      hide MemoryRegion.Valid, MemoryRegion.Free, BooksOk, RestFits, Mapped;
      inited, alignAddress, mrAddress, mrSize, minBlockSize := true, aligned, address, end - address, blockSize;
      Join(address, end);
      WriteNodes(region.rb.cells.Keys);
      MappedStill(old(mem), mem, region.rb.cells.Keys, address, end - address);
      BlockSizeFacts(blockSize);
      JoinedOk(aligned, mem, address, end, blockSize);
    }

    /** Nodes at these addresses were written: their bytes are now whatever nodes are made of. */
    method WriteNodes(nodes: set<nat>)
      modifies this`mem
      ensures Rewritten(old(mem), mem, nodes)
    {
      var bytes: nat -> nat := *;
      mem := Scribbled(mem, nodes, bytes);
    }

    /** Take memory out of the region; nodes are written at the areas free before and after. */
    method TakeArea(length: nat, metaStored: bool) returns (ok: bool, start: nat, ghost k: nat)
      requires region.Valid() && Total(region.Free()) <= region.freeSize
      requires Divisible(region.Free(), length, minBlockSize, metaStored)
      modifies this`mem, region`areas, region`freeCnt, region`freeSize, region`shape, region`order, region.rb, region.fl
      ensures region.Valid() && (ok <==> Serves(old(region.Free()), length))
      ensures !ok ==> region.Free() == old(region.Free()) && region.freeSize == old(region.freeSize) && mem == old(mem)
      ensures ok ==>
                && var bs := old(region.Free());
                && k < |bs| && bs[k].len >= length && start == bs[k].start
                && region.Free() == Taken(bs, k, length, Whole(bs[k].len, length, minBlockSize, metaStored))
                && RestKept(bs, k, length, if metaStored then 72 + minBlockSize else 0, region.Free())
                && region.freeSize == old(region.freeSize) - length
                && Rewritten(old(mem), mem, Starts(bs) + Starts(region.Free()))
    {
      hide MemoryRegion.Valid, MemoryRegion.Free, Serves, Taken, Divisible, Total, Whole, Rewritten, Starts, RestKept;
      region.Footprint();
      var nodes := region.rb.cells.Keys;
      ok, start, k := region.MemoryAreaRemove(length, minBlockSize, metaStored);
      if ok {
        region.Footprint();
        WriteNodes(nodes + region.rb.cells.Keys);
      }
    }

    /** Give memory back to the region; nodes are written at the areas free before and after and at the block. */
    method ReturnArea(start: nat, length: nat) returns (ok: bool, ghost k: nat)
      requires region.Valid() && SMALLEST <= length && 0 < start && region.lo <= start && start + length <= region.hi
      requires AllApart(region.Free(), Block(start, length))
      modifies this`mem, region`areas, region`freeCnt, region`freeSize, region`shape, region`order, region.rb, region.fl
      ensures region.Valid() && ok && region.freeSize == old(region.freeSize) + length
      ensures var bs, b := old(region.Free()), Block(start, length);
              && k <= |bs| && Fits(bs[..k], b, bs[k..]) && region.Free() == Joined(bs[..k], b, bs[k..])
              && Rewritten(old(mem), mem, Starts(bs) + Starts(region.Free()) + {start})
    {
      hide MemoryRegion.Valid, MemoryRegion.Free, AllApart, Fits, Joined, Rewritten, Starts;
      region.Footprint();
      var nodes := region.rb.cells.Keys;
      ok, k := region.MemoryAreaInsert(start, length);
      region.Footprint();
      WriteNodes(nodes + region.rb.cells.Keys + {start});
    }

    /** Make the range from address to end the one free area of a new region. */
    method Join(address: nat, end: nat)
      requires 0 < address && address + SMALLEST <= end < address + SPAN
      modifies this`region
      ensures fresh(region) && fresh(region.rb) && fresh(region.fl) && region.Valid()
      ensures region.lo == address && region.hi == end && region.totalSize == region.freeSize == end - address
      ensures region.Free() == [Block(address, end - address)]
    {
      hide MemoryRegion.Valid, MemoryRegion.Free, Joined;
      region := new MemoryRegion(address, end);
      region.AddTotal(end - address);
      ghost var b := Block(address, end - address);
      var ok, k := region.MemoryAreaInsert(address, end - address);
      JoinedEmpty(b);
    }

    /**
     Hand out whole blocks and remember their length in the map. A length of 0 hands out the start
     of an area that stays free.
     */
    method RegionMallocWithMap(length: nat) returns (r: NResult, start: nat, ghost k: nat)
      requires Valid() && inited && alignAddress && Multiple(length, minBlockSize)
      modifies this`addrLenMap, this`held, this`mem,
               region`areas, region`freeCnt, region`freeSize, region`shape, region`order, region.rb, region.fl
      ensures Valid() && (r == Error <==> !Serves(old(Blocks()), length)) && (r == Ok || r == Error || r == HandsOutNothing)
      ensures r == HandsOutNothing <==> length == 0 && Serves(old(Blocks()), length)
      ensures r == Error ==> Blocks() == old(Blocks()) && held == old(held) && mem == old(mem)
      ensures r == HandsOutNothing ==>
                Blocks() == old(Blocks()) && held == old(held) && k < |Blocks()| && start == Blocks()[k].start && start !in held
      ensures DataKept(old(mem), mem, old(held), old(held))
      ensures r == Ok ==>
                && k < |old(Blocks())| && start == old(Blocks())[k].start && length <= old(Blocks())[k].len
                && start !in old(held) && held == old(held)[start := length]
                && Blocks() == Taken(old(Blocks()), k, length, old(Blocks())[k].len == length)
                && RestKept(old(Blocks()), k, length, 0, Blocks())
    {
      hide MemoryRegion.Valid, MemoryRegion.Free, Serves, Taken, Divisible, Total, AlignedOk, Multiple, DataKept, Rewritten, Starts, RestKept;
      AlignedServes(region.Free(), held, region.freeSize, region.lo, region.hi, minBlockSize, length);
      ghost var bs := region.Free();
      var ok: bool;
      ok, start, k := TakeArea(length, false);
      if !ok {
        NoWrite(mem, held, held);
        return Error, 0, 0;
      }
      AlignedTakenOver(old(mem), mem, bs, held, old(region.freeSize), region.lo, region.hi, minBlockSize, k, length);
      if length == 0 {
        AlignedNothing(bs, held, region.freeSize, region.lo, region.hi, minBlockSize, k);
        return HandsOutNothing, start, k;
      }
      AlignedTaken(bs, held, old(region.freeSize), region.lo, region.hi, minBlockSize, k, length);
      addrLenMap := addrLenMap[start := length];
      held := addrLenMap;
      r := Ok;
    }

    /** Take back a block found in the map. */
    method RegionFreeWithMap(start: nat) returns (r: NResult, ghost k: nat)
      requires Valid() && inited && alignAddress
      modifies this`addrLenMap, this`held, this`mem,
               region`areas, region`freeCnt, region`freeSize, region`shape, region`order, region.rb, region.fl
      ensures Valid() && (r == Ok <==> start in old(held)) && (r == Ok || r == Error)
      ensures r == Error ==> Blocks() == old(Blocks()) && held == old(held)
      ensures DataKept(old(mem), mem, held, held)
      ensures r == Ok ==>
                && held == old(held) - {start} && k <= |old(Blocks())|
                && Blocks() == Joined(old(Blocks())[..k], Block(start, old(held)[start]), old(Blocks())[k..])
    {
      hide MemoryRegion.Valid, MemoryRegion.Free, Joined, Fits, Total, AlignedOk, AllApart, DataKept, Rewritten, Starts;
      if start !in addrLenMap {
        NoWrite(mem, held, held);
        return Error, 0;
      }
      var length := addrLenMap[start];
      ghost var bs, held0 := region.Free(), held;
      AlignedReturns(bs, held, region.freeSize, region.lo, region.hi, minBlockSize, start);
      var ok: bool;
      ok, k := ReturnArea(start, length);
      AlignedJoinedOver(old(mem), mem, bs, held0, old(region.freeSize), region.lo, region.hi, minBlockSize, start, k);
      AlignedJoined(bs, held0, old(region.freeSize), region.lo, region.hi, minBlockSize, start, k);
      addrLenMap := addrLenMap - {start};
      held := addrLenMap;
      r := Ok;
    }

    /**
     Hand out whole blocks and write a header in front: 16 bytes more are taken when rounding
     the request left no room for the header of the next block.
     */
    method RegionMalloc(length: nat, deltaLength: nat) returns (r: NResult, start: nat, ghost k: nat, ghost n: nat)
      requires Valid() && inited && !alignAddress && deltaLength < length && length == RoundUp(length - deltaLength, minBlockSize)
      requires length - deltaLength + minBlockSize <= WORD64
      modifies this`held, this`asked, this`mem, this`firstAllocLength, this`firstReqLength,
               region`areas, region`freeCnt, region`freeSize, region`shape, region`order, region.rb, region.fl
      ensures Valid() && (r == Ok <==> Serves(old(Blocks()), n)) && (r == Ok || r == Error)
      ensures n == if Needs(length - deltaLength, minBlockSize) && !(length == old(region.freeSize) == old(region.totalSize)) then length + META else length
      ensures r == Error ==> Blocks() == old(Blocks()) && held == old(held) && asked == old(asked) && mem == old(mem)
      ensures r == Ok ==>
                && k < |old(Blocks())| && start == old(Blocks())[k].start && n <= old(Blocks())[k].len && start !in old(held)
                && held == old(held)[start := n] && asked == old(asked)[start := length - deltaLength]
                && Blocks() == Taken(old(Blocks()), k, n, Whole(old(Blocks())[k].len, n, minBlockSize, true))
                && RestKept(old(Blocks()), k, n, 72 + minBlockSize, Blocks())
      ensures DataKept(old(mem), mem, old(held), old(asked))
    {
      hide MemoryRegion.Valid, MemoryRegion.Free, Serves, Taken, UnalignedOk, RoundUp, Whole, DataKept, RestKept;
      var lengthWithMeta := length + META;
      var needReserve := deltaLength < META;
      if !needReserve || (length == region.freeSize && length == region.totalSize) {
        lengthWithMeta := lengthWithMeta - META;
      }
      n := lengthWithMeta;
      var ok: bool;
      ok, start, k := ReserveBlock(length, deltaLength, lengthWithMeta);
      r := if ok then Ok else Error;
    }

    /** Take the bytes to set aside for a block, and note its lengths in front of it. */
    method ReserveBlock(length: nat, deltaLength: nat, lengthWithMeta: nat) returns (ok: bool, start: nat, ghost k: nat)
      requires Valid() && inited && !alignAddress && deltaLength < length && length == RoundUp(length - deltaLength, minBlockSize)
      requires lengthWithMeta > 0 && Suits(lengthWithMeta, length - deltaLength, region.hi - region.lo, minBlockSize)
      modifies this`held, this`asked, this`mem, this`firstAllocLength, this`firstReqLength,
               region`areas, region`freeCnt, region`freeSize, region`shape, region`order, region.rb, region.fl
      ensures Valid() && (ok <==> Serves(old(Blocks()), lengthWithMeta))
      ensures !ok ==> Blocks() == old(Blocks()) && held == old(held) && asked == old(asked) && mem == old(mem)
      ensures ok ==>
                && k < |old(Blocks())| && start == old(Blocks())[k].start && lengthWithMeta <= old(Blocks())[k].len && start !in old(held)
                && held == old(held)[start := lengthWithMeta] && asked == old(asked)[start := length - deltaLength]
                && Blocks() == Taken(old(Blocks()), k, lengthWithMeta, Whole(old(Blocks())[k].len, lengthWithMeta, minBlockSize, true))
                && RestKept(old(Blocks()), k, lengthWithMeta, 72 + minBlockSize, Blocks())
      ensures DataKept(old(mem), mem, old(held), old(asked))
    {
      hide MemoryRegion.Valid, MemoryRegion.Free, Serves, Taken, Divisible, Total, UnalignedOk, Marked, HeaderBytes, RoundUp, Whole, Little, Store, Canary, DataKept,
           Rewritten, Starts, RestKept, Suits;
      UnalignedServes(mem, region.Free(), held, asked, firstAllocLength, firstReqLength,
                      region.freeSize, region.lo, region.hi, minBlockSize, lengthWithMeta);
      ghost var bs, size := region.Free(), length - deltaLength;
      ok, start, k := TakeArea(lengthWithMeta, true);
      if !ok {
        NoWrite(mem, held, asked);
        return;
      }
      UnalignedHanded(old(mem), mem, bs, held, asked, firstAllocLength, firstReqLength, old(region.freeSize), region.lo, region.hi,
                      minBlockSize, k, lengthWithMeta, size);
      WriteHeader(start, length, deltaLength, lengthWithMeta);
      held, asked := held[start := lengthWithMeta], asked[start := size];
    }

    /** Remember the first block's lengths, or write the header in front of any other block. */
    method WriteHeader(start: nat, length: nat, deltaLength: nat, lengthWithMeta: nat)
      requires minBlockSize > 0 && deltaLength < length && length == RoundUp(length - deltaLength, minBlockSize)
      requires start != mrAddress ==> start >= META
      modifies this`mem, this`firstAllocLength, this`firstReqLength
      ensures mem == Marked(old(mem), start, mrAddress, length - deltaLength, minBlockSize)
      ensures firstAllocLength == if start == mrAddress then lengthWithMeta else old(firstAllocLength)
      ensures firstReqLength == if start == mrAddress then length - deltaLength else old(firstReqLength)
    {
      hide Marked, HeaderBytes, RoundUp, Little, Store, Canary;
      if start == mrAddress {
        FirstUnmarked(mem, start, length - deltaLength, minBlockSize);
        firstAllocLength, firstReqLength := lengthWithMeta, length - deltaLength;
      } else {
        if start < META {
          assert false;
        }
        MarkedIs(mem, start, mrAddress, length, deltaLength, minBlockSize);
        mem := Store(mem, start - META, Canary(deltaLength < META) + Little((length / minBlockSize) % 0x1_0000_0000, 4) + Little(length - deltaLength, 8));
      }
    }

    /** With aligned addresses, once everything is given back the range is one free block again. */
    lemma EverythingFreed()
      requires Valid() && inited && alignAddress && region.lo < region.hi && held == map[]
      ensures Blocks() == [Block(mrAddress, mrSize)] && region.freeSize == mrSize
    {
      hide MemoryRegion.Valid, MemoryRegion.Free;
      AllFreed(region.Free(), held, region.freeSize, region.lo, region.hi, minBlockSize);
    }

    /** The tree's packed words keep every area's address as a parent exactly if the range starts at a multiple of 4. */
    lemma AreasPack(i: nat, w: nat)
      requires Valid() && inited && i < |Blocks()| && w < WORD && region.lo < region.hi
      ensures var a := Blocks()[i].start;
              (GetParent(SetParent(w, a)) == a && GetColor(SetParent(w, a)) == GetColor(w)) <==> Low4(mrAddress) == 0
    {
      hide MemoryRegion.Valid, MemoryRegion.Free, BooksOk, IsBlockSize, GetParent, SetParent, GetColor, Low4;
      var a := Blocks()[i].start;
      AreaInRange(alignAddress, addrLenMap, mem, region.Free(), held, asked, firstAllocLength, firstReqLength,
                  region.freeSize, region.lo, region.hi, minBlockSize, i);
      SameLow4(region.lo, a);
      ParentComesBack(w, a);
    }

    /** Blocks are handed out inside the range only. */
    lemma HeldInside()
      requires Valid()
      ensures forall a | a in held :: inited && region.lo == mrAddress && 0 < mrAddress <= a < mrAddress + mrSize && a < region.hi
    {
      hide MemoryRegion.Valid, MemoryRegion.Free;
      forall a | a in held
        ensures region.lo <= a < region.hi
      {
        if alignAddress {
          AlignedReturns(region.Free(), held, region.freeSize, region.lo, region.hi, minBlockSize, a);
        } else {
          UnalignedReturns(mem, region.Free(), held, asked, firstAllocLength, firstReqLength,
                           region.freeSize, region.lo, region.hi, minBlockSize, a);
        }
      }
    }

    /** The length to take back, from the first block's own record or from the header. */
    method ReservedLength(start: nat) returns (r: NResult, length: nat)
      requires Valid() && inited && !alignAddress
      requires start in held || start == mrAddress
      requires start != mrAddress ==> held[start] < WORD32
      ensures r == Ok <==> start in held
      ensures r == Ok ==> length == held[start]
    {
      hide MemoryRegion.Valid, MemoryRegion.Free, UnalignedOk, Intact, FromLittle, Load, Reserve, Recovered;
      length := 0;
      HeldInside();
      if start in held {
        UnalignedReturns(mem, region.Free(), held, asked, firstAllocLength, firstReqLength,
                         region.freeSize, region.lo, region.hi, minBlockSize, start);
      }
      if start == mrAddress {
        NotFirst(mem, region.Free(), held, asked, firstAllocLength, firstReqLength,
                 region.freeSize, region.lo, region.hi, minBlockSize);
        if firstAllocLength == 0 {
          return Error, 0;
        }
        return Ok, firstAllocLength;
      }
      ReadHeader(mem, start, asked[start], minBlockSize);
      RecoversBelow4GiB(asked[start], minBlockSize);
      var units := FromLittle(Load(mem, start - 12, 4));
      if Load(mem, start - 16, 4) == Canary(true) {
        return Ok, Recovered(true, units, minBlockSize);
      } else if Load(mem, start - 16, 4) == Canary(false) {
        return Ok, Recovered(false, units, minBlockSize);
      } else {
        assert false;
      }
    }

    /** Take back a block whose length is in its header. */
    method RegionFree(start: nat) returns (r: NResult, ghost k: nat)
      requires Valid() && inited && !alignAddress
      requires start in held || start == mrAddress
      requires start != mrAddress ==> held[start] < WORD32
      modifies this`held, this`asked, this`mem, this`firstAllocLength, this`firstReqLength,
               region`areas, region`freeCnt, region`freeSize, region`shape, region`order, region.rb, region.fl
      ensures Valid() && (r == Ok <==> start in old(held)) && (r == Ok || r == Error)
      ensures r == Error ==> Blocks() == old(Blocks()) && held == old(held) && asked == old(asked)
      ensures DataKept(old(mem), mem, held, asked)
      ensures r == Ok ==>
                && held == old(held) - {start} && asked == old(asked) - {start} && k <= |old(Blocks())|
                && Blocks() == Joined(old(Blocks())[..k], Block(start, old(held)[start]), old(Blocks())[k..])
    {
      hide MemoryRegion.Valid, MemoryRegion.Free, UnalignedOk, Joined, DataKept;
      NoWrite(mem, held, asked);
      var length: nat;
      r, length := ReservedLength(start);
      if r != Ok {
        return Error, 0;
      }
      k := TakeBack(start, length);
    }

    /** Give the bytes set aside for a block back to the region. */
    method TakeBack(start: nat, length: nat) returns (ghost k: nat)
      requires Valid() && inited && !alignAddress && start in held && length == held[start]
      modifies this`held, this`asked, this`mem, this`firstAllocLength, this`firstReqLength,
               region`areas, region`freeCnt, region`freeSize, region`shape, region`order, region.rb, region.fl
      ensures Valid() && DataKept(old(mem), mem, held, asked)
      ensures held == old(held) - {start} && asked == old(asked) - {start} && k <= |old(Blocks())|
      ensures Blocks() == Joined(old(Blocks())[..k], Block(start, length), old(Blocks())[k..])
    {
      hide MemoryRegion.Valid, MemoryRegion.Free, UnalignedOk, Joined, Fits, AllApart, DataKept, Rewritten, Starts;
      HeldInside();
      UnalignedReturns(mem, region.Free(), held, asked, firstAllocLength, firstReqLength,
                       region.freeSize, region.lo, region.hi, minBlockSize, start);
      var ok: bool;
      ok, k := ReturnArea(start, length);
      UnalignedJoinedOver(old(mem), mem, old(region.Free()), held, asked, firstAllocLength, firstReqLength, old(region.freeSize),
                          region.lo, region.hi, minBlockSize, start, k);
      if start == mrAddress {
        firstAllocLength, firstReqLength := 0, 0;
      }
      held, asked := held - {start}, asked - {start};
    }

    /**
     Allocate at least size bytes; it fails exactly if no free area holds what must be set aside. A
     size that rounds up to nothing, 0 or within one block of 2^64, hands out nothing.
     */
    method Allocate(size: nat) returns (r: NResult, address: nat, ghost k: nat, ghost n: nat)
      requires Valid() && size < WORD64
      modifies this`addrLenMap, this`held, this`asked, this`mem, this`firstAllocLength, this`firstReqLength,
               region`areas, region`freeCnt, region`freeSize, region`shape, region`order, region.rb, region.fl
      ensures Valid() && (r == NotInitialized <==> !old(inited))
      ensures r == HandsOutNothing <==> old(inited) && RoundsToNothing(size, minBlockSize) && old(Blocks()) != []
      ensures old(inited) && RoundsToNothing(size, minBlockSize) && old(Blocks()) == [] ==> r == Error
      ensures old(inited) && !RoundsToNothing(size, minBlockSize) ==>
                && (r == Ok <==> Serves(old(Blocks()), n)) && size <= n && (alignAddress ==> n == RoundUp(size, minBlockSize))
      ensures r != Ok ==> Blocks() == old(Blocks()) && held == old(held) && (r != HandsOutNothing ==> mem == old(mem))
      ensures DataKept(old(mem), mem, old(held), if alignAddress then old(held) else old(asked))
      ensures r == Ok ==>
                && k < |old(Blocks())| && address == old(Blocks())[k].start && n <= old(Blocks())[k].len
                && address !in old(held) && held == old(held)[address := n]
                && Blocks() == Taken(old(Blocks()), k, n, Whole(old(Blocks())[k].len, n, minBlockSize, !alignAddress))
                && RestKept(old(Blocks()), k, n, if alignAddress then 0 else 72 + minBlockSize, Blocks())
                && (!alignAddress ==> n <= Total(old(Blocks())) - Total(Blocks()) < n + 72 + minBlockSize)
    {
      hide MemoryRegion.Valid, MemoryRegion.Free, BooksOk, Serves, Taken, RoundUp, Multiple, Needs, DataKept, IsBlockSize, RestKept, Total;
      NoWrite(mem, held, if alignAddress then held else asked);
      address, k, n := 0, 0, 0;
      if !inited {
        return NotInitialized, 0, 0, 0;
      }
      BlockSizeFacts(minBlockSize);
      RoundsExactly(size, minBlockSize);
      ServesNothing(region.Free());
      var alignedSize := RoundUp(size, minBlockSize);
      if alignAddress {
        r, address, k := RegionMallocWithMap(alignedSize);
        n := alignedSize;
      } else if alignedSize == 0 {
        var none := NoArea();
        r := if none then Error else HandsOutNothing;
      } else {
        r, address, k, n := RegionMalloc(alignedSize, alignedSize - size);
        if r == Ok {
          LittleLost(old(Blocks()), k, n, 72 + minBlockSize, Blocks());
        }
      }
    }

    /** No area is free. */
    method NoArea() returns (none: bool)
      requires region.Valid()
      ensures none <==> region.Free() == []
    {
      hide MemoryRegion.Valid;
      region.Footprint();
      none := region.rb.cells == map[];
      NoStarts(region.Free());
    }

    /** Give a block back. */
    method Free(address: nat) returns (r: NResult, ghost k: nat)
      requires Valid()
      requires inited && !alignAddress && mrAddress < address <= mrAddress + mrSize ==> address in held && held[address] < WORD32
      modifies this`addrLenMap, this`held, this`asked, this`mem, this`firstAllocLength, this`firstReqLength,
               region`areas, region`freeCnt, region`freeSize, region`shape, region`order, region.rb, region.fl
      ensures Valid() && (r == Ok <==> old(inited) && address in old(held))
      ensures !old(inited) <==> r == NotInitialized
      ensures r == InvalidParam <==> old(inited) && address == 0
      ensures r != Ok ==> Blocks() == old(Blocks()) && held == old(held)
      ensures DataKept(old(mem), mem, held, if alignAddress then held else asked)
      ensures r == Ok ==>
                && held == old(held) - {address} && k <= |old(Blocks())|
                && Blocks() == Joined(old(Blocks())[..k], Block(address, old(held)[address]), old(Blocks())[k..])
    {
      hide MemoryRegion.Valid, MemoryRegion.Free, BooksOk, Joined, DataKept;
      NoWrite(mem, held, if alignAddress then held else asked);
      k := 0;
      if !inited {
        return NotInitialized, 0;
      }
      HeldInside();
      if address == 0 {
        return InvalidParam, 0;
      }
      if address < mrAddress || address > mrAddress + mrSize {
        return Error, 0;
      }
      if alignAddress {
        r, k := RegionFreeWithMap(address);
      } else {
        r, k := RegionFree(address);
      }
    }

    /** The size asked for, from the first block's own record or from the header. */
    method GetSizeByAddressNoAlign(start: nat) returns (r: NResult, length: nat)
      requires Valid() && inited && !alignAddress
      requires mrAddress < start < mrAddress + mrSize ==> start in held
      ensures r == Ok <==> start in held
      ensures r == Ok ==> length == asked[start]
    {
      hide MemoryRegion.Valid, MemoryRegion.Free, UnalignedOk, Intact, FromLittle, Load, Reserve;
      HeldInside();
      if start in held {
        UnalignedReturns(mem, region.Free(), held, asked, firstAllocLength, firstReqLength,
                         region.freeSize, region.lo, region.hi, minBlockSize, start);
      }
      if start != mrAddress {
        if start < META {
          return Error, 0;
        }
        if start < mrAddress || start >= mrAddress + mrSize {
          return Error, 0;
        }
        ReadHeader(mem, start, asked[start], minBlockSize);
        return Ok, FromLittle(Load(mem, start - 8, 8));
      }
      NotFirst(mem, region.Free(), held, asked, firstAllocLength, firstReqLength,
               region.freeSize, region.lo, region.hi, minBlockSize);
      if firstReqLength == 0 {
        return Error, 0;
      }
      return Ok, firstReqLength;
    }

    /** The length of a block, from the map. */
    method GetSizeByAddressAlign(start: nat) returns (r: NResult, length: nat)
      requires Valid() && alignAddress
      ensures r == Ok <==> start in held
      ensures r == Ok ==> length == held[start]
    {
      if start in addrLenMap {
        return Ok, addrLenMap[start];
      }
      return Error, 0;
    }

    /** A caller writes into its block: every header stays what it was. */
    method Write(x: nat, v: nat)
      requires Valid() && inited && !alignAddress && MayWrite(Blocks(), held, asked, x) && x in mem
      modifies this`mem
      ensures Valid() && mem == old(mem)[x := v]
    {
      hide MemoryRegion.Valid, MemoryRegion.Free, Guarded, MayWrite, Total;
      GuardedWrite(mem, Blocks(), held, asked, region.lo, region.hi, minBlockSize, x, v);
      mem := mem[x := v];
    }
  }

  lemma NoStarts(bs: seq<Block>)
    ensures Starts(bs) == {} <==> bs == []
  {
    if bs != [] { assert bs[0].start in Starts(bs); }
  }

  /** A size whose rounding up is nothing: 0, or so large that the rounding wraps around. */
  predicate RoundsToNothing(size: nat, unit: nat) {
    size == 0 || size + unit > WORD64
  }

  lemma RoundsExactly(size: nat, unit: nat)
    requires 0 < unit <= 0x4000_0000 && size < WORD64
    ensures Multiple(RoundUp(size, unit), unit) && (RoundUp(size, unit) == 0 <==> RoundsToNothing(size, unit))
    ensures !RoundsToNothing(size, unit) ==> size <= RoundUp(size, unit) < size + unit
  {
    if RoundsToNothing(size, unit) {
      var x := (size + unit - 1) % 0x1_0000_0000_0000_0000;
      assert x < unit;
      QuotientUnique(x, unit, 0, x);
      ZeroMultiple(unit);
    } else {
      RoundedUp(size, unit);
    }
  }

  lemma SameLow4(lo: nat, a: nat)
    requires lo <= a && Multiple(a - lo, 4)
    ensures Low4(a) == Low4(lo)
  {
  }

  /** Every area starts a whole number of four bytes behind the start of the range. */
  lemma AreaInRange(aligned: bool, addrLenMap: Held, mem: Bytes, bs: seq<Block>, held: Held, asked: Asked,
                    first: nat, firstReq: nat, freeSize: nat, lo: nat, hi: nat, unit: nat, i: nat)
    requires BooksOk(aligned, addrLenMap, mem, bs, held, asked, first, firstReq, freeSize, lo, hi, unit) && i < |bs|
    requires IsBlockSize(unit)
    ensures lo <= bs[i].start < hi && Multiple(bs[i].start - lo, 4)
  {
    BlockSizeFacts(unit);
    hide IsBlockSize, Multiple, Reserve, Intact, Mapped;
    assert bs[i].len > 0;
    CoveredHere(bs, i, bs[i].start);
    if aligned {
      assert OnGrid(bs[i], lo, hi, unit);
      MultipleOfMultiple(bs[i].start - lo, unit, 4);
    }
  }

  lemma ServesNothing(bs: seq<Block>)
    ensures Serves(bs, 0) <==> bs != []
  {
    if bs != [] { assert bs[0].len >= 0; }
  }

  /** The bytes set aside for a request with headers, in 64-bit arithmetic. */
  function SetAside(size: nat, unit: nat): (n: nat)
    requires unit > 0
  {
    RoundUp(size, unit) + if (RoundUp(size, unit) - size) % 0x1_0000_0000_0000_0000 < META then META else 0
  }

  /** With headers, what is set aside holds the node of a block that comes back exactly if the size does not round up to nothing. */
  lemma NodeComesBack(size: nat, unit: nat)
    requires 4096 <= unit <= 0x4000_0000 && size < WORD64
    ensures SetAside(size, unit) >= NODE_SIZE <==> !RoundsToNothing(size, unit)
    ensures SetAside(size, unit) == if !RoundsToNothing(size, unit) then Reserve(size, unit) else if size == 0 || size > WORD64 - 16 then 16 else 0
  {
    hide RoundUp;
    RoundsExactly(size, unit);
    if !RoundsToNothing(size, unit) {
      MultipleLong(RoundUp(size, unit), unit);
    }
  }

  /** With headers a request for nothing sets 16 bytes aside, and the node written when they come back has 72. */
  lemma SixteenForNothing()
    ensures SetAside(0, 4096) == 16 < NODE_SIZE
  {
  }

  lemma BlockSizeFacts(n: nat)
    requires IsBlockSize(n)
    ensures 4096 <= n <= 0x4000_0000 && Multiple(n, 4)
  {
    Pow2Halves(n);
    Pow2Halves(n / 2);
  }

  /** The start of an area that stays free is not held. */
  lemma AlignedNothing(bs: seq<Block>, held: Held, freeSize: nat, lo: nat, hi: nat, unit: nat, k: nat)
    requires AlignedOk(bs, held, freeSize, lo, hi, unit) && k < |bs|
    ensures bs[k].start !in held && Taken(bs, k, 0, bs[k].len == 0) == bs
  {
    hide Gridded, Multiple;
    assert bs[k].len > 0;
    TakenNothing(bs, k);
    if bs[k].start in held {
      HeldHere(held, bs[k].start, bs[k].start);
      CoveredHere(bs, k, bs[k].start);
    }
  }

  lemma MappedStill(mem: Bytes, mem': Bytes, nodes: set<nat>, a: nat, n: nat)
    requires Rewritten(mem, mem', nodes)
    ensures Mapped(mem, a, n) ==> Mapped(mem', a, n)
  {
  }

  lemma Pow2Page()
    ensures IsBlockSize(4096)
  {
    assert Pow2(6) == 64;
    assert 4096 == Pow2(12);
  }

  lemma NoWrite(mem: Bytes, held: Held, asked: Asked)
    ensures DataKept(mem, mem, held, asked)
  {
  }

  /** Only a block that starts the range has a length on record as the first block. */
  lemma NotFirst(mem: Bytes, bs: seq<Block>, held: Held, asked: Asked, first: nat, firstReq: nat,
                 freeSize: nat, lo: nat, hi: nat, unit: nat)
    requires UnalignedOk(mem, bs, held, asked, first, firstReq, freeSize, lo, hi, unit)
    ensures first == 0 <==> lo !in held
    ensures firstReq == 0 <==> lo !in held
  {
    if lo in held { assert Roomy(held[lo], asked[lo], hi - lo, unit); }
  }

  lemma FirstUnmarked(mem: Bytes, start: nat, size: nat, unit: nat)
    requires unit > 0
    ensures Marked(mem, start, start, size, unit) == mem
  {
  }

  /** The three fields the code writes are the header. */
  lemma MarkedIs(mem: Bytes, start: nat, lo: nat, length: nat, delta: nat, unit: nat)
    requires unit > 0 && delta < length && length == RoundUp(length - delta, unit) && start != lo && start >= META
    ensures Marked(mem, start, lo, length - delta, unit)
         == Store(mem, start - META, Canary(delta < META) + Little((length / unit) % 0x1_0000_0000, 4) + Little(length - delta, 8))
  {
    hide RoundUp, Little, Store;
  }

  lemma JoinedEmpty(b: Block)
    ensures forall bs: seq<Block>, k: nat | bs == [] && k <= |bs| :: Joined(bs[..k], b, bs[k..]) == [b]
  {
  }
}
